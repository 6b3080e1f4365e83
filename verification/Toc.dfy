/** The table of contents: encoder, decoder and the exact relation between them. */
module Toc {
  import opened Prelude
  import opened Bits
  import opened Wire
  import opened Path

  const CHUNK_FLAG_LZ4: nat := 1

  // ---- encoding --------------------------------------------------------------------

  /** One entry record followed by its stored path. */
  function EntryBytes(e: TocEntry, stored: bytes): bytes {
    LE(e.pathHash, 8) + (LE(e.originalSize, 8) + (LE(e.storedSize, 8)
      + (LE(e.firstChunk, 4) + (LE(e.chunkCount, 4)
      + (LE(|stored|, 2) + (LE(0, 2) + stored))))))
  }

  function FlagOf(c: Chunk): nat {
    if c.compressed then 1 else 0
  }

  function ChunkBytes(c: Chunk): bytes {
    LE(c.offset, 8) + (LE(c.storedSize, 8) + (LE(c.originalSize, 8)
      + (LE(c.checksum, 8) + (LE(FlagOf(c), 2) + LE(0, 2)))))
  }

  function EntriesBytes(entries: seq<TocEntry>, stored: seq<bytes>): bytes
    requires |entries| == |stored|
  {
    if entries == [] then []
    else EntryBytes(entries[0], stored[0]) + EntriesBytes(entries[1..], stored[1..])
  }

  function ChunksBytes(chunks: seq<Chunk>): bytes {
    if chunks == [] then [] else ChunkBytes(chunks[0]) + ChunksBytes(chunks[1..])
  }

  function PathsOf(entries: seq<TocEntry>): (p: seq<bytes>)
    ensures |p| == |entries|
  {
    seq(|entries|, i requires 0 <= i < |entries| => entries[i].path)
  }

  /** A TOC whose entries carry the given stored paths. */
  function TocImage(entries: seq<TocEntry>, stored: seq<bytes>, chunks: seq<Chunk>): bytes
    requires |entries| == |stored|
  {
    TOC_MAGIC + EntriesBytes(entries, stored) + ChunksBytes(chunks)
  }

  function PathBytesTotal(stored: seq<bytes>): nat {
    if stored == [] then 0 else |stored[0]| + PathBytesTotal(stored[1..])
  }

  function TocLength(stored: seq<bytes>, chunks: seq<Chunk>): nat {
    4 + 36 * (|stored| + |chunks|) + PathBytesTotal(stored)
  }

  /** The encoder: refuses long paths and large tables, otherwise writes the image. */
  function EncodedToc(entries: seq<TocEntry>, chunks: seq<Chunk>): Result<bytes> {
    if exists e :: e in entries && |e.path| > MAX_PATH_LEN then Err(TooLarge(PathLength))
    else if TocLength(PathsOf(entries), chunks) > MAX_TOC_RAW_SIZE then Err(TooLarge(RawToc))
    else Ok(TocImage(entries, PathsOf(entries), chunks))
  }

  lemma {:induction false} EntriesSnoc(entries: seq<TocEntry>, stored: seq<bytes>, e: TocEntry, p: bytes)
    requires |entries| == |stored|
    ensures EntriesBytes(entries + [e], stored + [p]) == EntriesBytes(entries, stored) + EntryBytes(e, p)
    ensures PathBytesTotal(stored + [p]) == PathBytesTotal(stored) + |p|
  {
    if entries != [] {
      EntriesSnoc(entries[1..], stored[1..], e, p);
      assert (entries + [e])[1..] == entries[1..] + [e];
      assert (stored + [p])[1..] == stored[1..] + [p];
    }
  }

  lemma {:induction false} ChunksSnoc(chunks: seq<Chunk>, c: Chunk)
    ensures ChunksBytes(chunks + [c]) == ChunksBytes(chunks) + ChunkBytes(c)
  {
    if chunks != [] {
      ChunksSnoc(chunks[1..], c);
      assert (chunks + [c])[1..] == chunks[1..] + [c];
    }
  }

  lemma EntriesStep(entries: seq<TocEntry>, i: nat)
    requires i < |entries|
    ensures EntriesBytes(entries[..i + 1], PathsOf(entries[..i + 1])) ==
            EntriesBytes(entries[..i], PathsOf(entries[..i])) + EntryBytes(entries[i], entries[i].path)
    ensures PathBytesTotal(PathsOf(entries[..i + 1])) ==
            PathBytesTotal(PathsOf(entries[..i])) + |entries[i].path|
  {
    assert entries[..i + 1] == entries[..i] + [entries[i]];
    assert PathsOf(entries[..i + 1]) == PathsOf(entries[..i]) + [entries[i].path];
    EntriesSnoc(entries[..i], PathsOf(entries[..i]), entries[i], entries[i].path);
  }

  lemma NothingToEncode()
    ensures EntriesBytes([], PathsOf([])) == [] && ChunksBytes([]) == []
  {
  }

  method EncodeToc(entries: seq<TocEntry>, chunks: seq<Chunk>) returns (r: Result<bytes>)
    ensures r == EncodedToc(entries, chunks)
  {
    hide EntryBytes, ChunkBytes, EntriesBytes, ChunksBytes;
    var size := 4;
    for i := 0 to |entries|
      invariant forall e :: e in entries[..i] ==> |e.path| <= MAX_PATH_LEN
      invariant size == 4 + 36 * i + PathBytesTotal(PathsOf(entries[..i]))
    {
      if |entries[i].path| > MAX_PATH_LEN {
        assert entries[i] in entries;
        return Err(TooLarge(PathLength));
      }
      EntriesStep(entries, i);
      assert entries[..i + 1] == entries[..i] + [entries[i]];
      size := size + TOC_ENTRY_FIXED_SIZE + |entries[i].path|;
    }
    assert entries[..|entries|] == entries;
    size := size + |chunks| * TOC_CHUNK_FIXED_SIZE;
    if size > MAX_TOC_RAW_SIZE {
      return Err(TooLarge(RawToc));
    }
    NothingToEncode();
    var out := TOC_MAGIC;
    assert entries[..0] == [] && chunks[..0] == [];
    for i := 0 to |entries|
      invariant out == TOC_MAGIC + EntriesBytes(entries[..i], PathsOf(entries[..i]))
    {
      EntriesStep(entries, i);
      out := out + EntryBytes(entries[i], entries[i].path);
    }
    ghost var head := out;
    for i := 0 to |chunks|
      invariant out == head + ChunksBytes(chunks[..i])
    {
      assert chunks[..i + 1] == chunks[..i] + [chunks[i]];
      ChunksSnoc(chunks[..i], chunks[i]);
      out := out + ChunkBytes(chunks[i]);
    }
    assert chunks[..|chunks|] == chunks;
    r := Ok(out);
  }

  // ---- decoding --------------------------------------------------------------------

  datatype TocRules = TocRules(
    stripped: bool, maxPathBytes: nat, maxTotalPathBytes: u64, maxSingleAsset: u64)

  /** The path an entry gets from the bytes stored for it. */
  function DecodedPath(env: Env, stripped: bool, stored: bytes, hash: u64): Result<bytes> {
    if stripped then
      if stored == [] then Ok([]) else Err(Corrupt(ProductionPath))
    else if stored == [] then Err(Corrupt(DebugPathEmpty))
    else if !IsUtf8(stored) then Err(Corrupt(PathNotUtf8))
    else
      var path :- Normalize(stored);
      if env.xxh3(path) != hash then Err(Corrupt(PathHashMismatch)) else Ok(path)
  }

  /** The limits an entry record must respect before its path is looked at. */
  function EntryLimits(rules: TocRules, originalSize: u64, pathLen: u16, reserved: u16, total: u64)
    : Result<u64>
  {
    if originalSize > rules.maxSingleAsset then Err(AssetTooLarge)
    else if reserved != 0 then Err(Corrupt(EntryReserved))
    else if pathLen > rules.maxPathBytes then Err(TooLarge(PathLength))
    else if total + pathLen >= POW64 then Err(TooLarge(TotalPathBytes))
    else if total + pathLen > rules.maxTotalPathBytes then Err(MetadataLimitExceeded)
    else Ok(total + pathLen)
  }

  /** One decoded entry, with the path bytes it was stored with. */
  datatype ParsedEntry = ParsedEntry(entry: TocEntry, stored: bytes, total: u64)

  function EntryAt(env: Env, rules: TocRules, data: bytes, pos: nat, total: u64): Result<ParsedEntry> {
    FieldWidths();
    var pathHash :- NumberAt(data, pos, 8);
    var originalSize :- NumberAt(data, pos + 8, 8);
    var storedSize :- NumberAt(data, pos + 16, 8);
    var firstChunk :- NumberAt(data, pos + 24, 4);
    var chunkCount :- NumberAt(data, pos + 28, 4);
    var pathLen :- NumberAt(data, pos + 32, 2);
    var reserved :- NumberAt(data, pos + 34, 2);
    var newTotal :- EntryLimits(rules, originalSize, pathLen, reserved, total);
    var stored :- TakeAt(data, pos + 36, pathLen);
    var path :- DecodedPath(env, rules.stripped, stored, pathHash);
    Ok(ParsedEntry(TocEntry(path, pathHash, originalSize, storedSize, firstChunk, chunkCount),
                   stored, newTotal))
  }

  function ChunkAt(data: bytes, pos: nat): Result<Chunk> {
    FieldWidths();
    var offset :- NumberAt(data, pos, 8);
    var storedSize :- NumberAt(data, pos + 8, 8);
    var originalSize :- NumberAt(data, pos + 16, 8);
    var checksum :- NumberAt(data, pos + 24, 8);
    var flags :- NumberAt(data, pos + 32, 2);
    var reserved :- NumberAt(data, pos + 34, 2);
    if flags > 1 then Err(Corrupt(ChunkFlags))
    else if reserved != 0 then Err(Corrupt(ChunkReserved))
    else Ok(Chunk(offset, storedSize, originalSize, checksum, flags == 1))
  }

  /** `n` more entries from `pos` on, after the ones already parsed. */
  function EntriesFrom(env: Env, rules: TocRules, data: bytes, pos: nat, n: nat, total: u64,
                       acc: seq<TocEntry>): Result<(seq<TocEntry>, nat)>
    decreases n
  {
    if n == 0 then Ok((acc, pos))
    else
      var p :- EntryAt(env, rules, data, pos, total);
      EntriesFrom(env, rules, data, pos + 36 + |p.stored|, n - 1, p.total, acc + [p.entry])
  }

  function ChunksFrom(data: bytes, pos: nat, n: nat, acc: seq<Chunk>): Result<(seq<Chunk>, nat)>
    decreases n
  {
    if n == 0 then Ok((acc, pos))
    else
      var c :- ChunkAt(data, pos);
      ChunksFrom(data, pos + 36, n - 1, acc + [c])
  }

  /** The decoder, stated without a cursor. */
  function DecodedToc(env: Env, data: bytes, entryCount: u32, chunkCount: u32, rules: TocRules)
    : Result<(seq<TocEntry>, seq<Chunk>)>
  {
    var magic :- TakeAt(data, 0, 4);
    if magic != TOC_MAGIC then Err(BadTocMagic)
    else if 4 + 36 * entryCount + 36 * chunkCount > |data| then Err(Corrupt(TocCountsExceedSize))
    else
      var entries :- EntriesFrom(env, rules, data, 4, entryCount, 0, []);
      var chunks :- ChunksFrom(data, entries.1, chunkCount, []);
      if chunks.1 != |data| then Err(Corrupt(TrailingToc))
      else Ok((entries.0, chunks.0))
  }

  method DecodeEntry(env: Env, rules: TocRules, cursor: Cursor, total: u64)
    returns (r: Result<ParsedEntry>)
    requires cursor.Valid()
    modifies cursor
    ensures cursor.Valid()
    ensures r == EntryAt(env, rules, cursor.data, old(cursor.pos), total)
    ensures r.Ok? ==> cursor.pos == old(cursor.pos) + 36 + |r.value.stored|
  {
    hide NumberAt, TakeAt, DecodedPath;
    var pathHash :- cursor.U64();
    var originalSize :- cursor.U64();
    var storedSize :- cursor.U64();
    var firstChunk :- cursor.U32();
    var chunkCount :- cursor.U32();
    var pathLen :- cursor.U16();
    var reserved :- cursor.U16();
    if originalSize > rules.maxSingleAsset {
      return Err(AssetTooLarge);
    }
    if reserved != 0 {
      return Err(Corrupt(EntryReserved));
    }
    if pathLen > rules.maxPathBytes {
      return Err(TooLarge(PathLength));
    }
    if total + pathLen >= POW64 {
      return Err(TooLarge(TotalPathBytes));
    }
    var newTotal := total + pathLen;
    if newTotal > rules.maxTotalPathBytes {
      return Err(MetadataLimitExceeded);
    }
    var stored :- cursor.Take(pathLen);
    var path :- DecodePath(env, rules.stripped, stored, pathHash);
    r := Ok(ParsedEntry(TocEntry(path, pathHash, originalSize, storedSize, firstChunk, chunkCount),
                        stored, newTotal));
  }

  method DecodePath(env: Env, stripped: bool, stored: bytes, hash: u64) returns (r: Result<bytes>)
    ensures r == DecodedPath(env, stripped, stored, hash)
  {
    match (stripped, |stored| == 0)
    case (true, true) => r := Ok([]);
    case (true, false) => r := Err(Corrupt(ProductionPath));
    case (false, true) => r := Err(Corrupt(DebugPathEmpty));
    case (false, false) =>
      if !IsUtf8(stored) {
        return Err(Corrupt(PathNotUtf8));
      }
      var path :- NormalizePath(stored);
      if env.xxh3(path) != hash {
        return Err(Corrupt(PathHashMismatch));
      }
      r := Ok(path);
  }

  lemma ChunkFlagBits(flags: u16)
    ensures BitAnd(flags, 0xFFFF - CHUNK_FLAG_LZ4) == 0 <==> flags <= 1
    ensures BitAnd(flags, CHUNK_FLAG_LZ4) == flags % 2
  {
    PowersMultiply(8, 8);
    ClearLowBits(flags, 1, 16);
  }

  method DecodeChunk(cursor: Cursor) returns (r: Result<Chunk>)
    requires cursor.Valid()
    modifies cursor
    ensures cursor.Valid()
    ensures r == ChunkAt(cursor.data, old(cursor.pos))
    ensures r.Ok? ==> cursor.pos == old(cursor.pos) + 36
  {
    hide NumberAt;
    var offset :- cursor.U64();
    var storedSize :- cursor.U64();
    var originalSize :- cursor.U64();
    var checksum :- cursor.U64();
    var flags :- cursor.U16();
    var reserved :- cursor.U16();
    ChunkFlagBits(flags);
    if BitAnd(flags, 0xFFFF - CHUNK_FLAG_LZ4) != 0 {
      return Err(Corrupt(ChunkFlags));
    }
    if reserved != 0 {
      return Err(Corrupt(ChunkReserved));
    }
    r := Ok(Chunk(offset, storedSize, originalSize, checksum, BitAnd(flags, CHUNK_FLAG_LZ4) != 0));
  }

  method DecodeToc(env: Env, data: bytes, entryCount: u32, chunkCount: u32, rules: TocRules)
    returns (r: Result<(seq<TocEntry>, seq<Chunk>)>)
    requires |data| <= MAX_SLICE
    ensures r == DecodedToc(env, data, entryCount, chunkCount, rules)
  {
    hide EntryAt, ChunkAt;
    var cursor := new Cursor(data);
    var magic :- cursor.Take(4);
    if magic != TOC_MAGIC {
      return Err(BadTocMagic);
    }
    if entryCount * TOC_ENTRY_FIXED_SIZE + chunkCount * TOC_CHUNK_FIXED_SIZE + 4 > |data| {
      return Err(Corrupt(TocCountsExceedSize));
    }
    var entries: seq<TocEntry> := [];
    var total: u64 := 0;
    for i := 0 to entryCount
      invariant cursor.Valid() && fresh(cursor)
      invariant EntriesFrom(env, rules, data, 4, entryCount, 0, []) ==
                EntriesFrom(env, rules, data, cursor.pos, entryCount - i, total, entries)
    {
      var p :- DecodeEntry(env, rules, cursor, total);
      entries := entries + [p.entry];
      total := p.total;
    }
    ghost var start := cursor.pos;
    var chunks: seq<Chunk> := [];
    for i := 0 to chunkCount
      invariant cursor.Valid() && fresh(cursor)
      invariant ChunksFrom(data, start, chunkCount, []) ==
                ChunksFrom(data, cursor.pos, chunkCount - i, chunks)
    {
      var c :- DecodeChunk(cursor);
      chunks := chunks + [c];
    }
    if !cursor.IsEmpty() {
      return Err(Corrupt(TrailingToc));
    }
    r := Ok((entries, chunks));
  }

  // ---- the codec relation ----------------------------------------------------------

  /** The bytes of a record are stored exactly when every field reads back. */
  lemma EntryFields(data: bytes, pos: nat, e: TocEntry, stored: bytes)
    requires |stored| < POW16
    ensures HasAt(data, pos, EntryBytes(e, stored)) <==>
            && NumberAt(data, pos, 8) == Ok(e.pathHash)
            && NumberAt(data, pos + 8, 8) == Ok(e.originalSize)
            && NumberAt(data, pos + 16, 8) == Ok(e.storedSize)
            && NumberAt(data, pos + 24, 4) == Ok(e.firstChunk)
            && NumberAt(data, pos + 28, 4) == Ok(e.chunkCount)
            && NumberAt(data, pos + 32, 2) == Ok(|stored|)
            && NumberAt(data, pos + 34, 2) == Ok(0)
            && HasAt(data, pos + 36, stored)
  {
    hide LE, HasAt, NumberAt;
    FieldWidths();
    var t6 := LE(0, 2) + stored;
    var t5 := LE(|stored|, 2) + t6;
    var t4 := LE(e.chunkCount, 4) + t5;
    var t3 := LE(e.firstChunk, 4) + t4;
    var t2 := LE(e.storedSize, 8) + t3;
    var t1 := LE(e.originalSize, 8) + t2;
    HasAtConcat(data, pos, LE(e.pathHash, 8), t1);
    HasAtConcat(data, pos + 8, LE(e.originalSize, 8), t2);
    HasAtConcat(data, pos + 16, LE(e.storedSize, 8), t3);
    HasAtConcat(data, pos + 24, LE(e.firstChunk, 4), t4);
    HasAtConcat(data, pos + 28, LE(e.chunkCount, 4), t5);
    HasAtConcat(data, pos + 32, LE(|stored|, 2), t6);
    HasAtConcat(data, pos + 34, LE(0, 2), stored);
    NumberIsStored(data, pos, e.pathHash, 8);
    NumberIsStored(data, pos + 8, e.originalSize, 8);
    NumberIsStored(data, pos + 16, e.storedSize, 8);
    NumberIsStored(data, pos + 24, e.firstChunk, 4);
    NumberIsStored(data, pos + 28, e.chunkCount, 4);
    NumberIsStored(data, pos + 32, |stored|, 2);
    NumberIsStored(data, pos + 34, 0, 2);
  }

  /** A chunk record decodes to a chunk exactly where the encoder would have put it. */
  lemma ChunkAtExactly(data: bytes, pos: nat, c: Chunk)
    ensures ChunkAt(data, pos) == Ok(c) <==> HasAt(data, pos, ChunkBytes(c))
    ensures |ChunkBytes(c)| == 36
  {
    hide LE, HasAt, NumberAt;
    FieldWidths();
    var t4 := LE(FlagOf(c), 2) + LE(0, 2);
    var t3 := LE(c.checksum, 8) + t4;
    var t2 := LE(c.originalSize, 8) + t3;
    var t1 := LE(c.storedSize, 8) + t2;
    HasAtConcat(data, pos, LE(c.offset, 8), t1);
    HasAtConcat(data, pos + 8, LE(c.storedSize, 8), t2);
    HasAtConcat(data, pos + 16, LE(c.originalSize, 8), t3);
    HasAtConcat(data, pos + 24, LE(c.checksum, 8), t4);
    HasAtConcat(data, pos + 32, LE(FlagOf(c), 2), LE(0, 2));
    NumberIsStored(data, pos, c.offset, 8);
    NumberIsStored(data, pos + 8, c.storedSize, 8);
    NumberIsStored(data, pos + 16, c.originalSize, 8);
    NumberIsStored(data, pos + 24, c.checksum, 8);
    NumberIsStored(data, pos + 32, FlagOf(c), 2);
    NumberIsStored(data, pos + 34, 0, 2);
  }

  /** How a path may be stored: not at all when paths are stripped, otherwise as any text with
      that normal form, under its hash. */
  ghost predicate PathStored(env: Env, stripped: bool, path: bytes, hash: u64, stored: bytes) {
    if stripped then stored == [] && path == []
    else stored != [] && IsUtf8(stored) && Normalize(stored) == Ok(path) && env.xxh3(path) == hash
  }

  lemma DecodedPathExactly(env: Env, stripped: bool, stored: bytes, hash: u64, path: bytes)
    ensures DecodedPath(env, stripped, stored, hash) == Ok(path) <==> PathStored(env, stripped, path, hash, stored)
  {
    hide Acceptable, Join, Kept, Split, IsUtf8;
  }

  ghost predicate EntryAccepted(env: Env, rules: TocRules, e: TocEntry, stored: bytes) {
    && e.originalSize <= rules.maxSingleAsset
    && |stored| < POW16 && |stored| <= rules.maxPathBytes
    && PathStored(env, rules.stripped, e.path, e.pathHash, stored)
  }

  /** What the decoder demands of a table and the paths it is stored with. */
  ghost predicate TableAccepted(env: Env, rules: TocRules, entries: seq<TocEntry>,
                                stored: seq<bytes>, total: nat)
  {
    && |stored| == |entries|
    && (forall i :: 0 <= i < |entries| ==> EntryAccepted(env, rules, entries[i], stored[i]))
    && total + PathBytesTotal(stored) <= rules.maxTotalPathBytes
  }

  lemma AcceptedLength(env: Env, rules: TocRules, e: TocEntry, stored: bytes)
    requires EntryAccepted(env, rules, e, stored)
    ensures |stored| < POW16
  {
  }

  lemma EntryLength(e: TocEntry, stored: bytes)
    ensures |EntryBytes(e, stored)| == 36 + |stored|
  {
  }

  lemma EntryAtExactly(env: Env, rules: TocRules, data: bytes, pos: nat, total: u64,
                       e: TocEntry, stored: bytes)
    requires |stored| < POW16
    ensures EntryAt(env, rules, data, pos, total).Ok?
              && EntryAt(env, rules, data, pos, total).value.entry == e
              && EntryAt(env, rules, data, pos, total).value.stored == stored
            <==> HasAt(data, pos, EntryBytes(e, stored)) && EntryAccepted(env, rules, e, stored)
                 && total + |stored| <= rules.maxTotalPathBytes
    ensures EntryAt(env, rules, data, pos, total).Ok? ==>
              var p := EntryAt(env, rules, data, pos, total).value;
              |p.stored| < POW16 && p.total == total + |p.stored|
  {
    hide NumberAt, EntryBytes, DecodedPath, PathStored;
    FieldWidths();
    DecodedPathExactly(env, rules.stripped, stored, e.pathHash, e.path);
    EntryFields(data, pos, e, stored);
  }

  lemma TableTail(env: Env, rules: TocRules, entries: seq<TocEntry>, stored: seq<bytes>, total: nat)
    requires entries != [] && TableAccepted(env, rules, entries, stored, total)
    ensures EntryAccepted(env, rules, entries[0], stored[0])
    ensures total + |stored[0]| <= rules.maxTotalPathBytes
    ensures TableAccepted(env, rules, entries[1..], stored[1..], total + |stored[0]|)
  {
    hide EntryAccepted;
  }

  lemma TableCons(env: Env, rules: TocRules, e: TocEntry, p: bytes, entries: seq<TocEntry>,
                  stored: seq<bytes>, total: nat)
    requires EntryAccepted(env, rules, e, p)
    requires TableAccepted(env, rules, entries, stored, total + |p|)
    ensures TableAccepted(env, rules, [e] + entries, [p] + stored, total)
  {
    hide EntryAccepted;
    assert ([p] + stored)[1..] == stored;
  }

  lemma NoTable(env: Env, rules: TocRules, total: nat)
    requires total <= rules.maxTotalPathBytes
    ensures TableAccepted(env, rules, [], [], total)
  {
  }

  lemma {:induction false} EntriesEncodeDecode(env: Env, rules: TocRules, data: bytes, pos: nat,
                                               total: u64, acc: seq<TocEntry>,
                                               entries: seq<TocEntry>, stored: seq<bytes>)
    requires |entries| == |stored| && TableAccepted(env, rules, entries, stored, total)
    requires HasAt(data, pos, EntriesBytes(entries, stored))
    ensures EntriesFrom(env, rules, data, pos, |entries|, total, acc) ==
            Ok((acc + entries, pos + |EntriesBytes(entries, stored)|))
    decreases |entries|
  {
    hide EntryAt, EntryBytes, TableAccepted, EntryAccepted;
    if entries == [] {
      assert acc + entries == acc;
    } else {
      TableTail(env, rules, entries, stored, total);
      var e, p := entries[0], stored[0];
      HasAtConcat(data, pos, EntryBytes(e, p), EntriesBytes(entries[1..], stored[1..]));
      assert |p| < POW16 by { AcceptedLength(env, rules, e, p); }
      EntryAtExactly(env, rules, data, pos, total, e, p);
      EntryLength(e, p);
      EntriesEncodeDecode(env, rules, data, pos + 36 + |p|, total + |p|, acc + [e],
                          entries[1..], stored[1..]);
      assert acc + [e] + entries[1..] == acc + entries;
    }
  }

  lemma {:induction false} EntriesDecodeEncode(env: Env, rules: TocRules, data: bytes, pos: nat,
                                               n: nat, total: u64, acc: seq<TocEntry>)
    returns (entries: seq<TocEntry>, stored: seq<bytes>)
    requires pos <= |data| && total <= rules.maxTotalPathBytes
    requires EntriesFrom(env, rules, data, pos, n, total, acc).Ok?
    ensures |entries| == |stored| == n && TableAccepted(env, rules, entries, stored, total)
    ensures HasAt(data, pos, EntriesBytes(entries, stored))
    ensures EntriesFrom(env, rules, data, pos, n, total, acc) ==
            Ok((acc + entries, pos + |EntriesBytes(entries, stored)|))
    decreases n
  {
    hide EntryAt, EntryBytes, TableAccepted, EntryAccepted, HasAt;
    if n == 0 {
      entries, stored := [], [];
      NoTable(env, rules, total);
      NothingAt(data, pos);
      assert acc + entries == acc;
    } else {
      var p := EntryAt(env, rules, data, pos, total).value;
      EntryAtExactly(env, rules, data, pos, total, p.entry, []);
      EntryAtExactly(env, rules, data, pos, total, p.entry, p.stored);
      RecordInside(data, pos, p.entry, p.stored);
      var e', s' := EntriesDecodeEncode(env, rules, data, pos + 36 + |p.stored|, n - 1,
                                        p.total, acc + [p.entry]);
      entries, stored := [p.entry] + e', [p.stored] + s';
      TableCons(env, rules, p.entry, p.stored, e', s', total);
      assert entries[1..] == e' && stored[1..] == s';
      HasAtConcat(data, pos, EntryBytes(p.entry, p.stored), EntriesBytes(e', s'));
      assert acc + [p.entry] + e' == acc + entries;
    }
  }

  lemma NothingAt(data: bytes, pos: nat)
    requires pos <= |data|
    ensures HasAt(data, pos, [])
  {
  }

  lemma RecordInside(data: bytes, pos: nat, e: TocEntry, stored: bytes)
    requires HasAt(data, pos, EntryBytes(e, stored))
    ensures pos + 36 + |stored| <= |data| && |EntryBytes(e, stored)| == 36 + |stored|
  {
    EntryLength(e, stored);
  }

  lemma {:induction false} ChunksEncodeDecode(data: bytes, pos: nat, acc: seq<Chunk>, chunks: seq<Chunk>)
    requires HasAt(data, pos, ChunksBytes(chunks))
    ensures ChunksFrom(data, pos, |chunks|, acc) == Ok((acc + chunks, pos + 36 * |chunks|))
    ensures |ChunksBytes(chunks)| == 36 * |chunks|
    decreases |chunks|
  {
    hide ChunkAt, ChunkBytes;
    if chunks == [] {
      assert acc + chunks == acc;
    } else {
      HasAtConcat(data, pos, ChunkBytes(chunks[0]), ChunksBytes(chunks[1..]));
      ChunkAtExactly(data, pos, chunks[0]);
      ChunksEncodeDecode(data, pos + 36, acc + [chunks[0]], chunks[1..]);
      assert acc + [chunks[0]] + chunks[1..] == acc + chunks;
    }
  }

  lemma {:induction false} ChunksDecodeEncode(data: bytes, pos: nat, n: nat, acc: seq<Chunk>)
    returns (chunks: seq<Chunk>)
    requires pos <= |data| && ChunksFrom(data, pos, n, acc).Ok?
    ensures |chunks| == n && HasAt(data, pos, ChunksBytes(chunks))
    ensures |ChunksBytes(chunks)| == 36 * n
    ensures ChunksFrom(data, pos, n, acc) == Ok((acc + chunks, pos + 36 * n))
    decreases n
  {
    hide ChunkAt, ChunkBytes;
    if n == 0 {
      chunks := [];
      assert acc + chunks == acc;
    } else {
      var c := ChunkAt(data, pos).value;
      ChunkAtExactly(data, pos, c);
      var rest := ChunksDecodeEncode(data, pos + 36, n - 1, acc + [c]);
      chunks := [c] + rest;
      assert chunks[1..] == rest;
      HasAtConcat(data, pos, ChunkBytes(c), ChunksBytes(rest));
      assert acc + [c] + rest == acc + chunks;
    }
  }

  lemma {:induction false} EntriesLength(entries: seq<TocEntry>, stored: seq<bytes>)
    requires |entries| == |stored|
    ensures |EntriesBytes(entries, stored)| == 36 * |entries| + PathBytesTotal(stored)
  {
    if entries != [] {
      EntryLength(entries[0], stored[0]);
      EntriesLength(entries[1..], stored[1..]);
    }
  }

  lemma {:induction false} ChunksLength(chunks: seq<Chunk>)
    ensures |ChunksBytes(chunks)| == 36 * |chunks|
  {
    if chunks != [] {
      ChunksLength(chunks[1..]);
      ChunkAtExactly([], 0, chunks[0]);
    }
  }

  /** The length formula both sides rely on. */
  lemma ImageLength(entries: seq<TocEntry>, stored: seq<bytes>, chunks: seq<Chunk>)
    requires |entries| == |stored|
    ensures |TocImage(entries, stored, chunks)| == TocLength(stored, chunks)
  {
    EntriesLength(entries, stored);
    ChunksLength(chunks);
  }

  lemma ImageParts(entries: seq<TocEntry>, stored: seq<bytes>, chunks: seq<Chunk>)
    requires |entries| == |stored|
    ensures var data := TocImage(entries, stored, chunks);
            && HasAt(data, 4, EntriesBytes(entries, stored))
            && HasAt(data, 4 + |EntriesBytes(entries, stored)|, ChunksBytes(chunks))
            && TakeAt(data, 0, 4) == Ok(TOC_MAGIC)
  {
    hide EntriesBytes, ChunksBytes;
    var data := TocImage(entries, stored, chunks);
    assert data == TOC_MAGIC + (EntriesBytes(entries, stored) + ChunksBytes(chunks));
    assert data[0..|data|] == data;
    HasAtConcat(data, 0, TOC_MAGIC, EntriesBytes(entries, stored) + ChunksBytes(chunks));
    HasAtConcat(data, 4, EntriesBytes(entries, stored), ChunksBytes(chunks));
  }

  /** Encoding then decoding: every accepted table comes back, and nothing else. */
  lemma DecodeOfImage(env: Env, rules: TocRules, entries: seq<TocEntry>, stored: seq<bytes>,
                      chunks: seq<Chunk>)
    requires TableAccepted(env, rules, entries, stored, 0)
    requires |entries| < POW32 && |chunks| < POW32
    ensures DecodedToc(env, TocImage(entries, stored, chunks), |entries|, |chunks|, rules) ==
            Ok((entries, chunks))
  {
    hide EntriesFrom, ChunksFrom, EntriesBytes, ChunksBytes, TocImage;
    var data := TocImage(entries, stored, chunks);
    ImageParts(entries, stored, chunks);
    ImageLength(entries, stored, chunks);
    EntriesLength(entries, stored);
    EntriesEncodeDecode(env, rules, data, 4, 0, [], entries, stored);
    ChunksEncodeDecode(data, 4 + |EntriesBytes(entries, stored)|, [], chunks);
    assert [] + entries == entries && [] + chunks == chunks;
  }

  /** Decoding accepts nothing but images: the input is consumed exactly, and it is what the
      encoder writes for the decoded table up to the spelling of the stored paths. */
  lemma DecodedInputIsImage(env: Env, rules: TocRules, data: bytes, entryCount: u32, chunkCount: u32)
    returns (stored: seq<bytes>)
    requires DecodedToc(env, data, entryCount, chunkCount, rules).Ok?
    ensures var (entries, chunks) := DecodedToc(env, data, entryCount, chunkCount, rules).value;
            && |entries| == entryCount && |chunks| == chunkCount
            && TableAccepted(env, rules, entries, stored, 0)
            && data == TocImage(entries, stored, chunks)
            && |data| == TocLength(stored, chunks)
  {
    hide EntriesFrom, ChunksFrom, EntriesBytes, ChunksBytes, TableAccepted;
    var entries, paths := EntriesDecodeEncode(env, rules, data, 4, entryCount, 0, []);
    stored := paths;
    var chunks := ChunksDecodeEncode(data, 4 + |EntriesBytes(entries, stored)|, chunkCount, []);
    assert [] + entries == entries && [] + chunks == chunks;
    ThreeParts(data, EntriesBytes(entries, stored), ChunksBytes(chunks));
    ImageLength(entries, stored, chunks);
  }

  lemma ThreeParts(data: bytes, a: bytes, b: bytes)
    requires |data| == 4 + |a| + |b| && data[..4] == TOC_MAGIC
    requires HasAt(data, 4, a) && HasAt(data, 4 + |a|, b)
    ensures data == TOC_MAGIC + a + b
  {
    assert data == data[..4] + data[4..4 + |a|] + data[4 + |a|..];
  }

  lemma {:induction false} NoLongerPaths(entries: seq<TocEntry>, stored: seq<bytes>)
    requires |entries| == |stored|
    requires forall i :: 0 <= i < |entries| ==> |entries[i].path| <= |stored[i]|
    ensures PathBytesTotal(PathsOf(entries)) <= PathBytesTotal(stored)
  {
    if entries != [] {
      NoLongerPaths(entries[1..], stored[1..]);
      assert PathsOf(entries)[1..] == PathsOf(entries[1..]);
    }
  }

  /** An accepted table stays accepted when its paths are stored in normal form. */
  lemma CanonicalPathsAccepted(env: Env, rules: TocRules, entries: seq<TocEntry>, stored: seq<bytes>)
    requires TableAccepted(env, rules, entries, stored, 0)
    ensures TableAccepted(env, rules, entries, PathsOf(entries), 0)
    ensures PathBytesTotal(PathsOf(entries)) <= PathBytesTotal(stored)
    ensures rules.stripped ==> PathsOf(entries) == stored
  {
    forall i | 0 <= i < |entries|
      ensures |entries[i].path| <= |stored[i]|
      ensures EntryAccepted(env, rules, entries[i], entries[i].path)
    {
      assert EntryAccepted(env, rules, entries[i], stored[i]);
      if !rules.stripped {
        NormalizedIsClean(stored[i]);
        NormalizeIdempotent(stored[i]);
        NormalizeKeepsUtf8(stored[i]);
      }
    }
    NoLongerPaths(entries, stored);
    if rules.stripped {
      assert forall i :: 0 <= i < |entries| ==> EntryAccepted(env, rules, entries[i], stored[i]);
    }
  }

  /** Records say how long their path is, so images determine the stored paths. */
  lemma {:induction false} StoredPathsAreUnique(entries: seq<TocEntry>, s1: seq<bytes>, s2: seq<bytes>)
    requires |s1| == |entries| == |s2|
    requires forall i :: 0 <= i < |entries| ==> |s1[i]| < POW16 && |s2[i]| < POW16
    requires EntriesBytes(entries, s1) == EntriesBytes(entries, s2)
    ensures s1 == s2
  {
    if entries != [] {
      hide EntryBytes;
      SameRecord(entries[0], s1[0], s2[0], EntriesBytes(entries[1..], s1[1..]), EntriesBytes(entries[1..], s2[1..]));
      StoredPathsAreUnique(entries[1..], s1[1..], s2[1..]);
      assert s1 == [s1[0]] + s1[1..] && s2 == [s2[0]] + s2[1..];
    }
  }

  lemma SameRecord(e: TocEntry, p: bytes, q: bytes, x: bytes, y: bytes)
    requires |p| < POW16 && |q| < POW16 && EntryBytes(e, p) + x == EntryBytes(e, q) + y
    ensures p == q && x == y
  {
    hide EntryBytes, NumberAt;
    var data := EntryBytes(e, p) + x;
    EntryPrefix(data, e, p, x);
    EntryPrefix(data, e, q, y);
    EntryLength(e, p);
    EntryLength(e, q);
    assert data[36 + |p|..] == x && data[36 + |q|..] == y;
  }

  lemma EntryPrefix(data: bytes, e: TocEntry, stored: bytes, rest: bytes)
    requires |stored| < POW16 && data == EntryBytes(e, stored) + rest
    ensures NumberAt(data, 32, 2) == Ok(|stored|) && HasAt(data, 36, stored)
  {
    hide EntryBytes, NumberAt;
    assert data[0..|data|] == data;
    HasAtConcat(data, 0, EntryBytes(e, stored), rest);
    EntryFields(data, 0, e, stored);
  }

  /** Re-encoding any decoded TOC decodes to the same tables and never grows. It gives back
      the input exactly when its paths were stored in normal form, as in every stripped TOC. */
  lemma ReencodeDecoded(env: Env, rules: TocRules, data: bytes, entryCount: u32, chunkCount: u32)
    returns (stored: seq<bytes>)
    requires DecodedToc(env, data, entryCount, chunkCount, rules).Ok?
    requires |data| <= MAX_TOC_RAW_SIZE
    ensures var t := DecodedToc(env, data, entryCount, chunkCount, rules).value;
            && TableAccepted(env, rules, t.0, stored, 0)
            && data == TocImage(t.0, stored, t.1)
            && EncodedToc(t.0, t.1).Ok?
            && DecodedToc(env, EncodedToc(t.0, t.1).value, entryCount, chunkCount, rules) == Ok(t)
            && |EncodedToc(t.0, t.1).value| <= |data|
            && (EncodedToc(t.0, t.1) == Ok(data) <==> stored == PathsOf(t.0))
            && (rules.stripped ==> EncodedToc(t.0, t.1) == Ok(data))
  {
    hide DecodedToc, PathsOf, PathStored, EntriesBytes, ChunksBytes, EntryAccepted;
    stored := DecodedInputIsImage(env, rules, data, entryCount, chunkCount);
    var (entries, chunks) := DecodedToc(env, data, entryCount, chunkCount, rules).value;
    CanonicalPathsAccepted(env, rules, entries, stored);
    ShortPaths(env, rules, entries, stored);
    ShortPaths(env, rules, entries, PathsOf(entries));
    forall e | e in entries
      ensures |e.path| <= MAX_PATH_LEN
    {
      var i :| 0 <= i < |entries| && entries[i] == e;
      PathAt(entries, i);
    }
    var paths := PathsOf(entries);
    ImageLength(entries, paths, chunks);
    DecodeOfImage(env, rules, entries, paths, chunks);
    if TocImage(entries, paths, chunks) == data {
      EntriesPart(entries, paths, chunks);
      EntriesPart(entries, stored, chunks);
      StoredPathsAreUnique(entries, stored, paths);
    }
  }

  /** "a/" is stored, "a" is decoded, so encoding again gives fewer bytes. */
  lemma RespelledToc(env: Env) returns (data: bytes, e: TocEntry)
    ensures e.path == [0x61]
    ensures DecodedToc(env, data, 1, 0, TocRules(false, MAX_PATH_LEN, POW64 - 1, POW64 - 1)) == Ok(([e], []))
    ensures EncodedToc([e], []).Ok? && |EncodedToc([e], []).value| < |data|
  {
    hide EntriesBytes, DecodedToc, Acceptable, Join, Kept, Split, IsUtf8, TocImage;
    var stored: bytes, name: bytes := [0x61, SLASH], [0x61];
    var none: seq<bytes> := [];
    e := TocEntry([0x61], env.xxh3([0x61]), 0, 0, 0, 0);
    data := TocImage([e], [stored], []);
    Respelled();
    assert EntryAccepted(env, TocRules(false, MAX_PATH_LEN, POW64 - 1, POW64 - 1), e, stored);
    assert [stored][1..] == none && [name][1..] == none && PathsOf([e]) == [name];
    assert PathBytesTotal([stored]) == 2 && PathBytesTotal([name]) == 1;
    DecodeOfImage(env, TocRules(false, MAX_PATH_LEN, POW64 - 1, POW64 - 1), [e], [stored], []);
    ImageLength([e], [stored], []);
    ImageLength([e], [name], []);
  }

  lemma Respelled()
    ensures Normalize([0x61, SLASH]) == Ok([0x61]) && IsUtf8([0x61, SLASH])
  {
    var s: bytes := [0x61, SLASH];
    var slash: bytes, name: bytes, none: bytes := [SLASH], [0x61], [];
    assert s[1..] == slash && slash[1..] == none;
    assert Split(slash) == [none] + Split(none) == [none, none];
    SplitBehind(name, slash);
    assert name + none == name && [none, none][1..] == [none];
    assert s == name + slash && Split(s) == [name, none];
    KeptConcat([name], [none]);
    assert Split(s) == [name] + [none] && [name][1..] == [] && [none][1..] == [];
    assert IsUtf8(slash) && IsUtf8(s);
  }

  lemma EntriesPart(entries: seq<TocEntry>, stored: seq<bytes>, chunks: seq<Chunk>)
    requires |entries| == |stored|
    ensures var data := TocImage(entries, stored, chunks);
            4 + 36 * |chunks| <= |data| && data[4..|data| - 36 * |chunks|] == EntriesBytes(entries, stored)
  {
    hide EntriesBytes, ChunksBytes;
    ChunksLength(chunks);
  }

  lemma ShortPaths(env: Env, rules: TocRules, entries: seq<TocEntry>, stored: seq<bytes>)
    requires TableAccepted(env, rules, entries, stored, 0)
    ensures forall i :: 0 <= i < |entries| ==> |stored[i]| < POW16
  {
    assert forall i :: 0 <= i < |entries| ==> EntryAccepted(env, rules, entries[i], stored[i]);
  }

  lemma PathAt(entries: seq<TocEntry>, i: nat)
    requires i < |entries|
    ensures PathsOf(entries)[i] == entries[i].path
  {
  }

  /** The limits decide whether a TOC is accepted, never what it decodes to. */
  lemma {:induction false} EntriesIgnoreLimits(env: Env, r1: TocRules, r2: TocRules, data: bytes, pos: nat,
                                               n: nat, total: u64, acc: seq<TocEntry>)
    requires r1.stripped == r2.stripped
    requires EntriesFrom(env, r1, data, pos, n, total, acc).Ok?
    requires EntriesFrom(env, r2, data, pos, n, total, acc).Ok?
    ensures EntriesFrom(env, r1, data, pos, n, total, acc) == EntriesFrom(env, r2, data, pos, n, total, acc)
    decreases n
  {
    hide EntryAt;
    if n > 0 {
      EntryIgnoresLimits(env, r1, r2, data, pos, total);
      var p := EntryAt(env, r1, data, pos, total).value;
      EntriesIgnoreLimits(env, r1, r2, data, pos + 36 + |p.stored|, n - 1, p.total, acc + [p.entry]);
    }
  }

  lemma EntryIgnoresLimits(env: Env, r1: TocRules, r2: TocRules, data: bytes, pos: nat, total: u64)
    requires r1.stripped == r2.stripped
    requires EntryAt(env, r1, data, pos, total).Ok? && EntryAt(env, r2, data, pos, total).Ok?
    ensures EntryAt(env, r1, data, pos, total) == EntryAt(env, r2, data, pos, total)
  {
    hide NumberAt, TakeAt, DecodedPath;
  }

  lemma DecodeIgnoresLimits(env: Env, r1: TocRules, r2: TocRules, data: bytes, entryCount: u32, chunkCount: u32)
    requires r1.stripped == r2.stripped
    requires DecodedToc(env, data, entryCount, chunkCount, r1).Ok?
    requires DecodedToc(env, data, entryCount, chunkCount, r2).Ok?
    ensures DecodedToc(env, data, entryCount, chunkCount, r1) == DecodedToc(env, data, entryCount, chunkCount, r2)
  {
    hide EntriesFrom, ChunksFrom;
    EntriesIgnoreLimits(env, r1, r2, data, 4, entryCount, 0, []);
  }

  /** A table encoded with its own paths decodes to itself under every limit that accepts it,
      and a limit accepts it exactly when it accepts the table. */
  lemma EncodedAcceptedExactly(env: Env, lax: TocRules, rules: TocRules, entries: seq<TocEntry>, chunks: seq<Chunk>)
    requires lax.stripped == rules.stripped && |entries| < POW32 && |chunks| < POW32
    requires TableAccepted(env, lax, entries, PathsOf(entries), 0)
    ensures var plain := TocImage(entries, PathsOf(entries), chunks);
            DecodedToc(env, plain, |entries|, |chunks|, rules).Ok? <==>
            TableAccepted(env, rules, entries, PathsOf(entries), 0)
    ensures var plain := TocImage(entries, PathsOf(entries), chunks);
            DecodedToc(env, plain, |entries|, |chunks|, rules).Ok? ==>
              DecodedToc(env, plain, |entries|, |chunks|, rules) == Ok((entries, chunks))
  {
    hide DecodedToc, TocImage, PathsOf, TableAccepted;
    var paths := PathsOf(entries);
    var plain := TocImage(entries, paths, chunks);
    DecodeOfImage(env, lax, entries, paths, chunks);
    if DecodedToc(env, plain, |entries|, |chunks|, rules).Ok? {
      DecodeIgnoresLimits(env, lax, rules, plain, |entries|, |chunks|);
      var stored := DecodedInputIsImage(env, rules, plain, |entries|, |chunks|);
      TableLength(env, rules, entries, stored);
      ShortPaths(env, rules, entries, stored);
      ShortPaths(env, lax, entries, paths);
      EntriesPart(entries, paths, chunks);
      EntriesPart(entries, stored, chunks);
      StoredPathsAreUnique(entries, stored, paths);
    }
    if TableAccepted(env, rules, entries, paths, 0) {
      DecodeOfImage(env, rules, entries, paths, chunks);
    }
  }

  lemma TableLength(env: Env, rules: TocRules, entries: seq<TocEntry>, stored: seq<bytes>)
    requires TableAccepted(env, rules, entries, stored, 0)
    ensures |stored| == |entries|
  {
  }
}
