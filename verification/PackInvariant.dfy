/** What every packer run keeps: the tables describe exactly the bytes on disk, chunk by
    chunk and asset by asset. */
module PackInvariant {
  import opened Prelude
  import opened Wire
  import opened Path
  import opened Layout
  import opened Cipher
  import opened Packing
  import Archive

  // ---- cutting assets --------------------------------------------------------------

  /** Data cut at multiples of s; only the last piece may be shorter and none is empty. */
  function Cut(data: bytes, s: nat): seq<bytes>
    requires s > 0
    decreases |data|
  {
    if data == [] then []
    else [data[..Min(s, |data|)]] + Cut(data[Min(s, |data|)..], s)
  }

  lemma {:induction false} CutPieces(data: bytes, s: nat, k: nat)
    requires s > 0 && k < |Cut(data, s)|
    ensures k * s < |data| && Cut(data, s)[k] == Piece(data, s, k)
    ensures Cut(data, s)[k] != [] && |Cut(data, s)[k]| <= s
    ensures k + 1 < |Cut(data, s)| ==> |Cut(data, s)[k]| == s
    decreases k
  {
    var n := Min(s, |data|);
    if k == 0 {
      assert Piece(data, s, 0) == data[..n];
      if n == |data| {
        assert data[n..] == [];
      }
    } else {
      CutPieces(data[n..], s, k - 1);
      PieceShift(data, s, k);
    }
  }

  lemma PieceShift(data: bytes, s: nat, k: nat)
    requires s > 0 && k > 0 && s <= |data|
    ensures Piece(data[s..], s, k - 1) == Piece(data, s, k)
    ensures (k - 1) * s < |data[s..]| <==> k * s < |data|
  {
    var a := (k - 1) * s;
    assert a + s == k * s && k * s + s == (k + 1) * s && a >= 0;
    SliceOfTail(data, s, a, Min(a + s, |data| - s));
  }

  lemma SliceOfTail(data: bytes, s: nat, a: nat, b: int)
    requires s <= |data|
    ensures a <= b && s + b <= |data| ==> data[s..][a..b] == data[s + a..s + b]
  {
  }

  lemma SliceOfPrefix(whole: bytes, n: nat, a: nat, b: nat)
    requires a <= b <= n <= |whole|
    ensures whole[..n][a..b] == whole[a..b]
  {
  }

  lemma {:induction false} CutCount(data: bytes, s: nat)
    requires s > 0
    ensures |Cut(data, s)| == CeilDiv(|data|, s)
    decreases |data|
  {
    if data == [] {
      CeilDivZero(s);
    } else {
      var n := Min(s, |data|);
      CutCount(data[n..], s);
      CeilDivStep(|data|, s);
    }
  }

  lemma CeilDivStep(a: nat, s: nat)
    requires a > 0 && s > 0
    ensures CeilDiv(a, s) == 1 + CeilDiv(a - Min(s, a), s)
  {
    if a <= s {
      CeilDivZero(s);
      CeilDivIs(a, s, 1, a);
    } else {
      var q, r := (a - s + s - 1) / s, (a - s + s - 1) % s;
      Bits.RemainderIs(a + s - 1, s, q + 1, r);
    }
  }

  function Flatten(parts: seq<bytes>): bytes {
    if parts == [] then [] else parts[0] + Flatten(parts[1..])
  }

  lemma {:induction false} FlattenCut(data: bytes, s: nat)
    requires s > 0
    ensures Flatten(Cut(data, s)) == data
    decreases |data|
  {
    if data != [] {
      var n := Min(s, |data|);
      FlattenCut(data[n..], s);
      assert data == data[..n] + data[n..];
    }
  }

  lemma {:induction false} FlattenSnoc(parts: seq<bytes>, p: bytes)
    ensures Flatten(parts + [p]) == Flatten(parts) + p
  {
    if parts != [] {
      FlattenSnoc(parts[1..], p);
      assert (parts + [p])[1..] == parts[1..] + [p];
    }
  }

  function Lengths(parts: seq<bytes>): (w: seq<nat>)
    ensures |w| == |parts| && forall i :: 0 <= i < |w| ==> w[i] == |parts[i]|
  {
    seq(|parts|, i requires 0 <= i < |parts| => |parts[i]|)
  }

  lemma {:induction false} LengthsSum(parts: seq<bytes>)
    ensures Sum(Lengths(parts), 0, |parts|) == |Flatten(parts)|
  {
    if parts != [] {
      var front, last := parts[..|parts| - 1], parts[|parts| - 1];
      LengthsSum(front);
      FlattenSnoc(front, last);
      assert parts == front + [last];
      assert Lengths(parts)[..|front|] == Lengths(front)[..|front|];
      SumPrefix(Lengths(parts), Lengths(front), 0, |front|);
    }
  }

  // ---- chunks ----------------------------------------------------------------------

  /** The layout rules a disk of this size satisfies. */
  function DiskRules(st: PackState): Rules
    requires Sized(st)
  {
    Rules(|st.disk|, st.options.chunkSize, st.options.alignment, st.aeadKey.Some?, Archive.NO_LIMIT)
  }

  /** What is kept of a piece: its LZ4 form exactly when that is shorter. */
  ghost predicate KeptForm(env: Env, c: Chunk, raw: bytes, payload: bytes) {
    && (c.compressed <==> |env.lz4Encode(raw)| < |raw|)
    && payload == if c.compressed then env.lz4Encode(raw) else raw
  }

  /** The bytes of block k: the payload itself, or nonce k and the payload sealed under it. */
  ghost predicate BlockForm(env: Env, aeadKey: Option<bytes>, k: nat, payload: bytes, block: bytes) {
    match aeadKey
    case None => block == payload
    case Some(key) =>
      && |block| == |payload| + 40
      && env.nonce(k) == Some(block[..24])
      && env.cipherSeal(key, block[..24], payload, CHUNK_AAD_PREFIX + LE(k, 4)) == Some(block[24..])
  }

  ghost predicate BlockStored(env: Env, aeadKey: Option<bytes>, k: nat, c: Chunk, raw: bytes, block: bytes) {
    exists payload :: KeptForm(env, c, raw, payload) && BlockForm(env, aeadKey, k, payload, block)
  }

  /** Chunk k's record is legal, and the block it points to decodes to `raw`. */
  ghost predicate ChunkStored(env: Env, st: PackState, k: nat, raw: bytes)
    requires Sized(st) && k < |st.chunks|
  {
    var c := st.chunks[k];
    && LegalChunk(c, DiskRules(st))
    && c.originalSize == |raw| && c.checksum == env.xxh3(raw)
    && Archive.Decoded(env, st.aeadKey, c, k, st.disk[c.offset..c.offset + c.storedSize]) == Ok(raw)
    && BlockStored(env, st.aeadKey, k, c, raw, st.disk[c.offset..c.offset + c.storedSize])
  }

  /** The chunk table lists exactly the pieces in `raws`, in order and apart from each other. */
  ghost predicate ChunksInv(env: Env, st: PackState, raws: seq<bytes>) {
    && Sized(st)
    && ZeroHeader(st.disk)
    && |raws| == |st.chunks|
    && (forall k :: 0 <= k < |raws| ==> ChunkStored(env, st, k, raws[k]))
    && (forall j, k :: 0 <= j < k < |raws| ==> End(st.chunks[j]) <= st.chunks[k].offset)
  }

  /** Stored blocks decode to what was stored. */
  lemma SealedDecodes(env: Env, aeadKey: Option<bytes>, raw: bytes, k: u32, c: Chunk)
    requires env.Lawful() && raw != [] && Sealed(env, aeadKey, PayloadOf(env, raw), k).Ok?
    requires c.compressed == (|env.lz4Encode(raw)| < |raw|) && c.originalSize == |raw|
    ensures var stored := Sealed(env, aeadKey, PayloadOf(env, raw), k).value;
            && Archive.Decoded(env, aeadKey, c, k, stored) == Ok(raw)
            && |stored| == |PayloadOf(env, raw)| + Overhead(aeadKey.Some?)
            && 0 < |PayloadOf(env, raw)|
            && (if c.compressed then |PayloadOf(env, raw)| < |raw| else |PayloadOf(env, raw)| == |raw|)
            && BlockStored(env, aeadKey, k, c, raw, stored)
  {
    var payload := PayloadOf(env, raw);
    assert KeptForm(env, c, raw, payload);
    if aeadKey.Some? {
      DecryptUndoesEncrypt(env, payload, aeadKey.value, ChunkAad(k), k);
      SealedForm(env, payload, aeadKey.value, k);
    }
    assert BlockForm(env, aeadKey, k, payload, Sealed(env, aeadKey, payload, k).value);
  }

  lemma SealedForm(env: Env, payload: bytes, key: bytes, k: u32)
    requires env.Lawful() && Encrypt(env, payload, key, ChunkAad(k), k).Ok?
    ensures BlockForm(env, Some(key), k, payload, Encrypt(env, payload, key, ChunkAad(k), k).value)
  {
    var nonce := env.nonce(k).value;
    var sealed := env.cipherSeal(key, nonce, payload, ChunkAad(k)).value;
    assert (nonce + sealed)[..24] == nonce && (nonce + sealed)[24..] == sealed;
  }

  /** Growing the disk and the table leaves stored chunks stored. */
  lemma ChunkStays(env: Env, st: PackState, next: PackState, k: nat, raw: bytes)
    requires Sized(st) && Sized(next) && k < |st.chunks| && ChunkStored(env, st, k, raw)
    requires next.options == st.options && next.aeadKey == st.aeadKey
    requires |st.disk| <= |next.disk| && next.disk[..|st.disk|] == st.disk
    requires |st.chunks| <= |next.chunks| && next.chunks[k] == st.chunks[k]
    ensures ChunkStored(env, next, k, raw)
  {
    hide Archive.Decoded, BlockStored;
    var c := st.chunks[k];
    SliceOfPrefix(next.disk, |st.disk|, c.offset, c.offset + c.storedSize);
  }

  lemma NewChunk(env: Env, st: PackState, raw: bytes)
    requires env.Lawful() && Sized(st) && 0 < |raw| <= st.options.chunkSize
    requires StoreChunk(env, st, raw).Ok? && |st.chunks| + 1 < POW32
    ensures var next := StoreChunk(env, st, raw).value;
            && Sized(next) && ChunkStored(env, next, |st.chunks|, raw)
            && |st.disk| <= next.chunks[|st.chunks|].offset
            && |st.disk| <= |next.disk| && next.disk[..|st.disk|] == st.disk
            && next.chunks[..|st.chunks|] == st.chunks
            && next.chunks[|st.chunks|].originalSize == |raw|
  {
    hide PayloadOf, Sealed, Archive.Decoded, BlockStored;
    var next := StoreChunk(env, st, raw).value;
    var padded := Padded(st.disk, st.options.alignment).value;
    var stored := Sealed(env, st.aeadKey, PayloadOf(env, raw), |st.chunks|).value;
    var c := next.chunks[|st.chunks|];
    SealedDecodes(env, st.aeadKey, raw, |st.chunks|, c);
    assert next.disk[c.offset..c.offset + c.storedSize] == stored;
  }

  lemma StoreChunkKeeps(env: Env, st: PackState, raws: seq<bytes>, raw: bytes)
    requires env.Lawful() && ChunksInv(env, st, raws) && 0 < |raw| <= st.options.chunkSize
    requires StoreChunk(env, st, raw).Ok? && |st.chunks| + 1 < POW32
    ensures ChunksInv(env, StoreChunk(env, st, raw).value, raws + [raw])
  {
    hide ChunkStored, StoreChunk;
    var next := StoreChunk(env, st, raw).value;
    NewChunk(env, st, raw);
    forall k | 0 <= k < |raws|
      ensures ChunkStored(env, next, k, raws[k])
      ensures End(next.chunks[k]) <= |st.disk|
    {
      assert next.chunks[k] == next.chunks[..|st.chunks|][k];
      ChunkStays(env, st, next, k, raws[k]);
      ChunkEnds(env, st, k, raws[k]);
    }
    assert forall j, k :: 0 <= j < k < |raws| ==>
             next.chunks[j] == st.chunks[j] && next.chunks[k] == st.chunks[k];
    assert next.disk[..HEADER_SIZE] == next.disk[..|st.disk|][..HEADER_SIZE];
  }

  lemma ChunkEnds(env: Env, st: PackState, k: nat, raw: bytes)
    requires Sized(st) && k < |st.chunks| && ChunkStored(env, st, k, raw)
    ensures End(st.chunks[k]) <= |st.disk|
  {
  }

  /** Storing an asset appends exactly its cut, whatever was there before. */
  lemma {:induction false} StoreAllKeeps(env: Env, st: PackState, raws: seq<bytes>, data: bytes,
                                         original: u64, stored: u64)
    requires env.Lawful() && ChunksInv(env, st, raws)
    requires StoreAll(env, st, data, original, stored).Ok?
    ensures var (next, o, s) := StoreAll(env, st, data, original, stored).value;
            && ChunksInv(env, next, raws + Cut(data, st.options.chunkSize))
            && next.chunks[..|st.chunks|] == st.chunks
            && o == original + |data|
            && s == stored + Sum(Storeds(next.chunks), |st.chunks|, |next.chunks|)
            && next.aeadKey == st.aeadKey && |st.chunks| <= |next.chunks|
    decreases |data|
  {
    hide ChunksInv, StoreChunk, Cut, Sum, Storeds;
    RawsAreChunks(env, st, raws);
    if data == [] {
      NothingStored(st.chunks, raws, st.options.chunkSize);
    } else {
      var n := Min(st.options.chunkSize, |data|);
      var next := StoreChunk(env, st, data[..n]).value;
      NewChunk(env, st, data[..n]);
      StoreChunkKeeps(env, st, raws, data[..n]);
      var size := next.chunks[|st.chunks|].storedSize;
      StoreAllKeeps(env, next, raws + [data[..n]], data[n..], original + n, stored + size);
      var (last, o, s) := StoreAll(env, st, data, original, stored).value;
      CutStep(raws, data, st.options.chunkSize);
      TableGrows(st.chunks, next.chunks, last.chunks);
    }
  }

  lemma NothingStored(chunks: seq<Chunk>, raws: seq<bytes>, s: nat)
    requires s > 0
    ensures raws + Cut([], s) == raws && chunks[..|chunks|] == chunks
    ensures Sum(Storeds(chunks), |chunks|, |chunks|) == 0
  {
  }

  lemma CutStep(raws: seq<bytes>, data: bytes, s: nat)
    requires s > 0 && data != []
    ensures raws + [data[..Min(s, |data|)]] + Cut(data[Min(s, |data|)..], s) == raws + Cut(data, s)
  {
    var n := Min(s, |data|);
    assert Cut(data, s) == [data[..n]] + Cut(data[n..], s);
  }

  lemma TableGrows(a: seq<Chunk>, b: seq<Chunk>, c: seq<Chunk>)
    requires |b| == |a| + 1 <= |c| && b[..|a|] == a && c[..|b|] == b
    ensures c[..|a|] == a
    ensures Sum(Storeds(c), |a|, |c|) == b[|a|].storedSize + Sum(Storeds(c), |b|, |c|)
  {
    assert c[..|a|] == c[..|b|][..|a|];
    assert c[|a|] == c[..|b|][|a|];
    SumSplit(Storeds(c), |a|, |b|, |c|);
  }

  // ---- assets ----------------------------------------------------------------------

  function NameOf(f: InputFile): bytes {
    match Normalize(f.0)
    case Ok(n) => n
    case Err(_) => []
  }

  /** The pieces of all assets, one asset after the other. */
  function AllRaws(files: seq<InputFile>, s: nat): seq<bytes>
    requires s > 0
  {
    if files == [] then []
    else AllRaws(files[..|files| - 1], s) + Cut(files[|files| - 1].1, s)
  }

  /** Entry e describes an asset whose pieces start at `first`. */
  ghost predicate EntryHolds(env: Env, st: PackState, e: TocEntry, f: InputFile, first: nat)
    requires st.options.chunkSize > 0
  {
    && Normalize(f.0) == Ok(e.path)
    && e.pathHash == env.xxh3(e.path)
    && e.originalSize == |f.1|
    && e.firstChunk == first
    && e.chunkCount == |Cut(f.1, st.options.chunkSize)|
    && e.firstChunk + e.chunkCount <= |st.chunks|
    && e.storedSize == Sum(Storeds(st.chunks), e.firstChunk, e.firstChunk + e.chunkCount)
  }

  /** The invariant of packer runs. */
  ghost predicate PackInv(env: Env, st: PackState, files: seq<InputFile>) {
    && Sized(st)
    && ChunksInv(env, st, AllRaws(files, st.options.chunkSize))
    && |st.entries| == |files|
    && (forall i :: 0 <= i < |files| ==>
          EntryHolds(env, st, st.entries[i], files[i], |AllRaws(files[..i], st.options.chunkSize)|))
    && (forall i, j :: 0 <= i < j < |files| ==> st.entries[i].path != st.entries[j].path)
    && (st.options.mode.Production? ==>
          forall i, j :: 0 <= i < j < |files| ==> st.entries[i].pathHash != st.entries[j].pathHash)
  }

  lemma InitialKeeps(env: Env, options: PackOptions, aeadKey: Option<bytes>)
    requires ValidOptions(options)
    ensures PackInv(env, Initial(options, aeadKey), [])
  {
  }

  lemma EntryStays(env: Env, st: PackState, next: PackState, e: TocEntry, f: InputFile, first: nat)
    requires st.options == next.options && st.options.chunkSize > 0
    requires EntryHolds(env, st, e, f, first)
    requires |st.chunks| <= |next.chunks| && next.chunks[..|st.chunks|] == st.chunks
    ensures EntryHolds(env, next, e, f, first)
  {
    var hi := e.firstChunk + e.chunkCount;
    forall i | 0 <= i < hi
      ensures Storeds(st.chunks)[i] == Storeds(next.chunks)[i]
    {
      assert next.chunks[i] == next.chunks[..|st.chunks|][i];
    }
    assert Storeds(st.chunks)[..hi] == Storeds(next.chunks)[..hi];
    SumPrefix(Storeds(st.chunks), Storeds(next.chunks), e.firstChunk, hi);
  }

  lemma ChunksOnly(env: Env, st: PackState, entries: seq<TocEntry>, raws: seq<bytes>)
    requires ChunksInv(env, st, raws) && |entries| < POW32
    ensures ChunksInv(env, st.(entries := entries), raws)
  {
    forall k | 0 <= k < |raws|
      ensures ChunkStored(env, st.(entries := entries), k, raws[k])
    {
      assert ChunkStored(env, st, k, raws[k]);
    }
  }

  /** The chunks of one more asset. */
  lemma AddFileChunks(env: Env, st: PackState, files: seq<InputFile>, f: InputFile)
    requires env.Lawful() && Sized(st) && AddFile(env, st, f.0, f.1).Ok?
    requires ChunksInv(env, st, AllRaws(files, st.options.chunkSize))
    ensures var next, s := AddFile(env, st, f.0, f.1).value, st.options.chunkSize;
            var first := |AllRaws(files, s)|;
            && next.options == st.options && next.aeadKey == st.aeadKey && Sized(next)
            && ChunksInv(env, next, AllRaws(files + [f], s))
            && first == |st.chunks| <= |next.chunks| && next.chunks[..first] == st.chunks
            && |next.entries| == |st.entries| + 1 && next.entries[..|st.entries|] == st.entries
            && EntryHolds(env, next, next.entries[|st.entries|], f, first)
            && next.entries[|st.entries|].path == NameOf(f)
            && next.entries[|st.entries|].pathHash == env.xxh3(NameOf(f))
            && Normalize(f.0).Ok? && CheckNew(st, NameOf(f), env.xxh3(NameOf(f))).Ok?
  {
    hide ChunksInv, StoreAll, EntryHolds, CheckNew;
    var s := st.options.chunkSize;
    var raws := AllRaws(files, s);
    var (t, o, stored) := StoreAll(env, st, f.1, 0, 0).value;
    StoreAllKeeps(env, st, raws, f.1, 0, 0);
    var next := AddFile(env, st, f.0, f.1).value;
    assert (files + [f])[..|files|] == files;
    ChunksOnly(env, t, next.entries, AllRaws(files + [f], s));
    RawsAreChunks(env, st, raws);
    RawsAreChunks(env, next, AllRaws(files + [f], s));
    NewEntry(env, st, next, f, o, stored, |raws|);
  }

  /** Adding an asset appends its pieces and its entry; names stay unique without assuming
      anything about the hash. */
  lemma AddFileKeeps(env: Env, st: PackState, files: seq<InputFile>, f: InputFile)
    requires env.Lawful() && PackInv(env, st, files) && AddFile(env, st, f.0, f.1).Ok?
    ensures PackInv(env, AddFile(env, st, f.0, f.1).value, files + [f])
    ensures AddFile(env, st, f.0, f.1).value.aeadKey == st.aeadKey
  {
    hide ChunksInv, AddFile, EntryHolds, CheckNew, NameOf;
    var s := st.options.chunkSize;
    var next := AddFile(env, st, f.0, f.1).value;
    AddFileChunks(env, st, files, f);
    var all := files + [f];
    forall i | 0 <= i < |all|
      ensures EntryHolds(env, next, next.entries[i], all[i], |AllRaws(all[..i], s)|)
    {
      if i < |files| {
        assert all[..i] == files[..i];
        assert next.entries[i] == next.entries[..|files|][i];
        EntryStays(env, st, next, st.entries[i], files[i], |AllRaws(files[..i], s)|);
      } else {
        assert all[..i] == files;
      }
    }
    NewName(env, st, files, f);
    assert forall i :: 0 <= i < |files| ==> next.entries[i] == next.entries[..|files|][i];
  }

  lemma RawsAreChunks(env: Env, st: PackState, raws: seq<bytes>)
    requires ChunksInv(env, st, raws)
    ensures |raws| == |st.chunks| && Sized(st)
  {
  }

  lemma NewEntry(env: Env, st: PackState, next: PackState, f: InputFile, o: u64, stored: u64, first: nat)
    requires st.options == next.options && st.options.chunkSize > 0 && Normalize(f.0).Ok?
    requires |st.chunks| == first < POW32 && |next.chunks| == first + |Cut(f.1, st.options.chunkSize)| < POW32
    requires o == |f.1| && stored == Sum(Storeds(next.chunks), first, |next.chunks|)
    ensures EntryHolds(env, next,
              TocEntry(NameOf(f), env.xxh3(NameOf(f)), o, stored, first, |next.chunks| - first), f, first)
  {
  }

  lemma NewName(env: Env, st: PackState, files: seq<InputFile>, f: InputFile)
    requires PackInv(env, st, files) && Normalize(f.0).Ok?
    requires CheckNew(st, NameOf(f), env.xxh3(NameOf(f))).Ok?
    ensures forall i :: 0 <= i < |files| ==> st.entries[i].path != NameOf(f)
    ensures st.options.mode.Production? ==>
              forall i :: 0 <= i < |files| ==> st.entries[i].pathHash != env.xxh3(NameOf(f))
  {
    hide ChunksInv;
    forall i | 0 <= i < |files|
      ensures st.entries[i].path != NameOf(f)
      ensures st.options.mode.Production? ==> st.entries[i].pathHash != env.xxh3(NameOf(f))
    {
      assert EntryHolds(env, st, st.entries[i], files[i], |AllRaws(files[..i], st.options.chunkSize)|);
      assert st.entries[i] in st.entries;
    }
  }

  /** The invariant holds after every run. */
  lemma {:induction false} RunKeeps(env: Env, options: PackOptions, aeadKey: Option<bytes>, files: seq<InputFile>)
    requires env.Lawful() && ValidOptions(options)
    requires PackRun(env, Initial(options, aeadKey), files).Ok?
    ensures PackInv(env, PackRun(env, Initial(options, aeadKey), files).value, files)
    ensures PackRun(env, Initial(options, aeadKey), files).value.aeadKey == aeadKey
  {
    hide PackInv, AddFile;
    var init := Initial(options, aeadKey);
    if files == [] {
      InitialKeeps(env, options, aeadKey);
    } else {
      var front, last := files[..|files| - 1], files[|files| - 1];
      RunKeeps(env, options, aeadKey, front);
      AddFileKeeps(env, PackRun(env, init, front).value, front, last);
      assert files == front + [last];
    }
  }
}
