/** From packing to reading: every finished archive within the limits opens, and reads back
    exactly the assets that were added. */
module RoundTrip {
  import opened Prelude
  import opened Path
  import opened Layout
  import opened Source
  import opened Index
  import opened Cipher
  import opened Toc
  import opened Archive
  import opened Access
  import opened Opening
  import opened Packing
  import opened PackInvariant
  import H = Header

  // ---- where the pieces of an asset are --------------------------------------------

  lemma {:induction false} RawsGrow(files: seq<InputFile>, i: nat, j: nat, s: nat)
    requires s > 0 && i <= j <= |files|
    ensures |AllRaws(files[..i], s)| <= |AllRaws(files[..j], s)|
    ensures AllRaws(files[..j], s)[..|AllRaws(files[..i], s)|] == AllRaws(files[..i], s)
  {
    if i < j {
      RawsGrow(files, i, j - 1, s);
      assert files[..j][..j - 1] == files[..j - 1];
      var a, b, c := AllRaws(files[..i], s), AllRaws(files[..j - 1], s), AllRaws(files[..j], s);
      assert c[..|a|] == b[..|a|];
    }
  }

  ghost predicate PiecesAt(raws: seq<bytes>, first: nat, cut: seq<bytes>) {
    first + |cut| <= |raws| && raws[first..first + |cut|] == cut
  }

  lemma PieceIs(raws: seq<bytes>, first: nat, cut: seq<bytes>, k: nat)
    requires PiecesAt(raws, first, cut) && k < |cut|
    ensures first + k < |raws| && raws[first + k] == cut[k]
  {
    assert raws[first..first + |cut|][k] == raws[first + k];
  }

  /** The pieces of asset i lie where its entry says. */
  lemma RawsOfFile(files: seq<InputFile>, i: nat, s: nat)
    requires s > 0 && i < |files|
    ensures var first, cut := |AllRaws(files[..i], s)|, Cut(files[i].1, s);
            first + |cut| == |AllRaws(files[..i + 1], s)| && PiecesAt(AllRaws(files, s), first, cut)
  {
    RawsGrow(files, i + 1, |files|, s);
    assert files[..|files|] == files;
    assert files[..i + 1][..i] == files[..i];
    var all, upTo := AllRaws(files, s), AllRaws(files[..i + 1], s);
    var first, cut := |AllRaws(files[..i], s)|, Cut(files[i].1, s);
    assert upTo == AllRaws(files[..i], s) + cut;
    assert all[..|upTo|] == upTo;
    assert all[first..first + |cut|] == upTo[first..];
  }

  lemma {:induction false} OwnerOf(files: seq<InputFile>, s: nat, k: nat) returns (i: nat)
    requires s > 0 && k < |AllRaws(files, s)|
    ensures i < |files| && |AllRaws(files[..i], s)| <= k < |AllRaws(files[..i + 1], s)|
  {
    var n := |files| - 1;
    assert files[..n + 1] == files;
    if k < |AllRaws(files[..n], s)| {
      i := OwnerOf(files[..n], s, k);
      assert files[..n][..i] == files[..i] && files[..n][..i + 1] == files[..i + 1];
    } else {
      i := n;
    }
  }

  function TotalData(files: seq<InputFile>): nat {
    if files == [] then 0 else TotalData(files[..|files| - 1]) + |files[|files| - 1].1|
  }

  lemma {:induction false} FlattenConcat(a: seq<bytes>, b: seq<bytes>)
    ensures Flatten(a + b) == Flatten(a) + Flatten(b)
  {
    if a == [] {
      assert a + b == b;
    } else {
      assert (a + b)[1..] == a[1..] + b;
      FlattenConcat(a[1..], b);
    }
  }

  lemma {:induction false} AllRawsTotal(files: seq<InputFile>, s: nat)
    requires s > 0
    ensures |Flatten(AllRaws(files, s))| == TotalData(files)
  {
    if files != [] {
      var front, last := files[..|files| - 1], files[|files| - 1];
      AllRawsTotal(front, s);
      FlattenConcat(AllRaws(front, s), Cut(last.1, s));
      FlattenCut(last.1, s);
    }
  }

  lemma {:induction false} SumShift(w: seq<nat>, v: seq<nat>, first: nat, n: nat)
    requires first + n <= |w| && n <= |v| && forall k :: 0 <= k < n ==> w[first + k] == v[k]
    ensures Sum(w, first, first + n) == Sum(v, 0, n)
  {
    if n > 0 {
      SumShift(w, v, first, n - 1);
    }
  }

  // ---- the tables are legal --------------------------------------------------------

  lemma ChunkFacts(env: Env, st: PackState, raws: seq<bytes>, k: nat)
    requires ChunksInv(env, st, raws) && k < |raws|
    ensures |raws| == |st.chunks| && ChunkStored(env, st, k, raws[k])
    ensures st.chunks[k].originalSize == |raws[k]|
  {
  }

  lemma OriginalsAreLengths(env: Env, st: PackState, raws: seq<bytes>)
    requires ChunksInv(env, st, raws)
    ensures Originals(st.chunks) == Lengths(raws)
  {
    forall k | 0 <= k < |raws|
      ensures Originals(st.chunks)[k] == Lengths(raws)[k]
    {
      ChunkFacts(env, st, raws, k);
    }
  }

  /** Where the archive ends up on disk. */
  ghost predicate FinishedAs(env: Env, st: PackState, key: bytes, f: Finished)
  {
    Sized(st) && key != [] && Finish(env, st, key) == Ok(f)
  }

  /** The chunks of asset i have the sizes of its pieces. */
  lemma PieceSizes(env: Env, st: PackState, files: seq<InputFile>, i: nat)
    requires PackInv(env, st, files) && i < |files|
    ensures var e, cut := st.entries[i], Cut(files[i].1, st.options.chunkSize);
            && e.firstChunk + |cut| <= |st.chunks| && e.chunkCount == |cut|
            && e.originalSize == |files[i].1|
            && e.storedSize == Sum(Storeds(st.chunks), e.firstChunk, e.firstChunk + e.chunkCount)
            && forall k :: 0 <= k < |cut| ==> st.chunks[e.firstChunk + k].originalSize == |cut[k]|
  {
    hide ChunksInv, ChunkStored, Cut, AllRaws, PiecesAt;
    var s := st.options.chunkSize;
    var e, cut := st.entries[i], Cut(files[i].1, s);
    RawsOfFile(files, i, s);
    assert EntryHolds(env, st, e, files[i], |AllRaws(files[..i], s)|);
    RawsAreChunks(env, st, AllRaws(files, s));
    forall k | 0 <= k < |cut|
      ensures st.chunks[e.firstChunk + k].originalSize == |cut[k]|
    {
      PieceIs(AllRaws(files, s), e.firstChunk, cut, k);
      ChunkFacts(env, st, AllRaws(files, s), e.firstChunk + k);
    }
  }

  lemma LegalPackedEntry(env: Env, st: PackState, files: seq<InputFile>, i: nat)
    requires PackInv(env, st, files) && i < |files|
    ensures LegalEntry(st.entries[i], st.chunks, st.options.chunkSize)
    ensures LegalEntry(st.entries[i].(path := []), st.chunks, st.options.chunkSize)
  {
    hide PackInv, Cut, Sum, Piece, Flatten, Normalize, H.ValidFlags;
    PackInvSizes(env, st, files);
    PieceSizes(env, st, files, i);
    var e, s := st.entries[i], st.options.chunkSize;
    var cut := Cut(files[i].1, s);
    SumShift(Originals(st.chunks), Lengths(cut), e.firstChunk, |cut|);
    LengthsSum(cut);
    FlattenCut(files[i].1, s);
    forall k | e.firstChunk <= k < e.firstChunk + e.chunkCount - 1
      ensures st.chunks[k].originalSize == s
    {
      CutPieces(files[i].1, s, k - e.firstChunk);
      assert st.chunks[e.firstChunk + (k - e.firstChunk)].originalSize == |cut[k - e.firstChunk]|;
    }
  }

  lemma FirstChunkAt(env: Env, st: PackState, files: seq<InputFile>, i: nat)
    requires PackInv(env, st, files) && i < |files|
    ensures st.entries[i].firstChunk == |AllRaws(files[..i], st.options.chunkSize)|
    ensures st.entries[i].firstChunk + st.entries[i].chunkCount ==
            |AllRaws(files[..i + 1], st.options.chunkSize)|
  {
    assert EntryHolds(env, st, st.entries[i], files[i], |AllRaws(files[..i], st.options.chunkSize)|);
    RawsOfFile(files, i, st.options.chunkSize);
  }

  lemma SameOwners(st: PackState, k: int)
    ensures forall i :: 0 <= i < |st.entries| ==> (Owns(TocEntries(st)[i], k) <==> Owns(st.entries[i], k))
  {
  }

  lemma PackedOwnership(env: Env, st: PackState, files: seq<InputFile>)
    requires PackInv(env, st, files)
    ensures Disjoint(TocEntries(st))
    ensures forall k :: 0 <= k < |st.chunks| ==> Covered(TocEntries(st), k)
  {
    hide ChunksInv, PackInv, TocEntries;
    var s := st.options.chunkSize;
    var entries := TocEntries(st);
    PackInvSizes(env, st, files);
    forall i, j, k | 0 <= i < j < |entries| && Owns(entries[i], k)
      ensures !Owns(entries[j], k)
    {
      SameOwners(st, k);
      FirstChunkAt(env, st, files, i);
      FirstChunkAt(env, st, files, j);
      RawsGrow(files, i + 1, j, s);
    }
    forall k | 0 <= k < |st.chunks|
      ensures Covered(entries, k)
    {
      var i := OwnerOf(files, s, k);
      SameOwners(st, k);
      FirstChunkAt(env, st, files, i);
      assert Owns(entries[i], k);
    }
  }

  lemma PackInvSizes(env: Env, st: PackState, files: seq<InputFile>)
    requires PackInv(env, st, files)
    ensures Sized(st) && st.options.chunkSize > 0
    ensures |st.entries| == |files| && |st.chunks| == |AllRaws(files, st.options.chunkSize)|
    ensures ChunksInv(env, st, AllRaws(files, st.options.chunkSize))
  {
  }

  /** The tables of every run describe a legal archive, whatever the TOC offset behind them. */
  lemma PackedTablesAreLegal(env: Env, st: PackState, files: seq<InputFile>, p: Rules)
    requires PackInv(env, st, files)
    requires p == DiskRules(st).(tocOffset := p.tocOffset, maxTotal := p.maxTotal)
    requires |st.disk| <= p.tocOffset && TotalData(files) <= p.maxTotal
    ensures LegalTables(TocEntries(st), st.chunks, p)
  {
    hide PackInv, Disjoint, LegalEntry, LegalChunks, AllRaws, TocEntries, ChunksInv;
    PackInvSizes(env, st, files);
    PackedChunksAreLegal(env, st, files, p);
    forall i | 0 <= i < |files|
      ensures LegalEntry(TocEntries(st)[i], st.chunks, p.chunkSize)
    {
      LegalPackedEntry(env, st, files, i);
      TocEntryAt(st, i);
    }
    PackedOwnership(env, st, files);
  }

  lemma PackedChunksAreLegal(env: Env, st: PackState, files: seq<InputFile>, p: Rules)
    requires PackInv(env, st, files)
    requires p == DiskRules(st).(tocOffset := p.tocOffset, maxTotal := p.maxTotal)
    requires |st.disk| <= p.tocOffset && TotalData(files) <= p.maxTotal
    ensures LegalChunks(st.chunks, p)
  {
    hide PackInv, AllRaws, Decoded;
    PackInvSizes(env, st, files);
    var raws := AllRaws(files, st.options.chunkSize);
    forall k | 0 <= k < |st.chunks|
      ensures LegalChunk(st.chunks[k], p)
    {
      ChunkFacts(env, st, raws, k);
    }
    OriginalsAreLengths(env, st, raws);
    LengthsSum(raws);
    AllRawsTotal(files, st.options.chunkSize);
  }

  // ---- names -----------------------------------------------------------------------

  lemma EntryNames(env: Env, st: PackState, files: seq<InputFile>, i: nat)
    requires PackInv(env, st, files) && i < |files|
    ensures Normalize(files[i].0) == Ok(st.entries[i].path) && NameOf(files[i]) == st.entries[i].path
    ensures st.entries[i].pathHash == env.xxh3(st.entries[i].path)
    ensures st.entries[i].originalSize == |files[i].1|
    ensures st.entries[i].chunkCount == CeilDiv(|files[i].1|, st.options.chunkSize)
    ensures Normalize(st.entries[i].path) == Ok(st.entries[i].path)
    ensures 0 < |st.entries[i].path| <= MAX_PATH_LEN && IsUtf8(st.entries[i].path)
  {
    hide ChunksInv, CeilDiv;
    assert EntryHolds(env, st, st.entries[i], files[i], |AllRaws(files[..i], st.options.chunkSize)|);
    CutCount(files[i].1, st.options.chunkSize);
    NormalizeIdempotent(files[i].0);
    NormalizeKeepsUtf8(files[i].0);
    NormalizedIsClean(files[i].0);
  }

  lemma TocEntryAt(st: PackState, i: nat)
    requires i < |st.entries|
    ensures TocEntries(st)[i] == if st.options.mode.Production? then st.entries[i].(path := []) else st.entries[i]
  {
  }

  function NameBytes(files: seq<InputFile>): nat {
    if files == [] then 0 else |NameOf(files[0])| + NameBytes(files[1..])
  }

  lemma {:induction false} PathTotals(entries: seq<TocEntry>, files: seq<InputFile>)
    requires |entries| == |files|
    requires forall i :: 0 <= i < |files| ==> entries[i].path == NameOf(files[i])
    ensures PathBytesTotal(PathsOf(entries)) == NameBytes(files)
    ensures (forall i :: 0 <= i < |files| ==> NameOf(files[i]) != []) ==> |files| <= NameBytes(files)
  {
    if entries != [] {
      PathTotals(entries[1..], files[1..]);
      assert PathsOf(entries)[1..] == PathsOf(entries[1..]);
    }
  }

  lemma {:induction false} NoPaths(entries: seq<TocEntry>)
    requires forall i :: 0 <= i < |entries| ==> entries[i].path == []
    ensures PathBytesTotal(PathsOf(entries)) == 0
  {
    if entries != [] {
      NoPaths(entries[1..]);
      assert PathsOf(entries)[1..] == PathsOf(entries[1..]);
    }
  }

  lemma {:induction false} SmallSet(s: set<nat>)
    requires forall x, y :: x in s && y in s ==> x == y
    ensures |s| <= 1
  {
    if x :| x in s {
      assert s == {x};
    }
  }

  /** Limits as far as they concern a packed archive. Everything else that opening checks
      holds by itself. */
  ghost predicate WithinLimits(env: Env, st: PackState, files: seq<InputFile>, h: H.Header, l: ArchiveLimits) {
    && h.tocSize <= l.maxTocStoredBytes
    && h.tocRawSize <= l.maxTocRawBytes
    && h.entryCount <= l.maxEntries
    && h.chunkCount <= l.maxChunks
    && h.tocSize + 2 * h.tocRawSize + h.entryCount * env.entryFootprint + h.chunkCount * env.chunkFootprint
       <= l.maxMetadataBytes
    && TotalData(files) <= l.maxTotalDecompressedBytes
    && (forall i :: 0 <= i < |files| ==> |files[i].1| <= l.maxSingleAssetBytes)
    && (st.options.mode.Debug? ==>
          && NameBytes(files) <= l.maxTotalPathBytes
          && (forall i :: 0 <= i < |files| ==> |NameOf(files[i])| <= l.maxPathBytes)
          && forall hash: u64 :: |Bucket(st.entries, hash)| <= MAX_BUCKET)
  }

  /** Opening applies the caller's limits and the hard limits, each for itself. */
  lemma BothLimits(env: Env, st: PackState, files: seq<InputFile>, h: H.Header, limits: ArchiveLimits)
    ensures WithinLimits(env, st, files, h, Clamped(limits)) <==>
            WithinLimits(env, st, files, h, limits) && WithinLimits(env, st, files, h, HARD_LIMITS)
  {
    hide TotalData, NameBytes, NameOf, Bucket;
    ClampedIsLower(limits);
  }

  lemma PackedBuckets(env: Env, st: PackState, files: seq<InputFile>)
    requires PackInv(env, st, files)
    requires st.options.mode.Debug? ==> forall hash: u64 :: |Bucket(st.entries, hash)| <= MAX_BUCKET
    ensures LegalBuckets(TocEntries(st), st.options.mode.Production?)
  {
    hide ChunksInv, EntryHolds, AllRaws, Cut, Normalize;
    if st.options.mode.Production? {
      forall hash: u64
        ensures |Bucket(TocEntries(st), hash)| <= MAX_BUCKET
      {
        SmallSet(Bucket(TocEntries(st), hash));
      }
    }
  }

  // ---- the header and the TOC ------------------------------------------------------

  lemma FlagBits(o: PackOptions)
    ensures H.ValidFlags(Flags(o))
    ensures Bits.BitAnd(Flags(o), H.FLAG_PATHS_STRIPPED) != 0 <==> o.mode.Production?
    ensures Bits.BitAnd(Flags(o), H.FLAG_AEAD) != 0 <==> o.protection.Aead?
  {
    hide H.ValidFlags, Bits.BitAnd;
    H.ValidFlagsExactly(Flags(o));
  }

  /** The parts of a finished archive. */
  lemma FinishParts(env: Env, st: PackState, key: bytes, f: Finished)
    returns (padded: bytes, plain: bytes, stored: bytes)
    requires FinishedAs(env, st, key, f)
    ensures Padded(st.disk, st.options.alignment) == Ok(padded) && f.disk == padded + stored
    ensures EncodedToc(TocEntries(st), st.chunks) == Ok(plain)
    ensures SealedToc(env, st, key, plain) == Ok(stored)
    ensures |stored| <= MAX_TOC_STORED_SIZE && |plain| <= MAX_TOC_RAW_SIZE
    ensures HEADER_SIZE <= |st.disk| <= |padded| && padded[..|st.disk|] == st.disk
    ensures |padded| % st.options.alignment == 0
    ensures |padded| + |stored| < POW64
    ensures f.header == H.Header(VERSION, Flags(st.options), HEADER_SIZE, st.options.alignment,
                                 st.options.chunkSize, |st.entries|, |st.chunks|, |padded|, |stored|,
                                 |plain|, env.xxh3(plain))
  {
    hide EncodedToc, SealedToc, TocEntries;
    padded := Padded(st.disk, st.options.alignment).value;
    plain := EncodedToc(TocEntries(st), st.chunks).value;
    stored := SealedToc(env, st, key, plain).value;
    EncodedSize(TocEntries(st), st.chunks);
  }

  lemma HeaderReads(env: Env, st: PackState, files: seq<InputFile>, key: bytes,
                    f: Finished, limits: ArchiveLimits)
    requires PackInv(env, st, files) && FinishedAs(env, st, key, f)
    requires WithinLimits(env, st, files, f.header, Clamped(limits))
    ensures |f.disk| >= HEADER_SIZE && CheckedHeader(env, ImageOf(f), limits) == Ok(f.header)
    ensures H.PathsStripped(f.header) == st.options.mode.Production?
    ensures H.ProtectionOf(f.header) == st.options.protection
  {
    hide PackInv, EncodedToc, SealedToc, TocEntries, H.HeaderBytes, H.ReadHeader, Flags, H.ValidFlags,
         Clamped, FinishedAs;
    var padded, plain, stored := FinishParts(env, st, key, f);
    H.HeaderRoundTrip(f.header);
    assert ImageOf(f)[0..HEADER_SIZE] == H.HeaderBytes(f.header);
    FlagBits(st.options);
    PackInvSizes(env, st, files);
    MinimumToc(env, st, files, key, f, limits);
  }

  /** The least-TOC-size check and the path count check hold by themselves. */
  lemma MinimumToc(env: Env, st: PackState, files: seq<InputFile>, key: bytes, f: Finished, limits: ArchiveLimits)
    requires PackInv(env, st, files) && FinishedAs(env, st, key, f)
    requires WithinLimits(env, st, files, f.header, Clamped(limits))
    requires H.PathsStripped(f.header) == st.options.mode.Production?
    ensures ValidateLimits(env, f.header, Clamped(limits)) == Ok(Unit)
  {
    hide PackInv, SealedToc, H.PathsStripped, Clamped, FinishedAs, TocImage;
    var padded, plain, stored := FinishParts(env, st, key, f);
    PackInvSizes(env, st, files);
    TocPathTotals(env, st, files);
    ImageLength(TocEntries(st), PathsOf(TocEntries(st)), st.chunks);
  }

  lemma TocPathTotals(env: Env, st: PackState, files: seq<InputFile>)
    requires PackInv(env, st, files)
    ensures |files| <= NameBytes(files)
    ensures PathBytesTotal(PathsOf(TocEntries(st))) ==
            if st.options.mode.Production? then 0 else NameBytes(files)
  {
    hide ChunksInv, PackInv;
    PackInvSizes(env, st, files);
    forall i | 0 <= i < |files|
      ensures st.entries[i].path == NameOf(files[i]) != []
    {
      EntryNames(env, st, files, i);
    }
    PathTotals(st.entries, files);
    if st.options.mode.Production? {
      NoPaths(TocEntries(st));
    }
  }

  lemma PackedTableAccepted(env: Env, st: PackState, files: seq<InputFile>, rules: TocRules)
    requires PackInv(env, st, files)
    requires rules.stripped == st.options.mode.Production?
    requires forall i :: 0 <= i < |files| ==> |files[i].1| <= rules.maxSingleAsset
    requires !rules.stripped ==>
               && NameBytes(files) <= rules.maxTotalPathBytes
               && forall i :: 0 <= i < |files| ==> |NameOf(files[i])| <= rules.maxPathBytes
    ensures TableAccepted(env, rules, TocEntries(st), PathsOf(TocEntries(st)), 0)
  {
    hide PackInv, NameOf, TocEntries, Normalize, IsUtf8;
    PackInvSizes(env, st, files);
    forall i | 0 <= i < |files|
      ensures EntryAccepted(env, rules, TocEntries(st)[i], PathsOf(TocEntries(st))[i])
    {
      EntryNames(env, st, files, i);
      TocEntryAt(st, i);
      PathAt(TocEntries(st), i);
    }
    TocPathTotals(env, st, files);
  }

  lemma PlainTocOf(env: Env, st: PackState, key: bytes, f: Finished, plain: bytes, stored: bytes)
    requires env.Lawful() && key != [] && SealedToc(env, st, key, plain) == Ok(stored)
    requires st.aeadKey == AeadKeyOf(env, st.options.protection, key)
    requires H.ProtectionOf(f.header) == st.options.protection
    requires f.header.tocRawSize == |plain| && f.header.tocHash == env.xxh3(plain)
    ensures PlainToc(env, f.header, key, stored) == Ok(plain)
  {
    hide H.ProtectionOf;
    match st.options.protection {
      case Xor => XorKeyTwice(env.lz4Encode(plain), key);
      case Aead => DecryptUndoesEncrypt(env, env.lz4Encode(plain), env.deriveKey(key), TOC_AAD, |st.chunks|);
    }
  }

  /** Opening a packed archive decodes exactly the packer's tables. */
  lemma PackedTablesOpen(env: Env, st: PackState, files: seq<InputFile>, key: bytes,
                         f: Finished, limits: ArchiveLimits)
    requires env.Lawful() && PackInv(env, st, files) && FinishedAs(env, st, key, f)
    requires st.aeadKey == AeadKeyOf(env, st.options.protection, key)
    requires WithinLimits(env, st, files, f.header, Clamped(limits))
    ensures |f.disk| >= HEADER_SIZE
    ensures OpenTables(env, ImageOf(f), key, limits) == Ok(Tables(f.header, TocEntries(st), st.chunks))
  {
    hide PackInv, EncodedToc, SealedToc, TocEntries, H.HeaderBytes, Clamped, FinishedAs, PlainToc,
         DecodedToc, CheckedHeader, H.PathsStripped, H.ProtectionOf, CheckTocRange, ReadSlice, ImageOf,
         WithinLimits, Flags, Padded, TocRulesOf;
    var padded, plain, stored := FinishParts(env, st, key, f);
    HeaderReads(env, st, files, key, f, limits);
    PackInvSizes(env, st, files);
    NonEmptyKey(env, st, key, f);
    StoredTocReads(f, padded, stored);
    PlainTocOf(env, st, key, f, plain, stored);
    DecodesPacked(env, st, files, f.header, limits, plain);
  }

  lemma StoredTocReads(f: Finished, padded: bytes, stored: bytes)
    requires f.disk == padded + stored && HEADER_SIZE <= |padded| && |padded| + |stored| < POW64
    requires f.header.tocOffset == |padded| && f.header.tocSize == |stored|
    requires f.header.alignment > 0 && |padded| % f.header.alignment == 0
    ensures CheckTocRange(f.header, |ImageOf(f)|) == Ok(Unit)
    ensures ReadSlice(ImageOf(f), f.header.tocOffset, f.header.tocSize) == Ok(stored)
  {
    hide H.HeaderBytes, H.Numbers, H.ProtectionOf, H.PathsStripped;
    BehindHeader(H.HeaderBytes(f.header), f.disk, |padded|, |padded| + |stored|);
    assert (padded + stored)[|padded|..|padded| + |stored|] == stored;
  }

  lemma NonEmptyKey(env: Env, st: PackState, key: bytes, f: Finished)
    requires FinishedAs(env, st, key, f)
    ensures key != []
  {
  }

  lemma DecodesPacked(env: Env, st: PackState, files: seq<InputFile>, h: H.Header,
                      limits: ArchiveLimits, plain: bytes)
    requires PackInv(env, st, files) && WithinLimits(env, st, files, h, Clamped(limits))
    requires H.PathsStripped(h) == st.options.mode.Production?
    requires EncodedToc(TocEntries(st), st.chunks) == Ok(plain)
    requires h.entryCount == |st.entries| && h.chunkCount == |st.chunks|
    ensures DecodedToc(env, plain, h.entryCount, h.chunkCount, TocRulesOf(h, Clamped(limits))) ==
            Ok((TocEntries(st), st.chunks))
  {
    hide PackInv, TocEntries, H.PathsStripped, Clamped, TocImage, TableAccepted, DecodedToc;
    var rules := TocRulesOf(h, Clamped(limits));
    PackInvSizes(env, st, files);
    PackedTableAccepted(env, st, files, rules);
    DecodeOfImage(env, rules, TocEntries(st), PathsOf(TocEntries(st)), st.chunks);
  }

  /** Packer output is always legal: within the limits, opening accepts it. */
  lemma PackedArchiveOpens(env: Env, st: PackState, files: seq<InputFile>, key: bytes,
                           f: Finished, limits: ArchiveLimits)
    requires env.Lawful() && PackInv(env, st, files) && FinishedAs(env, st, key, f)
    requires st.aeadKey == AeadKeyOf(env, st.options.protection, key)
    requires WithinLimits(env, st, files, f.header, Clamped(limits))
    ensures |f.disk| >= HEADER_SIZE && Accepts(env, ImageOf(f), key, limits)
  {
    hide PackInv, TocEntries, FinishedAs, OpenTables, LegalTables, LegalBuckets, EncodedToc, SealedToc,
         H.PathsStripped, H.ProtectionOf, Clamped;
    var padded, plain, stored := FinishParts(env, st, key, f);
    PackedTablesOpen(env, st, files, key, f, limits);
    HeaderReads(env, st, files, key, f, limits);
    PackInvSizes(env, st, files);
    PackedTablesAreLegal(env, st, files, LayoutRulesOf(f.header, Clamped(limits)));
    PackedBuckets(env, st, files);
  }

  // ---- the limits are the only obstacle --------------------------------------------

  lemma HeaderOfImage(env: Env, st: PackState, key: bytes, f: Finished, limits: ArchiveLimits)
    requires FinishedAs(env, st, key, f) && ValidOptions(st.options) && |f.disk| >= HEADER_SIZE
    requires CheckedHeader(env, ImageOf(f), limits).Ok?
    ensures CheckedHeader(env, ImageOf(f), limits) == Ok(f.header)
    ensures ValidateLimits(env, f.header, Clamped(limits)).Ok?
  {
    hide FinishedAs, H.HeaderBytes, H.ReadHeader, H.ValidateHeader, ValidateLimits, Clamped;
    H.HeaderRoundTrip(f.header);
    assert ImageOf(f)[0..HEADER_SIZE] == H.HeaderBytes(f.header);
  }

  /** Rules that accept every table a packer can produce. */
  function LaxRules(stripped: bool): TocRules {
    TocRules(stripped, MAX_PATH_LEN, NO_LIMIT, NO_LIMIT)
  }

  lemma PackedUnderLaxRules(env: Env, st: PackState, files: seq<InputFile>)
    requires PackInv(env, st, files) && EncodedToc(TocEntries(st), st.chunks).Ok?
    ensures TableAccepted(env, LaxRules(st.options.mode.Production?), TocEntries(st), PathsOf(TocEntries(st)), 0)
  {
    hide PackInv, TocEntries, TableAccepted, NameOf;
    PackInvSizes(env, st, files);
    TocPathTotals(env, st, files);
    forall i | 0 <= i < |files|
      ensures |files[i].1| < POW64 && |NameOf(files[i])| <= MAX_PATH_LEN
    {
      EntryNames(env, st, files, i);
    }
    PackedTableAccepted(env, st, files, LaxRules(st.options.mode.Production?));
  }

  /** What acceptance of the packer's own table says about the assets. */
  lemma AcceptedTableLimits(env: Env, st: PackState, files: seq<InputFile>, rules: TocRules)
    requires PackInv(env, st, files) && rules.stripped == st.options.mode.Production?
    requires TableAccepted(env, rules, TocEntries(st), PathsOf(TocEntries(st)), 0)
    ensures forall i :: 0 <= i < |files| ==> |files[i].1| <= rules.maxSingleAsset
    ensures !rules.stripped ==> NameBytes(files) <= rules.maxTotalPathBytes
    ensures !rules.stripped ==> forall i :: 0 <= i < |files| ==> |NameOf(files[i])| <= rules.maxPathBytes
  {
    hide PackInv, TocEntries, NameOf, PathsOf;
    PackInvSizes(env, st, files);
    TocPathTotals(env, st, files);
    forall i | 0 <= i < |files|
      ensures |files[i].1| <= rules.maxSingleAsset
      ensures !rules.stripped ==> |NameOf(files[i])| <= rules.maxPathBytes
    {
      EntryNames(env, st, files, i);
      TocEntryAt(st, i);
      PathAt(TocEntries(st), i);
      assert EntryAccepted(env, rules, TocEntries(st)[i], PathsOf(TocEntries(st))[i]);
    }
  }

  lemma TotalsOfPacked(env: Env, st: PackState, files: seq<InputFile>, p: Rules)
    requires PackInv(env, st, files) && p.alignment > 0 && LegalTables(TocEntries(st), st.chunks, p)
    ensures TotalData(files) <= p.maxTotal
  {
    hide PackInv, AllRaws, LegalChunk;
    PackInvSizes(env, st, files);
    var raws := AllRaws(files, st.options.chunkSize);
    OriginalsAreLengths(env, st, raws);
    LengthsSum(raws);
    AllRawsTotal(files, st.options.chunkSize);
  }

  /** Opening accepts the output of a packer run if and only if it is within the limits. */
  lemma PackedArchiveOpensExactly(env: Env, st: PackState, files: seq<InputFile>, key: bytes,
                                  f: Finished, limits: ArchiveLimits)
    requires env.Lawful() && PackInv(env, st, files) && FinishedAs(env, st, key, f)
    requires st.aeadKey == AeadKeyOf(env, st.options.protection, key)
    ensures |f.disk| >= HEADER_SIZE
    ensures Accepts(env, ImageOf(f), key, limits) <==>
            WithinLimits(env, st, files, f.header, limits) && WithinLimits(env, st, files, f.header, HARD_LIMITS)
    ensures Accepts(env, ImageOf(f), key, limits) ==> WithinLimits(env, st, files, f.header, Clamped(limits))
  {
    hide PackInv, TocEntries, FinishedAs, OpenTables, LegalTables, LegalBuckets, EncodedToc, SealedToc,
         H.PathsStripped, H.ProtectionOf, Clamped, WithinLimits, Accepts, ImageOf, Flags;
    var padded, plain, stored := FinishParts(env, st, key, f);
    BothLimits(env, st, files, f.header, limits);
    if WithinLimits(env, st, files, f.header, Clamped(limits)) {
      PackedArchiveOpens(env, st, files, key, f, limits);
    }
    if Accepts(env, ImageOf(f), key, limits) {
      AcceptedIsWithin(env, st, files, key, f, limits);
    }
  }

  lemma AcceptedIsWithin(env: Env, st: PackState, files: seq<InputFile>, key: bytes,
                         f: Finished, limits: ArchiveLimits)
    requires env.Lawful() && PackInv(env, st, files) && FinishedAs(env, st, key, f)
    requires st.aeadKey == AeadKeyOf(env, st.options.protection, key)
    requires |f.disk| >= HEADER_SIZE && Accepts(env, ImageOf(f), key, limits)
    ensures WithinLimits(env, st, files, f.header, Clamped(limits))
  {
    hide PackInv, TocEntries, FinishedAs, LegalTables, LegalBuckets, TableAccepted, EncodedToc, SealedToc,
         H.PathsStripped, H.ProtectionOf, Clamped, ImageOf, Flags, CheckedHeader, OpenTables;
    var h, l := f.header, Clamped(limits);
    PackInvSizes(env, st, files);
    DecodedIsPacked(env, st, files, key, f, limits);
    TotalsOfPacked(env, st, files, LayoutRulesOf(h, l));
    AcceptedTableLimits(env, st, files, TocRulesOf(h, l));
    LimitsChecked(env, h, l);
    if st.options.mode.Debug? {
      DebugBuckets(st);
    }
  }

  lemma LimitsChecked(env: Env, h: H.Header, l: ArchiveLimits)
    requires ValidateLimits(env, h, l).Ok?
    ensures h.tocSize <= l.maxTocStoredBytes && h.tocRawSize <= l.maxTocRawBytes
    ensures h.entryCount <= l.maxEntries && h.chunkCount <= l.maxChunks
    ensures EstimatedMetadata(env, h) <= l.maxMetadataBytes
  {
  }

  lemma DebugBuckets(st: PackState)
    requires st.options.mode.Debug? && LegalBuckets(TocEntries(st), false)
    ensures forall hash: u64 :: |Bucket(st.entries, hash)| <= MAX_BUCKET
  {
  }

  /** If opening gets as far as tables, they are the packer's. */
  lemma DecodedIsPacked(env: Env, st: PackState, files: seq<InputFile>, key: bytes,
                        f: Finished, limits: ArchiveLimits)
    requires env.Lawful() && PackInv(env, st, files) && FinishedAs(env, st, key, f)
    requires st.aeadKey == AeadKeyOf(env, st.options.protection, key)
    requires |f.disk| >= HEADER_SIZE && OpenTables(env, ImageOf(f), key, limits).Ok?
    ensures OpenTables(env, ImageOf(f), key, limits) == Ok(Tables(f.header, TocEntries(st), st.chunks))
    ensures f.header.alignment > 0 && ValidateLimits(env, f.header, Clamped(limits)).Ok?
    ensures H.PathsStripped(f.header) == st.options.mode.Production?
    ensures TableAccepted(env, TocRulesOf(f.header, Clamped(limits)), TocEntries(st), PathsOf(TocEntries(st)), 0)
  {
    hide PackInv, TocEntries, FinishedAs, EncodedToc, SealedToc, H.PathsStripped, H.ProtectionOf, Clamped,
         ImageOf, Flags, CheckedHeader, TableAccepted, PlainToc, DecodedToc, CheckTocRange, ReadSlice;
    var padded, plain, stored := FinishParts(env, st, key, f);
    PackInvSizes(env, st, files);
    HeaderOfImage(env, st, key, f, limits);
    HeaderModes(st, f.header);
    NonEmptyKey(env, st, key, f);
    StoredTocReads(f, padded, stored);
    PlainTocOf(env, st, key, f, plain, stored);
    PackedUnderLaxRules(env, st, files);
    EncodedIsImage(TocEntries(st), st.chunks);
    EncodedAcceptedExactly(env, LaxRules(st.options.mode.Production?), TocRulesOf(f.header, Clamped(limits)),
                           TocEntries(st), st.chunks);
  }

  lemma EncodedIsImage(entries: seq<TocEntry>, chunks: seq<Chunk>)
    requires EncodedToc(entries, chunks).Ok?
    ensures EncodedToc(entries, chunks) == Ok(TocImage(entries, PathsOf(entries), chunks))
  {
  }

  lemma HeaderModes(st: PackState, h: H.Header)
    requires h.flags == Flags(st.options)
    ensures H.PathsStripped(h) == st.options.mode.Production?
    ensures H.ProtectionOf(h) == st.options.protection
  {
    hide Flags, Bits.BitAnd;
    FlagBits(st.options);
  }

  /** Output that was never finished is no archive. */
  lemma UnfinishedIsRejected(env: Env, disk: bytes, key: bytes, limits: ArchiveLimits)
    requires ZeroHeader(disk) && key != []
    ensures OpenTables(env, disk, key, limits) == Err(BadMagic)
  {
    hide H.ReadHeader;
    assert disk[0..HEADER_SIZE] == disk[..HEADER_SIZE];
    assert disk[..HEADER_SIZE][0] == Zeros(HEADER_SIZE)[0];
    H.ZeroHeaderIsRejected(disk[..HEADER_SIZE]);
  }

  // ---- reading back ----------------------------------------------------------------

  /** `a` is a packed archive, opened. */
  ghost predicate Reopened(env: Env, st: PackState, files: seq<InputFile>, key: bytes, f: Finished,
                           limits: ArchiveLimits, a: Archive)
  {
    && PackInv(env, st, files) && FinishedAs(env, st, key, f)
    && st.aeadKey == AeadKeyOf(env, st.options.protection, key)
    && WithinLimits(env, st, files, f.header, Clamped(limits))
    && |f.disk| >= HEADER_SIZE && OpensAs(env, ImageOf(f), key, limits, a)
  }

  lemma ReopenedFields(env: Env, st: PackState, files: seq<InputFile>, key: bytes, f: Finished,
                       limits: ArchiveLimits, a: Archive)
    requires env.Lawful() && Reopened(env, st, files, key, f, limits, a)
    ensures a.source == ImageOf(f) && a.entries == TocEntries(st) && a.chunks == st.chunks
    ensures a.chunkSize == st.options.chunkSize && a.aeadKey == st.aeadKey
    ensures a.pathsStripped == st.options.mode.Production?
    ensures a.maxChunksPerOperation == OperationLimit(limits)
    ensures WellFormed(env, a)
    ensures |st.disk| <= |f.disk| && f.disk[..|st.disk|] == st.disk
  {
    hide PackInv, FinishedAs, TocEntries, OpenTables, LegalTables, LegalBuckets, EncodedToc, SealedToc,
         H.PathsStripped, H.ProtectionOf, Clamped, WellFormed, ImageOf, WithinLimits;
    var padded, plain, stored := FinishParts(env, st, key, f);
    PackedTablesOpen(env, st, files, key, f, limits);
    HeaderReads(env, st, files, key, f, limits);
    OpenedIsWellFormed(env, ImageOf(f), key, limits, a);
    ClampedIsLower(limits);
    DiskKept(env, st, key, f);
  }

  /** Finishing appends. */
  lemma DiskKept(env: Env, st: PackState, key: bytes, f: Finished)
    requires FinishedAs(env, st, key, f)
    ensures |st.disk| <= |f.disk| && f.disk[..|st.disk|] == st.disk
  {
    hide FinishedAs, SealedToc, EncodedToc, TocEntries, Flags;
    var padded, plain, stored := FinishParts(env, st, key, f);
    assert f.disk[..|st.disk|] == padded[..|st.disk|];
  }

  /** The header rewrite leaves every chunk where it was, and the reader uses the same chunk
      index as associated data: chunk k reads back as piece k. */
  lemma ChunkReadsBack(env: Env, st: PackState, files: seq<InputFile>, key: bytes, f: Finished,
                       limits: ArchiveLimits, a: Archive, asset: Label, local: u32, k: u32)
    requires env.Lawful() && Reopened(env, st, files, key, f, limits, a)
    requires k < |a.chunks| && a.maxChunksPerOperation >= 1 && st.options.chunkSize > 0
    ensures |AllRaws(files, st.options.chunkSize)| == |a.chunks|
    ensures ChunkData(env, a, asset, local, k) == Ok(AllRaws(files, st.options.chunkSize)[k])
  {
    hide PackInv, Reopened, Decoded, WellFormed, LegalChunks, AllRaws, ChunksInv, ImageOf, TocEntries;
    ReopenedFields(env, st, files, key, f, limits, a);
    ReopenedInv(env, st, files, key, f, limits, a);
    PackInvSizes(env, st, files);
    var raws := AllRaws(files, st.options.chunkSize);
    ChunkFacts(env, st, raws, k);
    var c := st.chunks[k];
    BlockUntouched(f, st.disk, c.offset, End(c));
  }

  lemma ReopenedInv(env: Env, st: PackState, files: seq<InputFile>, key: bytes, f: Finished,
                    limits: ArchiveLimits, a: Archive)
    requires Reopened(env, st, files, key, f, limits, a)
    ensures PackInv(env, st, files)
  {
  }

  lemma BlockUntouched(f: Finished, disk: bytes, lo: nat, hi: nat)
    requires HEADER_SIZE <= lo <= hi <= |disk| <= |f.disk| && f.disk[..|disk|] == disk
    ensures ImageOf(f)[lo..hi] == disk[lo..hi]
  {
    SliceOfPrefix(f.disk, |disk|, lo, hi);
    BehindHeader(H.HeaderBytes(f.header), f.disk, lo, hi);
  }

  lemma BehindHeader(head: bytes, disk: bytes, lo: nat, hi: nat)
    requires |head| <= lo <= hi <= |disk|
    ensures (head + disk[|head|..])[lo..hi] == disk[lo..hi]
  {
  }

  lemma {:induction false} PiecesReadBack(env: Env, st: PackState, files: seq<InputFile>, key: bytes, f: Finished,
                       limits: ArchiveLimits, a: Archive, asset: Label, i: nat, n: nat)
    requires env.Lawful() && Reopened(env, st, files, key, f, limits, a)
    requires i < |files| == |a.entries| && EntryOf(a, a.entries[i]) && st.options.chunkSize > 0
    requires n <= a.entries[i].chunkCount && (n > 0 ==> a.maxChunksPerOperation >= 1)
    ensures n <= |Cut(files[i].1, st.options.chunkSize)|
    ensures ChunksData(env, a, asset, a.entries[i], 0, n) ==
            Ok(Flatten(Cut(files[i].1, st.options.chunkSize)[..n]))
  {
    hide Reopened, ChunkData, WellFormed, PackInv, AllRaws, Cut, PiecesAt;
    var s := st.options.chunkSize;
    var cut, e := Cut(files[i].1, s), a.entries[i];
    EntryPieces(env, st, files, key, f, limits, a, i);
    if n > 0 {
      PiecesReadBack(env, st, files, key, f, limits, a, asset, i, n - 1);
      ChunkReadsBack(env, st, files, key, f, limits, a, asset, n - 1, e.firstChunk + n - 1);
      PieceIs(AllRaws(files, s), e.firstChunk, cut, n - 1);
      FlattenSnoc(cut[..n - 1], cut[n - 1]);
      assert cut[..n] == cut[..n - 1] + [cut[n - 1]];
    }
  }

  lemma EntryPieces(env: Env, st: PackState, files: seq<InputFile>, key: bytes, f: Finished,
                    limits: ArchiveLimits, a: Archive, i: nat)
    requires env.Lawful() && Reopened(env, st, files, key, f, limits, a)
    requires i < |files| == |a.entries| && st.options.chunkSize > 0
    ensures var cut, raws := Cut(files[i].1, st.options.chunkSize), AllRaws(files, st.options.chunkSize);
            a.entries[i].chunkCount == |cut| && PiecesAt(raws, a.entries[i].firstChunk, cut)
  {
    hide Reopened, WellFormed, PackInv, ChunksInv, TocEntries, AllRaws, Cut, PiecesAt;
    ReopenedFields(env, st, files, key, f, limits, a);
    ReopenedInv(env, st, files, key, f, limits, a);
    PackInvSizes(env, st, files);
    FirstChunkAt(env, st, files, i);
    TocEntryAt(st, i);
    RawsOfFile(files, i, st.options.chunkSize);
  }

  /** Entry i of a reopened archive holds asset i; only the operation limit can refuse it. */
  lemma AssetReadsBack(env: Env, st: PackState, files: seq<InputFile>, key: bytes, f: Finished,
                       limits: ArchiveLimits, a: Archive, asset: Label, i: nat)
    requires env.Lawful() && Reopened(env, st, files, key, f, limits, a) && i < |files|
    ensures i < |a.entries| && EntryOf(a, a.entries[i]) && st.options.chunkSize > 0
    ensures EntryData(env, a, asset, i) ==
            if CeilDiv(|files[i].1|, st.options.chunkSize) <= a.maxChunksPerOperation
            then Ok(files[i].1) else Err(TooManyChunks)
  {
    hide Reopened, ChunksData, WellFormed, PackInv, TocEntries, CeilDiv, AllRaws, Cut, PiecesAt, EntryOf;
    ReopenedSizes(env, st, files, key, f, limits, a);
    EntryIsLegal(env, a, i);
    EntryPieces(env, st, files, key, f, limits, a, i);
    CutCount(files[i].1, st.options.chunkSize);
    if a.entries[i].chunkCount <= a.maxChunksPerOperation {
      AllPiecesReadBack(env, st, files, key, f, limits, a, asset, i);
    }
  }

  lemma ReopenedSizes(env: Env, st: PackState, files: seq<InputFile>, key: bytes, f: Finished,
                      limits: ArchiveLimits, a: Archive)
    requires env.Lawful() && Reopened(env, st, files, key, f, limits, a)
    ensures WellFormed(env, a) && st.options.chunkSize > 0 && |files| == |a.entries|
  {
    hide Reopened, WellFormed, PackInv, TocEntries;
    ReopenedFields(env, st, files, key, f, limits, a);
    ReopenedInv(env, st, files, key, f, limits, a);
    PackInvSizes(env, st, files);
  }

  lemma AllPiecesReadBack(env: Env, st: PackState, files: seq<InputFile>, key: bytes, f: Finished,
                          limits: ArchiveLimits, a: Archive, asset: Label, i: nat)
    requires env.Lawful() && Reopened(env, st, files, key, f, limits, a)
    requires i < |files| == |a.entries| && EntryOf(a, a.entries[i]) && st.options.chunkSize > 0
    requires a.entries[i].chunkCount > 0 ==> a.maxChunksPerOperation >= 1
    ensures ChunksData(env, a, asset, a.entries[i], 0, a.entries[i].chunkCount) == Ok(files[i].1)
  {
    hide Reopened, ChunksData, AllRaws, Cut, Flatten, PiecesAt, EntryOf;
    var cut := Cut(files[i].1, st.options.chunkSize);
    EntryPieces(env, st, files, key, f, limits, a, i);
    PiecesReadBack(env, st, files, key, f, limits, a, asset, i, |cut|);
    assert cut[..|cut|] == cut;
    FlattenCut(files[i].1, st.options.chunkSize);
  }

  /** Asset i answers to a normalized path: by name in debug mode, by hash in production. */
  ghost predicate Answers(env: Env, mode: PackMode, f: InputFile, name: bytes) {
    if mode.Production? then env.xxh3(NameOf(f)) == env.xxh3(name) else NameOf(f) == name
  }

  lemma PackedNames(env: Env, st: PackState, files: seq<InputFile>, name: bytes, i: nat)
    requires PackInv(env, st, files)
    ensures Names(env, TocEntries(st), st.options.mode.Production?, name, i) <==>
            i < |files| && Answers(env, st.options.mode, files[i], name)
  {
    hide ChunksInv, PackInv, TocEntries;
    PackInvSizes(env, st, files);
    if i < |files| {
      EntryNames(env, st, files, i);
      TocEntryAt(st, i);
    }
  }

  /** The archive is the map it was packed from. For every path: an invalid one is refused,
      one that no asset answers to is not found, and otherwise exactly one asset answers and
      reading returns its bytes, unless it has more chunks than one operation may decode. */
  lemma EndToEnd(env: Env, st: PackState, files: seq<InputFile>, key: bytes, f: Finished,
                 limits: ArchiveLimits, a: Archive, path: bytes)
    requires env.Lawful() && Reopened(env, st, files, key, f, limits, a)
    ensures WellFormed(env, a) && st.options.chunkSize > 0
    ensures Normalize(path).Err? ==> ReadResult(env, a, path) == Err(InvalidPath)
    ensures Normalize(path).Ok? ==>
              var name := Normalize(path).value;
              && ((forall i :: 0 <= i < |files| ==> !Answers(env, st.options.mode, files[i], name)) ==>
                    ReadResult(env, a, path) == Err(NotFound(ByPath(name))))
              && (forall i :: 0 <= i < |files| && Answers(env, st.options.mode, files[i], name) ==>
                    ReadResult(env, a, path) ==
                    if CeilDiv(|files[i].1|, st.options.chunkSize) <= a.maxChunksPerOperation
                    then Ok(files[i].1) else Err(TooManyChunks))
  {
    hide Reopened, ReadResult, EntryData, WellFormed, PackInv, TocEntries, CeilDiv, Answers, Names,
         Normalize, AllRaws;
    ReopenedFields(env, st, files, key, f, limits, a);
    ReopenedInv(env, st, files, key, f, limits, a);
    PackInvSizes(env, st, files);
    ReadByName(env, a, path);
    if Normalize(path).Ok? {
      var name := Normalize(path).value;
      forall i: nat
        ensures Names(env, a.entries, a.pathsStripped, name, i) <==>
                i < |files| && Answers(env, st.options.mode, files[i], name)
      {
        PackedNames(env, st, files, name, i);
      }
      forall i | 0 <= i < |files| && Answers(env, st.options.mode, files[i], name)
        ensures ReadResult(env, a, path) ==
                if CeilDiv(|files[i].1|, st.options.chunkSize) <= a.maxChunksPerOperation
                then Ok(files[i].1) else Err(TooManyChunks)
      {
        AssetReadsBack(env, st, files, key, f, limits, a, ByPath(name), i);
      }
    }
  }

  /** A read succeeds or fails with the entry its path names. */
  lemma ReadByName(env: Env, a: Archive, path: bytes)
    requires WellFormed(env, a)
    ensures Normalize(path).Err? ==> ReadResult(env, a, path) == Err(InvalidPath)
    ensures Normalize(path).Ok? ==>
              var name := Normalize(path).value;
              && ((forall i: nat :: !Names(env, a.entries, a.pathsStripped, name, i)) ==>
                    ReadResult(env, a, path) == Err(NotFound(ByPath(name))))
              && (forall i: nat :: Names(env, a.entries, a.pathsStripped, name, i) ==>
                    && i < |a.entries| && EntryOf(a, a.entries[i])
                    && ReadResult(env, a, path) == EntryData(env, a, ByPath(name), i))
  {
    hide EntryData, WellFormed, FindNormalized, Acceptable;
    if Normalize(path).Ok? {
      LookupIn(env, a, Normalize(path).value);
      forall i: nat | i < |a.entries|
        ensures EntryOf(a, a.entries[i])
      {
        EntryIsLegal(env, a, i);
      }
    }
  }

  /** Packing, opening and reading, end to end: for any files, options, key and limits, if the
      run and its end succeed, the archive opens exactly when it is within the limits, and
      every archive opened from it is the map from names to bytes that was packed. */
  lemma PackOpenRead(env: Env, options: PackOptions, key: bytes, files: seq<InputFile>,
                     st: PackState, f: Finished, limits: ArchiveLimits)
    requires env.Lawful() && ValidOptions(options) && key != []
    requires PackRun(env, Initial(options, AeadKeyOf(env, options.protection, key)), files) == Ok(st)
    requires Finish(env, st, key) == Ok(f)
    ensures |f.disk| >= HEADER_SIZE
    ensures Accepts(env, ImageOf(f), key, limits) <==>
            WithinLimits(env, st, files, f.header, limits) && WithinLimits(env, st, files, f.header, HARD_LIMITS)
    ensures forall a, path, i ::
              OpensAs(env, ImageOf(f), key, limits, a) && 0 <= i < |files| && Normalize(path).Ok?
              && Answers(env, options.mode, files[i], Normalize(path).value) ==>
                WellFormed(env, a)
                && ReadResult(env, a, path) ==
                   if CeilDiv(|files[i].1|, options.chunkSize) <= OperationLimit(limits)
                   then Ok(files[i].1) else Err(TooManyChunks)
    ensures forall a, path ::
              OpensAs(env, ImageOf(f), key, limits, a) && Normalize(path).Ok?
              && (forall i :: 0 <= i < |files| ==>
                    !Answers(env, options.mode, files[i], Normalize(path).value)) ==>
                WellFormed(env, a)
                && ReadResult(env, a, path) == Err(NotFound(ByPath(Normalize(path).value)))
  {
    hide PackRun, Finish, Accepts, WithinLimits, OpensAs, WellFormed, ReadResult, Answers, PackInv,
         Normalize, CeilDiv, Clamped, ImageOf;
    RunKeeps(env, options, AeadKeyOf(env, options.protection, key), files);
    PackedArchiveOpensExactly(env, st, files, key, f, limits);
    forall a, path | OpensAs(env, ImageOf(f), key, limits, a)
      ensures WellFormed(env, a)
      ensures Normalize(path).Ok? ==>
                forall i :: 0 <= i < |files| && Answers(env, options.mode, files[i], Normalize(path).value) ==>
                  ReadResult(env, a, path) ==
                  if CeilDiv(|files[i].1|, options.chunkSize) <= OperationLimit(limits)
                  then Ok(files[i].1) else Err(TooManyChunks)
      ensures Normalize(path).Ok?
              && (forall i :: 0 <= i < |files| ==>
                    !Answers(env, options.mode, files[i], Normalize(path).value)) ==>
                ReadResult(env, a, path) == Err(NotFound(ByPath(Normalize(path).value)))
    {
      OpenedFromPacked(env, st, files, key, f, limits, a);
      EndToEnd(env, st, files, key, f, limits, a, path);
      ReopenedFields(env, st, files, key, f, limits, a);
    }
  }

  lemma OpenedFromPacked(env: Env, st: PackState, files: seq<InputFile>, key: bytes, f: Finished,
                         limits: ArchiveLimits, a: Archive)
    requires env.Lawful() && PackInv(env, st, files) && FinishedAs(env, st, key, f)
    requires st.aeadKey == AeadKeyOf(env, st.options.protection, key)
    requires |f.disk| >= HEADER_SIZE && OpensAs(env, ImageOf(f), key, limits, a)
    ensures Reopened(env, st, files, key, f, limits, a)
  {
    hide PackInv, FinishedAs, Accepts, WithinLimits;
    PackedArchiveOpensExactly(env, st, files, key, f, limits);
  }
}
