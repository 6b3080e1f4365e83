/** The public read operations, the laws between them, and verification. */
module Access {
  import opened Prelude
  import opened Path
  import opened Layout
  import opened Index
  import opened Archive
  import opened Reader

  // ---- what each operation returns -------------------------------------------------

  /** The normal form of a path and the entry it names. */
  function Located(env: Env, a: Archive, path: bytes): (r: Result<(bytes, nat)>)
    requires WellFormed(env, a)
    ensures r.Ok? ==> r.value.1 < |a.entries| && EntryOf(a, a.entries[r.value.1])
    ensures r.Ok? ==> Normalize(path) == Ok(r.value.0)
    ensures r.Ok? ==> Names(env, a.entries, a.pathsStripped, r.value.0, r.value.1)
  {
    var n :- Normalize(path);
    var i :- FindNormalized(env, a.entries, a.index, a.pathsStripped, n);
    LookupIsLinearScan(env, a.entries, a.index, a.pathsStripped, n);
    EntryIsLegal(env, a, i);
    Ok((n, i))
  }

  function ReadResult(env: Env, a: Archive, path: bytes): Result<bytes>
    requires WellFormed(env, a)
  {
    var at :- Located(env, a, path);
    EntryData(env, a, ByPath(at.0), at.1)
  }

  /** The label under which an entry is reported when no path was given. */
  function OwnLabel(a: Archive, i: nat): Label
    requires i < |a.entries|
  {
    if a.pathsStripped then ByHash(a.entries[i].pathHash) else ByPath(a.entries[i].path)
  }

  function ReadByIdResult(env: Env, a: Archive, id: u64): Result<bytes>
    requires WellFormed(env, a)
  {
    var i :- FindById(a.entries, a.index, id);
    IndexEntries(a.index, a.entries);
    EntryIsLegal(env, a, i);
    EntryData(env, a, OwnLabel(a, i), i)
  }

  function ReadChunkResult(env: Env, a: Archive, path: bytes, local: u32): Result<bytes>
    requires WellFormed(env, a)
  {
    var at :- Located(env, a, path);
    var e := a.entries[at.1];
    if local >= e.chunkCount then Err(ChunkOutOfRange(local, e.chunkCount))
    else ChunkData(env, a, ByPath(at.0), local, e.firstChunk + local)
  }

  /** A buffer of n bytes is what the asset needs; otherwise it is left alone. */
  predicate AssetFits(env: Env, a: Archive, path: bytes, n: nat)
    requires WellFormed(env, a)
  {
    var at := Located(env, a, path);
    at.Ok? && n == a.entries[at.value.1].originalSize
  }

  function ReadIntoResult(env: Env, a: Archive, path: bytes, n: nat): Result<bytes>
    requires WellFormed(env, a)
  {
    var at :- Located(env, a, path);
    var e := a.entries[at.1];
    if AssetFits(env, a, path, n) then ReadResult(env, a, path)
    else if e.chunkCount > a.maxChunksPerOperation then Err(TooManyChunks)
    else Err(BufferSizeMismatch(e.originalSize, n))
  }

  predicate ChunkFits(env: Env, a: Archive, path: bytes, local: u32, n: nat)
    requires WellFormed(env, a)
  {
    var at := Located(env, a, path);
    at.Ok? &&
    var e := a.entries[at.value.1];
    local < e.chunkCount && n == a.chunks[e.firstChunk + local].originalSize
  }

  function ReadChunkIntoResult(env: Env, a: Archive, path: bytes, local: u32, n: nat): Result<bytes>
    requires WellFormed(env, a)
  {
    var at :- Located(env, a, path);
    var e := a.entries[at.1];
    if local >= e.chunkCount then Err(ChunkOutOfRange(local, e.chunkCount))
    else if ChunkFits(env, a, path, local, n) then ReadChunkResult(env, a, path, local)
    else if a.maxChunksPerOperation < 1 then Err(TooManyChunks)
    else Err(BufferSizeMismatch(a.chunks[e.firstChunk + local].originalSize, n))
  }

  lemma RangeLenBounds(a: Archive, i: nat, offset: u64, len: u64, exact: bool)
    requires i < |a.entries| && a.chunkSize > 0
    ensures RangeLen(a, i, offset, len, exact).Ok? ==>
              && RangeLen(a, i, offset, len, exact).value <= len
              && offset + RangeLen(a, i, offset, len, exact).value <= a.entries[i].originalSize
  {
  }

  /** How many bytes of a buffer of `len` bytes a clipped range read can touch. */
  function RangeSize(env: Env, a: Archive, path: bytes, offset: u64, len: u64): (n: nat)
    requires WellFormed(env, a)
    ensures n <= len
  {
    match Located(env, a, path)
    case Err(_) => 0
    case Ok(at) =>
      EntryIsLegal(env, a, at.1);
      RangeLenBounds(a, at.1, offset, len, false);
      match RangeLen(a, at.1, offset, len, false)
      case Err(_) => 0
      case Ok(actual) => actual
  }

  function RangeResult(env: Env, a: Archive, path: bytes, offset: u64, len: u64, exact: bool): Result<bytes>
    requires env.Lawful() && WellFormed(env, a)
  {
    var at :- Located(env, a, path);
    EntryIsLegal(env, a, at.1);
    var actual :- RangeLen(a, at.1, offset, len, exact);
    RangeLenBounds(a, at.1, offset, len, exact);
    RangeData(env, a, ByPath(at.0), at.1, offset, actual)
  }

  // ---- an example ------------------------------------------------------------------

  /** A production archive with one asset in one raw chunk, directly behind the header area. */
  function OneAsset(env: Env, hash: u64, data: bytes): Archive
    requires 0 < |data| <= MAX_CHUNK_SIZE
  {
    Archive(seq(HEADER_SIZE, _ => 0) + data,
            [TocEntry([], hash, |data|, |data|, 0, 1)],
            [Chunk(HEADER_SIZE, |data|, |data|, env.xxh3(data), false)],
            [(hash, 0)], |data|, 1, true, None, 1)
  }

  /** The invariant of archives can be met, and reading then gives what was stored. */
  lemma OneAssetReads(env: Env, path: bytes, data: bytes)
    requires 0 < |data| <= MAX_CHUNK_SIZE && Normalize(path).Ok?
    ensures var a := OneAsset(env, env.xxh3(Normalize(path).value), data);
            WellFormed(env, a) && ReadResult(env, a, path) == Ok(data)
  {
    hide Normalize;
    var name := Normalize(path).value;
    var a := OneAsset(env, env.xxh3(name), data);
    OneAssetTables(env, env.xxh3(name), data);
    LookupIn(env, a, name);
    assert Names(env, a.entries, true, name, 0);
    OneAssetData(env, env.xxh3(name), data, ByPath(name));
  }

  lemma OneAssetTables(env: Env, hash: u64, data: bytes)
    requires 0 < |data| <= MAX_CHUNK_SIZE
    ensures WellFormed(env, OneAsset(env, hash, data))
  {
    var a := OneAsset(env, hash, data);
    assert Sum(Originals(a.chunks), 0, 1) == |data| == Sum(Storeds(a.chunks), 0, 1);
    assert LegalEntry(a.entries[0], a.chunks, a.chunkSize);
    assert Owns(a.entries[0], 0);
    assert Pairs(a.entries) == a.index;
    forall h: u64
      ensures |Bucket(a.entries, h)| <= 1
    {
      assert Bucket(a.entries, h) == if h == hash then {0} else {};
    }
  }

  lemma OneAssetData(env: Env, hash: u64, data: bytes, asset: Label)
    requires 0 < |data| <= MAX_CHUNK_SIZE
    ensures var a := OneAsset(env, hash, data);
            EntryOf(a, a.entries[0]) && EntryData(env, a, asset, 0) == Ok(data)
  {
    var a := OneAsset(env, hash, data);
    assert a.source[HEADER_SIZE..HEADER_SIZE + |data|] == data;
    assert ChunkData(env, a, asset, 0, 0) == Ok(data);
    assert ChunksData(env, a, asset, a.entries[0], 0, 0) == Ok([]);
    assert [] + data == data;
  }

  // ---- laws ------------------------------------------------------------------------

  lemma RangeLenOfReadable(env: Env, a: Archive, i: nat, offset: u64, len: u64, exact: bool)
    requires WellFormed(env, a) && i < |a.entries|
    requires a.entries[i].chunkCount <= a.maxChunksPerOperation
    ensures a.chunkSize > 0
    ensures var size := a.entries[i].originalSize;
            RangeLen(a, i, offset, len, exact) ==
            if exact then (if offset + len <= size then Ok(len) else Err(InvalidRange))
            else if offset > size then Err(InvalidRange)
            else if len == 0 || offset == size then Ok(0)
            else if offset + len >= POW64 then Err(InvalidRange)
            else Ok(Min(offset + len, size) - offset)
  {
    hide WellFormed;
    EntryIsLegal(env, a, i);
    var size := a.entries[i].originalSize;
    if offset < size && len > 0 {
      RangeInside(env, a, i, offset, Min(offset + len, size) - offset);
    }
  }

  /** Range reads refine the full read: every outcome, for every offset and length. */
  lemma RangesRefineRead(env: Env, a: Archive, path: bytes, offset: u64, len: u64)
    requires env.Lawful() && WellFormed(env, a) && ReadResult(env, a, path).Ok?
    ensures var d := ReadResult(env, a, path).value;
            && RangeResult(env, a, path, offset, len, true) ==
               (if offset + len <= |d| then Ok(d[offset..offset + len]) else Err(InvalidRange))
            && RangeResult(env, a, path, offset, len, false) ==
               if offset > |d| then Err(InvalidRange)
               else if len == 0 || offset == |d| then Ok([])
               else if offset + len >= POW64 then Err(InvalidRange)
               else Ok(d[offset..Min(offset + len, |d|)])
  {
    hide WellFormed, Located, RangeLen, RangeData, ChunksData;
    var (n, i) := Located(env, a, path).value;
    EntryDataSize(env, a, ByPath(n), i);
    RangeLenOfReadable(env, a, i, offset, len, true);
    RangeLenOfReadable(env, a, i, offset, len, false);
    var exact, clipped := RangeLen(a, i, offset, len, true), RangeLen(a, i, offset, len, false);
    RangeLenBounds(a, i, offset, len, true);
    RangeLenBounds(a, i, offset, len, false);
    if exact.Ok? {
      RangeIsSlice(env, a, ByPath(n), i, offset, exact.value);
    }
    var d := ReadResult(env, a, path).value;
    assert offset <= |d| ==> d[offset..offset] == [];
    if clipped.Ok? {
      RangeIsSlice(env, a, ByPath(n), i, offset, clipped.value);
    }
  }

  /** Clipping at the end of the asset, as documented, is what happens exactly when the
      requested end is a u64 or nothing is left to read. */
  lemma ClippingHoldsUnlessEndOverflows(env: Env, a: Archive, path: bytes, offset: u64, len: u64)
    requires env.Lawful() && WellFormed(env, a) && ReadResult(env, a, path).Ok?
    requires offset <= |ReadResult(env, a, path).value|
    ensures var d := ReadResult(env, a, path).value;
            RangeResult(env, a, path, offset, len, false) == Ok(d[offset..Min(offset + len, |d|)]) <==>
            offset + len < POW64 || offset == |d|
  {
    hide RangeResult, ReadResult, WellFormed;
    var d := ReadResult(env, a, path).value;
    ReadSize(env, a, path);
    assert d[offset..offset] == [];
    RangesRefineRead(env, a, path, offset, len);
  }

  lemma ReadSize(env: Env, a: Archive, path: bytes)
    requires env.Lawful() && WellFormed(env, a) && ReadResult(env, a, path).Ok?
    ensures |ReadResult(env, a, path).value| < POW64
  {
    hide WellFormed, ChunksData;
    var (n, i) := Located(env, a, path).value;
    EntryDataSize(env, a, ByPath(n), i);
  }

  /** The clipping law fails, for instance, for the longest read one byte into an asset. */
  lemma ClippingFailsOnOverflow(env: Env, a: Archive, path: bytes)
    requires env.Lawful() && WellFormed(env, a) && ReadResult(env, a, path).Ok?
    requires |ReadResult(env, a, path).value| > 1
    ensures RangeResult(env, a, path, 1, POW64 - 1, false) == Err(InvalidRange)
  {
    hide RangeResult, ReadResult, WellFormed;
    RangesRefineRead(env, a, path, 1, POW64 - 1);
  }

  /** Neighbouring range reads put together are the range read of both. */
  lemma AdjacentRangesConcatenate(env: Env, a: Archive, path: bytes, offset: u64, m: u64, n: u64)
    requires env.Lawful() && WellFormed(env, a) && ReadResult(env, a, path).Ok?
    requires offset + m <= |ReadResult(env, a, path).value| && offset + m + n < POW64
    ensures var whole := RangeResult(env, a, path, offset, m + n, false);
            var left := RangeResult(env, a, path, offset, m, false);
            var right := RangeResult(env, a, path, offset + m, n, false);
            && whole.Ok? && left.Ok? && right.Ok?
            && whole.value == left.value + right.value
  {
    hide RangeResult, ReadResult, WellFormed;
    RangesRefineRead(env, a, path, offset, m + n);
    RangesRefineRead(env, a, path, offset, m);
    RangesRefineRead(env, a, path, offset + m, n);
  }

  /** Local chunk k of a readable entry is piece k of its bytes. */
  lemma ChunkIsPiece(env: Env, a: Archive, asset: Label, i: nat, local: u32)
    requires env.Lawful() && WellFormed(env, a) && i < |a.entries| && EntryOf(a, a.entries[i])
    requires ChunksData(env, a, asset, a.entries[i], 0, a.entries[i].chunkCount).Ok?
    ensures local < a.entries[i].chunkCount <==> local * a.chunkSize < a.entries[i].originalSize
    ensures local < a.entries[i].chunkCount ==>
              ChunkData(env, a, asset, local, a.entries[i].firstChunk + local) ==
              Ok(Piece(ChunksData(env, a, asset, a.entries[i], 0, a.entries[i].chunkCount).value,
                       a.chunkSize, local))
  {
    hide WellFormed, ChunkData, Reach;
    var e := a.entries[i];
    WholeSize(env, a, asset, i);
    if local < e.chunkCount {
      ReachOfChunks(env, a, i, local);
      ReachBelow(a, e, local + 1);
      ReachBelow(a, e, local);
      ChunksSplit(env, a, asset, e, 0, local + 1, e.chunkCount);
      ChunksDataSize(env, a, asset, i, 0, local + 1);
      ChunksDataSize(env, a, asset, i, 0, local);
      StartsAtZero(a, e);
    } else {
      ReachOfChunks(env, a, i, e.chunkCount);
      StartsBelow(e.chunkCount, local, a.chunkSize);
    }
  }

  /** Reading chunk by chunk gives the asset cut at multiples of the chunk size. */
  lemma ChunksRefineRead(env: Env, a: Archive, path: bytes, local: u32)
    requires env.Lawful() && WellFormed(env, a) && ReadResult(env, a, path).Ok?
    ensures a.chunkSize > 0
    ensures var d := ReadResult(env, a, path).value;
            ReadChunkResult(env, a, path, local) ==
            if local * a.chunkSize < |d| then Ok(Piece(d, a.chunkSize, local))
            else Err(ChunkOutOfRange(local, CeilDiv(|d|, a.chunkSize)))
  {
    hide WellFormed, Located, ChunkData, ChunksData, CeilDiv, Piece, LegalChunks, LegalEntry;
    var (n, i) := Located(env, a, path).value;
    EntryDataSize(env, a, ByPath(n), i);
    EntryIsLegal(env, a, i);
    EntryShape(a.entries[i], a.chunks, RulesOf(a));
    ChunkIsPiece(env, a, ByPath(n), i, local);
  }

  /** A buffer is accepted exactly when it has the size of the asset, and then gets what a full
      read returns; any other is refused for its size or for the operation limit. */
  lemma ReadIntoExactly(env: Env, a: Archive, path: bytes, n: nat)
    requires WellFormed(env, a) && Located(env, a, path).Ok?
    ensures var e := a.entries[Located(env, a, path).value.1];
            && (n == e.originalSize ==>
                  AssetFits(env, a, path, n) && ReadIntoResult(env, a, path, n) == ReadResult(env, a, path))
            && (n != e.originalSize ==>
                  && !AssetFits(env, a, path, n)
                  && ReadIntoResult(env, a, path, n) ==
                     Err(if e.chunkCount > a.maxChunksPerOperation then TooManyChunks
                         else BufferSizeMismatch(e.originalSize, n)))
  {
    hide WellFormed, Located, ReadResult;
  }

  /** The same for the buffer of one chunk: all chunks but the last have the chunk size. */
  lemma ReadChunkIntoExactly(env: Env, a: Archive, path: bytes, local: u32, n: nat)
    requires WellFormed(env, a) && Located(env, a, path).Ok?
    requires local < a.entries[Located(env, a, path).value.1].chunkCount
    ensures var e := a.entries[Located(env, a, path).value.1];
            var size := PieceSize(e.originalSize, a.chunkSize, local);
            && (n == size ==> ChunkFits(env, a, path, local, n)
                              && ReadChunkIntoResult(env, a, path, local, n) == ReadChunkResult(env, a, path, local))
            && (n != size ==>
                  && !ChunkFits(env, a, path, local, n)
                  && ReadChunkIntoResult(env, a, path, local, n) ==
                     Err(if a.maxChunksPerOperation < 1 then TooManyChunks else BufferSizeMismatch(size, n)))
  {
    hide WellFormed, Located, ReadChunkResult, PieceSize;
    var i := Located(env, a, path).value.1;
    ChunkSizeAt(env, a, i, local);
  }

  lemma ChunkSizeAt(env: Env, a: Archive, i: nat, local: u32)
    requires WellFormed(env, a) && i < |a.entries| && EntryOf(a, a.entries[i]) && local < a.entries[i].chunkCount
    ensures a.chunks[a.entries[i].firstChunk + local].originalSize ==
            PieceSize(a.entries[i].originalSize, a.chunkSize, local)
  {
    hide WellFormed, Reach;
    NextChunk(env, a, i, local);
    ReachOfChunks(env, a, i, local);
    NextReach(a, a.entries[i], local);
  }

  lemma NextReach(a: Archive, e: TocEntry, local: nat)
    requires local * a.chunkSize < e.originalSize
    ensures Reach(a, e, local + 1) - Reach(a, e, local) == PieceSize(e.originalSize, a.chunkSize, local)
  {
    assert (local + 1) * a.chunkSize == local * a.chunkSize + a.chunkSize;
  }

  // ---- the operations --------------------------------------------------------------

  method Locate(env: Env, a: Archive, path: bytes) returns (r: Result<(bytes, nat)>)
    requires WellFormed(env, a)
    ensures r == Located(env, a, path)
  {
    hide WellFormed;
    assert IsIndex(a.index, a.entries) by { IndexOfArchive(env, a); }
    var n :- NormalizePath(path);
    var i :- FindNormalized(env, a.entries, a.index, a.pathsStripped, n);
    r := Ok((n, i));
  }

  lemma IndexOfArchive(env: Env, a: Archive)
    requires WellFormed(env, a)
    ensures IsIndex(a.index, a.entries)
  {
  }

  lemma LookupIn(env: Env, a: Archive, name: bytes)
    requires WellFormed(env, a)
    ensures IsIndex(a.index, a.entries)
    ensures forall i: nat :: FindNormalized(env, a.entries, a.index, a.pathsStripped, name) == Ok(i) <==>
                             Names(env, a.entries, a.pathsStripped, name, i)
    ensures FindNormalized(env, a.entries, a.index, a.pathsStripped, name).Err? <==>
            forall i: nat :: !Names(env, a.entries, a.pathsStripped, name, i)
    ensures FindNormalized(env, a.entries, a.index, a.pathsStripped, name).Err? ==>
              FindNormalized(env, a.entries, a.index, a.pathsStripped, name).error == NotFound(ByPath(name))
  {
    LookupIsLinearScan(env, a.entries, a.index, a.pathsStripped, name);
  }

  method ReadWhole(env: Env, a: Archive, asset: Label, i: nat) returns (r: Result<bytes>)
    requires env.Lawful() && WellFormed(env, a) && i < |a.entries| && EntryOf(a, a.entries[i])
    ensures r == EntryData(env, a, asset, i)
  {
    hide WellFormed, ChunksData;
    if a.entries[i].chunkCount > a.maxChunksPerOperation {
      return Err(TooManyChunks);
    }
    var out := new byte[a.entries[i].originalSize](_ => 0);
    var scratch := new ArchiveScratch();
    var _ :- ReadEntryInto(env, a, i, asset, out, 0, out.Length, scratch);
    r := Ok(out[0..out.Length]);
  }

  method Read(env: Env, a: Archive, path: bytes) returns (r: Result<bytes>)
    requires env.Lawful() && WellFormed(env, a)
    ensures r == ReadResult(env, a, path)
  {
    hide WellFormed, Located;
    var at :- Locate(env, a, path);
    r := ReadWhole(env, a, ByPath(at.0), at.1);
  }

  method ReadById(env: Env, a: Archive, id: u64) returns (r: Result<bytes>)
    requires env.Lawful() && WellFormed(env, a)
    ensures r == ReadByIdResult(env, a, id)
  {
    hide WellFormed, EntryData;
    IndexOfArchive(env, a);
    var i :- FindById(a.entries, a.index, id);
    IndexEntries(a.index, a.entries);
    EntryIsLegal(env, a, i);
    r := ReadWhole(env, a, OwnLabel(a, i), i);
  }

  /** Reads into a caller's buffer of exactly the right size. Neither the scratch passed in
      nor what earlier reads left in it has any influence on the result. */
  method ReadIntoWithScratch(env: Env, a: Archive, path: bytes, dst: array<byte>, scratch: ArchiveScratch)
    returns (r: Result<Unit>)
    requires env.Lawful() && WellFormed(env, a) && scratch.Apart(dst)
    modifies dst, scratch, scratch.stored
    ensures scratch.Apart(dst)
    ensures scratch.stored == old(scratch.stored) || fresh(scratch.stored)
    ensures scratch.decoded == old(scratch.decoded)
    ensures Delivered(dst, 0, dst.Length, ReadIntoResult(env, a, path, dst.Length), r)
    ensures !AssetFits(env, a, path, dst.Length) ==> dst[..] == old(dst[..])
  {
    hide WellFormed, Located, EntryData;
    var at :- Locate(env, a, path);
    r := ReadEntryInto(env, a, at.1, ByPath(at.0), dst, 0, dst.Length, scratch);
    assert dst[0..dst.Length] == dst[..];
  }

  method ReadChunk(env: Env, a: Archive, path: bytes, local: u32) returns (r: Result<bytes>)
    requires env.Lawful() && WellFormed(env, a)
    ensures r == ReadChunkResult(env, a, path, local)
  {
    hide WellFormed, Located, Decoded;
    var at :- Locate(env, a, path);
    var e := a.entries[at.1];
    if local >= e.chunkCount {
      return Err(ChunkOutOfRange(local, e.chunkCount));
    }
    if e.firstChunk + local >= POW32 {
      return Err(Corrupt(ChunkIndexOverflow));
    }
    if a.maxChunksPerOperation < 1 {
      return Err(TooManyChunks);
    }
    var k := e.firstChunk + local;
    var out := new byte[a.chunks[k].originalSize](_ => 0);
    var scratch := new ArchiveScratch();
    var _ :- ReadChunkByIndexInto(env, a, ByPath(at.0), local, k, out, 0, out.Length, scratch);
    r := Ok(out[0..out.Length]);
  }

  method ReadChunkIntoWithScratch(env: Env, a: Archive, path: bytes, local: u32,
                                  dst: array<byte>, scratch: ArchiveScratch)
    returns (r: Result<Unit>)
    requires env.Lawful() && WellFormed(env, a) && scratch.Apart(dst)
    modifies dst, scratch, scratch.stored
    ensures scratch.Apart(dst)
    ensures scratch.stored == old(scratch.stored) || fresh(scratch.stored)
    ensures scratch.decoded == old(scratch.decoded)
    ensures Delivered(dst, 0, dst.Length, ReadChunkIntoResult(env, a, path, local, dst.Length), r)
    ensures !ChunkFits(env, a, path, local, dst.Length) ==> dst[..] == old(dst[..])
  {
    hide WellFormed, Located, ChunkData;
    var at :- Locate(env, a, path);
    var e := a.entries[at.1];
    if local >= e.chunkCount {
      return Err(ChunkOutOfRange(local, e.chunkCount));
    }
    if e.firstChunk + local >= POW32 {
      return Err(Corrupt(ChunkIndexOverflow));
    }
    var k := e.firstChunk + local;
    r := ReadChunkByIndexInto(env, a, ByPath(at.0), local, k, dst, 0, dst.Length, scratch);
    assert dst[0..dst.Length] == dst[..];
  }

  /** Both range reads: `exact` refuses to go past the end, otherwise the range is clipped. */
  method ReadRange(env: Env, a: Archive, path: bytes, offset: u64, len: u64, exact: bool)
    returns (r: Result<bytes>)
    requires env.Lawful() && WellFormed(env, a)
    ensures r == RangeResult(env, a, path, offset, len, exact)
  {
    hide WellFormed, Located, RangeData, RangeLen;
    var at :- Locate(env, a, path);
    EntryIsLegal(env, a, at.1);
    var actual :- RangeLen(a, at.1, offset, len, exact);
    RangeLenBounds(a, at.1, offset, len, exact);
    var out := new byte[actual](_ => 0);
    var scratch := new ArchiveScratch();
    var _ :- ReadRangeIndexInto(env, a, at.1, ByPath(at.0), offset, out, 0, out.Length, scratch);
    r := Ok(out[0..out.Length]);
  }

  /** A clipped range into a larger buffer: bytes past the returned length stay as they were,
      and the scratch passed in has no influence on the result. */
  method ReadRangeWithScratch(env: Env, a: Archive, path: bytes, offset: u64,
                              dst: array<byte>, scratch: ArchiveScratch)
    returns (r: Result<nat>)
    requires env.Lawful() && WellFormed(env, a) && scratch.Apart(dst) && dst.Length < POW64
    modifies dst, scratch, scratch.stored, scratch.decoded
    ensures scratch.Apart(dst)
    ensures scratch.stored == old(scratch.stored) || fresh(scratch.stored)
    ensures scratch.decoded == old(scratch.decoded) || fresh(scratch.decoded)
    ensures r.Ok? ==>
              && r.value <= dst.Length
              && RangeResult(env, a, path, offset, dst.Length, false) == Ok(dst[..r.value])
              && dst[r.value..] == old(dst[r.value..])
    ensures r.Err? ==> RangeResult(env, a, path, offset, dst.Length, false) == Err(r.error)
    ensures var actual := RangeSize(env, a, path, offset, dst.Length);
            dst[actual..] == old(dst[actual..])
  {
    hide WellFormed, Located, RangeData, RangeLen;
    var at :- Locate(env, a, path);
    EntryIsLegal(env, a, at.1);
    var actual :- RangeLen(a, at.1, offset, dst.Length, false);
    RangeLenBounds(a, at.1, offset, dst.Length, false);
    var _ :- ReadRangeIndexInto(env, a, at.1, ByPath(at.0), offset, dst, 0, actual, scratch);
    assert dst[0..actual] == dst[..actual];
    r := Ok(actual);
  }

  // ---- verification ----------------------------------------------------------------

  /** Every chunk of the first n entries decodes. */
  function VerifyEntries(env: Env, a: Archive, n: nat): Result<Unit>
    requires WellFormed(env, a) && n <= |a.entries|
  {
    if n == 0 then Ok(Unit)
    else
      var _ :- VerifyEntries(env, a, n - 1);
      EntryIsLegal(env, a, n - 1);
      var _ :- ChunksData(env, a, OwnLabel(a, n - 1), a.entries[n - 1], 0, a.entries[n - 1].chunkCount);
      Ok(Unit)
  }

  function VerifyResult(env: Env, a: Archive): Result<Unit>
    requires WellFormed(env, a)
  {
    if |a.chunks| > a.maxChunksPerOperation then Err(TooManyChunks)
    else VerifyEntries(env, a, |a.entries|)
  }

  lemma {:induction false} VerifyEntriesAll(env: Env, a: Archive, n: nat)
    requires WellFormed(env, a) && n <= |a.entries|
    ensures VerifyEntries(env, a, n).Ok? <==>
            forall i: nat :: i < n ==>
              EntryOf(a, a.entries[i])
              && ChunksData(env, a, OwnLabel(a, i), a.entries[i], 0, a.entries[i].chunkCount).Ok?
  {
    hide ChunksData, WellFormed;
    if n > 0 {
      VerifyEntriesAll(env, a, n - 1);
      EntryIsLegal(env, a, n - 1);
    }
  }

  /** The label only matters for reporting a checksum mismatch. */
  lemma {:induction false} LabelIsOnlyReported(env: Env, a: Archive, x: Label, y: Label, e: TocEntry, lo: nat, hi: nat)
    requires EntryOf(a, e) && lo <= hi <= e.chunkCount
    ensures var p, q := ChunksData(env, a, x, e, lo, hi), ChunksData(env, a, y, e, lo, hi);
            p.Ok? == q.Ok? && (p.Ok? ==> p == q)
  {
    if lo < hi {
      LabelIsOnlyReported(env, a, x, y, e, lo, hi - 1);
    }
  }

  /** Verification succeeds exactly when the chunk table is within the operation limit and
      every entry can be read in full. */
  lemma VerifyIsExact(env: Env, a: Archive, asset: Label)
    requires WellFormed(env, a)
    ensures VerifyResult(env, a).Ok? <==>
            && |a.chunks| <= a.maxChunksPerOperation
            && forall i: nat :: i < |a.entries| ==>
                 EntryOf(a, a.entries[i]) && EntryData(env, a, asset, i).Ok?
  {
    hide ChunksData, WellFormed;
    VerifyEntriesAll(env, a, |a.entries|);
    forall i: nat | i < |a.entries|
      ensures EntryOf(a, a.entries[i])
      ensures EntryData(env, a, asset, i).Ok? <==>
              a.entries[i].chunkCount <= a.maxChunksPerOperation
              && ChunksData(env, a, OwnLabel(a, i), a.entries[i], 0, a.entries[i].chunkCount).Ok?
    {
      EntryIsLegal(env, a, i);
      LabelIsOnlyReported(env, a, asset, OwnLabel(a, i), a.entries[i], 0, a.entries[i].chunkCount);
    }
  }

  lemma {:induction false} VerifyFails(env: Env, a: Archive, m: nat, n: nat)
    requires WellFormed(env, a) && m <= n <= |a.entries| && VerifyEntries(env, a, m).Err?
    ensures VerifyEntries(env, a, n) == VerifyEntries(env, a, m)
  {
    hide WellFormed;
    if m < n {
      VerifyFails(env, a, m, n - 1);
    }
  }

  lemma VisitStep(entries: seq<TocEntry>, i: nat, n: nat)
    requires i < |entries| && n < entries[i].chunkCount
    ensures Range(entries[i].firstChunk, n + 1) == Range(entries[i].firstChunk, n) + [entries[i].firstChunk + n]
  {
  }

  lemma VisitNext(entries: seq<TocEntry>, i: nat)
    requires i < |entries|
    ensures VisitOrder(entries[..i + 1]) ==
            VisitOrder(entries[..i]) + Range(entries[i].firstChunk, entries[i].chunkCount)
  {
    assert entries[..i + 1][..i] == entries[..i];
  }

  /** The chunks of one entry, decoded for their checksums only. */
  method VerifyEntry(env: Env, a: Archive, i: nat, scratch: ArchiveScratch)
    returns (r: Result<Unit>, ghost visited: seq<nat>)
    requires env.Lawful() && WellFormed(env, a) && i < |a.entries| && EntryOf(a, a.entries[i])
    requires scratch.Valid()
    modifies scratch, scratch.stored, scratch.decoded
    ensures scratch.Valid()
    ensures scratch.stored == old(scratch.stored) || fresh(scratch.stored)
    ensures scratch.decoded == old(scratch.decoded) || fresh(scratch.decoded)
    ensures var all := ChunksData(env, a, OwnLabel(a, i), a.entries[i], 0, a.entries[i].chunkCount);
            r.Ok? == all.Ok? && (r.Err? ==> all == Err(r.error))
    ensures r.Ok? ==> visited == Range(a.entries[i].firstChunk, a.entries[i].chunkCount)
  {
    hide WellFormed, ChunkData, ChunksData;
    var e := a.entries[i];
    var asset := if a.pathsStripped then ByHash(e.pathHash) else ByPath(e.path);
    visited := [];
    NoChunks(env, a, asset, e, 0);
    assert Range(e.firstChunk, 0) == [];
    for local := 0 to e.chunkCount
      invariant scratch.Valid()
      invariant scratch.stored == old(scratch.stored) || fresh(scratch.stored)
      invariant scratch.decoded == old(scratch.decoded) || fresh(scratch.decoded)
      invariant ChunksData(env, a, asset, e, 0, local).Ok?
      invariant visited == Range(e.firstChunk, local)
    {
      if e.firstChunk + local >= POW32 {
        r := Err(Corrupt(ChunkIndexOverflow));
        return;
      }
      if e.firstChunk + local >= |a.chunks| {
        r := Err(Corrupt(ChunkIndexOutside));
        return;
      }
      var step := DecodeLocalChunk(env, a, e, asset, local, scratch);
      OneMoreChunk(env, a, asset, e, 0, local);
      VisitStep(a.entries, i, local);
      if step.Err? {
        ChunksFail(env, a, asset, e, 0, local + 1, e.chunkCount);
        r := step;
        return;
      }
      visited := visited + [e.firstChunk + local];
    }
    r := Ok(Unit);
  }

  /** Succeeds as described by VerifyResult, after decoding every chunk exactly once. */
  method Verify(env: Env, a: Archive) returns (r: Result<Unit>, ghost visited: seq<nat>)
    requires env.Lawful() && WellFormed(env, a)
    ensures r == VerifyResult(env, a)
    ensures r.Ok? ==> multiset(visited) == multiset(Range(0, |a.chunks|))
  {
    hide WellFormed, ChunksData;
    visited := [];
    if |a.chunks| > a.maxChunksPerOperation {
      r := Err(TooManyChunks);
      return;
    }
    var scratch := new ArchiveScratch();
    for i := 0 to |a.entries|
      invariant fresh(scratch) && fresh(scratch.stored) && fresh(scratch.decoded) && scratch.Valid()
      invariant VerifyEntries(env, a, i) == Ok(Unit)
      invariant visited == VisitOrder(a.entries[..i])
    {
      EntryIsLegal(env, a, i);
      var step, chunks := VerifyEntry(env, a, i, scratch);
      if step.Err? {
        VerifyFails(env, a, i + 1, |a.entries|);
        r := step;
        return;
      }
      VisitNext(a.entries, i);
      visited := visited + chunks;
    }
    assert a.entries[..|a.entries|] == a.entries;
    EveryChunkOnceIn(env, a);
    r := Ok(Unit);
  }

  lemma EveryChunkOnceIn(env: Env, a: Archive)
    requires WellFormed(env, a)
    ensures multiset(VisitOrder(a.entries)) == multiset(Range(0, |a.chunks|))
  {
    EveryChunkOnce(a.entries, a.chunks, RulesOf(a));
  }
}
