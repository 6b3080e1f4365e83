/** An opened archive as a value, and what reading from it means. */
module Archive {
  import opened Prelude
  import opened Wire
  import opened Layout
  import opened Source
  import opened Index
  import opened Cipher
  import Header

  datatype Archive = Archive(
    source: bytes,
    entries: seq<TocEntry>,
    chunks: seq<Chunk>,
    index: seq<Pair>,
    chunkSize: u32,
    alignment: u32,
    pathsStripped: bool,
    aeadKey: Option<bytes>,
    maxChunksPerOperation: u32)

  const NO_LIMIT: u64 := 0xFFFF_FFFF_FFFF_FFFF

  /** The layout rules that still hold once the TOC offset and the limits are forgotten. */
  function RulesOf(a: Archive): Rules {
    Rules(NO_LIMIT, a.chunkSize, a.alignment, a.aeadKey.Some?, NO_LIMIT)
  }

  /** What opening guarantees about an archive. */
  ghost predicate WellFormed(env: Env, a: Archive) {
    && Header.ValidChunkSize(a.chunkSize)
    && ValidAlignment(a.alignment)
    && |a.chunks| < POW32
    && LegalTables(a.entries, a.chunks, RulesOf(a))
    && IsIndex(a.index, a.entries)
    && LegalBuckets(a.entries, a.pathsStripped)
    && (a.pathsStripped || HashesTied(env, a.entries))
  }

  // ---- one chunk -------------------------------------------------------------------

  /** The payload in a stored block: what remains once it is authenticated and opened. */
  function Payload(env: Env, aeadKey: Option<bytes>, k: u32, stored: bytes): Result<bytes> {
    match aeadKey
    case None => Ok(stored)
    case Some(key) => Decrypt(env, stored, key, ChunkAad(k))
  }

  function Expanded(env: Env, c: Chunk, payload: bytes): Result<bytes> {
    if c.compressed then DecompressExact(env, payload, c.originalSize, ChunkDecompressedSize)
    else Ok(payload)
  }

  /** The bytes of chunk k, given the block stored for it. */
  function Decoded(env: Env, aeadKey: Option<bytes>, c: Chunk, k: u32, stored: bytes): Result<bytes> {
    var payload :- Payload(env, aeadKey, k, stored);
    Expanded(env, c, payload)
  }

  /** Reading chunk k: the only failures are the operation limit, the source, the cipher,
      decompression and the checksum. */
  function ChunkData(env: Env, a: Archive, asset: Label, local: u32, k: u32): Result<bytes>
    requires k < |a.chunks|
  {
    if a.maxChunksPerOperation < 1 then Err(TooManyChunks)
    else
      var c := a.chunks[k];
      var stored :- ReadSlice(a.source, c.offset, c.storedSize);
      var data :- Decoded(env, a.aeadKey, c, k, stored);
      if env.xxh3(data) != c.checksum then Err(ChecksumMismatch(asset, local)) else Ok(data)
  }

  lemma ChunkIsLegal(env: Env, a: Archive, k: nat)
    requires WellFormed(env, a) && k < |a.chunks|
    ensures LegalChunk(a.chunks[k], RulesOf(a))
  {
  }

  lemma DecodedSize(env: Env, a: Archive, c: Chunk, k: u32, stored: bytes)
    requires env.Lawful() && a.alignment > 0 && LegalChunk(c, RulesOf(a))
    requires |stored| == c.storedSize && Decoded(env, a.aeadKey, c, k, stored).Ok?
    ensures |Decoded(env, a.aeadKey, c, k, stored).value| == c.originalSize
  {
    if a.aeadKey.Some? {
      DecryptedLength(env, stored, a.aeadKey.value, ChunkAad(k));
    }
  }

  /** A chunk that reads at all has the size its record says. */
  lemma ChunkDataSize(env: Env, a: Archive, asset: Label, local: u32, k: u32)
    requires env.Lawful() && WellFormed(env, a) && k < |a.chunks|
    requires ChunkData(env, a, asset, local, k).Ok?
    ensures |ChunkData(env, a, asset, local, k).value| == a.chunks[k].originalSize
  {
    hide WellFormed, Decoded, LegalChunk;
    ChunkIsLegal(env, a, k);
    var c := a.chunks[k];
    assert a.alignment > 0 by { AlignmentPositive(env, a); }
    DecodedSize(env, a, c, k, ReadSlice(a.source, c.offset, c.storedSize).value);
  }

  lemma AlignmentPositive(env: Env, a: Archive)
    requires WellFormed(env, a)
    ensures a.alignment > 0
  {
  }

  // ---- runs of chunks --------------------------------------------------------------

  ghost predicate EntryOf(a: Archive, e: TocEntry) {
    e.firstChunk + e.chunkCount <= |a.chunks| < POW32
  }

  lemma EntryIsLegal(env: Env, a: Archive, i: nat)
    requires WellFormed(env, a) && i < |a.entries|
    ensures EntryOf(a, a.entries[i]) && LegalEntry(a.entries[i], a.chunks, a.chunkSize)
    ensures a.alignment > 0 && LegalChunks(a.chunks, RulesOf(a)) && a.chunkSize > 0
  {
  }

  /** Local chunks [lo, hi) of an entry, one after the other. */
  function ChunksData(env: Env, a: Archive, asset: Label, e: TocEntry, lo: nat, hi: nat): Result<bytes>
    requires EntryOf(a, e) && lo <= hi <= e.chunkCount
  {
    if lo == hi then Ok([])
    else
      var before :- ChunksData(env, a, asset, e, lo, hi - 1);
      var last :- ChunkData(env, a, asset, hi - 1, e.firstChunk + hi - 1);
      Ok(before + last)
  }

  /** A failure in a run is the failure of every longer run. */
  lemma {:induction false} ChunksFail(env: Env, a: Archive, asset: Label, e: TocEntry,
                                      lo: nat, mid: nat, hi: nat)
    requires EntryOf(a, e) && lo <= mid <= hi <= e.chunkCount
    requires ChunksData(env, a, asset, e, lo, mid).Err?
    ensures ChunksData(env, a, asset, e, lo, hi) == ChunksData(env, a, asset, e, lo, mid)
  {
    if mid < hi {
      ChunksFail(env, a, asset, e, lo, mid, hi - 1);
    }
  }

  /** Runs of chunks split anywhere. */
  lemma {:induction false} ChunksSplit(env: Env, a: Archive, asset: Label, e: TocEntry,
                                       lo: nat, mid: nat, hi: nat)
    requires EntryOf(a, e) && lo <= mid <= hi <= e.chunkCount
    requires ChunksData(env, a, asset, e, lo, hi).Ok?
    ensures ChunksData(env, a, asset, e, lo, mid).Ok? && ChunksData(env, a, asset, e, mid, hi).Ok?
    ensures ChunksData(env, a, asset, e, lo, hi).value ==
            ChunksData(env, a, asset, e, lo, mid).value + ChunksData(env, a, asset, e, mid, hi).value
  {
    hide ChunkData;
    if mid < hi {
      ChunksSplit(env, a, asset, e, lo, mid, hi - 1);
    } else {
      var all := ChunksData(env, a, asset, e, lo, hi).value;
      assert all + [] == all;
    }
  }

  lemma {:induction false} ChunksDataSum(env: Env, a: Archive, asset: Label, e: TocEntry, lo: nat, hi: nat)
    requires env.Lawful() && WellFormed(env, a) && EntryOf(a, e) && lo <= hi <= e.chunkCount
    requires ChunksData(env, a, asset, e, lo, hi).Ok?
    ensures |ChunksData(env, a, asset, e, lo, hi).value| ==
            Sum(Originals(a.chunks), e.firstChunk + lo, e.firstChunk + hi)
  {
    hide ChunkData, WellFormed;
    if lo < hi {
      ChunksDataSum(env, a, asset, e, lo, hi - 1);
      ChunkDataSize(env, a, asset, hi - 1, e.firstChunk + hi - 1);
    }
  }

  /** Where local chunk `n` of an asset ends, or the asset does. */
  function Reach(a: Archive, e: TocEntry, n: nat): nat {
    Min(n * a.chunkSize, e.originalSize)
  }

  lemma ReachOfChunks(env: Env, a: Archive, i: nat, n: nat)
    requires WellFormed(env, a) && i < |a.entries| && n <= a.entries[i].chunkCount
    ensures Reach(a, a.entries[i], n) ==
            Sum(Originals(a.chunks), a.entries[i].firstChunk, a.entries[i].firstChunk + n)
    ensures n < a.entries[i].chunkCount ==> n * a.chunkSize < a.entries[i].originalSize
    ensures n == a.entries[i].chunkCount ==> n * a.chunkSize >= a.entries[i].originalSize
  {
    hide WellFormed, LegalChunks, LegalEntry, CeilDiv;
    var e := a.entries[i];
    EntryIsLegal(env, a, i);
    EntryShape(e, a.chunks, RulesOf(a));
    if n < e.chunkCount {
      LocalChunkStart(e, a.chunks, a.chunkSize, n);
      StartsBelow(n, e.chunkCount - 1, a.chunkSize);
    } else {
      EntrySum(e, a.chunks, a.chunkSize);
    }
  }

  lemma StartsBelow(n: nat, m: nat, s: nat)
    requires n <= m
    ensures n * s <= m * s
  {
    assert (m - n) * s >= 0;
  }

  lemma EntrySum(e: TocEntry, chunks: seq<Chunk>, chunkSize: u32)
    requires LegalEntry(e, chunks, chunkSize)
    ensures e.originalSize == Sum(Originals(chunks), e.firstChunk, e.firstChunk + e.chunkCount)
  {
  }

  /** Local chunks [lo, hi) are the bytes from lo * chunkSize up to their reach. */
  lemma ChunksDataSize(env: Env, a: Archive, asset: Label, i: nat, lo: nat, hi: nat)
    requires env.Lawful() && WellFormed(env, a) && i < |a.entries|
    requires EntryOf(a, a.entries[i]) && lo <= hi <= a.entries[i].chunkCount
    requires ChunksData(env, a, asset, a.entries[i], lo, hi).Ok?
    ensures |ChunksData(env, a, asset, a.entries[i], lo, hi).value| ==
            Reach(a, a.entries[i], hi) - Reach(a, a.entries[i], lo)
    ensures lo < hi ==> Reach(a, a.entries[i], lo) == lo * a.chunkSize
  {
    hide WellFormed, ChunksData, Reach;
    var e := a.entries[i];
    ReachOfChunks(env, a, i, lo);
    ReachOfChunks(env, a, i, hi);
    ChunksDataSum(env, a, asset, e, lo, hi);
    SumSplit(Originals(a.chunks), e.firstChunk, e.firstChunk + lo, e.firstChunk + hi);
    if lo < hi {
      ReachBelow(a, e, lo);
    }
  }

  lemma ReachBelow(a: Archive, e: TocEntry, n: nat)
    ensures n * a.chunkSize < e.originalSize ==> Reach(a, e, n) == n * a.chunkSize
    ensures n * a.chunkSize >= e.originalSize ==> Reach(a, e, n) == e.originalSize
  {
  }

  // ---- whole assets and ranges -----------------------------------------------------

  /** A full read of entry i. */
  function EntryData(env: Env, a: Archive, asset: Label, i: nat): Result<bytes>
    requires i < |a.entries| && EntryOf(a, a.entries[i])
  {
    var e := a.entries[i];
    if e.chunkCount > a.maxChunksPerOperation then Err(TooManyChunks)
    else ChunksData(env, a, asset, e, 0, e.chunkCount)
  }

  lemma EntryDataSize(env: Env, a: Archive, asset: Label, i: nat)
    requires env.Lawful() && WellFormed(env, a) && i < |a.entries| && EntryOf(a, a.entries[i])
    requires EntryData(env, a, asset, i).Ok?
    ensures |EntryData(env, a, asset, i).value| == a.entries[i].originalSize
  {
    hide WellFormed, ChunksData;
    WholeSize(env, a, asset, i);
  }

  /** All chunks of an entry together have its size. */
  lemma WholeSize(env: Env, a: Archive, asset: Label, i: nat)
    requires env.Lawful() && WellFormed(env, a) && i < |a.entries| && EntryOf(a, a.entries[i])
    requires ChunksData(env, a, asset, a.entries[i], 0, a.entries[i].chunkCount).Ok?
    ensures |ChunksData(env, a, asset, a.entries[i], 0, a.entries[i].chunkCount).value| == a.entries[i].originalSize
  {
    hide WellFormed, ChunksData;
    var e := a.entries[i];
    ChunksDataSize(env, a, asset, i, 0, e.chunkCount);
    ReachOfChunks(env, a, i, e.chunkCount);
    ReachBelow(a, e, e.chunkCount);
  }

  function FirstChunkOf(a: Archive, offset: nat): nat
    requires a.chunkSize > 0
  {
    offset / a.chunkSize
  }

  /** One past the last local chunk a non-empty range touches. */
  function LastChunkOf(a: Archive, offset: nat, len: nat): nat
    requires a.chunkSize > 0 && len > 0
  {
    (offset + len - 1) / a.chunkSize + 1
  }

  /** How many bytes a range read returns, or why it is refused. */
  function RangeLen(a: Archive, i: nat, offset: u64, len: u64, exact: bool): Result<nat>
    requires i < |a.entries| && a.chunkSize > 0
  {
    var size := a.entries[i].originalSize;
    if offset > size || (offset == size && len >= 1 && exact) then Err(InvalidRange)
    else if len == 0 || (offset == size && !exact) then Ok(0)
    else if offset + len >= POW64 then Err(InvalidRange)
    else if exact && offset + len > size then Err(InvalidRange)
    else
      var actual := Min(offset + len, size) - offset;
      var count := LastChunkOf(a, offset, actual) - FirstChunkOf(a, offset);
      if count >= POW32 || count > a.maxChunksPerOperation then Err(TooManyChunks) else Ok(actual)
  }

  lemma {:induction false} DivBounds(x: nat, s: nat)
    requires s > 0
    ensures x / s * s <= x < (x / s + 1) * s
  {
  }

  lemma QuotientBelow(x: nat, s: nat, n: nat)
    requires s > 0
    ensures x < n * s <==> x / s < n
  {
    DivBounds(x, s);
    if x / s < n {
      StartsBelow(x / s + 1, n, s);
    } else {
      StartsBelow(n, x / s, s);
    }
  }

  /** The chunks of a range inside an asset exist. */
  lemma RangeInside(env: Env, a: Archive, i: nat, offset: nat, len: nat)
    requires WellFormed(env, a) && i < |a.entries|
    requires len > 0 && offset + len <= a.entries[i].originalSize
    ensures a.chunkSize > 0
    ensures FirstChunkOf(a, offset) < LastChunkOf(a, offset, len) <= a.entries[i].chunkCount
    ensures FirstChunkOf(a, offset) * a.chunkSize <= offset
    ensures offset + len <= LastChunkOf(a, offset, len) * a.chunkSize
  {
    hide WellFormed, Reach;
    EntryIsLegal(env, a, i);
    ReachOfChunks(env, a, i, a.entries[i].chunkCount);
    ChunksOfRange(offset, len, a.chunkSize, a.entries[i].chunkCount);
  }

  lemma ChunksOfRange(offset: nat, len: nat, s: nat, n: nat)
    requires s > 0 && len > 0 && offset + len <= n * s
    ensures offset / s < (offset + len - 1) / s + 1 <= n
    ensures offset / s * s <= offset
    ensures offset + len <= ((offset + len - 1) / s + 1) * s
  {
    var q := (offset + len - 1) / s;
    DivBounds(offset, s);
    DivBounds(offset + len - 1, s);
    assert q < n by { QuotientBelow(offset + len - 1, s, n); }
    assert offset / s < q + 1 by { QuotientBelow(offset, s, q + 1); }
  }

  /** A range of an asset: only the chunks it touches are read, and they are cut to size. */
  function RangeData(env: Env, a: Archive, asset: Label, i: nat, offset: nat, len: nat): Result<bytes>
    requires env.Lawful() && WellFormed(env, a) && i < |a.entries|
    requires offset + len <= a.entries[i].originalSize
  {
    if len == 0 then Ok([])
    else
      EntryIsLegal(env, a, i);
      RangeInside(env, a, i, offset, len);
      var first := FirstChunkOf(a, offset);
      var d :- ChunksData(env, a, asset, a.entries[i], first, LastChunkOf(a, offset, len));
      WindowFits(env, a, asset, i, offset, len);
      Ok(d[offset - first * a.chunkSize..offset - first * a.chunkSize + len])
  }

  lemma WindowFits(env: Env, a: Archive, asset: Label, i: nat, offset: nat, len: nat)
    requires env.Lawful() && WellFormed(env, a) && i < |a.entries| && EntryOf(a, a.entries[i])
    requires len > 0 && offset + len <= a.entries[i].originalSize
    requires a.chunkSize > 0 && LastChunkOf(a, offset, len) <= a.entries[i].chunkCount
    requires FirstChunkOf(a, offset) <= LastChunkOf(a, offset, len)
    ensures var first, last := FirstChunkOf(a, offset), LastChunkOf(a, offset, len);
            var d := ChunksData(env, a, asset, a.entries[i], first, last);
            && first * a.chunkSize <= offset
            && (d.Ok? ==> offset - first * a.chunkSize + len <= |d.value|)
  {
    hide WellFormed, ChunksData, Reach, FirstChunkOf, LastChunkOf;
    RangeInside(env, a, i, offset, len);
    var first, last := FirstChunkOf(a, offset), LastChunkOf(a, offset, len);
    if ChunksData(env, a, asset, a.entries[i], first, last).Ok? {
      ChunksDataSize(env, a, asset, i, first, last);
      ReachBelow(a, a.entries[i], last);
    }
  }

  /** Reading a range gives the corresponding slice of the whole asset. */
  lemma RangeIsSlice(env: Env, a: Archive, asset: Label, i: nat, offset: nat, len: nat)
    requires env.Lawful() && WellFormed(env, a) && i < |a.entries| && EntryOf(a, a.entries[i])
    requires ChunksData(env, a, asset, a.entries[i], 0, a.entries[i].chunkCount).Ok?
    requires offset + len <= a.entries[i].originalSize
    ensures var d := ChunksData(env, a, asset, a.entries[i], 0, a.entries[i].chunkCount).value;
            |d| == a.entries[i].originalSize
            && RangeData(env, a, asset, i, offset, len) == Ok(d[offset..offset + len])
  {
    hide WellFormed, ChunksData, Reach, FirstChunkOf, LastChunkOf;
    WholeSize(env, a, asset, i);
    var e := a.entries[i];
    if len > 0 {
      RangeInside(env, a, i, offset, len);
      WindowFits(env, a, asset, i, offset, len);
      var first, last := FirstChunkOf(a, offset), LastChunkOf(a, offset, len);
      ChunksSplit(env, a, asset, e, 0, last, e.chunkCount);
      ChunksSplit(env, a, asset, e, 0, first, last);
      ChunksDataSize(env, a, asset, i, 0, first);
      ChunksDataSize(env, a, asset, i, first, last);
      StartsAtZero(a, e);
      Window(ChunksData(env, a, asset, e, 0, first).value,
             ChunksData(env, a, asset, e, first, last).value,
             ChunksData(env, a, asset, e, last, e.chunkCount).value,
             offset, len);
    }
  }

  lemma StartsAtZero(a: Archive, e: TocEntry)
    ensures Reach(a, e, 0) == 0
  {
  }

  lemma Window(x: bytes, y: bytes, z: bytes, offset: nat, len: nat)
    requires |x| <= offset && offset + len <= |x| + |y|
    ensures (x + y + z)[offset..offset + len] == y[offset - |x|..offset - |x| + len]
  {
  }
}
