/** Range reads for every archive, readable as a whole or not: only the touched chunks count. */
module Ranges {
  import opened Prelude
  import opened Layout
  import opened Archive
  import opened Access
  import opened Integrity

  /** The reads of local chunks [lo, hi) of an asset, one after the other, up to the first error. */
  function Joined(env: Env, a: Archive, path: bytes, lo: nat, hi: nat): Result<bytes>
    requires WellFormed(env, a) && hi <= POW32
  {
    if lo >= hi then Ok([])
    else
      var before :- Joined(env, a, path, lo, hi - 1);
      var last :- ReadChunkResult(env, a, path, hi - 1);
      Ok(before + last)
  }

  lemma {:induction false} JoinedRun(env: Env, a: Archive, path: bytes, lo: nat, hi: nat)
    requires WellFormed(env, a) && Located(env, a, path).Ok?
    requires lo <= hi <= a.entries[Located(env, a, path).value.1].chunkCount
    ensures var (n, i) := Located(env, a, path).value;
            Joined(env, a, path, lo, hi) == ChunksData(env, a, ByPath(n), a.entries[i], lo, hi)
  {
    hide WellFormed, Located, ChunkData;
    if lo < hi {
      JoinedRun(env, a, path, lo, hi - 1);
    }
  }

  function CutOut(r: Result<bytes>, from: nat, n: nat): Result<bytes> {
    var d :- r;
    if from + n <= |d| then Ok(d[from..from + n]) else Ok([])
  }

  /** The chunk that holds byte x of an asset. */
  function ChunkOfByte(x: nat, chunkSize: nat): nat
    requires chunkSize > 0
  {
    x / chunkSize
  }

  /** The chunks that hold the bytes [offset, end), cut to size. */
  function Touched(env: Env, a: Archive, path: bytes, offset: nat, end: nat): Result<bytes>
    requires WellFormed(env, a) && a.chunkSize > 0 && offset < end
  {
    var first, last := ChunkOfByte(offset, a.chunkSize), ChunkOfByte(end - 1, a.chunkSize);
    if last - first >= a.maxChunksPerOperation then Err(TooManyChunks)
    else if last >= POW32 then Err(TooLarge(RangeChunkIndex))
    else CutOut(Joined(env, a, path, first, last + 1), offset % a.chunkSize, end - offset)
  }

  /** Every outcome of a range read of an asset of `size` bytes. */
  function RangeAnswer(env: Env, a: Archive, path: bytes, size: u64, offset: u64, len: u64, exact: bool): Result<bytes>
    requires WellFormed(env, a) && a.chunkSize > 0
  {
    if offset > size || (exact && offset + len > size) then Err(InvalidRange)
    else if len == 0 || offset == size then Ok([])
    else if offset + len >= POW64 then Err(InvalidRange)
    else Touched(env, a, path, offset, Min(offset + len, size))
  }

  /** A range inside the asset is refused exactly when it touches more chunks than one operation
      may decode; otherwise it is cut out of the touched chunks, or fails as the first of them
      does. No other chunk matters, and the asset need not be readable as a whole. */
  lemma RangeIsExact(env: Env, a: Archive, path: bytes, offset: u64, len: u64, exact: bool)
    requires env.Lawful() && WellFormed(env, a) && Located(env, a, path).Ok?
    ensures a.chunkSize > 0
    ensures RangeResult(env, a, path, offset, len, exact) ==
            RangeAnswer(env, a, path, a.entries[Located(env, a, path).value.1].originalSize, offset, len, exact)
  {
    hide WellFormed, Located, RangeData, Touched, FirstChunkOf, LastChunkOf;
    var (n, i) := Located(env, a, path).value;
    EntryIsLegal(env, a, i);
    var end := Min(offset + len, a.entries[i].originalSize);
    RangeLenBounds(a, i, offset, len, exact);
    NothingOf(env, a, ByPath(n), i, offset);
    if offset < end {
      TouchedIsExact(env, a, path, offset, end);
    }
  }

  /** The refusal and the data of a range that is neither empty nor out of bounds. */
  lemma TouchedIsExact(env: Env, a: Archive, path: bytes, offset: nat, end: nat)
    requires env.Lawful() && WellFormed(env, a) && Located(env, a, path).Ok?
    requires offset < end <= a.entries[Located(env, a, path).value.1].originalSize
    ensures a.chunkSize > 0
    ensures var (n, i) := Located(env, a, path).value;
            var count := LastChunkOf(a, offset, end - offset) - FirstChunkOf(a, offset);
            && 0 < count < POW32
            && Touched(env, a, path, offset, end) ==
               if count > a.maxChunksPerOperation then Err(TooManyChunks)
               else RangeData(env, a, ByPath(n), i, offset, end - offset)
    ensures Touched(env, a, path, offset, end).Ok? ==> |Touched(env, a, path, offset, end).value| == end - offset
  {
    hide WellFormed, Located, ChunksData, Joined;
    var (n, i) := Located(env, a, path).value;
    EntryIsLegal(env, a, i);
    RangeInside(env, a, i, offset, end - offset);
    var first, last := FirstChunkOf(a, offset), LastChunkOf(a, offset, end - offset);
    JoinedRun(env, a, path, first, last);
    WindowFits(env, a, ByPath(n), i, offset, end - offset);
    RestOfDivision(offset, a.chunkSize);
  }

  lemma RestOfDivision(x: nat, s: nat)
    requires s > 0
    ensures x - x / s * s == x % s
  {
  }

  lemma NothingOf(env: Env, a: Archive, asset: Label, i: nat, offset: nat)
    requires env.Lawful() && WellFormed(env, a) && i < |a.entries|
    ensures offset <= a.entries[i].originalSize ==> RangeData(env, a, asset, i, offset, 0) == Ok([])
  {
  }

  /** A range read vouches for every chunk it touches. */
  lemma RangeIsChecked(env: Env, a: Archive, path: bytes, offset: nat, end: nat)
    requires env.Lawful() && WellFormed(env, a) && Located(env, a, path).Ok?
    requires offset < end <= a.entries[Located(env, a, path).value.1].originalSize
    requires a.chunkSize > 0 && Touched(env, a, path, offset, end).Ok?
    ensures var e := a.entries[Located(env, a, path).value.1];
            var first, last := ChunkOfByte(offset, a.chunkSize), ChunkOfByte(end - 1, a.chunkSize);
            && e.firstChunk + last < |a.chunks| < POW32
            && AllSound(env, a, e.firstChunk + first, e.firstChunk + last + 1)
  {
    hide WellFormed, Located, ChunksData, AllSound, Joined;
    var (n, i) := Located(env, a, path).value;
    var e := a.entries[i];
    EntryIsLegal(env, a, i);
    RangeInside(env, a, i, offset, end - offset);
    var first, last := FirstChunkOf(a, offset), LastChunkOf(a, offset, end - offset);
    JoinedRun(env, a, path, first, last);
    ChunksChecked(env, a, ByPath(n), e, first, last);
  }
}
