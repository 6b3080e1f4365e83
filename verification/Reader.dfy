/** The read operations: loops over chunks into caller buffers and reusable scratch.
    Each is proved equal to what module Archive says the read means, so none of the
    defensive errors in these bodies can ever be returned for an opened archive. */
module Reader {
  import opened Prelude
  import opened Layout
  import opened Source
  import opened Cipher
  import opened Archive

  /** Buffers that reads may reuse. */
  class ArchiveScratch {
    var stored: array<byte>
    var decoded: array<byte>

    constructor ()
      ensures Valid() && fresh(stored) && fresh(decoded)
    {
      stored := new byte[0];
      decoded := new byte[0];
    }

    ghost predicate Valid()
      reads this
    {
      stored != decoded
    }

    ghost predicate Apart(dst: array<byte>)
      reads this
    {
      Valid() && dst != stored && dst != decoded
    }
  }

  /** Vec::resize: same buffer when the length is right, otherwise a resized copy. */
  method ResizeBuffer(buffer: array<byte>, len: nat) returns (out: array<byte>)
    ensures out.Length == len
    ensures out == buffer || fresh(out)
    ensures forall i :: 0 <= i < len ==> out[i] == if i < buffer.Length then old(buffer[i]) else 0
  {
    if buffer.Length == len {
      return buffer;
    }
    out := new byte[len](i reads buffer => if 0 <= i < buffer.Length then buffer[i] else 0);
  }

  method DecompressIntoExact(env: Env, data: bytes, dst: array<byte>, lo: nat, hi: nat, mismatch: Reason)
    returns (r: Result<Unit>)
    requires env.Lawful() && lo <= hi <= dst.Length
    modifies dst
    ensures dst[..lo] == old(dst[..lo]) && dst[hi..] == old(dst[hi..])
    ensures r.Ok? == DecompressExact(env, data, hi - lo, mismatch).Ok?
    ensures r.Ok? ==> dst[lo..hi] == DecompressExact(env, data, hi - lo, mismatch).value
    ensures r.Err? ==> DecompressExact(env, data, hi - lo, mismatch) == Err(r.error)
  {
    match env.lz4Decode(data, hi - lo)
    case None => r := Err(Lz4);
    case Some(decoded) =>
      CopyFromSlice(dst, lo, decoded);
      if |decoded| != hi - lo {
        return Err(Corrupt(mismatch));
      }
      r := Ok(Unit);
  }

  /** The result of a read into dst[lo..hi] is what `want` says, and nothing else is touched. */
  twostate predicate Delivered(dst: array<byte>, lo: nat, hi: nat, want: Result<bytes>, new r: Result<Unit>)
    requires lo <= hi <= dst.Length
    reads dst
  {
    && dst[..lo] == old(dst[..lo]) && dst[hi..] == old(dst[hi..])
    && r.Ok? == want.Ok?
    && (r.Ok? ==> dst[lo..hi] == want.value)
    && (r.Err? ==> want == Err(r.error))
  }

  /** Reads the stored block of a chunk into scratch. */
  method ReadStored(a: Archive, c: Chunk, scratch: ArchiveScratch) returns (r: Result<bytes>)
    modifies scratch`stored, scratch.stored
    ensures scratch.stored == old(scratch.stored) || fresh(scratch.stored)
    ensures r == ReadSlice(a.source, c.offset, c.storedSize)
  {
    scratch.stored := ResizeBuffer(scratch.stored, c.storedSize);
    ghost var before := scratch.stored[..];
    var _ :- ReadSliceExact(a.source, c.offset, scratch.stored, 0, c.storedSize);
    PatchedOutside(before, 0, ReadSlice(a.source, c.offset, c.storedSize).value, c.storedSize);
    r := Ok(scratch.stored[0..c.storedSize]);
  }

  /** Opens and expands a stored block into dst[lo..hi]. */
  method DecodeStoredInto(env: Env, a: Archive, c: Chunk, k: u32, stored: bytes,
                          dst: array<byte>, lo: nat, hi: nat)
    returns (r: Result<Unit>)
    requires env.Lawful() && a.alignment > 0 && LegalChunk(c, RulesOf(a))
    requires a.aeadKey.Some? || c.compressed
    requires |stored| == c.storedSize && lo <= hi <= dst.Length && hi - lo == c.originalSize
    modifies dst
    ensures Delivered(dst, lo, hi, Decoded(env, a.aeadKey, c, k, stored), r)
  {
    hide LegalChunk;
    var plain := stored;
    if a.aeadKey.Some? {
      OpenedSize(env, a, c, k, plain);
      plain :- Decrypt(env, plain, a.aeadKey.value, ChunkAad(k));
    }
    if c.compressed {
      r := DecompressIntoExact(env, plain, dst, lo, hi, ChunkDecompressedSize);
    } else {
      if |plain| != hi - lo {
        return Err(Corrupt(DecryptedSize));
      }
      ghost var before := dst[..];
      CopyFromSlice(dst, lo, plain);
      PatchedOutside(before, lo, plain, hi);
      r := Ok(Unit);
    }
  }

  method ReadChunkByIndexInto(env: Env, a: Archive, asset: Label, local: u32, k: u32,
                              dst: array<byte>, lo: nat, hi: nat, scratch: ArchiveScratch)
    returns (r: Result<Unit>)
    requires env.Lawful() && WellFormed(env, a) && k < |a.chunks|
    requires lo <= hi <= dst.Length && dst != scratch.stored
    modifies dst, scratch`stored, scratch.stored
    ensures scratch.stored == old(scratch.stored) || fresh(scratch.stored)
    ensures hi - lo == a.chunks[k].originalSize ==>
              Delivered(dst, lo, hi, ChunkData(env, a, asset, local, k), r)
    ensures hi - lo != a.chunks[k].originalSize ==>
              && dst[..] == old(dst[..])
              && r == if a.maxChunksPerOperation < 1 then Err(TooManyChunks)
                      else Err(BufferSizeMismatch(a.chunks[k].originalSize, hi - lo))
  {
    hide WellFormed, LegalChunk, Decoded;
    if 1 > a.maxChunksPerOperation {
      return Err(TooManyChunks);
    }
    ChunkIsLegal(env, a, k);
    AlignmentPositive(env, a);
    var c := a.chunks[k];
    if hi - lo != c.originalSize {
      return Err(BufferSizeMismatch(c.originalSize, hi - lo));
    }
    if a.aeadKey.None? && !c.compressed {
      RawSize(c, RulesOf(a));
      RawDecoded(env, a, c, k, ReadSlice(a.source, c.offset, c.storedSize));
      ghost var before := dst[..];
      var _ :- ReadSliceExact(a.source, c.offset, dst, lo, hi);
      PatchedOutside(before, lo, ReadSlice(a.source, c.offset, hi - lo).value, hi);
    } else {
      var stored :- ReadStored(a, c, scratch);
      var _ :- DecodeStoredInto(env, a, c, k, stored, dst, lo, hi);
    }
    if env.xxh3(dst[lo..hi]) != c.checksum {
      return Err(ChecksumMismatch(asset, local));
    }
    r := Ok(Unit);
  }

  lemma RawSize(c: Chunk, p: Rules)
    requires p.alignment > 0 && LegalChunk(c, p) && !c.compressed
    ensures c.storedSize == c.originalSize + Overhead(p.aead)
  {
  }

  lemma RawDecoded(env: Env, a: Archive, c: Chunk, k: u32, stored: Result<bytes>)
    requires a.aeadKey.None? && !c.compressed
    ensures stored.Ok? ==> Decoded(env, a.aeadKey, c, k, stored.value) == stored
  {
  }

  lemma OpenedSize(env: Env, a: Archive, c: Chunk, k: u32, stored: bytes)
    requires env.Lawful() && a.alignment > 0 && LegalChunk(c, RulesOf(a)) && a.aeadKey.Some?
    requires |stored| == c.storedSize
    ensures var d := Decrypt(env, stored, a.aeadKey.value, ChunkAad(k));
            d.Ok? && !c.compressed ==> |d.value| == c.originalSize
  {
    if Decrypt(env, stored, a.aeadKey.value, ChunkAad(k)).Ok? {
      DecryptedLength(env, stored, a.aeadKey.value, ChunkAad(k));
    }
  }

  // ---- whole assets ----------------------------------------------------------------

  /** The body of the entry loop: the next chunk goes right behind the ones already read. */
  method ReadEntryChunk(env: Env, a: Archive, i: nat, asset: Label, local: nat,
                        dst: array<byte>, lo: nat, hi: nat, written: nat, scratch: ArchiveScratch)
    returns (r: Result<nat>)
    requires env.Lawful() && WellFormed(env, a) && i < |a.entries| && EntryOf(a, a.entries[i])
    requires lo <= hi <= dst.Length && dst != scratch.stored && hi - lo == a.entries[i].originalSize
    requires local < a.entries[i].chunkCount && written == Reach(a, a.entries[i], local) && lo + written <= hi
    modifies dst, scratch`stored, scratch.stored
    ensures scratch.stored == old(scratch.stored) || fresh(scratch.stored)
    ensures dst[..lo] == old(dst[..lo]) && dst[hi..] == old(dst[hi..])
    ensures r.Err? ==> ChunkData(env, a, asset, local, a.entries[i].firstChunk + local) == Err(r.error)
    ensures r.Ok? ==>
              && written <= r.value == Reach(a, a.entries[i], local + 1) <= hi - lo
              && ChunkData(env, a, asset, local, a.entries[i].firstChunk + local).Ok?
              && dst[lo..lo + r.value] == old(dst[lo..lo + written])
                   + ChunkData(env, a, asset, local, a.entries[i].firstChunk + local).value
  {
    hide WellFormed, ChunkData, Reach;
    var e := a.entries[i];
    if e.firstChunk + local >= POW32 {
      return Err(Corrupt(ChunkIndexOverflow));
    }
    var k := e.firstChunk + local;
    if k >= |a.chunks| {
      return Err(Corrupt(ChunkIndexOutside));
    }
    NextChunk(env, a, i, local);
    var len := a.chunks[k].originalSize;
    if written + len >= POW64 {
      return Err(Corrupt(EntrySizeOverflow));
    }
    var end := written + len;
    if end > hi - lo {
      return Err(Corrupt(EntrySizeMismatch));
    }
    ghost var before := dst[..];
    var step := ReadChunkByIndexInto(env, a, asset, local, k, dst, lo + written, lo + end, scratch);
    KeepOutside(before, dst[..], lo, lo + written, lo + end, hi);
    if step.Err? {
      return Err(step.error);
    }
    r := Ok(end);
  }

  method ReadEntryInto(env: Env, a: Archive, i: nat, asset: Label,
                       dst: array<byte>, lo: nat, hi: nat, scratch: ArchiveScratch)
    returns (r: Result<Unit>)
    requires env.Lawful() && WellFormed(env, a) && i < |a.entries| && EntryOf(a, a.entries[i])
    requires lo <= hi <= dst.Length && dst != scratch.stored
    modifies dst, scratch`stored, scratch.stored
    ensures scratch.stored == old(scratch.stored) || fresh(scratch.stored)
    ensures hi - lo == a.entries[i].originalSize ==>
              Delivered(dst, lo, hi, EntryData(env, a, asset, i), r)
    ensures hi - lo != a.entries[i].originalSize ==>
              && dst[..] == old(dst[..])
              && r == if a.entries[i].chunkCount > a.maxChunksPerOperation then Err(TooManyChunks)
                      else Err(BufferSizeMismatch(a.entries[i].originalSize, hi - lo))
  {
    hide WellFormed, ChunkData, ChunksData, Reach;
    var e := a.entries[i];
    if e.chunkCount > a.maxChunksPerOperation {
      return Err(TooManyChunks);
    }
    if hi - lo != e.originalSize {
      return Err(BufferSizeMismatch(e.originalSize, hi - lo));
    }
    ghost var was := dst[..];
    var written := 0;
    StartsAtZero(a, e);
    NoChunks(env, a, asset, e, 0);
    assert dst[lo..lo + 0] == [];
    for local := 0 to e.chunkCount
      invariant scratch.stored == old(scratch.stored) || fresh(scratch.stored)
      invariant dst != scratch.stored
      invariant lo + written <= hi && written == Reach(a, e, local)
      invariant ChunksData(env, a, asset, e, 0, local) == Ok(dst[lo..lo + written])
      invariant dst[..lo] == was[..lo] && dst[hi..] == was[hi..]
    {
      OneMoreChunk(env, a, asset, e, 0, local);
      var step := ReadEntryChunk(env, a, i, asset, local, dst, lo, hi, written, scratch);
      if step.Err? {
        ChunksFail(env, a, asset, e, 0, local + 1, e.chunkCount);
        return Err(step.error);
      }
      written := step.value;
    }
    ReachOfChunks(env, a, i, e.chunkCount);
    ReachBelow(a, e, e.chunkCount);
    if written != hi - lo {
      return Err(Corrupt(EntrySizeMismatch));
    }
    r := Ok(Unit);
  }

  lemma NoChunks(env: Env, a: Archive, asset: Label, e: TocEntry, lo: nat)
    requires EntryOf(a, e) && lo <= e.chunkCount
    ensures ChunksData(env, a, asset, e, lo, lo) == Ok([])
  {
  }

  lemma OneMoreChunk(env: Env, a: Archive, asset: Label, e: TocEntry, lo: nat, local: nat)
    requires EntryOf(a, e) && lo <= local < e.chunkCount
    requires ChunksData(env, a, asset, e, lo, local).Ok?
    ensures ChunksData(env, a, asset, e, lo, local + 1) ==
            match ChunkData(env, a, asset, local, e.firstChunk + local)
            case Err(error) => Err(error)
            case Ok(last) => Ok(ChunksData(env, a, asset, e, lo, local).value + last)
  {
    hide ChunkData;
  }

  /** The next local chunk takes the reach of an asset from one chunk boundary to the next. */
  lemma NextChunk(env: Env, a: Archive, i: nat, local: nat)
    requires WellFormed(env, a) && i < |a.entries| && EntryOf(a, a.entries[i])
    requires local < a.entries[i].chunkCount
    ensures var e := a.entries[i];
            && Reach(a, e, local + 1) == Reach(a, e, local) + a.chunks[e.firstChunk + local].originalSize
            && Reach(a, e, local + 1) <= e.originalSize
            && Reach(a, e, local) == local * a.chunkSize
  {
    hide WellFormed;
    ReachOfChunks(env, a, i, local);
    ReachOfChunks(env, a, i, local + 1);
  }

  /** What a patch of dst[from..to] leaves alone, and how it extends what was there. */
  lemma KeepOutside(before: bytes, after: bytes, lo: nat, from: nat, to: nat, hi: nat)
    requires |before| == |after| && lo <= from <= to <= hi <= |before|
    requires after[..from] == before[..from] && after[to..] == before[to..]
    ensures after[..lo] == before[..lo] && after[hi..] == before[hi..]
    ensures after[lo..from] == before[lo..from]
    ensures after[lo..to] == before[lo..from] + after[from..to]
  {
    assert after[..lo] == after[..from][..lo] && before[..lo] == before[..from][..lo];
    assert after[hi..] == after[to..][hi - to..] && before[hi..] == before[to..][hi - to..];
    assert after[lo..from] == after[..from][lo..] && before[lo..from] == before[..from][lo..];
  }

  // ---- ranges ----------------------------------------------------------------------

  function Max(a: nat, b: nat): nat {
    if a < b then b else a
  }

  /** How far into the asset a range read has copied once chunks up to `reach` are decoded. */
  function Copied(offset: nat, end: nat, reach: nat): nat {
    Max(offset, Min(end, reach))
  }

  function Slice(s: bytes, from: int, n: nat): bytes {
    if 0 <= from && from + n <= |s| then s[from..from + n] else []
  }

  /** The part of a chunk at [start, start + |b|) that belongs to the range [offset, end). */
  function CutPart(b: bytes, offset: nat, end: nat, start: nat): bytes {
    Slice(b, Max(offset, start) - start, Copied(offset, end, start + |b|) - Copied(offset, end, start))
  }

  lemma CutChunk(offset: nat, end: nat, start: nat, base: nat, d: bytes, b: bytes)
    requires base <= offset < end && base <= start < end && offset < start + |b|
    requires |d| == start - base
    ensures var w0 := Copied(offset, end, start) - offset;
            var w1 := Copied(offset, end, start + |b|) - offset;
            && 0 <= w0 <= w1 <= end - offset
            && w1 - w0 == Min(end, start + |b|) - Max(offset, start)
            && Slice(d + b, offset - base, w1) == Slice(d, offset - base, w0) + CutPart(b, offset, end, start)
            && |Slice(d + b, offset - base, w1)| == w1
  {
    hide Copied, Max, Min;
    CopiedAt(offset, end, start, |b|);
    var to := Copied(offset, end, start + |b|);
    if start <= offset {
      SliceOfSecond(d, b, offset - start, to - start);
    } else {
      SliceOfBoth(d, b, offset - base, to - start);
    }
  }

  /** How far a range read is before and after a chunk that it touches. */
  lemma CopiedAt(offset: nat, end: nat, start: nat, size: nat)
    requires offset < end && start < end && offset < start + size
    ensures Max(offset, start) == if start <= offset then offset else start
    ensures Copied(offset, end, start) == Max(offset, start)
    ensures Copied(offset, end, start + size) == Min(end, start + size)
    ensures Max(offset, start) <= Min(end, start + size) <= end
    ensures Min(end, start + size) <= start + size
  {
  }

  lemma SliceOfSecond(d: bytes, b: bytes, i: nat, j: nat)
    requires i <= j <= |b|
    ensures (d + b)[|d| + i..|d| + j] == [] + b[i..j]
  {
  }

  lemma SliceOfBoth(d: bytes, b: bytes, i: nat, j: nat)
    requires i <= |d| && j <= |b|
    ensures (d + b)[i..|d| + j] == d[i..|d|] + b[0..j]
  {
  }

  /** The state of a range read before local chunk `n`: decoded so far, copied so far. */
  ghost predicate RangeState(a: Archive, e: TocEntry, offset: nat, len: nat, n: nat,
                             done: bytes, written: nat, copied: bytes)
    requires a.chunkSize > 0
  {
    CopyState(FirstChunkOf(a, offset) * a.chunkSize, Reach(a, e, n), offset, len, done, written, copied)
  }

  /** The same by positions: what was decoded starts at `base` and ends at `reach`. */
  ghost predicate CopyState(base: nat, reach: nat, offset: nat, len: nat, done: bytes, written: nat, copied: bytes) {
    && |done| == reach - base
    && written == Copied(offset, offset + len, reach) - offset <= len
    && copied == Slice(done, offset - base, written) && |copied| == written
  }

  /** The chunk positions a range loop goes through. */
  lemma RangeChunk(env: Env, a: Archive, i: nat, offset: nat, len: nat, local: nat)
    requires WellFormed(env, a) && i < |a.entries| && EntryOf(a, a.entries[i])
    requires len > 0 && offset + len <= a.entries[i].originalSize && a.chunkSize > 0
    requires FirstChunkOf(a, offset) <= local < LastChunkOf(a, offset, len)
    ensures local < a.entries[i].chunkCount
    ensures var e, s := a.entries[i], a.chunkSize;
            var chunk := a.chunks[e.firstChunk + local];
            && FirstChunkOf(a, offset) * s <= offset
            && FirstChunkOf(a, offset) * s <= local * s < offset + len
            && offset < local * s + chunk.originalSize
            && Reach(a, e, local + 1) == local * s + chunk.originalSize <= e.originalSize
            && Reach(a, e, local) == local * s
            && (local + 1 == LastChunkOf(a, offset, len) ==> offset + len <= Reach(a, e, local + 1))
  {
    hide WellFormed, Reach;
    var e, s := a.entries[i], a.chunkSize;
    RangeInside(env, a, i, offset, len);
    var first, last := FirstChunkOf(a, offset), LastChunkOf(a, offset, len);
    NextChunk(env, a, i, local);
    ReachBelow(a, e, local + 1);
    ReachBelow(a, e, last);
    StartsBelow(first, local, s);
    StartsBelow(local, last - 1, s);
    DivBounds(offset + len - 1, s);
    DivBounds(offset, s);
    if local > first {
      StartsBelow(first + 1, local, s);
    }
  }

  lemma RangeStart(env: Env, a: Archive, i: nat, offset: nat, len: nat)
    requires WellFormed(env, a) && i < |a.entries| && EntryOf(a, a.entries[i])
    requires len > 0 && offset + len <= a.entries[i].originalSize && a.chunkSize > 0
    ensures FirstChunkOf(a, offset) < LastChunkOf(a, offset, len) <= a.entries[i].chunkCount
    ensures RangeState(a, a.entries[i], offset, len, FirstChunkOf(a, offset), [], 0, [])
  {
    hide WellFormed, Reach, FirstChunkOf, LastChunkOf;
    RangeInside(env, a, i, offset, len);
    RangeChunk(env, a, i, offset, len, FirstChunkOf(a, offset));
  }

  /** Decoding one more chunk and copying its share leads to the next state. */
  lemma RangeStep(env: Env, a: Archive, i: nat, offset: nat, len: nat, local: nat, start: nat,
                  done: bytes, written: nat, copied: bytes, b: bytes)
    returns (cut: bytes)
    requires WellFormed(env, a) && i < |a.entries| && EntryOf(a, a.entries[i])
    requires len > 0 && offset + len <= a.entries[i].originalSize && a.chunkSize > 0
    requires FirstChunkOf(a, offset) <= local < LastChunkOf(a, offset, len)
    requires RangeState(a, a.entries[i], offset, len, local, done, written, copied)
    requires local < a.entries[i].chunkCount && start == local * a.chunkSize
    requires |b| == a.chunks[a.entries[i].firstChunk + local].originalSize
    ensures offset < start + |b| && start < offset + len
    ensures cut == b[Max(offset, start) - start..Min(offset + len, start + |b|) - start]
    ensures written + |cut| <= len
    ensures RangeState(a, a.entries[i], offset, len, local + 1, done + b, written + |cut|, copied + cut)
  {
    hide WellFormed, Reach, FirstChunkOf, LastChunkOf, CutPart, Copied, RangeState, Slice, EntryOf, Min, Max;
    RangeChunk(env, a, i, offset, len, local);
    cut := CutPart(b, offset, offset + len, start);
    CutSize(b, offset, offset + len, start);
    RangeGrows(a, a.entries[i], offset, len, local, done, written, copied, b, start,
               FirstChunkOf(a, offset) * a.chunkSize);
    RangeStateBound(a, a.entries[i], offset, len, local + 1, done + b, written + |cut|, copied + cut);
  }

  lemma RangeGrows(a: Archive, e: TocEntry, offset: nat, len: nat, n: nat,
                   done: bytes, written: nat, copied: bytes, b: bytes, start: nat, base: nat)
    requires a.chunkSize > 0 && base == FirstChunkOf(a, offset) * a.chunkSize && len > 0
    requires base <= offset && base <= start < offset + len && offset < start + |b|
    requires Reach(a, e, n) == start && Reach(a, e, n + 1) == start + |b|
    requires RangeState(a, e, offset, len, n, done, written, copied)
    ensures var cut := CutPart(b, offset, offset + len, start);
            RangeState(a, e, offset, len, n + 1, done + b, written + |cut|, copied + cut)
  {
    hide Reach, FirstChunkOf, CopyState, CutPart;
    CopyGrows(base, offset, len, done, written, copied, b, start);
  }

  lemma CopyGrows(base: nat, offset: nat, len: nat, done: bytes, written: nat, copied: bytes, b: bytes, start: nat)
    requires base <= offset && base <= start < offset + len && offset < start + |b| && len > 0
    requires CopyState(base, start, offset, len, done, written, copied)
    ensures var cut := CutPart(b, offset, offset + len, start);
            CopyState(base, start + |b|, offset, len, done + b, written + |cut|, copied + cut)
  {
    hide Slice, CutPart, Copied, Max, Min;
    var end, cut := offset + len, CutPart(b, offset, offset + len, start);
    CutChunk(offset, end, start, base, done, b);
    var all := Slice(done + b, offset - base, Copied(offset, end, start + |b|) - offset);
    assert all == copied + cut && |all| == written + |cut|;
  }

  lemma CutSize(b: bytes, offset: nat, end: nat, start: nat)
    requires offset < end && start < end && offset < start + |b|
    ensures CutPart(b, offset, end, start) == b[Max(offset, start) - start..Min(end, start + |b|) - start]
  {
  }

  /** After the last chunk the copied bytes are the range. */
  lemma RangeEnd(env: Env, a: Archive, asset: Label, i: nat, offset: nat, len: nat,
                 done: bytes, written: nat, copied: bytes)
    requires env.Lawful() && WellFormed(env, a) && i < |a.entries| && EntryOf(a, a.entries[i])
    requires len > 0 && offset + len <= a.entries[i].originalSize && a.chunkSize > 0
    requires LastChunkOf(a, offset, len) <= a.entries[i].chunkCount
    requires FirstChunkOf(a, offset) < LastChunkOf(a, offset, len)
    requires RangeState(a, a.entries[i], offset, len, LastChunkOf(a, offset, len), done, written, copied)
    requires ChunksData(env, a, asset, a.entries[i], FirstChunkOf(a, offset),
                        LastChunkOf(a, offset, len)) == Ok(done)
    ensures written == len && RangeData(env, a, asset, i, offset, len) == Ok(copied)
  {
    hide WellFormed, Reach, ChunksData, FirstChunkOf, LastChunkOf;
    RangeChunk(env, a, i, offset, len, LastChunkOf(a, offset, len) - 1);
    WindowFits(env, a, asset, i, offset, len);
  }

  /** Copies the part of one decoded chunk that belongs to the range. */
  method CopyCut(decoded: array<byte>, start: nat, offset: nat, end: nat,
                 dst: array<byte>, lo: nat, hi: nat, written: nat)
    returns (r: Result<nat>)
    requires decoded != dst && lo <= hi <= dst.Length && hi - lo < POW64
    requires offset < end && start < end && offset < start + decoded.Length
    requires written + Min(end, start + decoded.Length) - Max(offset, start) <= hi - lo
    modifies dst
    ensures var cut := decoded[Max(offset, start) - start..Min(end, start + decoded.Length) - start];
            && r == Ok(written + |cut|) && written + |cut| <= hi - lo
            && dst[lo..lo + written + |cut|] == old(dst[lo..lo + written]) + cut
    ensures dst[..lo] == old(dst[..lo]) && dst[hi..] == old(dst[hi..])
  {
    hide Patched;
    var takeStart := Max(offset, start) - start;
    var takeEnd := Min(end, start + decoded.Length) - start;
    if takeEnd < takeStart {
      return Err(Corrupt(RangeSliceOrder));
    }
    var amount := takeEnd - takeStart;
    if written + amount >= POW64 {
      return Err(Corrupt(RangeOutputOverflow));
    }
    if written + amount > hi - lo {
      return Err(Corrupt(RangeOutputMismatch));
    }
    if takeEnd > decoded.Length {
      return Err(Corrupt(RangeSliceMismatch));
    }
    ghost var before := dst[..];
    CopyFromSlice(dst, lo + written, decoded[takeStart..takeEnd]);
    PatchedOutside(before, lo + written, decoded[takeStart..takeEnd], lo + written + amount);
    KeepOutside(before, dst[..], lo, lo + written, lo + written + amount, hi);
    r := Ok(written + amount);
  }

  /** Decodes one local chunk of an entry into the scratch buffer. */
  method DecodeLocalChunk(env: Env, a: Archive, e: TocEntry, asset: Label, local: nat, scratch: ArchiveScratch)
    returns (r: Result<Unit>)
    requires env.Lawful() && WellFormed(env, a) && EntryOf(a, e) && local < e.chunkCount
    requires scratch.Valid()
    modifies scratch, scratch.stored, scratch.decoded
    ensures scratch.Valid()
    ensures scratch.stored == old(scratch.stored) || fresh(scratch.stored)
    ensures scratch.decoded == old(scratch.decoded) || fresh(scratch.decoded)
    ensures scratch.decoded.Length == a.chunks[e.firstChunk + local].originalSize
    ensures r.Err? ==> ChunkData(env, a, asset, local, e.firstChunk + local) == Err(r.error)
    ensures r.Ok? ==> ChunkData(env, a, asset, local, e.firstChunk + local) == Ok(scratch.decoded[..])
  {
    hide WellFormed, ChunkData;
    var k := e.firstChunk + local;
    scratch.decoded := ResizeBuffer(scratch.decoded, a.chunks[k].originalSize);
    r := ReadChunkByIndexInto(env, a, asset, local, k, scratch.decoded, 0, scratch.decoded.Length, scratch);
    assert scratch.decoded[0..scratch.decoded.Length] == scratch.decoded[..];
  }

  /** The body of the range loop: decodes local chunk `local` and copies its share. */
  method ReadRangeChunk(env: Env, a: Archive, i: nat, asset: Label, offset: u64, local: nat,
                        dst: array<byte>, lo: nat, hi: nat, scratch: ArchiveScratch, written: nat,
                        ghost done: bytes)
    returns (r: Result<nat>, ghost data: bytes)
    requires env.Lawful() && WellFormed(env, a) && i < |a.entries| && EntryOf(a, a.entries[i])
    requires lo < hi <= dst.Length && scratch.Apart(dst) && a.chunkSize > 0
    requires offset + (hi - lo) <= a.entries[i].originalSize
    requires FirstChunkOf(a, offset) <= local < LastChunkOf(a, offset, hi - lo)
    requires lo + written <= hi
    requires RangeState(a, a.entries[i], offset, hi - lo, local, done, written, dst[lo..lo + written])
    modifies dst, scratch, scratch.stored, scratch.decoded
    ensures scratch.Apart(dst)
    ensures scratch.stored == old(scratch.stored) || fresh(scratch.stored)
    ensures scratch.decoded == old(scratch.decoded) || fresh(scratch.decoded)
    ensures dst[..lo] == old(dst[..lo]) && dst[hi..] == old(dst[hi..])
    ensures local < a.entries[i].chunkCount
    ensures r.Err? ==> ChunkData(env, a, asset, local, a.entries[i].firstChunk + local) == Err(r.error)
    ensures r.Ok? ==>
              && ChunkData(env, a, asset, local, a.entries[i].firstChunk + local) == Ok(data)
              && lo + r.value <= hi
              && RangeState(a, a.entries[i], offset, hi - lo, local + 1, done + data, r.value,
                            dst[lo..lo + r.value])
  {
    hide WellFormed, ChunkData, Reach, CutPart, FirstChunkOf, LastChunkOf, RangeState;
    data := [];
    var e := a.entries[i];
    var end := offset + (hi - lo);
    RangeChunk(env, a, i, offset, hi - lo, local);
    if local >= e.chunkCount {
      r := Err(Corrupt(EntryChunkRangeMismatch));
      return;
    }
    if e.firstChunk + local >= POW32 {
      r := Err(Corrupt(ChunkIndexOverflow));
      return;
    }
    if e.firstChunk + local >= |a.chunks| {
      r := Err(Corrupt(ChunkIndexOutside));
      return;
    }
    ghost var copied := dst[lo..lo + written];
    var step := DecodeLocalChunk(env, a, e, asset, local, scratch);
    if step.Err? {
      r := Err(step.error);
      return;
    }
    var start := local * a.chunkSize;
    if start >= POW64 {
      r := Err(Corrupt(RangeOffsetOverflow));
      return;
    }
    if start + scratch.decoded.Length >= POW64 {
      r := Err(Corrupt(RangeEndOverflow));
      return;
    }
    data := scratch.decoded[..];
    ghost var cut := RangeStep(env, a, i, offset, hi - lo, local, start, done, written, copied, data);
    r := CopyCut(scratch.decoded, start, offset, end, dst, lo, hi, written);
  }

  lemma RangeStateBound(a: Archive, e: TocEntry, offset: nat, len: nat, n: nat,
                        done: bytes, written: nat, copied: bytes)
    requires a.chunkSize > 0 && RangeState(a, e, offset, len, n, done, written, copied)
    ensures written <= len
  {
  }

  /** The range loop, over the chunks that a non-empty range touches. */
  method ReadRangeChunks(env: Env, a: Archive, i: nat, asset: Label, offset: u64, first: nat, last: nat,
                         dst: array<byte>, lo: nat, hi: nat, scratch: ArchiveScratch)
    returns (r: Result<nat>)
    requires env.Lawful() && WellFormed(env, a) && i < |a.entries| && EntryOf(a, a.entries[i])
    requires lo < hi <= dst.Length && scratch.Apart(dst) && a.chunkSize > 0
    requires offset + (hi - lo) <= a.entries[i].originalSize
    requires first == FirstChunkOf(a, offset) < LastChunkOf(a, offset, hi - lo) == last
    requires last <= a.entries[i].chunkCount
    modifies dst, scratch, scratch.stored, scratch.decoded
    ensures scratch.Apart(dst)
    ensures scratch.stored == old(scratch.stored) || fresh(scratch.stored)
    ensures scratch.decoded == old(scratch.decoded) || fresh(scratch.decoded)
    ensures dst[..lo] == old(dst[..lo]) && dst[hi..] == old(dst[hi..])
    ensures r.Err? ==> RangeData(env, a, asset, i, offset, hi - lo) == Err(r.error)
    ensures r.Ok? ==> r.value == hi - lo && RangeData(env, a, asset, i, offset, hi - lo) == Ok(dst[lo..hi])
  {
    hide WellFormed, ChunkData, ChunksData, Reach, RangeState, RangeData, FirstChunkOf, LastChunkOf;
    var e := a.entries[i];
    var written := 0;
    ghost var done: bytes := [];
    RangeStart(env, a, i, offset, hi - lo);
    NoChunks(env, a, asset, e, first);
    assert dst[lo..lo + 0] == [];
    for local := first to last
      invariant scratch.stored == old(scratch.stored) || fresh(scratch.stored)
      invariant scratch.decoded == old(scratch.decoded) || fresh(scratch.decoded)
      invariant scratch.Apart(dst)
      invariant ChunksData(env, a, asset, e, first, local) == Ok(done)
      invariant dst[..lo] == old(dst[..lo]) && dst[hi..] == old(dst[hi..])
      invariant lo + written <= hi
      invariant RangeState(a, e, offset, hi - lo, local, done, written, dst[lo..lo + written])
    {
      var step, data := ReadRangeChunk(env, a, i, asset, offset, local, dst, lo, hi, scratch,
                                       written, done);
      OneMoreChunk(env, a, asset, e, first, local);
      if step.Err? {
        RangeFails(env, a, asset, i, offset, hi - lo, local + 1);
        return Err(step.error);
      }
      written := step.value;
      done := done + data;
    }
    RangeEnd(env, a, asset, i, offset, hi - lo, done, written, dst[lo..lo + written]);
    r := Ok(written);
  }

  method ReadRangeIndexInto(env: Env, a: Archive, i: nat, asset: Label, offset: u64,
                            dst: array<byte>, lo: nat, hi: nat, scratch: ArchiveScratch)
    returns (r: Result<Unit>)
    requires env.Lawful() && WellFormed(env, a) && i < |a.entries|
    requires lo <= hi <= dst.Length && scratch.Apart(dst)
    requires offset + (hi - lo) <= a.entries[i].originalSize
    modifies dst, scratch, scratch.stored, scratch.decoded
    ensures scratch.Apart(dst)
    ensures scratch.stored == old(scratch.stored) || fresh(scratch.stored)
    ensures scratch.decoded == old(scratch.decoded) || fresh(scratch.decoded)
    ensures Delivered(dst, lo, hi, RangeData(env, a, asset, i, offset, hi - lo), r)
  {
    hide WellFormed, RangeData, FirstChunkOf, LastChunkOf, LegalEntry, LegalChunks;
    NoRange(env, a, asset, i, offset);
    if lo == hi {
      return Ok(Unit);
    }
    var e := a.entries[i];
    EntryIsLegal(env, a, i);
    RangeInside(env, a, i, offset, hi - lo);
    var end := offset + (hi - lo);
    if end >= POW64 {
      return Err(InvalidRange);
    }
    var first, last := FirstChunkOf(a, offset), LastChunkOf(a, offset, hi - lo);
    if first >= POW32 || last - 1 >= POW32 {
      return Err(TooLarge(RangeChunkIndex));
    }
    var written :- ReadRangeChunks(env, a, i, asset, offset, first, last, dst, lo, hi, scratch);
    if written != hi - lo {
      return Err(Corrupt(RangeSizeMismatch));
    }
    r := Ok(Unit);
  }

  lemma NoRange(env: Env, a: Archive, asset: Label, i: nat, offset: nat)
    requires env.Lawful() && WellFormed(env, a) && i < |a.entries|
    requires offset <= a.entries[i].originalSize
    ensures RangeData(env, a, asset, i, offset, 0) == Ok([])
  {
  }

  lemma RangeFails(env: Env, a: Archive, asset: Label, i: nat, offset: nat, len: nat, n: nat)
    requires env.Lawful() && WellFormed(env, a) && i < |a.entries| && EntryOf(a, a.entries[i])
    requires len > 0 && offset + len <= a.entries[i].originalSize && a.chunkSize > 0
    requires FirstChunkOf(a, offset) <= n <= LastChunkOf(a, offset, len) <= a.entries[i].chunkCount
    requires ChunksData(env, a, asset, a.entries[i], FirstChunkOf(a, offset), n).Err?
    ensures RangeData(env, a, asset, i, offset, len) ==
            ChunksData(env, a, asset, a.entries[i], FirstChunkOf(a, offset), n)
  {
    hide WellFormed, ChunksData, FirstChunkOf, LastChunkOf;
    ChunksFail(env, a, asset, a.entries[i], FirstChunkOf(a, offset), n, LastChunkOf(a, offset, len));
  }
}
