/** What can still go wrong once an archive is open: the checks that reading repeats for safety
    never fail, so only the caller, the operation limit and damaged data are left. */
module Failures {
  import opened Prelude
  import opened Path
  import opened Layout
  import opened Source
  import opened Index
  import opened Archive
  import opened Access
  import opened Opening
  import opened Toc

  /** Damage found in the stored data, or the operation limit. */
  predicate DataFault(e: Error) {
    || e == TooManyChunks
    || e == Crypto(AuthenticationFailed)
    || e == Lz4
    || e == Corrupt(ChunkDecompressedSize)
    || e.ChecksumMismatch?
  }

  predicate LookupFault(e: Error) {
    e == InvalidPath || e.NotFound?
  }

  /** Every block of an opened archive lies inside its source and is long enough to open. */
  lemma BlocksInside(env: Env, source: bytes, key: bytes, limits: ArchiveLimits, a: Archive, k: nat)
    requires OpensAs(env, source, key, limits, a) && k < |a.chunks|
    ensures End(a.chunks[k]) < POW64 && End(a.chunks[k]) <= |a.source|
    ensures a.aeadKey.Some? ==> a.chunks[k].storedSize > AEAD_OVERHEAD
  {
    hide CheckedHeader, ReadSlice, PlainToc, DecodedToc, LegalBuckets, Clamped, IsIndex;
    var t := OpenTables(env, source, key, limits).value;
    assert LegalChunk(t.chunks[k], LayoutRulesOf(t.header, Clamped(limits)));
  }

  lemma ChunkFaults(env: Env, source: bytes, key: bytes, limits: ArchiveLimits, a: Archive,
                    asset: Label, local: u32, k: u32)
    requires OpensAs(env, source, key, limits, a) && k < |a.chunks|
    requires ChunkData(env, a, asset, local, k).Err?
    ensures DataFault(ChunkData(env, a, asset, local, k).error)
  {
    hide OpensAs;
    BlocksInside(env, source, key, limits, a, k);
  }

  lemma {:induction false} ChunksFaults(env: Env, source: bytes, key: bytes, limits: ArchiveLimits, a: Archive,
                                        asset: Label, e: TocEntry, lo: nat, hi: nat)
    requires OpensAs(env, source, key, limits, a)
    requires EntryOf(a, e) && lo <= hi <= e.chunkCount
    requires ChunksData(env, a, asset, e, lo, hi).Err?
    ensures DataFault(ChunksData(env, a, asset, e, lo, hi).error)
  {
    hide OpensAs, ChunkData, DataFault;
    if ChunksData(env, a, asset, e, lo, hi - 1).Err? {
      ChunksFaults(env, source, key, limits, a, asset, e, lo, hi - 1);
    } else {
      ChunkFaults(env, source, key, limits, a, asset, hi - 1, e.firstChunk + hi - 1);
    }
  }

  lemma EntryFaults(env: Env, source: bytes, key: bytes, limits: ArchiveLimits, a: Archive, asset: Label, i: nat)
    requires OpensAs(env, source, key, limits, a)
    requires i < |a.entries| && EntryOf(a, a.entries[i])
    ensures EntryData(env, a, asset, i).Err? ==> DataFault(EntryData(env, a, asset, i).error)
  {
    hide OpensAs, ChunksData;
    var e := a.entries[i];
    if ChunksData(env, a, asset, e, 0, e.chunkCount).Err? {
      ChunksFaults(env, source, key, limits, a, asset, e, 0, e.chunkCount);
    }
  }

  lemma LookupFaults(env: Env, a: Archive, path: bytes)
    requires WellFormed(env, a)
    ensures Located(env, a, path).Err? ==>
              Located(env, a, path).error == InvalidPath || Located(env, a, path).error.NotFound?
  {
    hide WellFormed, FindNormalized, Names;
    IndexOfArchive(env, a);
    if Normalize(path).Ok? {
      LookupIn(env, a, Normalize(path).value);
    }
  }

  lemma IdFaults(env: Env, a: Archive, id: u64)
    requires WellFormed(env, a)
    ensures var r := FindById(a.entries, a.index, id);
            r.Err? ==> r == Err(NotFound(ByHash(id))) || r == Err(HashCollision(id))
  {
    hide WellFormed;
    IndexOfArchive(env, a);
    FindByIdCounts(a.entries, a.index, id);
  }

  lemma ByIdFails(env: Env, source: bytes, key: bytes, limits: ArchiveLimits, a: Archive, id: u64)
    requires OpensAs(env, source, key, limits, a) && WellFormed(env, a)
    ensures ReadByIdResult(env, a, id).Err? ==>
              var e := ReadByIdResult(env, a, id).error;
              e == NotFound(ByHash(id)) || e == HashCollision(id) || DataFault(e)
  {
    hide OpensAs, WellFormed, FindById, EntryData, DataFault;
    IndexOfArchive(env, a);
    IdFaults(env, a, id);
    if FindById(a.entries, a.index, id).Ok? {
      IndexEntries(a.index, a.entries);
      var i := FindById(a.entries, a.index, id).value;
      FindByIdCounts(a.entries, a.index, id);
      EntryIsLegal(env, a, i);
      EntryFaults(env, source, key, limits, a, OwnLabel(a, i), i);
    }
  }

  /** Full and chunk reads of an opened archive: source faults, truncated blocks, indices out
      of bounds and sizes that do not add up are all ruled out. */
  lemma ReadsFailAsForeseen(env: Env, source: bytes, key: bytes, limits: ArchiveLimits, a: Archive,
                            path: bytes, id: u64, local: u32)
    requires env.Lawful() && OpensAs(env, source, key, limits, a)
    ensures WellFormed(env, a)
    ensures ReadResult(env, a, path).Err? ==>
              var e := ReadResult(env, a, path).error;
              LookupFault(e) || DataFault(e)
    ensures ReadByIdResult(env, a, id).Err? ==>
              var e := ReadByIdResult(env, a, id).error;
              e == NotFound(ByHash(id)) || e == HashCollision(id) || DataFault(e)
    ensures ReadChunkResult(env, a, path, local).Err? ==>
              var e := ReadChunkResult(env, a, path, local).error;
              LookupFault(e) || e.ChunkOutOfRange? || DataFault(e)
  {
    hide OpensAs, WellFormed, Located, ReadByIdResult, EntryData, ChunkData, DataFault;
    OpenedIsWellFormed(env, source, key, limits, a);
    LookupFaults(env, a, path);
    if Located(env, a, path).Ok? {
      var (n, i) := Located(env, a, path).value;
      var e := a.entries[i];
      EntryFaults(env, source, key, limits, a, ByPath(n), i);
      if local < e.chunkCount && ChunkData(env, a, ByPath(n), local, e.firstChunk + local).Err? {
        ChunkFaults(env, source, key, limits, a, ByPath(n), local, e.firstChunk + local);
      }
    }
    ByIdFails(env, source, key, limits, a, id);
  }

  /** The same for range reads, clipped and exact. */
  lemma RangesFailAsForeseen(env: Env, source: bytes, key: bytes, limits: ArchiveLimits, a: Archive,
                             path: bytes, offset: u64, len: u64, exact: bool)
    requires env.Lawful() && OpensAs(env, source, key, limits, a)
    ensures WellFormed(env, a)
    ensures RangeResult(env, a, path, offset, len, exact).Err? ==>
              var e := RangeResult(env, a, path, offset, len, exact).error;
              LookupFault(e) || e == InvalidRange || DataFault(e)
  {
    hide OpensAs, WellFormed, Located, ChunksData;
    OpenedIsWellFormed(env, source, key, limits, a);
    LookupFaults(env, a, path);
    if Located(env, a, path).Ok? {
      var (n, i) := Located(env, a, path).value;
      EntryIsLegal(env, a, i);
      RangeLenBounds(a, i, offset, len, exact);
      if RangeLen(a, i, offset, len, exact).Ok? {
        PieceFaults(env, source, key, limits, a, ByPath(n), i, offset, RangeLen(a, i, offset, len, exact).value);
      }
    }
  }

  lemma PieceFaults(env: Env, source: bytes, key: bytes, limits: ArchiveLimits, a: Archive,
                    asset: Label, i: nat, offset: nat, len: nat)
    requires env.Lawful() && OpensAs(env, source, key, limits, a) && WellFormed(env, a)
    requires i < |a.entries| && offset + len <= a.entries[i].originalSize
    ensures RangeData(env, a, asset, i, offset, len).Err? ==>
              DataFault(RangeData(env, a, asset, i, offset, len).error)
  {
    hide OpensAs, WellFormed, ChunksData, DataFault, FirstChunkOf, LastChunkOf;
    if len > 0 {
      EntryIsLegal(env, a, i);
      RangeInside(env, a, i, offset, len);
      var e, first, last := a.entries[i], FirstChunkOf(a, offset), LastChunkOf(a, offset, len);
      if ChunksData(env, a, asset, e, first, last).Err? {
        ChunksFaults(env, source, key, limits, a, asset, e, first, last);
      }
    }
  }
}
