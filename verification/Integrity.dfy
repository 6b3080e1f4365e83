/** Damage is found: which blocks a read lets through, and what it says about the others. */
module Integrity {
  import opened Prelude
  import opened Layout
  import opened Source
  import opened Archive
  import opened Access

  /** The bytes that the block of chunk k decodes to, whatever its checksum. */
  function BlockData(env: Env, a: Archive, k: nat): Result<bytes>
    requires k < |a.chunks| < POW32
  {
    var c := a.chunks[k];
    var stored :- ReadSlice(a.source, c.offset, c.storedSize);
    Decoded(env, a.aeadKey, c, k, stored)
  }

  /** A block is sound when it decodes, and to bytes with the recorded checksum. */
  ghost predicate Sound(env: Env, a: Archive, k: nat)
    requires k < |a.chunks| < POW32
  {
    BlockData(env, a, k).Ok? && env.xxh3(BlockData(env, a, k).value) == a.chunks[k].checksum
  }

  ghost predicate AllSound(env: Env, a: Archive, lo: nat, hi: nat)
    requires hi <= |a.chunks| < POW32
  {
    forall k: nat :: lo <= k < hi ==> Sound(env, a, k)
  }

  /** What reading an unsound block as local chunk `local` of `asset` reports. */
  function Damage(env: Env, a: Archive, asset: Label, local: u32, k: nat): Error
    requires k < |a.chunks| < POW32
  {
    match BlockData(env, a, k)
    case Err(e) => e
    case Ok(_) => ChecksumMismatch(asset, local)
  }

  /** Chunks are delivered exactly when they are sound. */
  lemma ChunkChecked(env: Env, a: Archive, asset: Label, local: u32, k: u32)
    requires k < |a.chunks| < POW32 && a.maxChunksPerOperation >= 1
    ensures ChunkData(env, a, asset, local, k) ==
            if Sound(env, a, k) then BlockData(env, a, k) else Err(Damage(env, a, asset, local, k))
  {
    hide Decoded;
  }

  lemma {:induction false} ChunksChecked(env: Env, a: Archive, asset: Label, e: TocEntry, lo: nat, hi: nat)
    requires EntryOf(a, e) && lo <= hi <= e.chunkCount && a.maxChunksPerOperation >= 1
    ensures ChunksData(env, a, asset, e, lo, hi).Ok? <==>
            AllSound(env, a, e.firstChunk + lo, e.firstChunk + hi)
  {
    hide Sound, ChunkData;
    if lo < hi {
      ChunksChecked(env, a, asset, e, lo, hi - 1);
      ChunkChecked(env, a, asset, hi - 1, e.firstChunk + hi - 1);
      if Sound(env, a, e.firstChunk + hi - 1) {
        RecordedChecksum(env, a, e.firstChunk + hi - 1);
      }
    }
  }

  lemma FirstUnsound(env: Env, a: Archive, asset: Label, e: TocEntry, lo: nat, local: nat, hi: nat)
    requires EntryOf(a, e) && lo <= local < hi <= e.chunkCount && a.maxChunksPerOperation >= 1
    requires AllSound(env, a, e.firstChunk + lo, e.firstChunk + local)
    requires !Sound(env, a, e.firstChunk + local)
    ensures ChunksData(env, a, asset, e, lo, hi) == Err(Damage(env, a, asset, local, e.firstChunk + local))
  {
    hide Sound, ChunkData, Damage;
    ChunksChecked(env, a, asset, e, lo, local);
    ChunkChecked(env, a, asset, local, e.firstChunk + local);
    ChunksFail(env, a, asset, e, lo, local + 1, hi);
  }

  // ---- full reads ------------------------------------------------------------------

  /** A full read succeeds exactly when the operation limit allows it and every chunk is
      sound; then each piece of its result has the checksum recorded for it. */
  lemma ReadIsChecked(env: Env, a: Archive, path: bytes)
    requires env.Lawful() && WellFormed(env, a) && Located(env, a, path).Ok?
    ensures var e := a.entries[Located(env, a, path).value.1];
            && (ReadResult(env, a, path).Ok? <==>
                  && e.chunkCount <= a.maxChunksPerOperation
                  && AllSound(env, a, e.firstChunk, e.firstChunk + e.chunkCount))
            && (ReadResult(env, a, path).Ok? ==> forall j: nat :: j < e.chunkCount ==>
                  env.xxh3(Piece(ReadResult(env, a, path).value, a.chunkSize, j)) ==
                  a.chunks[e.firstChunk + j].checksum)
  {
    hide WellFormed, Located, ChunksData, ChunkData, Piece, Sound;
    var (n, i) := Located(env, a, path).value;
    var e := a.entries[i];
    if 0 < e.chunkCount <= a.maxChunksPerOperation {
      ChunksChecked(env, a, ByPath(n), e, 0, e.chunkCount);
    } else if e.chunkCount == 0 {
      EmptyRun(env, a, ByPath(n), e);
      NothingUnsound(env, a, e.firstChunk);
    }
    if ReadResult(env, a, path).Ok? {
      forall j: nat | j < e.chunkCount
        ensures env.xxh3(Piece(ReadResult(env, a, path).value, a.chunkSize, j)) == a.chunks[e.firstChunk + j].checksum
      {
        ChunkIsPiece(env, a, ByPath(n), i, j);
        ChunkChecked(env, a, ByPath(n), j, e.firstChunk + j);
        RecordedChecksum(env, a, e.firstChunk + j);
      }
    }
  }

  lemma RecordedChecksum(env: Env, a: Archive, k: nat)
    requires k < |a.chunks| < POW32 && Sound(env, a, k)
    ensures BlockData(env, a, k).Ok? && env.xxh3(BlockData(env, a, k).value) == a.chunks[k].checksum
  {
  }

  lemma EmptyRun(env: Env, a: Archive, asset: Label, e: TocEntry)
    requires EntryOf(a, e)
    ensures ChunksData(env, a, asset, e, 0, 0) == Ok([])
  {
  }

  /** Otherwise it reports the first unsound chunk: by number if the bytes are the wrong ones. */
  lemma ReadReportsDamage(env: Env, a: Archive, path: bytes, local: u32)
    requires WellFormed(env, a) && Located(env, a, path).Ok?
    requires var e := a.entries[Located(env, a, path).value.1];
             && local < e.chunkCount <= a.maxChunksPerOperation
             && AllSound(env, a, e.firstChunk, e.firstChunk + local)
             && !Sound(env, a, e.firstChunk + local)
    ensures var (n, i) := Located(env, a, path).value;
            ReadResult(env, a, path) == Err(Damage(env, a, ByPath(n), local, a.entries[i].firstChunk + local))
  {
    hide WellFormed, Located, ChunksData, Sound, Damage, AllSound;
    var (n, i) := Located(env, a, path).value;
    FirstUnsound(env, a, ByPath(n), a.entries[i], 0, local, a.entries[i].chunkCount);
  }

  // ---- single chunks ---------------------------------------------------------------

  /** Reading one chunk depends on that chunk alone. */
  lemma ChunkReadIsChecked(env: Env, a: Archive, path: bytes, local: u32)
    requires WellFormed(env, a) && Located(env, a, path).Ok?
    ensures a.chunkSize > 0
    ensures var e := a.entries[Located(env, a, path).value.1];
            local * a.chunkSize < e.originalSize ==> e.firstChunk + local < |a.chunks| < POW32
    ensures var (n, i) := Located(env, a, path).value;
            var e := a.entries[i];
            ReadChunkResult(env, a, path, local) ==
            if local * a.chunkSize >= e.originalSize then
              Err(ChunkOutOfRange(local, CeilDiv(e.originalSize, a.chunkSize)))
            else if a.maxChunksPerOperation < 1 then Err(TooManyChunks)
            else if Sound(env, a, e.firstChunk + local) then BlockData(env, a, e.firstChunk + local)
            else Err(Damage(env, a, ByPath(n), local, e.firstChunk + local))
  {
    hide WellFormed, Located, Sound, Damage, BlockData, LegalChunks, LegalEntry, CeilDiv, Reach;
    var (n, i) := Located(env, a, path).value;
    var e := a.entries[i];
    EntryIsLegal(env, a, i);
    EntryShape(e, a.chunks, RulesOf(a));
    ChunkExists(env, a, i, local);
    if local < e.chunkCount && a.maxChunksPerOperation >= 1 {
      ChunkChecked(env, a, ByPath(n), local, e.firstChunk + local);
    } else if local < e.chunkCount {
      NoChunkAllowed(env, a, ByPath(n), local, e.firstChunk + local);
    }
  }

  lemma NoChunkAllowed(env: Env, a: Archive, asset: Label, local: u32, k: u32)
    requires k < |a.chunks| && a.maxChunksPerOperation < 1
    ensures ChunkData(env, a, asset, local, k) == Err(TooManyChunks)
  {
  }

  /** Local chunk k exists exactly when the asset reaches beyond k chunk sizes. */
  lemma ChunkExists(env: Env, a: Archive, i: nat, local: u32)
    requires WellFormed(env, a) && i < |a.entries| && EntryOf(a, a.entries[i])
    ensures local < a.entries[i].chunkCount <==> local * a.chunkSize < a.entries[i].originalSize
  {
    hide WellFormed, Reach;
    if local < a.entries[i].chunkCount {
      ReachOfChunks(env, a, i, local);
    } else {
      ReachOfChunks(env, a, i, a.entries[i].chunkCount);
      StartsBelow(a.entries[i].chunkCount, local, a.chunkSize);
    }
  }

  // ---- verification ----------------------------------------------------------------

  /** Verification succeeds exactly when every block of the archive is sound. */
  lemma VerifyIsChecked(env: Env, a: Archive)
    requires WellFormed(env, a)
    ensures |a.chunks| < POW32
    ensures VerifyResult(env, a).Ok? <==>
            |a.chunks| <= a.maxChunksPerOperation && AllSound(env, a, 0, |a.chunks|)
  {
    hide WellFormed, ChunksData, Sound, AllSound;
    VerifyEntriesAll(env, a, |a.entries|);
    OwnersSound(env, a);
    forall i: nat | i < |a.entries| && |a.chunks| <= a.maxChunksPerOperation
      ensures EntryOf(a, a.entries[i])
      ensures ChunksData(env, a, OwnLabel(a, i), a.entries[i], 0, a.entries[i].chunkCount).Ok? <==>
              EntrySound(env, a, i)
    {
      EntryIsLegal(env, a, i);
      if a.entries[i].chunkCount > 0 {
        ChunksChecked(env, a, OwnLabel(a, i), a.entries[i], 0, a.entries[i].chunkCount);
      } else {
        EmptyRun(env, a, OwnLabel(a, i), a.entries[i]);
        NothingUnsound(env, a, a.entries[i].firstChunk);
      }
    }
  }

  ghost predicate EntrySound(env: Env, a: Archive, i: nat)
    requires i < |a.entries|
  {
    EntryOf(a, a.entries[i])
    && AllSound(env, a, a.entries[i].firstChunk, a.entries[i].firstChunk + a.entries[i].chunkCount)
  }

  lemma NothingUnsound(env: Env, a: Archive, k: nat)
    requires k <= |a.chunks| < POW32
    ensures AllSound(env, a, k, k)
  {
  }

  /** As every chunk has an owner, all chunks are sound when the chunks of all entries are. */
  lemma OwnersSound(env: Env, a: Archive)
    requires WellFormed(env, a)
    ensures |a.chunks| < POW32
    ensures AllSound(env, a, 0, |a.chunks|) <==> forall i: nat :: i < |a.entries| ==> EntrySound(env, a, i)
  {
    hide Sound, LegalChunks;
    forall i: nat | i < |a.entries|
      ensures EntryOf(a, a.entries[i])
    {
      assert LegalEntry(a.entries[i], a.chunks, a.chunkSize);
    }
    if forall i: nat :: i < |a.entries| ==> EntrySound(env, a, i) {
      forall k: nat | k < |a.chunks|
        ensures Sound(env, a, k)
      {
        assert Covered(a.entries, k);
        var i :| 0 <= i < |a.entries| && Owns(a.entries[i], k);
        assert EntrySound(env, a, i);
      }
    }
  }

  /** Verification reports the first unsound chunk of the first unsound entry, under the name
      of that entry or, in production, its hash. */
  lemma VerifyReportsDamage(env: Env, a: Archive, i: nat, local: u32)
    requires WellFormed(env, a) && |a.chunks| <= a.maxChunksPerOperation && i < |a.entries|
    requires EntryOf(a, a.entries[i]) && local < a.entries[i].chunkCount
    requires forall h: nat :: h < i ==>
               EntryOf(a, a.entries[h])
               && AllSound(env, a, a.entries[h].firstChunk, a.entries[h].firstChunk + a.entries[h].chunkCount)
    requires AllSound(env, a, a.entries[i].firstChunk, a.entries[i].firstChunk + local)
    requires !Sound(env, a, a.entries[i].firstChunk + local)
    ensures var e := a.entries[i];
            VerifyResult(env, a) ==
            Err(Damage(env, a, if a.pathsStripped then ByHash(e.pathHash) else ByPath(e.path), local,
                       e.firstChunk + local))
  {
    hide WellFormed, ChunksData, Sound, Damage, AllSound;
    VerifyEntriesAll(env, a, i);
    forall h: nat | h < i
      ensures EntryOf(a, a.entries[h])
              && ChunksData(env, a, OwnLabel(a, h), a.entries[h], 0, a.entries[h].chunkCount).Ok?
    {
      ChunksChecked(env, a, OwnLabel(a, h), a.entries[h], 0, a.entries[h].chunkCount);
    }
    FirstUnsound(env, a, OwnLabel(a, i), a.entries[i], 0, local, a.entries[i].chunkCount);
    VerifyFails(env, a, i + 1, |a.entries|);
  }
}
