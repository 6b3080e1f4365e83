/** Chunks, ranges and ids of a packed archive: every way to read gives back what was packed,
    up to the operation limit, which counts only the chunks an operation needs. */
module PackedAccess {
  import opened Prelude
  import opened Path
  import opened Layout
  import opened Index
  import opened Archive
  import opened Access
  import opened Opening
  import opened Packing
  import opened PackInvariant
  import opened RoundTrip
  import opened Ranges
  import opened ById
  import Cipher
  import Integrity
  import Delivery

  lemma Reopen(env: Env, options: PackOptions, files: seq<InputFile>, key: bytes, st: PackState, f: Finished,
               disk: bytes, limits: ArchiveLimits, a: Archive)
    requires env.Lawful() && Delivery.PackedAs(env, options, files, key, st, f, disk)
    requires OpensAs(env, disk, key, limits, a)
    ensures Reopened(env, st, files, key, f, limits, a) && WellFormed(env, a)
    ensures st.options == options && a.chunkSize == options.chunkSize > 0
    ensures |a.entries| == |files| && a.maxChunksPerOperation == OperationLimit(limits)
    ensures a.pathsStripped == options.mode.Production?
  {
    hide PackRun, Finish, OpensAs, PackInv, WellFormed, Reopened, ImageOf, TocEntries;
    RunKeeps(env, options, Cipher.AeadKeyOf(env, options.protection, key), files);
    OpenedFromPacked(env, st, files, key, f, limits, a);
    ReopenedFields(env, st, files, key, f, limits, a);
    PackInvSizes(env, st, files);
  }

  /** The asset that answers to a path is the entry with its number, and all its chunks read
      back if any operation may decode a chunk. */
  lemma PackedEntry(env: Env, st: PackState, files: seq<InputFile>, key: bytes, f: Finished,
                    limits: ArchiveLimits, a: Archive, path: bytes, i: nat)
    requires env.Lawful() && Reopened(env, st, files, key, f, limits, a) && i < |files|
    requires Normalize(path).Ok? && Answers(env, st.options.mode, files[i], Normalize(path).value)
    ensures WellFormed(env, a) && i < |a.entries| && EntryOf(a, a.entries[i])
    ensures Located(env, a, path) == Ok((Normalize(path).value, i))
    ensures a.entries[i].originalSize == |files[i].1| < POW64
    ensures a.maxChunksPerOperation >= 1 ==>
              ChunksData(env, a, ByPath(Normalize(path).value), a.entries[i], 0, a.entries[i].chunkCount) ==
              Ok(files[i].1)
  {
    hide Reopened, WellFormed, PackInv, TocEntries, Answers, Normalize, FindNormalized, ChunksData, Names;
    var name := Normalize(path).value;
    ReopenedSizes(env, st, files, key, f, limits, a);
    ReopenedFields(env, st, files, key, f, limits, a);
    ReopenedInv(env, st, files, key, f, limits, a);
    PackedNames(env, st, files, name, i);
    IndexOfArchive(env, a);
    LookupIn(env, a, name);
    EntryIsLegal(env, a, i);
    EntryNames(env, st, files, i);
    TocEntryAt(st, i);
    if a.maxChunksPerOperation >= 1 {
      AllPiecesReadBack(env, st, files, key, f, limits, a, ByPath(name), i);
    }
  }

  // ---- ranges ----------------------------------------------------------------------

  /** What a range read of the bytes `d` gives. */
  function RangeOf(d: bytes, chunkSize: nat, max: u32, offset: u64, len: u64, exact: bool): Result<bytes>
    requires chunkSize > 0
  {
    if offset > |d| || (exact && offset + len > |d|) then Err(InvalidRange)
    else if len == 0 || offset == |d| then Ok([])
    else if offset + len >= POW64 then Err(InvalidRange)
    else
      var end := Min(offset + len, |d|);
      if ChunkOfByte(end - 1, chunkSize) - ChunkOfByte(offset, chunkSize) >= max then Err(TooManyChunks)
      else Ok(d[offset..end])
  }

  /** A range of a packed file is the slice of the file, also when the file as a whole has more
      chunks than one operation may decode. */
  lemma PackedRange(env: Env, st: PackState, files: seq<InputFile>, key: bytes, f: Finished,
                    limits: ArchiveLimits, a: Archive, path: bytes, i: nat, offset: u64, len: u64, exact: bool)
    requires env.Lawful() && Reopened(env, st, files, key, f, limits, a) && i < |files|
    requires Normalize(path).Ok? && Answers(env, st.options.mode, files[i], Normalize(path).value)
    ensures WellFormed(env, a) && a.chunkSize > 0
    ensures RangeResult(env, a, path, offset, len, exact) ==
            RangeOf(files[i].1, a.chunkSize, a.maxChunksPerOperation, offset, len, exact)
  {
    hide Reopened, WellFormed, Answers, Normalize, Located, ChunksData, RangeData, RangeResult, Touched;
    PackedEntry(env, st, files, key, f, limits, a, path, i);
    RangeIsExact(env, a, path, offset, len, exact);
    var d := files[i].1;
    var end := Min(offset + len, |d|);
    if offset < end {
      TouchedIsExact(env, a, path, offset, end);
      if a.maxChunksPerOperation >= 1 {
        RangeIsSlice(env, a, ByPath(Normalize(path).value), i, offset, end - offset);
      }
      TouchedCount(a, offset, end);
    }
  }

  lemma TouchedCount(a: Archive, offset: nat, end: nat)
    requires a.chunkSize > 0 && offset < end
    ensures LastChunkOf(a, offset, end - offset) == ChunkOfByte(end - 1, a.chunkSize) + 1
    ensures FirstChunkOf(a, offset) == ChunkOfByte(offset, a.chunkSize)
  {
  }

  // ---- chunks ----------------------------------------------------------------------

  /** A chunk of a packed file is the piece of the file, also when the file as a whole has more
      chunks than one operation may decode. */
  lemma PackedChunk(env: Env, st: PackState, files: seq<InputFile>, key: bytes, f: Finished,
                    limits: ArchiveLimits, a: Archive, path: bytes, i: nat, local: u32)
    requires env.Lawful() && Reopened(env, st, files, key, f, limits, a) && i < |files|
    requires Normalize(path).Ok? && Answers(env, st.options.mode, files[i], Normalize(path).value)
    ensures WellFormed(env, a) && a.chunkSize > 0
    ensures ReadChunkResult(env, a, path, local) ==
            if local * a.chunkSize >= |files[i].1| then
              Err(ChunkOutOfRange(local, CeilDiv(|files[i].1|, a.chunkSize)))
            else if a.maxChunksPerOperation < 1 then Err(TooManyChunks)
            else Ok(Piece(files[i].1, a.chunkSize, local))
  {
    hide Reopened, WellFormed, Answers, Normalize, Located, ChunksData, ChunkData, LegalChunks, LegalEntry, CeilDiv,
         Piece;
    PackedEntry(env, st, files, key, f, limits, a, path, i);
    var name := Normalize(path).value;
    EntryIsLegal(env, a, i);
    EntryShape(a.entries[i], a.chunks, RulesOf(a));
    Integrity.ChunkExists(env, a, i, local);
    if local < a.entries[i].chunkCount {
      if a.maxChunksPerOperation >= 1 {
        ChunkIsPiece(env, a, ByPath(name), i, local);
      } else {
        Integrity.NoChunkAllowed(env, a, ByPath(name), local, a.entries[i].firstChunk + local);
      }
    }
  }

  // ---- ids -------------------------------------------------------------------------

  /** The files whose names have a hash. */
  function Holders(env: Env, files: seq<InputFile>, id: u64): set<nat> {
    set i: nat | i < |files| && env.xxh3(NameOf(files[i])) == id
  }

  lemma HoldersAreBucket(env: Env, st: PackState, files: seq<InputFile>, id: u64)
    requires PackInv(env, st, files)
    ensures Bucket(TocEntries(st), id) == Holders(env, files, id)
  {
    hide PackInv, TocEntries, NameOf;
    PackInvSizes(env, st, files);
    forall i: nat
      ensures i in Bucket(TocEntries(st), id) <==> i in Holders(env, files, id)
    {
      if i < |files| {
        EntryNames(env, st, files, i);
        TocEntryAt(st, i);
      }
    }
  }

  /** Reading by id gives the bytes of the one file whose name has that hash, and says whether
      there is none or more than one. */
  lemma PackedById(env: Env, st: PackState, files: seq<InputFile>, key: bytes, f: Finished,
                   limits: ArchiveLimits, a: Archive, id: u64)
    requires env.Lawful() && Reopened(env, st, files, key, f, limits, a)
    ensures WellFormed(env, a) && st.options.chunkSize > 0
    ensures Holders(env, files, id) == {} ==> ReadByIdResult(env, a, id) == Err(NotFound(ByHash(id)))
    ensures |Holders(env, files, id)| > 1 ==> ReadByIdResult(env, a, id) == Err(HashCollision(id))
    ensures forall i: nat :: i < |files| && Holders(env, files, id) == {i} ==>
              ReadByIdResult(env, a, id) ==
              if CeilDiv(|files[i].1|, st.options.chunkSize) <= a.maxChunksPerOperation
              then Ok(files[i].1) else Err(TooManyChunks)
  {
    hide Reopened, WellFormed, EntryData, PackInv, TocEntries, NameOf, CeilDiv, ReadByIdResult, Holders, Bucket;
    ReopenedSizes(env, st, files, key, f, limits, a);
    ReopenedFields(env, st, files, key, f, limits, a);
    ReopenedInv(env, st, files, key, f, limits, a);
    HoldersAreBucket(env, st, files, id);
    ReadByIdFails(env, a, id);
    forall i: nat | i < |files| && Holders(env, files, id) == {i}
      ensures ReadByIdResult(env, a, id) ==
              if CeilDiv(|files[i].1|, st.options.chunkSize) <= a.maxChunksPerOperation
              then Ok(files[i].1) else Err(TooManyChunks)
    {
      ReadByIdIs(env, a, id, i);
      AssetReadsBack(env, st, files, key, f, limits, a,
                     if a.pathsStripped then ByHash(id) else ByPath(a.entries[i].path), i);
    }
  }

  // ---- together --------------------------------------------------------------------

  /** Packing, opening and any of the other ways to read, end to end. */
  lemma PackOpenAccess(env: Env, options: PackOptions, files: seq<InputFile>, key: bytes, st: PackState,
                       f: Finished, disk: bytes, limits: ArchiveLimits, a: Archive, path: bytes, i: nat,
                       local: u32, offset: u64, len: u64, exact: bool, id: u64)
    requires env.Lawful() && Delivery.PackedAs(env, options, files, key, st, f, disk)
    requires OpensAs(env, disk, key, limits, a)
    requires i < |files| && Normalize(path).Ok? && Answers(env, options.mode, files[i], Normalize(path).value)
    ensures WellFormed(env, a) && options.chunkSize > 0
    ensures RangeResult(env, a, path, offset, len, exact) ==
            RangeOf(files[i].1, options.chunkSize, OperationLimit(limits), offset, len, exact)
    ensures ReadChunkResult(env, a, path, local) ==
            if local * options.chunkSize >= |files[i].1| then
              Err(ChunkOutOfRange(local, CeilDiv(|files[i].1|, options.chunkSize)))
            else if OperationLimit(limits) < 1 then Err(TooManyChunks)
            else Ok(Piece(files[i].1, options.chunkSize, local))
    ensures Holders(env, files, id) == {} ==> ReadByIdResult(env, a, id) == Err(NotFound(ByHash(id)))
    ensures |Holders(env, files, id)| > 1 ==> ReadByIdResult(env, a, id) == Err(HashCollision(id))
    ensures Holders(env, files, id) == {i} ==>
              ReadByIdResult(env, a, id) ==
              if CeilDiv(|files[i].1|, options.chunkSize) <= OperationLimit(limits)
              then Ok(files[i].1) else Err(TooManyChunks)
  {
    hide Delivery.PackedAs, OpensAs, Reopened, WellFormed, Answers, Normalize, RangeResult, RangeOf, ReadChunkResult,
         ReadByIdResult, Holders, Piece, CeilDiv, OperationLimit;
    Reopen(env, options, files, key, st, f, disk, limits, a);
    PackedRange(env, st, files, key, f, limits, a, path, i, offset, len, exact);
    PackedChunk(env, st, files, key, f, limits, a, path, i, local);
    PackedById(env, st, files, key, f, limits, a, id);
  }
}
