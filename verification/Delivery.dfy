/** The whole way, by the operations themselves: a packer writes, a reader opens what it wrote
    and reads from it. */
module Delivery {
  import opened Prelude
  import opened Path
  import opened Layout
  import opened Cipher
  import opened Archive
  import opened Access
  import opened Opening
  import opened Packing
  import opened RoundTrip
  import Packer

  /** What reading a path of a packed archive gives: the asset that answers to it, if any. */
  ghost predicate ReadsAs(env: Env, options: PackOptions, files: seq<InputFile>, limits: ArchiveLimits,
                          path: bytes, read: Result<bytes>)
  {
    && options.chunkSize > 0
    && match Normalize(path)
       case Err(_) => read == Err(InvalidPath)
       case Ok(name) =>
         && (forall i :: 0 <= i < |files| && Answers(env, options.mode, files[i], name) ==>
               read == if CeilDiv(|files[i].1|, options.chunkSize) <= OperationLimit(limits)
                       then Ok(files[i].1) else Err(TooManyChunks))
         && ((forall i :: 0 <= i < |files| ==> !Answers(env, options.mode, files[i], name)) ==>
               read == Err(NotFound(ByPath(name))))
  }

  /** The disk holds the finished image of a run over the files. */
  ghost predicate PackedAs(env: Env, options: PackOptions, files: seq<InputFile>, key: bytes,
                           st: PackState, f: Finished, disk: bytes)
  {
    && key != [] && ValidOptions(options)
    && PackRun(env, Initial(options, AeadKeyOf(env, options.protection, key)), files) == Ok(st)
    && Finish(env, st, key) == Ok(f)
    && |f.disk| >= HEADER_SIZE && disk == ImageOf(f)
  }

  lemma PackedOpens(env: Env, options: PackOptions, files: seq<InputFile>, key: bytes,
                    st: PackState, f: Finished, disk: bytes, limits: ArchiveLimits)
    requires env.Lawful() && PackedAs(env, options, files, key, st, f, disk)
    ensures Accepts(env, disk, key, limits) <==>
            WithinLimits(env, st, files, f.header, limits) && WithinLimits(env, st, files, f.header, HARD_LIMITS)
    ensures |disk| < POW64
  {
    hide PackRun, Finish, Accepts, WithinLimits, OpensAs, WellFormed, ReadResult, Answers, Normalize, CeilDiv,
         Clamped, ImageOf;
    PackOpenRead(env, options, key, files, st, f, limits);
  }

  lemma PackedReads(env: Env, options: PackOptions, files: seq<InputFile>, key: bytes, st: PackState, f: Finished,
                    disk: bytes, limits: ArchiveLimits, a: Archive, path: bytes)
    requires env.Lawful() && PackedAs(env, options, files, key, st, f, disk)
    requires OpensAs(env, disk, key, limits, a) && WellFormed(env, a)
    ensures ReadsAs(env, options, files, limits, path, ReadResult(env, a, path))
  {
    hide PackRun, Finish, Accepts, WithinLimits, OpensAs, WellFormed, ReadResult, Answers, Acceptable, Join, Kept,
         Split, CeilDiv, Clamped, ImageOf;
    PackOpenRead(env, options, key, files, st, f, limits);
    ReadByName(env, a, path);
  }

  /** Packs the files, opens the result and reads one path. If packing succeeds, opening
      succeeds exactly within the limits, and reading answers for every path as the list of
      files does. */
  method PackOpenAndRead(env: Env, writer: Packer.Writer, files: seq<InputFile>, key: bytes,
                         options: PackOptions, limits: ArchiveLimits, path: bytes)
    returns (packed: Result<Unit>, archive: Result<Archive>, read: Result<bytes>)
    requires env.Lawful()
    requires forall i :: 0 <= i < |files| ==> |files[i].1| < POW64
    modifies writer
    ensures packed.Ok? ==> exists st, f ::
              && PackedAs(env, options, files, key, st, f, writer.disk)
              && (archive.Ok? <==>
                    && WithinLimits(env, st, files, f.header, limits)
                    && WithinLimits(env, st, files, f.header, HARD_LIMITS))
    ensures packed.Ok? && archive.Ok? ==> ReadsAs(env, options, files, limits, path, read)
  {
    hide PackRun, Finish, Accepts, OpensAs, WellFormed, WithinLimits, ReadResult, ReadsAs, ImageOf, OpenTables;
    archive, read := Err(IncompletePack), Err(IncompletePack);
    packed := Packer.PackWithOptions(env, writer, files, key, options);
    if packed.Ok? {
      ghost var st := PackRun(env, Initial(options, AeadKeyOf(env, options.protection, key)), files).value;
      ghost var f := Finish(env, st, key).value;
      assert PackedAs(env, options, files, key, st, f, writer.disk);
      hide PackedAs;
      PackedOpens(env, options, files, key, st, f, writer.disk, limits);
      archive := OpenWithLimits(env, writer.disk, key, limits);
      if archive.Ok? {
        PackedReads(env, options, files, key, st, f, writer.disk, limits, archive.value, path);
        read := Read(env, archive.value, path);
      }
    }
  }
}
