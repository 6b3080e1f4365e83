/** The packer as an object over a writer that may fail and readers that deliver in pieces.
    Each call is proved to have the effect module Packing describes. */
module Packer {
  import opened Prelude
  import opened Path
  import opened Wire
  import opened Layout
  import opened Source
  import opened Cipher
  import opened Toc
  import opened Packing
  import H = Header

  // ---- the destination -------------------------------------------------------------

  /** `disk` with `data` written at `at`, growing at the end if needed. */
  function Overwrite(disk: bytes, at: nat, data: bytes): bytes
    requires at <= |disk|
  {
    disk[..at] + data + if at + |data| <= |disk| then disk[at + |data|..] else []
  }

  lemma OverwriteTwice(disk: bytes, at: nat, a: bytes, b: bytes)
    requires at <= |disk|
    ensures at + |a| <= |Overwrite(disk, at, a)|
    ensures Overwrite(Overwrite(disk, at, a), at + |a|, b) == Overwrite(disk, at, a + b)
  {
    var once := Overwrite(disk, at, a);
    assert once[..at + |a|] == disk[..at] + a;
    if at + |a| + |b| <= |disk| {
      assert once[at + |a| + |b|..] == disk[at + |a| + |b|..];
    }
  }

  lemma AppendAtEnd(disk: bytes, data: bytes)
    ensures Overwrite(disk, |disk|, data) == disk + data
  {
  }

  /** A seekable writer. `faults(n)` says whether operation n fails, and after how many bytes. */
  class Writer {
    var disk: bytes
    var pos: nat
    var operations: nat
    /** The sizes of the blocks handed to the writer, failed ones included. */
    ghost var writes: seq<nat>
    const faults: nat -> Option<nat>

    constructor (disk: bytes, faults: nat -> Option<nat>)
      ensures this.disk == disk && this.faults == faults && pos == 0
    {
      this.disk, this.faults, this.pos, this.operations := disk, faults, 0, 0;
      writes := [];
    }

    ghost predicate Reliable() {
      forall i: nat :: faults(i).None?
    }

    method SeekEnd() returns (r: Result<nat>)
      modifies this`pos, this`operations
      ensures r.Ok? ==> r.value == pos == |disk|
      ensures r.Err? ==> !Reliable() && r.error == Io(DeviceFailed)
    {
      operations := operations + 1;
      if faults(operations - 1).Some? {
        return Err(Io(DeviceFailed));
      }
      pos := |disk|;
      r := Ok(pos);
    }

    method SeekStart(to: nat) returns (r: Result<Unit>)
      modifies this`pos, this`operations
      ensures r.Ok? ==> pos == to
      ensures r.Err? ==> !Reliable() && r.error == Io(DeviceFailed)
    {
      operations := operations + 1;
      if faults(operations - 1).Some? {
        return Err(Io(DeviceFailed));
      }
      pos := to;
      r := Ok(Unit);
    }

    /** Writes everything, or fails after a part of it. */
    method WriteAll(data: bytes) returns (r: Result<Unit>)
      requires pos <= |disk|
      modifies this
      ensures pos <= |disk| && writes == old(writes) + [|data|]
      ensures r.Ok? ==> disk == Overwrite(old(disk), old(pos), data) && pos == old(pos) + |data|
      ensures r.Err? ==> !Reliable() && r.error == Io(DeviceFailed)
      ensures r.Err? ==> exists n: nat :: n <= |data| && disk == Overwrite(old(disk), old(pos), data[..n])
    {
      operations := operations + 1;
      writes := writes + [|data|];
      var written := |data|;
      match faults(operations - 1)
      case Some(n) =>
        written := Min(n, |data|);
        r := Err(Io(DeviceFailed));
        disk, pos := Overwrite(disk, pos, data[..written]), pos + written;
      case None =>
        disk, pos := Overwrite(disk, pos, data), pos + |data|;
        r := Ok(Unit);
    }
  }

  // ---- reading chunks --------------------------------------------------------------

  /** Fills the buffer, through short and interrupted reads, until it is full or the reader
      is at its end: the schedule of the reads does not show in the result. */
  method ReadChunk(reader: Device, buffer: array<byte>) returns (r: Result<nat>)
    requires reader.Valid()
    modifies reader`calls, reader`pending, reader`pos, buffer
    ensures reader.Valid() && old(reader.pos) <= reader.pos
    ensures r.Ok? ==>
              && r.value == Min(buffer.Length, |reader.contents| - old(reader.pos))
              && reader.pos == old(reader.pos) + r.value
              && buffer[..r.value] == reader.contents[old(reader.pos)..reader.pos]
    ensures r.Err? ==> !reader.NeverFails() && r.error == Io(DeviceFailed)
  {
    hide Patched;
    var filled := 0;
    ghost var start := reader.pos;
    while filled < buffer.Length
      invariant reader.Valid() && filled <= buffer.Length
      invariant reader.pos == start + filled
      invariant buffer[..filled] == reader.contents[start..reader.pos]
      decreases buffer.Length - filled, reader.pending
    {
      ghost var before := buffer[..];
      ghost var at := reader.pos;
      var o := reader.Read(buffer, filled, buffer.Length);
      ghost var part := reader.contents[at..reader.pos];
      PatchedOutside(before, filled, part, buffer.Length);
      Prefixes(before, buffer[..], filled, part);
      JoinSlices(reader.contents, start, at, reader.pos);
      match o
      case Interrupted =>
      case Failed => return Err(Io(DeviceFailed));
      case Got(count) =>
        if count == 0 {
          break;
        }
        filled := filled + count;
    }
    r := Ok(filled);
  }

  lemma JoinSlices(s: bytes, a: nat, b: nat, c: nat)
    requires a <= b <= c <= |s|
    ensures s[a..b] + s[b..c] == s[a..c]
  {
  }

  lemma Prefixes(before: bytes, after: bytes, n: nat, part: bytes)
    requires n + |part| <= |after| == |before|
    requires after[..n] == before[..n] && after[n..n + |part|] == part
    ensures after[..n + |part|] == before[..n] + part
  {
    assert after[..n + |part|] == after[..n] + after[n..n + |part|];
  }

  // ---- the packer ------------------------------------------------------------------

  function HashesOf(entries: seq<TocEntry>): set<u64> {
    set e | e in entries :: e.pathHash
  }

  datatype PackSummary = PackSummary(archiveLen: nat, entryCount: nat, chunkCount: nat)

  lemma AppendKeepsStart(disk: bytes, data: bytes)
    requires ZeroHeader(disk)
    ensures ZeroHeader(disk + data)
  {
    assert (disk + data)[..HEADER_SIZE] == disk[..HEADER_SIZE];
  }

  class Packer {
    const writer: Writer
    const key: bytes
    const aeadKey: Option<bytes>
    const options: PackOptions
    var entries: seq<TocEntry>
    var chunks: seq<Chunk>
    var seenHashes: set<u64>
    const raw: array<byte>
    var compressed: bytes
    var offset: nat
    var failed: bool
    ghost var files: seq<InputFile>

    ghost function State(): PackState
      reads this, writer
    {
      PackState(options, aeadKey, entries, chunks, writer.disk)
    }

    /** Until the first failure the packer is where the run over its files leads; the first
        60 bytes are zero even after a failure. */
    ghost predicate Valid(env: Env)
      reads this, writer
    {
      && key != [] && ValidOptions(options) && raw.Length == options.chunkSize
      && aeadKey == AeadKeyOf(env, options.protection, key)
      && ZeroHeader(writer.disk) && writer.pos <= |writer.disk|
      && (!failed ==>
            && Sized(State())
            && offset == writer.pos == |writer.disk|
            && seenHashes == HashesOf(entries)
            && PackRun(env, Initial(options, aeadKey), files) == Ok(State()))
    }

    constructor Init(env: Env, writer: Writer, key: bytes, options: PackOptions)
      requires key != [] && ValidOptions(options)
      requires writer.disk == Zeros(HEADER_SIZE) && writer.pos == HEADER_SIZE
      ensures Valid(env) && !failed && files == [] && fresh(raw)
      ensures this.writer == writer && this.key == key && this.options == options
    {
      this.writer, this.key, this.options := writer, key, options;
      aeadKey := AeadKeyOf(env, options.protection, key);
      entries, chunks, seenHashes, files := [], [], {}, [];
      raw := new byte[options.chunkSize](_ => 0);
      compressed, offset, failed := [], HEADER_SIZE, false;
    }

    /** Refuses empty keys, bad options and destinations that already hold something. */
    static method New(env: Env, writer: Writer, key: bytes, options: PackOptions) returns (r: Result<Packer>)
      modifies writer
      ensures r.Ok? ==> fresh(r.value) && fresh(r.value.raw) && r.value.Valid(env) && !r.value.failed
      ensures r.Ok? ==> r.value.files == [] && r.value.writer == writer && r.value.key == key
                        && r.value.options == options
      ensures r.Ok? ==> key != [] && ValidOptions(options) && old(writer.disk) == []
      ensures key == [] ==> r == Err(EmptyXorKey) && writer.disk == old(writer.disk)
      ensures key != [] && !ValidOptions(options) ==>
                && r == Err(if H.ValidChunkSize(options.chunkSize) then InvalidAlignment else InvalidChunkSize)
                && writer.disk == old(writer.disk)
      ensures old(writer.disk) != [] ==> r.Err? && writer.disk == old(writer.disk)
      ensures writer.Reliable() && key != [] && ValidOptions(options) ==>
                (r.Ok? <==> old(writer.disk) == []) && (r.Err? ==> r.error == NonEmptyDestination)
    {
      if key == [] {
        return Err(EmptyXorKey);
      }
      if !H.ValidChunkSize(options.chunkSize) {
        return Err(InvalidChunkSize);
      }
      if !ValidAlignment(options.alignment) {
        return Err(InvalidAlignment);
      }
      var end :- writer.SeekEnd();
      if end != 0 {
        return Err(NonEmptyDestination);
      }
      var _ :- writer.SeekStart(0);
      var _ :- writer.WriteAll(Zeros(HEADER_SIZE));
      var packer := new Packer.Init(env, writer, key, options);
      r := Ok(packer);
    }

    method Align() returns (r: Result<Unit>)
      requires ValidOptions(options) && ZeroHeader(writer.disk)
      requires offset == writer.pos == |writer.disk| < POW64
      modifies this`offset, writer
      ensures ZeroHeader(writer.disk) && writer.pos <= |writer.disk|
      ensures r.Ok? ==> Padded(old(writer.disk), options.alignment) == Ok(writer.disk)
                        && offset == writer.pos == |writer.disk|
      ensures r.Err? && writer.Reliable() ==> Padded(old(writer.disk), options.alignment) == Err(r.error)
    {
      AlignUpIsLeastMultiple(offset, options.alignment);
      var aligned :- AlignUp(offset, options.alignment);
      var _ :- WriteZeros(writer, aligned - offset);
      offset := aligned;
      r := Ok(Unit);
    }

    /** Compresses, pads, seals and writes the first n bytes of the raw buffer. */
    method WriteChunk(env: Env, n: nat) returns (r: Result<Chunk>)
      requires Sized(State()) && raw.Length == options.chunkSize && 0 < n <= raw.Length
      requires ZeroHeader(writer.disk) && offset == writer.pos == |writer.disk|
      modifies this`offset, this`compressed, writer
      ensures ZeroHeader(writer.disk) && writer.pos <= |writer.disk|
      ensures r.Ok? ==>
                && offset == writer.pos == |writer.disk|
                && StoreChunk(env, old(State()), raw[..n]) == Ok(State().(chunks := chunks + [r.value]))
      ensures r.Err? && writer.Reliable() ==> StoreChunk(env, old(State()), raw[..n]) == Err(r.error)
    {
      hide Encrypt, AlignUp;
      compressed := env.lz4Encode(raw[..n]);
      var _ :- Align();
      var chunkOffset := offset;
      var isCompressed := |compressed| < n;
      var plainStored := if isCompressed then compressed else raw[..n];
      var chunkChecksum := env.xxh3(raw[..n]);
      if |chunks| >= POW32 {
        return Err(TooLarge(ChunkIndex));
      }
      var stored := plainStored;
      if aeadKey.Some? {
        stored :- Encrypt(env, plainStored, aeadKey.value, ChunkAad(|chunks|), |chunks|);
      }
      ghost var before := writer.disk;
      var step := writer.WriteAll(stored);
      if step.Err? {
        PartialAppend(before, stored, writer.disk);
        return Err(step.error);
      }
      AppendAtEnd(before, stored);
      AppendKeepsStart(before, stored);
      if offset + |stored| >= POW64 {
        return Err(TooLarge(ArchiveOffset));
      }
      offset := offset + |stored|;
      r := Ok(Chunk(chunkOffset, |stored|, n, chunkChecksum, isCompressed));
    }

    /** Reads a whole asset chunk by chunk and stores it. */
    method WriteChunks(env: Env, reader: Device) returns (r: Result<(u64, u64)>)
      requires Sized(State()) && raw.Length == options.chunkSize && reader.Valid()
      requires ZeroHeader(writer.disk) && offset == writer.pos == |writer.disk|
      modifies this`offset, this`compressed, this`chunks, writer, raw, reader
      ensures ZeroHeader(writer.disk) && writer.pos <= |writer.disk|
      ensures r.Ok? ==>
                && offset == writer.pos == |writer.disk|
                && StoreAll(env, old(State()), reader.contents[old(reader.pos)..], 0, 0) ==
                   Ok((State(), r.value.0, r.value.1))
      ensures r.Err? && writer.Reliable() && reader.NeverFails() ==>
                StoreAll(env, old(State()), reader.contents[old(reader.pos)..], 0, 0) == Err(r.error)
    {
      hide StoreChunk;
      var originalTotal: u64, storedTotal: u64 := 0, 0;
      ghost var st0 := State();
      ghost var data := reader.contents[reader.pos..];
      while true
        invariant Sized(State()) && reader.Valid() && ZeroHeader(writer.disk)
        invariant offset == writer.pos == |writer.disk|
        invariant StoreAll(env, st0, data, 0, 0) ==
                  StoreAll(env, State(), reader.contents[reader.pos..], originalTotal, storedTotal)
        decreases |reader.contents| - reader.pos
      {
        ghost var rest := reader.contents[reader.pos..];
        ghost var at := reader.pos;
        var n :- ReadChunk(reader, raw);
        if n == 0 {
          break;
        }
        assert raw[..n] == rest[..n] && reader.contents[reader.pos..] == rest[n..];
        assert n == Min(options.chunkSize, |rest|);
        ghost var st := State();
        var chunk :- WriteChunk(env, n);
        ghost var next := State().(chunks := chunks + [chunk]);
        assert next.chunks[|st.chunks|] == chunk;
        if originalTotal + n >= POW64 {
          return Err(TooLarge(EntryOriginalSize));
        }
        originalTotal := originalTotal + n;
        if storedTotal + chunk.storedSize >= POW64 {
          return Err(TooLarge(EntryStoredSize));
        }
        storedTotal := storedTotal + chunk.storedSize;
        chunks := chunks + [chunk];
        if |chunks| >= POW32 {
          return Err(TooLarge(ChunkCount));
        }
        assert State() == next;
      }
      r := Ok((originalTotal, storedTotal));
    }

    method AddReaderInner(env: Env, path: text, reader: Device) returns (r: Result<Unit>)
      requires Valid(env) && !failed && reader.Valid()
      modifies this`offset, this`compressed, this`chunks, this`entries, this`seenHashes, writer, raw, reader
      ensures ZeroHeader(writer.disk) && writer.pos <= |writer.disk|
      ensures r.Ok? ==>
                && offset == writer.pos == |writer.disk| && seenHashes == HashesOf(entries)
                && AddFile(env, old(State()), path, reader.contents[old(reader.pos)..]) == Ok(State())
      ensures r.Err? && writer.Reliable() && reader.NeverFails() ==>
                AddFile(env, old(State()), path, reader.contents[old(reader.pos)..]) == Err(r.error)
    {
      hide StoreAll, Normalize, PackRun;
      var name :- NormalizePath(path);
      var hash := env.xxh3(name);
      var isNew := hash !in seenHashes;
      seenHashes := seenHashes + {hash};
      if !isNew {
        var duplicate := HasPath(entries, hash, name);
        if duplicate {
          return Err(DuplicatePath(name));
        }
        if options.mode.Production? {
          return Err(HashCollision(hash));
        }
      }
      assert CheckNew(State(), name, hash) == Ok(Unit);
      var firstChunk := |chunks|;
      if firstChunk >= POW32 {
        return Err(TooLarge(ChunkIndex));
      }
      ghost var st := State();
      var totals :- WriteChunks(env, reader);
      var chunkCount := |chunks| - firstChunk;
      if chunkCount >= POW32 {
        return Err(TooLarge(EntryChunkCount));
      }
      entries := entries + [TocEntry(name, hash, totals.0, totals.1, firstChunk, chunkCount)];
      HashesGrow(st.entries, entries[|st.entries|]);
      if |entries| >= POW32 {
        return Err(TooLarge(EntryCount));
      }
      r := Ok(Unit);
    }

    /** Adds one asset. Success means exactly the effect of AddFile on the bytes the reader
        held, however it delivered them; any failure is final. */
    method AddReader(env: Env, path: text, reader: Device) returns (r: Result<Unit>)
      requires Valid(env) && reader.Valid()
      modifies this, writer, raw, reader
      ensures Valid(env)
      ensures failed == (old(failed) || r.Err?)
      ensures old(failed) ==> r == Err(IncompletePack) && writer.disk == old(writer.disk)
      ensures r.Ok? ==> files == old(files) + [(path, reader.contents[old(reader.pos)..])]
      ensures r.Ok? ==> AddFile(env, old(State()), path, reader.contents[old(reader.pos)..]) == Ok(State())
      ensures !old(failed) && r.Err? && writer.Reliable() && reader.NeverFails() ==>
                AddFile(env, old(State()), path, reader.contents[old(reader.pos)..]) == Err(r.error)
    {
      hide AddFile;
      if failed {
        return Err(IncompletePack);
      }
      ghost var data := reader.contents[reader.pos..];
      r := AddReaderInner(env, path, reader);
      if r.Err? {
        failed := true;
      } else {
        files := files + [(path, data)];
        assert files[..|files| - 1] == old(files);
      }
    }

    /** Writes the TOC and the header. Success leaves exactly the finished image on disk; a
        failure leaves either zeros where the header belongs or everything but the header. */
    method FinishPack(env: Env) returns (r: Result<PackSummary>)
      requires Valid(env)
      modifies this, writer
      ensures old(failed) ==> r == Err(IncompletePack) && writer.disk == old(writer.disk)
      ensures r.Ok? ==>
                && !old(failed) && Finish(env, old(State()), key).Ok?
                && var f := Finish(env, old(State()), key).value;
                && writer.disk == ImageOf(f) && writer.pos == |writer.disk|
                && r.value == PackSummary(|writer.disk|, f.header.entryCount, f.header.chunkCount)
      ensures !old(failed) && r.Err? && writer.Reliable() ==>
                Finish(env, old(State()), key) == Err(r.error)
      ensures r.Err? ==>
                || ZeroHeader(writer.disk)
                || (!old(failed) && Finish(env, old(State()), key).Ok?
                    && HeaderPartly(Finish(env, old(State()), key).value, writer.disk))
    {
      hide EncodedToc, Encrypt, H.HeaderBytes, AlignUp, PackRun;
      if failed {
        return Err(IncompletePack);
      }
      ghost var st := State();
      var _ :- Align();
      ghost var padded := writer.disk;
      var tocOffset := offset;
      if options.mode.Production? {
        entries := StripPaths(entries);
      }
      assert entries == TocEntries(st);
      var plain :- EncodeToc(entries, chunks);
      EncodedSize(entries, chunks);
      if |plain| > MAX_TOC_RAW_SIZE {
        return Err(TooLarge(RawToc));
      }
      var tocHash := env.xxh3(plain);
      var stored := env.lz4Encode(plain);
      match aeadKey {
        case Some(k) => stored :- Encrypt(env, stored, k, TOC_AAD, |chunks|);
        case None => stored := XorKey(stored, key);
      }
      assert SealedToc(env, st, key, plain) == Ok(stored);
      if |stored| > MAX_TOC_STORED_SIZE {
        return Err(TooLarge(StoredToc));
      }
      r := WriteEnd(env, plain, stored, tocOffset, tocHash, st);
    }

    /** Appends the stored TOC and rewrites the header. */
    method WriteEnd(env: Env, plain: bytes, stored: bytes, tocOffset: nat, tocHash: u64, ghost st: PackState)
      returns (r: Result<PackSummary>)
      requires Sized(st) && options == st.options && key != [] && chunks == st.chunks
      requires ZeroHeader(writer.disk) && offset == tocOffset == writer.pos == |writer.disk| < POW64
      requires Padded(st.disk, options.alignment) == Ok(writer.disk)
      requires entries == TocEntries(st) && EncodedToc(entries, chunks) == Ok(plain)
      requires |plain| <= MAX_TOC_RAW_SIZE && tocHash == env.xxh3(plain)
      requires SealedToc(env, st, key, plain) == Ok(stored) && |stored| <= MAX_TOC_STORED_SIZE
      modifies this`offset, writer
      ensures r.Ok? ==>
                && Finish(env, st, key).Ok?
                && var f := Finish(env, st, key).value;
                && writer.disk == ImageOf(f) && writer.pos == |writer.disk|
                && r.value == PackSummary(|writer.disk|, f.header.entryCount, f.header.chunkCount)
      ensures r.Err? && writer.Reliable() ==> Finish(env, st, key) == Err(r.error)
      ensures r.Err? ==>
                || ZeroHeader(writer.disk)
                || (Finish(env, st, key).Ok? && HeaderPartly(Finish(env, st, key).value, writer.disk))
    {
      hide EncodedToc, SealedToc, TocEntries, Padded, H.HeaderBytes, Overwrite, Partly, HeaderPartly, ImageOf,
           AeadKeyOf;
      ghost var before := writer.disk;
      var step := writer.WriteAll(stored);
      if step.Err? {
        PartialAppend(before, stored, writer.disk);
        return Err(step.error);
      }
      AppendAtEnd(before, stored);
      AppendKeepsStart(before, stored);
      if offset + |stored| >= POW64 {
        return Err(TooLarge(ArchiveLength));
      }
      offset := offset + |stored|;
      var archiveLen := offset;
      if options.chunkSize >= POW32 || |entries| >= POW32 || |chunks| >= POW32 {
        return Err(TooLarge(EntryCount));
      }
      var header := H.Header(VERSION, Flags(options), HEADER_SIZE, options.alignment, options.chunkSize,
                             |entries|, |chunks|, tocOffset, |stored|, |plain|, tocHash);
      ghost var body := writer.disk;
      assert Finish(env, st, key) == Ok(Finished(header, body));
      var _ :- writer.SeekStart(0);
      var written := WriteHeader(writer, header);
      OverHeader(Finished(header, body), writer.disk);
      var _ :- written;
      var _ :- writer.SeekStart(archiveLen);
      r := Ok(PackSummary(archiveLen, header.entryCount, header.chunkCount));
    }
  }

  lemma HashesGrow(entries: seq<TocEntry>, e: TocEntry)
    ensures HashesOf(entries + [e]) == HashesOf(entries) + {e.pathHash}
  {
    assert forall x :: x in entries + [e] <==> x in entries || x == e;
    assert e in entries + [e];
    forall x | x in entries
      ensures x.pathHash in HashesOf(entries + [e])
    {
      assert x in entries + [e];
    }
  }

  /** Padding is written in blocks of at most this size. */
  const BLOCK: nat := 4096

  /** Appends n zeros, block by block. */
  method WriteZeros(writer: Writer, n: nat) returns (r: Result<Unit>)
    requires ZeroHeader(writer.disk) && writer.pos == |writer.disk|
    modifies writer
    ensures ZeroHeader(writer.disk) && writer.pos <= |writer.disk|
    ensures r.Ok? ==> writer.disk == old(writer.disk) + Zeros(n) && writer.pos == |writer.disk|
    ensures r.Err? ==> !writer.Reliable()
    ensures |old(writer.writes)| <= |writer.writes|
    ensures forall i :: |old(writer.writes)| <= i < |writer.writes| ==> 0 < writer.writes[i] <= BLOCK
  {
    hide Overwrite;
    var remaining := n;
    ghost var start := writer.disk;
    assert start + Zeros(0) == start;
    while remaining != 0
      invariant 0 <= remaining <= n
      invariant writer.disk == start + Zeros(n - remaining)
      invariant writer.pos == |writer.disk| && ZeroHeader(writer.disk)
      invariant |old(writer.writes)| <= |writer.writes|
      invariant forall i :: |old(writer.writes)| <= i < |writer.writes| ==> 0 < writer.writes[i] <= BLOCK
    {
      var amount := Min(remaining, BLOCK);
      ghost var before := writer.disk;
      var step := writer.WriteAll(Zeros(amount));
      if step.Err? {
        PartialAppend(before, Zeros(amount), writer.disk);
        return step;
      }
      AppendAtEnd(before, Zeros(amount));
      AppendKeepsStart(before, Zeros(amount));
      assert Zeros(n - remaining) + Zeros(amount) == Zeros(n - remaining + amount);
      remaining := remaining - amount;
    }
    r := Ok(Unit);
  }

  /** A prefix of the header has been written over the finished body. */
  ghost predicate HeaderPartly(f: Finished, disk: bytes) {
    |f.disk| >= HEADER_SIZE && exists n: nat :: n <= HEADER_SIZE && disk == PartImage(f, n)
  }

  ghost predicate Partly(start: bytes, whole: bytes, disk: bytes) {
    |whole| <= |start| && exists n: nat :: n <= |whole| && disk == Overwrite(start, 0, whole[..n])
  }

  /** The magic and the header fields, written one after the other at the start: what is on
      disk is always a prefix of the header over what was there before. */
  method WriteHeader(writer: Writer, h: H.Header) returns (r: Result<Unit>)
    requires writer.pos == 0 && |writer.disk| >= HEADER_SIZE
    modifies writer
    ensures Partly(old(writer.disk), H.HeaderBytes(h), writer.disk)
    ensures r.Ok? ==> writer.disk == Overwrite(old(writer.disk), 0, H.HeaderBytes(h))
    ensures r.Err? ==> !writer.Reliable()
  {
    hide Overwrite, NumbersBytes, H.Widths, H.Numbers, Partly, LE;
    ghost var start := writer.disk;
    var numbers, widths := H.Numbers(h), H.Widths();
    ghost var whole := H.HeaderBytes(h);
    assert whole == MAGIC + NumbersBytes(numbers, widths);
    hide H.HeaderBytes, Total;
    ghost var done := MAGIC;
    HeaderField(start, [], MAGIC, whole);
    var _ :- WriteField(writer, start, [], MAGIC, whole);
    NumbersPrefix(numbers, widths, 0);
    for i := 0 to |numbers|
      invariant done == MAGIC + NumbersBytes(numbers[..i], widths[..i])
      invariant writer.pos == |done| && writer.disk == Overwrite(start, 0, done)
    {
      var field := LE(numbers[i], widths[i]);
      NextField(MAGIC, numbers, widths, i);
      var _ :- WriteField(writer, start, done, field, whole);
      done := done + field;
    }
    assert numbers[..|numbers|] == numbers && widths[..|numbers|] == widths;
    WholeIsPart(start, whole);
    r := Ok(Unit);
  }

  method WriteField(writer: Writer, ghost start: bytes, ghost done: bytes, field: bytes, ghost whole: bytes)
    returns (r: Result<Unit>)
    requires done + field <= whole && |whole| <= |start|
    requires writer.pos == |done| && writer.disk == Overwrite(start, 0, done)
    modifies writer
    ensures r.Ok? ==> writer.pos == |done + field| && writer.disk == Overwrite(start, 0, done + field)
    ensures r.Err? ==> Partly(start, whole, writer.disk) && !writer.Reliable()
  {
    hide Overwrite, Partly;
    HeaderField(start, done, field, whole);
    r := writer.WriteAll(field);
    if r.Err? {
      FieldPartly(start, done, field, whole, writer.disk);
    }
  }

  lemma WholeIsPart(start: bytes, whole: bytes)
    requires |whole| <= |start|
    ensures Partly(start, whole, Overwrite(start, 0, whole))
  {
    assert whole[..|whole|] == whole;
  }

  /** The bytes on disk are those of a part image, the whole image at the end. */
  lemma OverHeader(f: Finished, disk: bytes)
    requires |f.disk| >= HEADER_SIZE && Partly(f.disk, H.HeaderBytes(f.header), disk)
    ensures HeaderPartly(f, disk)
    ensures Overwrite(f.disk, 0, H.HeaderBytes(f.header)) == ImageOf(f)
  {
    hide H.HeaderBytes;
    var whole := H.HeaderBytes(f.header);
    var n: nat :| n <= |whole| && disk == Overwrite(f.disk, 0, whole[..n]);
    assert disk == PartImage(f, n);
  }

  /** One more field of the header. */
  lemma HeaderField(start: bytes, done: bytes, field: bytes, whole: bytes)
    requires done + field <= whole && |whole| <= |start|
    ensures Overwrite(start, 0, []) == start
    ensures |done| <= |Overwrite(start, 0, done)|
    ensures Overwrite(Overwrite(start, 0, done), |done|, field) == Overwrite(start, 0, done + field)
    ensures |done + field| <= |Overwrite(start, 0, done + field)|
    ensures [] + field == field && done + [] == done
  {
    OverwriteTwice(start, 0, done, field);
  }

  lemma FieldPartly(start: bytes, done: bytes, field: bytes, whole: bytes, disk: bytes)
    requires done + field <= whole && |whole| <= |start| && |done| <= |Overwrite(start, 0, done)|
    requires exists n: nat :: n <= |field| && disk == Overwrite(Overwrite(start, 0, done), |done|, field[..n])
    ensures Partly(start, whole, disk)
  {
    hide Overwrite;
    var n: nat :| n <= |field| && disk == Overwrite(Overwrite(start, 0, done), |done|, field[..n]);
    assert done + field[..n] == whole[..|done| + n];
    HeaderField(start, done, field[..n], whole);
  }

  /** The next field continues the header and stays inside it. */
  lemma NextField(magic: bytes, numbers: seq<nat>, widths: seq<nat>, i: nat)
    requires |numbers| == |widths| && i < |numbers|
    ensures var done, field := magic + NumbersBytes(numbers[..i], widths[..i]), LE(numbers[i], widths[i]);
            && done + field <= magic + NumbersBytes(numbers, widths)
            && done + field == magic + NumbersBytes(numbers[..i + 1], widths[..i + 1])
  {
    hide LE, NumbersBytes;
    NumbersPrefix(numbers, widths, i);
    var front, field := NumbersBytes(numbers[..i], widths[..i]), LE(numbers[i], widths[i]);
    var rest := NumbersBytes(numbers[i + 1..], widths[i + 1..]);
    TwoHalves(numbers, i + 1);
    TwoHalves(widths, i + 1);
    NumbersConcat(numbers[..i + 1], numbers[i + 1..], widths[..i + 1], widths[i + 1..]);
    assert NumbersBytes(numbers, widths) == front + field + rest;
    FrontOf(magic, front, field, rest);
  }

  lemma TwoHalves(s: seq<nat>, i: nat)
    requires i <= |s|
    ensures s[..i] + s[i..] == s
  {
  }

  lemma FrontOf(a: bytes, b: bytes, c: bytes, d: bytes)
    ensures a + b + c == a + (b + c)
    ensures a + b + c <= a + (b + c + d)
  {
    assert a + (b + c + d) == a + b + c + d;
  }

  lemma NumbersPrefix(numbers: seq<nat>, widths: seq<nat>, i: nat)
    requires |numbers| == |widths| && i <= |numbers|
    ensures |NumbersBytes(numbers[..i], widths[..i])| <= Total(widths)
    ensures i == 0 ==> NumbersBytes(numbers[..i], widths[..i]) == []
    ensures i < |numbers| ==>
              NumbersBytes(numbers[..i + 1], widths[..i + 1]) ==
              NumbersBytes(numbers[..i], widths[..i]) + LE(numbers[i], widths[i])
              && |NumbersBytes(numbers[..i + 1], widths[..i + 1])| <= Total(widths)
  {
    TotalOfPrefix(widths, i);
    if i < |numbers| {
      TotalOfPrefix(widths, i + 1);
      NumbersConcat(numbers[..i], [numbers[i]], widths[..i], [widths[i]]);
      OneNumber(numbers[i], widths[i]);
      assert numbers[..i + 1] == numbers[..i] + [numbers[i]] && widths[..i + 1] == widths[..i] + [widths[i]];
    }
  }

  lemma OneNumber(v: nat, w: nat)
    ensures NumbersBytes([v], [w]) == LE(v, w)
  {
    assert NumbersBytes([], []) == [];
  }

  lemma {:induction false} NumbersConcat(a: seq<nat>, b: seq<nat>, v: seq<nat>, w: seq<nat>)
    requires |a| == |v| && |b| == |w|
    ensures NumbersBytes(a + b, v + w) == NumbersBytes(a, v) + NumbersBytes(b, w)
  {
    hide LE;
    if a == [] {
      assert a + b == b && v + w == w;
    } else {
      NumbersConcat(a[1..], b, v[1..], w);
      assert (a + b)[1..] == a[1..] + b && (v + w)[1..] == v[1..] + w;
    }
  }

  lemma TotalOfPrefix(widths: seq<nat>, i: nat)
    requires i <= |widths|
    ensures Total(widths[..i]) <= Total(widths)
  {
    TotalConcat(widths[..i], widths[i..]);
    assert widths == widths[..i] + widths[i..];
  }

  /** A failed write at the end leaves a longer disk with the same start. */
  lemma PartialAppend(before: bytes, data: bytes, after: bytes)
    requires ZeroHeader(before)
    requires exists n: nat :: n <= |data| && after == Overwrite(before, |before|, data[..n])
    ensures ZeroHeader(after)
  {
    var n: nat :| n <= |data| && after == Overwrite(before, |before|, data[..n]);
    AppendAtEnd(before, data[..n]);
    AppendKeepsStart(before, data[..n]);
  }

  // ---- packing a list of files -----------------------------------------------------

  lemma RunSnoc(env: Env, init: PackState, files: seq<InputFile>, file: InputFile)
    requires Sized(init) && PackRun(env, init, files).Ok?
    ensures PackRun(env, init, files + [file]) ==
            AddFile(env, PackRun(env, init, files).value, file.0, file.1)
  {
    hide AddFile;
    assert (files + [file])[..|files|] == files;
  }

  /** The buffered wrapper: one reader per file, read from memory in one go. */
  method PackWithOptions(env: Env, writer: Writer, files: seq<InputFile>, key: bytes, options: PackOptions)
    returns (r: Result<Unit>)
    requires forall i :: 0 <= i < |files| ==> |files[i].1| < POW64
    modifies writer
    ensures r.Ok? ==>
              && key != [] && ValidOptions(options) && old(writer.disk) == []
              && var run := PackRun(env, Initial(options, AeadKeyOf(env, options.protection, key)), files);
              && run.Ok? && Finish(env, run.value, key).Ok?
              && writer.disk == ImageOf(Finish(env, run.value, key).value)
    ensures r.Err? && writer.Reliable() && key != [] && ValidOptions(options) && old(writer.disk) == [] ==>
              var run := PackRun(env, Initial(options, AeadKeyOf(env, options.protection, key)), files);
              run == Err(r.error) || (run.Ok? && Finish(env, run.value, key) == Err(r.error))
  {
    hide PackRun, Finish, AddFile;
    var packer :- Packer.New(env, writer, key, options);
    ghost var init := Initial(options, AeadKeyOf(env, options.protection, key));
    assert files[..0] == [];
    for i := 0 to |files|
      invariant fresh(packer) && fresh(packer.raw) && packer.writer == writer
      invariant packer.Valid(env) && !packer.failed && packer.files == files[..i]
      invariant packer.key == key && packer.options == options
    {
      var reader := new Device(files[i].1, _ => Attempt(0, Deliver(|files[i].1|)));
      assert reader.NeverFails();
      RunSnoc(env, init, files[..i], files[i]);
      assert files[..i + 1] == files[..i] + [files[i]];
      assert reader.contents[0..] == files[i].1;
      var step := packer.AddReader(env, files[i].0, reader);
      if step.Err? && writer.Reliable() {
        RunStopsAtFailure(env, init, files, i + 1);
      }
      var _ :- step;
    }
    assert files[..|files|] == files;
    var _ :- packer.FinishPack(env);
    r := Ok(Unit);
  }
}
