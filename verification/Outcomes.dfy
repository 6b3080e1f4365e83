/** When packing succeeds: every error a run can still end with, and runs that do succeed. */
module Outcomes {
  import opened Prelude
  import opened Path
  import opened Wire
  import opened Layout
  import opened Index
  import opened Bits
  import opened Cipher
  import opened Toc
  import opened Opening
  import opened Packing
  import opened PackInvariant
  import opened RoundTrip
  import H = Header

  /** Sealing can fail, but only where blocks are sealed. */
  predicate SealFault(aeadKey: Option<bytes>, e: Error) {
    aeadKey.Some? && (e == Crypto(NonceFailed) || e == Crypto(EncryptFailed))
  }

  /** The archive outgrows a u64. */
  predicate SpaceFault(e: Error) {
    e == TooLarge(AlignedOffset) || e == TooLarge(ArchiveOffset)
  }

  lemma PaddedFaults(disk: bytes, alignment: nat)
    requires |disk| < POW64 && ValidAlignment(alignment)
    ensures Padded(disk, alignment).Err? ==> Padded(disk, alignment) == Err(TooLarge(AlignedOffset))
  {
  }

  lemma StoreChunkFaults(env: Env, st: PackState, raw: bytes)
    requires Sized(st) && 0 < |raw| <= st.options.chunkSize
    ensures var r := StoreChunk(env, st, raw);
            && (r.Err? ==> SealFault(st.aeadKey, r.error) || SpaceFault(r.error))
            && (r.Ok? ==> |st.disk| + r.value.chunks[|st.chunks|].storedSize <= |r.value.disk|)
  {
    hide Padded;
    PaddedFaults(st.disk, st.options.alignment);
  }

  /** The totals of an entry never overflow: the stored bytes are on the disk, and the chunk
      count runs out long before the sizes do. */
  lemma {:induction false} StoreAllFaults(env: Env, st: PackState, data: bytes, original: u64, stored: u64)
    requires Sized(st)
    requires original <= MAX_CHUNK_SIZE * |st.chunks| && stored <= |st.disk|
    ensures var r := StoreAll(env, st, data, original, stored);
            r.Err? ==> SealFault(st.aeadKey, r.error) || SpaceFault(r.error) || r.error == TooLarge(ChunkCount)
    decreases |data|
  {
    hide StoreChunk;
    if data != [] {
      var n := Min(st.options.chunkSize, |data|);
      StoreChunkFaults(env, st, data[..n]);
      var next := StoreChunk(env, st, data[..n]);
      if next.Ok? {
        var size := next.value.chunks[|st.chunks|].storedSize;
        assert n <= MAX_CHUNK_SIZE;
        assert original + n <= MAX_CHUNK_SIZE * |next.value.chunks| <= MAX_CHUNK_SIZE * POW32 < POW64;
        if |next.value.chunks| < POW32 {
          StoreAllFaults(env, next.value, data[n..], original + n, stored + size);
        }
      }
    }
  }

  /** Why a file is refused: a path without a normal form, a name that is taken, in production
      a hash that is taken, or no room. Nothing else can go wrong. */
  lemma AddFileFaults(env: Env, st: PackState, files: seq<InputFile>, path: text, data: bytes)
    requires PackInv(env, st, files)
    ensures var r := AddFile(env, st, path, data);
            && (r == Err(InvalidPath) <==> Normalize(path).Err?)
            && (r.Err? && r.error.DuplicatePath? <==>
                  Normalize(path).Ok? && exists i :: 0 <= i < |files| && NameOf(files[i]) == Normalize(path).value)
            && (r.Err? && r.error.HashCollision? <==>
                  && st.options.mode.Production? && Normalize(path).Ok?
                  && (forall i :: 0 <= i < |files| ==> NameOf(files[i]) != Normalize(path).value)
                  && exists i :: 0 <= i < |files| && env.xxh3(NameOf(files[i])) == env.xxh3(Normalize(path).value))
            && (r.Err? ==>
                  || r.error == InvalidPath || r.error.DuplicatePath? || r.error.HashCollision?
                  || SealFault(st.aeadKey, r.error) || SpaceFault(r.error)
                  || r.error == TooLarge(ChunkCount) || r.error == TooLarge(EntryCount))
  {
    hide StoreAll, Acceptable, Join, Kept, Split, PackInv, NameOf;
    PackInvSizes(env, st, files);
    StoreAllFaults(env, st, data, 0, 0);
    if Normalize(path).Ok? {
      NameTaken(env, st, files, Normalize(path).value);
    }
  }

  lemma NameTaken(env: Env, st: PackState, files: seq<InputFile>, name: bytes)
    requires PackInv(env, st, files)
    ensures HasPath(st.entries, env.xxh3(name), name) <==> exists i :: 0 <= i < |files| && NameOf(files[i]) == name
    ensures HasHash(st.entries, env.xxh3(name)) <==>
            exists i :: 0 <= i < |files| && env.xxh3(NameOf(files[i])) == env.xxh3(name)
  {
    hide PackInv, NameOf;
    PackInvSizes(env, st, files);
    forall i | 0 <= i < |files|
      ensures st.entries[i] in st.entries && st.entries[i].path == NameOf(files[i])
      ensures st.entries[i].pathHash == env.xxh3(NameOf(files[i]))
    {
      EntryNames(env, st, files, i);
    }
  }

  /** Why a run cannot be finished: no room, a TOC that is too large, or sealing. */
  lemma FinishFaults(env: Env, st: PackState, files: seq<InputFile>, key: bytes)
    requires PackInv(env, st, files) && key != []
    ensures var r := Finish(env, st, key);
            r.Err? ==>
              || SealFault(st.aeadKey, r.error)
              || r.error in {TooLarge(AlignedOffset), TooLarge(RawToc), TooLarge(StoredToc), TooLarge(ArchiveLength)}
  {
    hide Padded, PackInv, TocEntries, Flags;
    PackInvSizes(env, st, files);
    PaddedFaults(st.disk, st.options.alignment);
    TocEncodes(env, st, files);
  }

  // ---- when a run succeeds ---------------------------------------------------------

  /** Sealing never fails: there is nothing to seal, or the system and the cipher deliver. */
  ghost predicate SealingWorks(env: Env, aeadKey: Option<bytes>) {
    aeadKey.Some? ==>
      && (forall n: nat :: env.nonce(n).Some?)
      && forall k: bytes, n: bytes, m: bytes, a: bytes :: env.cipherSeal(k, n, m, a).Some?
  }

  /** The room that storing `data` takes at most: the bytes themselves and, for every chunk,
      its padding and its frame. */
  function Room(data: bytes, o: PackOptions): nat
    requires o.chunkSize > 0
  {
    |data| + CeilDiv(|data|, o.chunkSize) * (o.alignment + 40)
  }

  lemma PaddedInRoom(disk: bytes, alignment: nat)
    requires ValidAlignment(alignment) && |disk| + alignment < POW64
    ensures Padded(disk, alignment).Ok? && |Padded(disk, alignment).value| < |disk| + alignment
  {
    AlignUpIsLeastMultiple(|disk|, alignment);
    hide IsPowerOfTwo, BitAnd, LeastMultiple;
    assert AlignUp(|disk|, alignment).Ok?;
  }

  lemma StoreChunkSucceeds(env: Env, st: PackState, raw: bytes)
    requires env.Lawful() && Sized(st) && SealingWorks(env, st.aeadKey) && 0 < |raw| <= st.options.chunkSize
    requires |st.disk| + |raw| + st.options.alignment + 40 < POW64
    ensures var r := StoreChunk(env, st, raw);
            r.Ok? && |r.value.disk| <= |st.disk| + |raw| + st.options.alignment + 40
  {
    hide Padded;
    PaddedInRoom(st.disk, st.options.alignment);
    if st.aeadKey.Some? {
      var payload := PayloadOf(env, raw);
      assert env.nonce(|st.chunks|).Some?;
      assert Encrypt(env, payload, st.aeadKey.value, ChunkAad(|st.chunks|), |st.chunks|).Ok?;
      DecryptUndoesEncrypt(env, payload, st.aeadKey.value, ChunkAad(|st.chunks|), |st.chunks|);
    }
  }

  lemma RoomForChunk(data: bytes, o: PackOptions, n: nat)
    requires o.chunkSize > 0 && data != [] && n == Min(o.chunkSize, |data|)
    ensures Room(data, o) == n + o.alignment + 40 + Room(data[n..], o)
    ensures CeilDiv(|data|, o.chunkSize) == 1 + CeilDiv(|data[n..]|, o.chunkSize)
  {
    hide CeilDiv;
    CeilDivStep(|data|, o.chunkSize);
    var c, w := CeilDiv(|data[n..]|, o.chunkSize), o.alignment + 40;
    assert (1 + c) * w == w + c * w;
  }

  lemma {:induction false} StoreAllSucceeds(env: Env, st: PackState, data: bytes, original: u64, stored: u64)
    requires env.Lawful() && Sized(st) && SealingWorks(env, st.aeadKey)
    requires |st.disk| + Room(data, st.options) < POW64
    requires |st.chunks| + CeilDiv(|data|, st.options.chunkSize) < POW32
    requires original <= MAX_CHUNK_SIZE * |st.chunks| && stored <= |st.disk|
    ensures var r := StoreAll(env, st, data, original, stored);
            && r.Ok? && |r.value.0.disk| <= |st.disk| + Room(data, st.options)
            && |r.value.0.chunks| == |st.chunks| + CeilDiv(|data|, st.options.chunkSize)
            && r.value.0.aeadKey == st.aeadKey
    decreases |data|
  {
    hide StoreChunk, Room, CeilDiv, SealingWorks;
    if data == [] {
      CeilDivZero(st.options.chunkSize);
      NoRoom(st.options);
    } else {
      var n := Min(st.options.chunkSize, |data|);
      RoomForChunk(data, st.options, n);
      StoreChunkSucceeds(env, st, data[..n]);
      StoreChunkFaults(env, st, data[..n]);
      var next := StoreChunk(env, st, data[..n]).value;
      assert original + n <= MAX_CHUNK_SIZE * |next.chunks| <= MAX_CHUNK_SIZE * POW32 < POW64;
      StoreAllSucceeds(env, next, data[n..], original + n, stored + next.chunks[|st.chunks|].storedSize);
    }
  }

  lemma NoRoom(o: PackOptions)
    requires o.chunkSize > 0
    ensures Room([], o) == 0
  {
    CeilDivZero(o.chunkSize);
  }

  function RoomOf(files: seq<InputFile>, o: PackOptions): nat
    requires o.chunkSize > 0
  {
    if files == [] then 0 else RoomOf(files[..|files| - 1], o) + Room(files[|files| - 1].1, o)
  }

  function ChunksOf(files: seq<InputFile>, o: PackOptions): nat
    requires o.chunkSize > 0
  {
    if files == [] then 0
    else ChunksOf(files[..|files| - 1], o) + CeilDiv(|files[|files| - 1].1|, o.chunkSize)
  }

  /** The names can be packed together: all valid, none twice, in production no hash twice. */
  ghost predicate NamesPack(env: Env, mode: PackMode, files: seq<InputFile>) {
    && (forall i :: 0 <= i < |files| ==> Normalize(files[i].0).Ok?)
    && (forall i, j :: 0 <= i < j < |files| ==> NameOf(files[i]) != NameOf(files[j]))
    && (mode.Production? ==>
          forall i, j :: 0 <= i < j < |files| ==> env.xxh3(NameOf(files[i])) != env.xxh3(NameOf(files[j])))
  }

  /** Names that can be packed together and room for their contents are all that a run needs. */
  lemma {:induction false} RunSucceeds(env: Env, options: PackOptions, aeadKey: Option<bytes>, files: seq<InputFile>)
    requires env.Lawful() && ValidOptions(options) && SealingWorks(env, aeadKey)
    requires NamesPack(env, options.mode, files)
    requires |files| < POW32 && ChunksOf(files, options) < POW32 && HEADER_SIZE + RoomOf(files, options) < POW64
    ensures var r := PackRun(env, Initial(options, aeadKey), files);
            && r.Ok? && |r.value.disk| <= HEADER_SIZE + RoomOf(files, options)
            && |r.value.chunks| == ChunksOf(files, options) && r.value.aeadKey == aeadKey
  {
    hide AddFile, Room, CeilDiv, SealingWorks, NameOf, PackInv, Normalize;
    if files != [] {
      var front, last := files[..|files| - 1], files[|files| - 1];
      RunSucceeds(env, options, aeadKey, front);
      RunKeeps(env, options, aeadKey, front);
      var st := PackRun(env, Initial(options, aeadKey), front).value;
      AddFileSucceeds(env, st, front, last);
    }
  }

  lemma AddFileSucceeds(env: Env, st: PackState, files: seq<InputFile>, f: InputFile)
    requires env.Lawful() && PackInv(env, st, files) && SealingWorks(env, st.aeadKey)
    requires Normalize(f.0).Ok? && |files| + 1 < POW32
    requires forall i :: 0 <= i < |files| ==> NameOf(files[i]) != NameOf(f)
    requires st.options.mode.Production? ==>
               forall i :: 0 <= i < |files| ==> env.xxh3(NameOf(files[i])) != env.xxh3(NameOf(f))
    requires st.options.chunkSize > 0 && |st.disk| + Room(f.1, st.options) < POW64
    requires |st.chunks| + CeilDiv(|f.1|, st.options.chunkSize) < POW32
    ensures var r := AddFile(env, st, f.0, f.1);
            && r.Ok? && |r.value.disk| <= |st.disk| + Room(f.1, st.options)
            && |r.value.chunks| == |st.chunks| + CeilDiv(|f.1|, st.options.chunkSize)
            && r.value.aeadKey == st.aeadKey
  {
    hide StoreAll, PackInv, Room, CeilDiv, SealingWorks, Acceptable, Join, Kept, Split;
    PackInvSizes(env, st, files);
    StoreAllSucceeds(env, st, f.1, 0, 0);
    NameTaken(env, st, files, NameOf(f));
  }

  /** A run with room left can be finished exactly when its TOC is not too large: unpacked,
      packed and behind the payload. */
  lemma FinishSucceedsExactly(env: Env, st: PackState, files: seq<InputFile>, key: bytes)
    requires env.Lawful() && PackInv(env, st, files) && key != [] && SealingWorks(env, st.aeadKey)
    requires |st.disk| + st.options.alignment < POW64
    ensures var plain := TocImage(TocEntries(st), PathsOf(TocEntries(st)), st.chunks);
            var size := |env.lz4Encode(plain)| + if st.aeadKey.Some? then 40 else 0;
            && Padded(st.disk, st.options.alignment).Ok?
            && (Finish(env, st, key).Ok? <==>
                  && |plain| <= 512 * 1024 * 1024 && size <= 256 * 1024 * 1024
                  && |Padded(st.disk, st.options.alignment).value| + size < POW64)
  {
    hide Padded, PackInv, TocEntries, Flags, XorKey, TocImage;
    PackInvSizes(env, st, files);
    PaddedInRoom(st.disk, st.options.alignment);
    TocEncodes(env, st, files);
    var plain := TocImage(TocEntries(st), PathsOf(TocEntries(st)), st.chunks);
    if st.aeadKey.Some? {
      var packed := env.lz4Encode(plain);
      assert env.nonce(|st.chunks|).Some?;
      assert Encrypt(env, packed, st.aeadKey.value, TOC_AAD, |st.chunks|).Ok?;
      DecryptUndoesEncrypt(env, packed, st.aeadKey.value, TOC_AAD, |st.chunks|);
    }
  }

  /** No name of a run is too long for the TOC. */
  lemma TocEncodes(env: Env, st: PackState, files: seq<InputFile>)
    requires PackInv(env, st, files)
    ensures var plain := TocImage(TocEntries(st), PathsOf(TocEntries(st)), st.chunks);
            EncodedToc(TocEntries(st), st.chunks) ==
            if |plain| <= MAX_TOC_RAW_SIZE then Ok(plain) else Err(TooLarge(RawToc))
  {
    hide PackInv, TocEntries, TocImage;
    PackInvSizes(env, st, files);
    ImageLength(TocEntries(st), PathsOf(TocEntries(st)), st.chunks);
    forall e | e in TocEntries(st)
      ensures |e.path| <= MAX_PATH_LEN
    {
      var i :| 0 <= i < |TocEntries(st)| && TocEntries(st)[i] == e;
      EntryNames(env, st, files, i);
      TocEntryAt(st, i);
    }
  }

  // ---- a run that succeeds ---------------------------------------------------------

  /** The output bound of the compressor, rounded up. */
  ghost predicate CompressionIsBounded(env: Env) {
    forall x: bytes {:trigger env.lz4Encode(x)} :: |env.lz4Encode(x)| <= 2 * |x| + 20
  }

  const SMALL: nat := 0x1_0000_0000

  lemma PaddedFits(disk: bytes, alignment: nat)
    requires |disk| < SMALL && ValidAlignment(alignment)
    ensures Padded(disk, alignment).Ok? && |Padded(disk, alignment).value| < |disk| + alignment
  {
    AlignUpIsLeastMultiple(|disk|, alignment);
    hide IsPowerOfTwo, BitAnd, LeastMultiple;
    assert AlignUp(|disk|, alignment).Ok?;
  }

  lemma StoreChunkFits(env: Env, st: PackState, raw: bytes)
    requires Sized(st) && st.aeadKey == None && 0 < |raw| <= st.options.chunkSize
    requires |st.disk| + |raw| + st.options.alignment < SMALL
    ensures var r := StoreChunk(env, st, raw);
            r.Ok? && |r.value.disk| < |st.disk| + |raw| + st.options.alignment
  {
    hide Padded;
    PaddedFits(st.disk, st.options.alignment);
  }

  /** Storing an asset of at most one chunk adds at most one chunk. */
  lemma StoreOne(env: Env, st: PackState, data: bytes)
    requires Sized(st) && st.aeadKey == None && st.chunks == [] && |data| <= st.options.chunkSize
    requires |st.disk| + |data| + st.options.alignment < SMALL
    ensures var r := StoreAll(env, st, data, 0, 0);
            && r.Ok? && |r.value.0.chunks| <= 1 && r.value.0.aeadKey == None
            && |r.value.0.disk| < |st.disk| + |data| + st.options.alignment
  {
    hide StoreChunk;
    if data != [] {
      var n := Min(st.options.chunkSize, |data|);
      assert data[..n] == data && data[n..] == [];
      StoreChunkFits(env, st, data);
      StoreChunkFaults(env, st, data);
      var next := StoreChunk(env, st, data).value;
      var size := next.chunks[0].storedSize;
      assert StoreAll(env, next, [], |data|, size) == Ok((next, |data|, size));
    }
  }

  lemma FinishFits(env: Env, st: PackState, key: bytes)
    requires Sized(st) && key != [] && st.aeadKey == None && CompressionIsBounded(env)
    requires |st.entries| == 1 && |st.chunks| <= 1 && |st.entries[0].path| <= MAX_PATH_LEN
    requires |st.disk| + st.options.alignment < SMALL
    ensures Finish(env, st, key).Ok?
    ensures var h := Finish(env, st, key).value.header;
            && h.tocRawSize <= 76 + MAX_PATH_LEN && h.tocSize <= 2 * h.tocRawSize + 20
            && h.entryCount == 1 && h.chunkCount <= 1
  {
    hide Padded, Flags, XorKey, TocImage;
    PaddedFits(st.disk, st.options.alignment);
    var entries := TocEntries(st);
    assert |entries| == 1 && |entries[0].path| <= MAX_PATH_LEN by { TocEntryAt(st, 0); }
    assert forall e :: e in entries ==> e == entries[0];
    var paths := PathsOf(entries);
    assert PathBytesTotal(paths) == |paths[0]| by { assert paths[1..] == []; }
    ImageLength(entries, paths, st.chunks);
    var plain := TocImage(entries, paths, st.chunks);
    assert EncodedToc(entries, st.chunks) == Ok(plain);
    var packed := env.lz4Encode(plain);
    assert |packed| <= 2 * |plain| + 20;
  }

  /** Any asset of at most one chunk can be packed with XOR protection, in either mode. */
  lemma OneFilePacks(env: Env, options: PackOptions, key: bytes, path: text, data: bytes)
    returns (st: PackState, f: Finished)
    requires ValidOptions(options) && options.protection.Xor? && key != [] && CompressionIsBounded(env)
    requires Normalize(path).Ok? && |data| <= options.chunkSize
    ensures PackRun(env, Initial(options, AeadKeyOf(env, options.protection, key)), [(path, data)]) == Ok(st)
    ensures Finish(env, st, key) == Ok(f)
    ensures f.header.tocRawSize <= 76 + MAX_PATH_LEN && f.header.tocSize <= 2 * f.header.tocRawSize + 20
    ensures f.header.entryCount == 1 && f.header.chunkCount <= 1 && |st.entries| == 1
  {
    hide StoreAll, Finish, Acceptable, Join, Kept, Split, IsPowerOfTwo;
    var init := Initial(options, AeadKeyOf(env, options.protection, key));
    var files: seq<InputFile> := [(path, data)];
    StoreOne(env, init, data);
    NormalizedIsClean(path);
    assert files[..0] == [];
    assert PackRun(env, init, []) == Ok(init);
    assert |path| <= MAX_PATH_LEN by { NormalizedLength(path); }
    st := PackRun(env, init, files).value;
    FinishFits(env, st, key);
    f := Finish(env, st, key).value;
  }

  lemma NormalizedLength(path: bytes)
    requires Normalize(path).Ok?
    ensures |path| <= MAX_PATH_LEN
  {
  }

  /** What is packed that way opens under the hard limits, so the premises of the round trip
      can be met by every key, name and content. */
  lemma OneFileOpens(env: Env, options: PackOptions, key: bytes, path: text, data: bytes)
    returns (st: PackState, f: Finished)
    requires env.Lawful() && CompressionIsBounded(env)
    requires env.entryFootprint <= SMALL / 8 && env.chunkFootprint <= SMALL / 8
    requires ValidOptions(options) && options.protection.Xor? && key != []
    requires Normalize(path).Ok? && |data| <= options.chunkSize
    ensures PackRun(env, Initial(options, AeadKeyOf(env, options.protection, key)), [(path, data)]) == Ok(st)
    ensures Finish(env, st, key) == Ok(f) && |f.disk| >= HEADER_SIZE
    ensures Accepts(env, ImageOf(f), key, HARD_LIMITS)
  {
    hide PackRun, Finish, Accepts, ImageOf, Normalize;
    st, f := OneFilePacks(env, options, key, path, data);
    var files: seq<InputFile> := [(path, data)];
    OneFileWithin(env, st, files, f.header);
    PackOpenRead(env, options, key, files, st, f, HARD_LIMITS);
  }

  lemma OneFileWithin(env: Env, st: PackState, files: seq<InputFile>, h: H.Header)
    requires |files| == 1 && |files[0].1| <= MAX_CHUNK_SIZE && Normalize(files[0].0).Ok? && |st.entries| == 1
    requires env.entryFootprint <= SMALL / 8 && env.chunkFootprint <= SMALL / 8
    requires h.tocRawSize <= 76 + MAX_PATH_LEN && h.tocSize <= 2 * h.tocRawSize + 20
    requires h.entryCount == 1 && h.chunkCount <= 1
    ensures WithinLimits(env, st, files, h, HARD_LIMITS)
  {
    hide Acceptable, Join, Kept, Split;
    NormalizedLength(files[0].0);
    NormalizedIsClean(files[0].0);
    assert files[..0] == [] && files[1..] == [];
    assert TotalData(files) == |files[0].1|;
    assert NameBytes(files) == |NameOf(files[0])| + NameBytes([]);
    forall hash: u64
      ensures |Bucket(st.entries, hash)| <= MAX_BUCKET
    {
      assert Bucket(st.entries, hash) <= {0};
      SmallSet(Bucket(st.entries, hash));
    }
  }
}
