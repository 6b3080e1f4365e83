/** The streaming packer: what each step does to the archive under construction, as
    functions of the packer's state, and the packer itself. */
module Packing {
  import opened Prelude
  import opened Path
  import opened Wire
  import opened Layout
  import opened Cipher
  import opened Toc
  import H = Header

  datatype PackMode = Debug | Production

  datatype PackOptions = PackOptions(chunkSize: nat, alignment: nat, mode: PackMode, protection: Protection)

  predicate ValidOptions(o: PackOptions) {
    H.ValidChunkSize(o.chunkSize) && ValidAlignment(o.alignment)
  }

  /** A packer between calls: its tables and the bytes written so far. */
  datatype PackState = PackState(
    options: PackOptions,
    aeadKey: Option<bytes>,
    entries: seq<TocEntry>,
    chunks: seq<Chunk>,
    disk: bytes)

  predicate Sized(st: PackState) {
    && ValidOptions(st.options)
    && HEADER_SIZE <= |st.disk| < POW64
    && |st.chunks| < POW32
    && |st.entries| < POW32
  }

  function Zeros(n: nat): (z: bytes)
    ensures |z| == n && forall i :: 0 <= i < n ==> z[i] == 0
  {
    seq(n, _ => 0)
  }

  /** The header area still holds the zeros it was reserved with. */
  ghost predicate ZeroHeader(disk: bytes) {
    |disk| >= HEADER_SIZE && disk[..HEADER_SIZE] == Zeros(HEADER_SIZE)
  }

  function Initial(options: PackOptions, aeadKey: Option<bytes>): PackState {
    PackState(options, aeadKey, [], [], Zeros(HEADER_SIZE))
  }

  /** The disk padded with zeros up to the next aligned offset. */
  function Padded(disk: bytes, alignment: nat): (r: Result<bytes>)
    requires |disk| < POW64 && ValidAlignment(alignment)
    ensures r.Ok? ==> |disk| <= |r.value| < POW64 && |r.value| % alignment == 0
  {
    AlignUpIsLeastMultiple(|disk|, alignment);
    var aligned :- AlignUp(|disk|, alignment);
    Ok(disk + Zeros(aligned - |disk|))
  }

  /** The block stored for a payload; nonces are drawn in the order of the chunks. */
  function Sealed(env: Env, aeadKey: Option<bytes>, payload: bytes, k: u32): Result<bytes> {
    match aeadKey
    case None => Ok(payload)
    case Some(key) => Encrypt(env, payload, key, ChunkAad(k), k)
  }

  /** Compression is used only where it pays. */
  function PayloadOf(env: Env, raw: bytes): bytes {
    if |env.lz4Encode(raw)| < |raw| then env.lz4Encode(raw) else raw
  }

  /** One more chunk: padding, then the stored block, then its record. */
  function StoreChunk(env: Env, st: PackState, raw: bytes): (r: Result<PackState>)
    requires Sized(st) && 0 < |raw| <= st.options.chunkSize
    ensures r.Ok? ==> |r.value.chunks| == |st.chunks| + 1 && HEADER_SIZE <= |r.value.disk| < POW64
                      && r.value.options == st.options && r.value.entries == st.entries
                      && r.value.aeadKey == st.aeadKey
  {
    var padded :- Padded(st.disk, st.options.alignment);
    var stored :- Sealed(env, st.aeadKey, PayloadOf(env, raw), |st.chunks|);
    if |padded| + |stored| >= POW64 then Err(TooLarge(ArchiveOffset))
    else
      var record := Chunk(|padded|, |stored|, |raw|, env.xxh3(raw), |env.lz4Encode(raw)| < |raw|);
      Ok(st.(disk := padded + stored, chunks := st.chunks + [record]))
  }

  /** The rest of an asset, cut into chunks; also the totals for its entry. */
  function StoreAll(env: Env, st: PackState, data: bytes, original: u64, stored: u64)
    : (r: Result<(PackState, u64, u64)>)
    requires Sized(st)
    ensures r.Ok? ==> Sized(r.value.0) && |st.chunks| <= |r.value.0.chunks|
                      && r.value.0.options == st.options && r.value.0.entries == st.entries
    decreases |data|
  {
    if data == [] then Ok((st, original, stored))
    else
      var n := Min(st.options.chunkSize, |data|);
      var next :- StoreChunk(env, st, data[..n]);
      var size := next.chunks[|st.chunks|].storedSize;
      if original + n >= POW64 then Err(TooLarge(EntryOriginalSize))
      else if stored + size >= POW64 then Err(TooLarge(EntryStoredSize))
      else if |next.chunks| >= POW32 then Err(TooLarge(ChunkCount))
      else StoreAll(env, next, data[n..], original + n, stored + size)
  }

  predicate HasHash(entries: seq<TocEntry>, hash: u64) {
    exists e :: e in entries && e.pathHash == hash
  }

  predicate HasPath(entries: seq<TocEntry>, hash: u64, path: bytes) {
    exists e :: e in entries && e.pathHash == hash && e.path == path
  }

  function CheckNew(st: PackState, path: bytes, hash: u64): Result<Unit> {
    if !HasHash(st.entries, hash) then Ok(Unit)
    else if HasPath(st.entries, hash, path) then Err(DuplicatePath(path))
    else if st.options.mode.Production? then Err(HashCollision(hash))
    else Ok(Unit)
  }

  /** One more asset. */
  function AddFile(env: Env, st: PackState, path: text, data: bytes): (r: Result<PackState>)
    requires Sized(st)
    ensures r.Ok? ==> Sized(r.value) && r.value.options == st.options
  {
    var name :- Normalize(path);
    var hash := env.xxh3(name);
    var _ :- CheckNew(st, name, hash);
    var t :- StoreAll(env, st, data, 0, 0);
    if |st.entries| + 1 >= POW32 then Err(TooLarge(EntryCount))
    else
      var e := TocEntry(name, hash, t.1, t.2, |st.chunks|, |t.0.chunks| - |st.chunks|);
      Ok(t.0.(entries := st.entries + [e]))
  }

  type InputFile = (text, bytes)

  /** All assets, in order. */
  function PackRun(env: Env, init: PackState, files: seq<InputFile>): (r: Result<PackState>)
    requires Sized(init)
    ensures r.Ok? ==> Sized(r.value) && r.value.options == init.options
  {
    if files == [] then Ok(init)
    else
      var before :- PackRun(env, init, files[..|files| - 1]);
      AddFile(env, before, files[|files| - 1].0, files[|files| - 1].1)
  }

  // ---- finishing -------------------------------------------------------------------

  function StripPaths(entries: seq<TocEntry>): (r: seq<TocEntry>)
    ensures |r| == |entries|
    ensures forall i :: 0 <= i < |r| ==> r[i] == entries[i].(path := [])
  {
    seq(|entries|, i requires 0 <= i < |entries| => entries[i].(path := []))
  }

  function TocEntries(st: PackState): (r: seq<TocEntry>)
    ensures |r| == |st.entries|
  {
    if st.options.mode.Production? then StripPaths(st.entries) else st.entries
  }

  function Flags(o: PackOptions): u16 {
    H.REQUIRED_FLAGS
      + (match o.protection case Xor => H.FLAG_TOC_XOR case Aead => H.FLAG_AEAD)
      + (if o.mode.Production? then H.FLAG_PATHS_STRIPPED else 0)
  }

  function SealedToc(env: Env, st: PackState, key: bytes, plain: bytes): Result<bytes>
    requires key != []
  {
    match st.aeadKey
    case Some(k) => Encrypt(env, env.lz4Encode(plain), k, TOC_AAD, |st.chunks|)
    case None => Ok(XorKey(env.lz4Encode(plain), key))
  }

  /** The header, and everything that follows the header area. */
  datatype Finished = Finished(header: H.Header, disk: bytes)

  function Finish(env: Env, st: PackState, key: bytes): (r: Result<Finished>)
    requires Sized(st) && key != []
    ensures r.Ok? ==> HEADER_SIZE <= |r.value.disk| < POW64
  {
    var padded :- Padded(st.disk, st.options.alignment);
    var plain :- EncodedToc(TocEntries(st), st.chunks);
    EncodedSize(TocEntries(st), st.chunks);
    var stored :- SealedToc(env, st, key, plain);
    if |stored| > MAX_TOC_STORED_SIZE then Err(TooLarge(StoredToc))
    else if |padded| + |stored| >= POW64 then Err(TooLarge(ArchiveLength))
    else
      Ok(Finished(
        H.Header(VERSION, Flags(st.options), HEADER_SIZE, st.options.alignment, st.options.chunkSize,
                 |st.entries|, |st.chunks|, |padded|, |stored|, |plain|, env.xxh3(plain)),
        padded + stored))
  }

  lemma EncodedSize(entries: seq<TocEntry>, chunks: seq<Chunk>)
    ensures EncodedToc(entries, chunks).Ok? ==> |EncodedToc(entries, chunks).value| <= MAX_TOC_RAW_SIZE
  {
    ImageLength(entries, PathsOf(entries), chunks);
  }

  /** The finished archive: the header is written over the zeros at the start. */
  function ImageOf(f: Finished): (image: bytes)
    requires |f.disk| >= HEADER_SIZE
    ensures |image| == |f.disk|
  {
    H.HeaderBytes(f.header) + f.disk[HEADER_SIZE..]
  }

  /** The disk when n bytes of the header have been written. */
  function PartImage(f: Finished, n: nat): (image: bytes)
    requires n <= HEADER_SIZE <= |f.disk|
    ensures |image| == |f.disk|
  {
    H.HeaderBytes(f.header)[..n] + f.disk[n..]
  }

  // ---- what XOR archives depend on -------------------------------------------------

  lemma StoreChunkWithoutNonces(env: Env, other: nat -> Option<bytes>, st: PackState, raw: bytes)
    requires Sized(st) && st.aeadKey == None && 0 < |raw| <= st.options.chunkSize
    ensures StoreChunk(env.(nonce := other), st, raw) == StoreChunk(env, st, raw)
  {
    hide Padded, Encrypt;
  }

  lemma {:induction false} StoreAllWithoutNonces(env: Env, other: nat -> Option<bytes>, st: PackState,
                                                 data: bytes, original: u64, stored: u64)
    requires Sized(st) && st.aeadKey == None
    ensures StoreAll(env, st, data, original, stored) ==
            StoreAll(env.(nonce := other), st, data, original, stored)
    ensures StoreAll(env, st, data, original, stored).Ok? ==>
              StoreAll(env, st, data, original, stored).value.0.aeadKey == None
    decreases |data|
  {
    hide StoreChunk;
    if data != [] {
      var n := Min(st.options.chunkSize, |data|);
      StoreChunkWithoutNonces(env, other, st, data[..n]);
      var next := StoreChunk(env, st, data[..n]);
      if next.Ok? && |next.value.chunks| < POW32 {
        var size := next.value.chunks[|st.chunks|].storedSize;
        if original + n < POW64 && stored + size < POW64 {
          StoreAllWithoutNonces(env, other, next.value, data[n..], original + n, stored + size);
        }
      }
    }
  }

  lemma {:induction false} RunWithoutNonces(env: Env, other: nat -> Option<bytes>, init: PackState,
                                            files: seq<InputFile>)
    requires Sized(init) && init.aeadKey == None
    ensures PackRun(env, init, files) == PackRun(env.(nonce := other), init, files)
    ensures PackRun(env, init, files).Ok? ==> PackRun(env, init, files).value.aeadKey == None
  {
    hide StoreAll, Normalize, CheckNew;
    if files != [] {
      RunWithoutNonces(env, other, init, files[..|files| - 1]);
      var before := PackRun(env, init, files[..|files| - 1]);
      if before.Ok? {
        StoreAllWithoutNonces(env, other, before.value, files[|files| - 1].1, 0, 0);
      }
    }
  }

  /** With XOR protection the archive is a function of the files, the key and the options:
      whatever random nonces the system would have handed out, every byte is the same. */
  lemma XorOutputIgnoresNonces(env: Env, other: nat -> Option<bytes>, options: PackOptions, key: bytes,
                               files: seq<InputFile>)
    requires ValidOptions(options) && options.protection.Xor? && key != []
    ensures var run := PackRun(env, Initial(options, AeadKeyOf(env, options.protection, key)), files);
            var again := env.(nonce := other);
            && PackRun(again, Initial(options, AeadKeyOf(again, options.protection, key)), files) == run
            && (run.Ok? ==> Finish(again, run.value, key) == Finish(env, run.value, key))
  {
    hide PackRun, EncodedToc, Padded, TocEntries, Encrypt;
    RunWithoutNonces(env, other, Initial(options, None), files);
  }

  /** A failed file fails the whole run, with the error of that file. */
  lemma {:induction false} RunStopsAtFailure(env: Env, init: PackState, files: seq<InputFile>, n: nat)
    requires Sized(init) && n <= |files| && PackRun(env, init, files[..n]).Err?
    ensures PackRun(env, init, files) == PackRun(env, init, files[..n])
    decreases |files|
  {
    hide AddFile;
    if n == |files| {
      assert files[..n] == files;
    } else {
      assert files[..|files| - 1][..n] == files[..n];
      RunStopsAtFailure(env, init, files[..|files| - 1], n);
    }
  }
}
