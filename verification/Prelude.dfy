/** Types shared by every module: machine integers, results, the error enumeration,
    the format constants and the contracts of the libraries the archive code calls. */
module Prelude {

  const POW16: nat := 0x1_0000
  const POW32: nat := 0x1_0000_0000
  const POW64: nat := 0x1_0000_0000_0000_0000

  /** The longest slice Rust can have. */
  const MAX_SLICE: nat := 0x7FFF_FFFF_FFFF_FFFF

  type byte = x: int | 0 <= x < 0x100
  type u16 = x: int | 0 <= x < 0x1_0000
  type u32 = x: int | 0 <= x < 0x1_0000_0000
  type u64 = x: int | 0 <= x < 0x1_0000_0000_0000_0000
  type bytes = seq<byte>

  datatype Option<+T> = None | Some(value: T)

  datatype Result<+T> = Ok(value: T) | Err(error: Error) {
    predicate IsFailure() {
      Err?
    }

    function PropagateFailure<U>(): Result<U>
      requires Err?
    {
      Err(error)
    }

    function Extract(): T
      requires Ok?
    {
      value
    }
  }

  datatype Unit = Unit

  /** How a read names its asset in an error. */
  datatype Label = ByPath(path: bytes) | ByHash(hash: u64)

  datatype IoFault = UnexpectedEof | DeviceFailed | ReadOffsetOverflow

  datatype CryptoFault = NonceFailed | EncryptFailed | TruncatedBlock | AuthenticationFailed

  datatype Quantity =
    | StoredToc | RawToc | StoredTocLimit | RawTocLimit
    | PathLength | TotalPathBytes | TocRecordCounts | AlignedOffset
    | ArchiveOffset | ArchiveLength | ChunkIndex | ChunkCount | EntryCount
    | EntryChunkCount | EntryOriginalSize | EntryStoredSize
    | TotalDecompressed | RangeChunkIndex | CollisionBucket

  /** One constructor for each reason the source gives for a corrupt archive. */
  datatype Reason =
    | CursorOverflow | TruncatedToc | TocCountsExceedSize | EntryReserved
    | ProductionPath | DebugPathEmpty | PathNotUtf8 | PathHashMismatch
    | ChunkFlags | ChunkReserved | TrailingToc
    | TocRangeOverflow | TocOutside | TocMisaligned | TocCountsExceedRaw
    | TocChecksum | TocDecompressedSize
    | EncryptedChunkTruncated | ChunkOriginalSize | ChunkStoredSize
    | NonBeneficial | RawChunkSize | ChunkAlignment | ChunkOrder
    | ChunkRangeOverflow | ChunkOutsidePayload
    | EntryRangeOverflow | EntryRangeOutside | EmptyEntryHasChunks | EntryHasNoChunks
    | SharedChunk | EntryRawOverflow | EntryStoredOverflow | NonFinalChunkSize
    | EntryOriginalMismatch | EntryStoredMismatch | OrphanChunk
    | ChunkIndexOverflow | ChunkIndexOutside | EntryIndexOutside
    | EntrySizeOverflow | EntrySizeMismatch | EntryChunkRangeMismatch
    | RangeOffsetOverflow | RangeEndOverflow | RangeSliceOrder
    | RangeOutputOverflow | RangeOutputMismatch | RangeSliceMismatch | RangeSizeMismatch
    | ChunkDecompressedSize | DecryptedSize

  datatype Error =
    | Io(fault: IoFault)
    | BadMagic
    | BadTocMagic
    | UnsupportedVersion(version: u16)
    | UnsupportedFlags(flags: u16)
    | UnsupportedHeaderSize(size: u32)
    | EmptyXorKey
    | Crypto(cause: CryptoFault)
    | IncompletePack
    | NonEmptyDestination
    | InvalidPath
    | InvalidChunkSize
    | InvalidAlignment
    | InvalidRange
    | BufferSizeMismatch(expected: nat, actual: nat)
    | ChunkOutOfRange(chunk: nat, count: nat)
    | DuplicatePath(path: bytes)
    | AssetTooLarge
    | ArchiveTooLarge
    | TooManyEntries
    | TooManyChunks
    | MetadataLimitExceeded
    | Corrupt(reason: Reason)
    | TooLarge(quantity: Quantity)
    | Lz4
    | NotFound(asset: Label)
    | HashCollision(hash: u64)
    | ChecksumMismatch(asset: Label, local: u32)

  const HEADER_SIZE: nat := 60
  const VERSION: nat := 1
  const MAGIC: bytes := [0x52, 0x50, 0x41, 0x4B]
  const TOC_MAGIC: bytes := [0x54, 0x4F, 0x43, 0x32]
  const MAX_TOC_STORED_SIZE: nat := 256 * 1024 * 1024
  const MAX_TOC_RAW_SIZE: nat := 512 * 1024 * 1024
  const MAX_PATH_LEN: nat := 0xFFFF
  const MAX_PATH_SEGMENTS: nat := 1024
  const MAX_CHUNK_SIZE: nat := 64 * 1024 * 1024
  const MAX_ALIGNMENT: nat := 1024 * 1024
  const TOC_ENTRY_FIXED_SIZE: nat := 36
  const TOC_CHUNK_FIXED_SIZE: nat := 36
  const AEAD_OVERHEAD: nat := 40
  const TOC_AAD: bytes := [0x52, 0x50, 0x41, 0x4B, 0x2D, 0x54, 0x4F, 0x43, 0x2D, 0x76, 0x31]
  const CHUNK_AAD_PREFIX: bytes := [0x52, 0x50, 0x41, 0x4B, 0x2D, 0x43, 0x48, 0x4E]

  datatype Protection = Xor | Aead

  datatype TocEntry = TocEntry(
    path: bytes, pathHash: u64, originalSize: u64, storedSize: u64,
    firstChunk: u32, chunkCount: u32)

  datatype Chunk = Chunk(
    offset: u64, storedSize: u64, originalSize: u64, checksum: u64, compressed: bool)

  /** The libraries and the platform, as function values: XXH3-64, the LZ4 block codec,
      BLAKE3 key derivation, the operating system's nonces (one per draw) and
      XChaCha20-Poly1305. The footprints are the sizes of the decoded records in memory. */
  datatype Env = Env(
    xxh3: bytes -> u64,
    lz4Encode: bytes -> bytes,
    lz4Decode: (bytes, nat) -> Option<bytes>,
    deriveKey: bytes -> bytes,
    nonce: nat -> Option<bytes>,
    cipherSeal: (bytes, bytes, bytes, bytes) -> Option<bytes>,
    cipherOpen: (bytes, bytes, bytes, bytes) -> Option<bytes>,
    entryFootprint: nat,
    chunkFootprint: nat)
  {
    /** Everything the proofs trust about the libraries. XXH3 stays uninterpreted. */
    ghost predicate Lawful() {
      && (forall x: bytes {:trigger lz4Encode(x)} :: lz4Decode(lz4Encode(x), |x|) == Some(x))
      && (forall x: bytes {:trigger lz4Encode(x)} :: x != [] ==> lz4Encode(x) != [])
      && (forall d: bytes, n: nat :: lz4Decode(d, n).Some? ==> |lz4Decode(d, n).value| <= n)
      && (forall i: nat :: nonce(i).Some? ==> |nonce(i).value| == 24)
      && (forall k: bytes, n: bytes, m: bytes, a: bytes {:trigger cipherSeal(k, n, m, a)} ::
            cipherSeal(k, n, m, a).Some? ==>
              && |cipherSeal(k, n, m, a).value| == |m| + 16
              && cipherOpen(k, n, cipherSeal(k, n, m, a).value, a) == Some(m))
      && (forall k: bytes, n: bytes, c: bytes, a: bytes :: cipherOpen(k, n, c, a).Some? ==>
              |c| == |cipherOpen(k, n, c, a).value| + 16)
    }
  }

  /** The contracts above do not contradict each other. */
  lemma ContractsAreConsistent() returns (env: Env)
    ensures env.Lawful()
  {
    var zeros := seq(16, _ => 0 as byte);
    env := Env(
      (x: bytes) => |x| % 7,
      (x: bytes) => x,
      (d: bytes, n: nat) => if |d| <= n then Some(d) else None,
      (k: bytes) => k,
      (i: nat) => Some(seq(24, _ => 0 as byte)),
      (k: bytes, n: bytes, m: bytes, a: bytes) => Some(m + zeros),
      (k: bytes, n: bytes, c: bytes, a: bytes) => if |c| < 16 then None else Some(c[..|c| - 16]),
      128, 41);
    forall m: bytes {:trigger m + zeros}
      ensures (m + zeros)[..|m + zeros| - 16] == m
    {
    }
  }
}
