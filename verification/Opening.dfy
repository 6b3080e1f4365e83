/** Opening an archive: limits, the header and TOC pipeline, and what success guarantees. */
module Opening {
  import opened Prelude
  import opened Wire
  import opened Layout
  import opened Source
  import opened Index
  import opened Cipher
  import opened Toc
  import opened Archive
  import H = Header

  datatype ArchiveLimits = ArchiveLimits(
    maxTocStoredBytes: u64,
    maxTocRawBytes: u64,
    maxEntries: u32,
    maxChunks: u32,
    maxChunksPerOperation: u32,
    maxPathBytes: u64,
    maxTotalPathBytes: u64,
    maxTotalDecompressedBytes: u64,
    maxSingleAssetBytes: u64,
    maxMetadataBytes: u64)

  const GIB: nat := 1024 * 1024 * 1024

  /** The hard limits, which are also the tooling defaults. */
  const HARD_LIMITS: ArchiveLimits :=
    ArchiveLimits(MAX_TOC_STORED_SIZE, MAX_TOC_RAW_SIZE, 1_000_000, 8_000_000, 8_000_000,
                  MAX_PATH_LEN, 64 * 1024 * 1024, 8 * GIB, 8 * GIB, 2 * GIB)

  /** Callers can lower the hard limits, never raise them. */
  function Clamped(l: ArchiveLimits): ArchiveLimits {
    ArchiveLimits(
      Min(l.maxTocStoredBytes, HARD_LIMITS.maxTocStoredBytes),
      Min(l.maxTocRawBytes, HARD_LIMITS.maxTocRawBytes),
      Min(l.maxEntries, HARD_LIMITS.maxEntries),
      Min(l.maxChunks, HARD_LIMITS.maxChunks),
      Min(l.maxChunksPerOperation, HARD_LIMITS.maxChunksPerOperation),
      Min(l.maxPathBytes, HARD_LIMITS.maxPathBytes),
      Min(l.maxTotalPathBytes, HARD_LIMITS.maxTotalPathBytes),
      Min(l.maxTotalDecompressedBytes, HARD_LIMITS.maxTotalDecompressedBytes),
      Min(l.maxSingleAssetBytes, HARD_LIMITS.maxSingleAssetBytes),
      Min(l.maxMetadataBytes, HARD_LIMITS.maxMetadataBytes))
  }

  /** How many chunks one operation may decode. */
  function OperationLimit(l: ArchiveLimits): u32 {
    if l.maxChunksPerOperation <= 8_000_000 then l.maxChunksPerOperation else 8_000_000
  }

  predicate IsLower(x: nat, a: nat, b: nat) {
    x <= a && x <= b && (x == a || x == b)
  }

  /** Each limit that applies is the lower one of the caller's and the hard one. */
  lemma ClampedIsLower(l: ArchiveLimits)
    ensures Clamped(l).maxChunksPerOperation == OperationLimit(l)
    ensures IsLower(Clamped(l).maxTocStoredBytes, l.maxTocStoredBytes, MAX_TOC_STORED_SIZE)
    ensures IsLower(Clamped(l).maxTocRawBytes, l.maxTocRawBytes, MAX_TOC_RAW_SIZE)
    ensures IsLower(Clamped(l).maxEntries, l.maxEntries, 1_000_000)
    ensures IsLower(Clamped(l).maxChunks, l.maxChunks, 8_000_000)
    ensures IsLower(Clamped(l).maxPathBytes, l.maxPathBytes, MAX_PATH_LEN)
    ensures IsLower(Clamped(l).maxTotalPathBytes, l.maxTotalPathBytes, 0x400_0000)
    ensures IsLower(Clamped(l).maxTotalDecompressedBytes, l.maxTotalDecompressedBytes, 8 * GIB)
    ensures IsLower(Clamped(l).maxSingleAssetBytes, l.maxSingleAssetBytes, 8 * GIB)
    ensures IsLower(Clamped(l).maxMetadataBytes, l.maxMetadataBytes, 2 * GIB)
  {
  }

  /** The least TOC size that the declared record counts can have. */
  function MinimumTocSize(h: H.Header): nat {
    36 * h.entryCount + 36 * h.chunkCount + 4 + if H.PathsStripped(h) then 0 else h.entryCount
  }

  function EstimatedMetadata(env: Env, h: H.Header): nat {
    h.tocSize + h.tocRawSize + h.tocRawSize
      + h.entryCount * env.entryFootprint + h.chunkCount * env.chunkFootprint
  }

  function ValidateLimits(env: Env, h: H.Header, l: ArchiveLimits): Result<Unit> {
    if h.tocSize > l.maxTocStoredBytes then Err(TooLarge(StoredTocLimit))
    else if h.tocRawSize > l.maxTocRawBytes then Err(TooLarge(RawTocLimit))
    else if h.entryCount > l.maxEntries then Err(TooManyEntries)
    else if h.chunkCount > l.maxChunks then Err(TooManyChunks)
    else if !H.PathsStripped(h) && h.entryCount > l.maxTotalPathBytes then Err(MetadataLimitExceeded)
    else if MinimumTocSize(h) > h.tocRawSize then Err(Corrupt(TocCountsExceedRaw))
    else if EstimatedMetadata(env, h) >= POW64 then Err(MetadataLimitExceeded)
    else if EstimatedMetadata(env, h) > l.maxMetadataBytes then Err(MetadataLimitExceeded)
    else Ok(Unit)
  }

  function TocRulesOf(h: H.Header, l: ArchiveLimits): TocRules {
    TocRules(H.PathsStripped(h), l.maxPathBytes, l.maxTotalPathBytes, l.maxSingleAssetBytes)
  }

  function LayoutRulesOf(h: H.Header, l: ArchiveLimits): Rules {
    Rules(h.tocOffset, h.chunkSize, h.alignment, H.ProtectionOf(h).Aead?, l.maxTotalDecompressedBytes)
  }

  function CheckTocRange(h: H.Header, fileLen: nat): Result<Unit>
    requires h.alignment > 0
  {
    if h.tocOffset + h.tocSize >= POW64 then Err(Corrupt(TocRangeOverflow))
    else if !(h.tocOffset >= HEADER_SIZE && h.tocOffset + h.tocSize <= fileLen) then Err(Corrupt(TocOutside))
    else if h.tocOffset % h.alignment != 0 then Err(Corrupt(TocMisaligned))
    else Ok(Unit)
  }

  /** Undoes the protection of the stored TOC. */
  function Unprotected(env: Env, protection: Protection, key: bytes, stored: bytes): Result<bytes>
    requires key != []
  {
    match protection
    case Xor => Ok(XorKey(stored, key))
    case Aead => Decrypt(env, stored, env.deriveKey(key), TOC_AAD)
  }

  /** The serialized TOC an archive carries. */
  function PlainToc(env: Env, h: H.Header, key: bytes, stored: bytes): Result<bytes>
    requires key != []
  {
    var packed :- Unprotected(env, H.ProtectionOf(h), key, stored);
    var plain :- DecompressExact(env, packed, h.tocRawSize, TocDecompressedSize);
    if env.xxh3(plain) != h.tocHash then Err(Corrupt(TocChecksum)) else Ok(plain)
  }

  function CheckedHeader(env: Env, source: bytes, limits: ArchiveLimits): (r: Result<H.Header>)
    ensures r.Ok? ==> H.ValidChunkSize(r.value.chunkSize) && ValidAlignment(r.value.alignment)
    ensures r.Ok? ==> r.value.tocRawSize <= MAX_TOC_RAW_SIZE
  {
    var bytes :- ReadSlice(source, 0, HEADER_SIZE);
    var h :- H.ReadHeader(bytes);
    var _ :- H.ValidateHeader(h);
    var _ :- ValidateLimits(env, h, Clamped(limits));
    Ok(h)
  }

  /** The tables of an archive, up to but not including the checks of layout and index. */
  datatype Tables = Tables(header: H.Header, entries: seq<TocEntry>, chunks: seq<Chunk>)

  function OpenTables(env: Env, source: bytes, key: bytes, limits: ArchiveLimits): (r: Result<Tables>)
    ensures r.Ok? ==> key != [] && CheckedHeader(env, source, limits) == Ok(r.value.header)
  {
    if key == [] then Err(EmptyXorKey)
    else
      var h :- CheckedHeader(env, source, limits);
      var _ :- CheckTocRange(h, |source|);
      var stored :- ReadSlice(source, h.tocOffset, h.tocSize);
      var plain :- PlainToc(env, h, key, stored);
      var t :- DecodedToc(env, plain, h.entryCount, h.chunkCount, TocRulesOf(h, Clamped(limits)));
      Ok(Tables(h, t.0, t.1))
  }

  /** What opening accepts. */
  ghost predicate Accepts(env: Env, source: bytes, key: bytes, limits: ArchiveLimits) {
    && OpenTables(env, source, key, limits).Ok?
    && var t := OpenTables(env, source, key, limits).value;
    && LegalTables(t.entries, t.chunks, LayoutRulesOf(t.header, Clamped(limits)))
    && LegalBuckets(t.entries, H.PathsStripped(t.header))
  }

  /** The archive that opening returns: determined but for the order of equal hashes. */
  ghost predicate OpensAs(env: Env, source: bytes, key: bytes, limits: ArchiveLimits, a: Archive) {
    && Accepts(env, source, key, limits)
    && var t := OpenTables(env, source, key, limits).value;
    && IsIndex(a.index, t.entries)
    && a == Archive(source, t.entries, t.chunks, a.index, t.header.chunkSize, t.header.alignment,
                    H.PathsStripped(t.header), AeadKeyOf(env, H.ProtectionOf(t.header), key),
                    Clamped(limits).maxChunksPerOperation)
  }

  method ReadToc(env: Env, source: bytes, h: H.Header, key: bytes) returns (r: Result<bytes>)
    requires key != [] && h.tocOffset + h.tocSize < POW64
    ensures r == match ReadSlice(source, h.tocOffset, h.tocSize)
                 case Err(e) => Err(e)
                 case Ok(stored) => PlainToc(env, h, key, stored)
  {
    var buffer := new byte[h.tocSize](_ => 0);
    ghost var before := buffer[..];
    var _ :- ReadSliceExact(source, h.tocOffset, buffer, 0, buffer.Length);
    ghost var stored := ReadSlice(source, h.tocOffset, h.tocSize).value;
    PatchedOutside(before, 0, stored, buffer.Length);
    assert buffer[..] == buffer[0..buffer.Length] == stored;
    var packed: bytes;
    match H.ProtectionOf(h) {
      case Aead => packed :- Decrypt(env, buffer[..], env.deriveKey(key), TOC_AAD);
      case Xor =>
        XorInPlace(buffer, key);
        packed := buffer[..];
    }
    var plain :- DecompressExact(env, packed, h.tocRawSize, TocDecompressedSize);
    if env.xxh3(plain) != h.tocHash {
      return Err(Corrupt(TocChecksum));
    }
    r := Ok(plain);
  }

  /** Opening reports the first fault of the pipeline, then accepts exactly the legal tables
      with legal buckets; what it returns satisfies everything the reads rely on. */
  method OpenWithLimits(env: Env, source: bytes, key: bytes, limits: ArchiveLimits)
    returns (r: Result<Archive>)
    requires |source| < POW64
    ensures r.Ok? <==> Accepts(env, source, key, limits)
    ensures r.Ok? ==> OpensAs(env, source, key, limits, r.value) && WellFormed(env, r.value)
    ensures OpenTables(env, source, key, limits).Err? ==>
              r == Err(OpenTables(env, source, key, limits).error)
  {
    hide LegalTables, LegalBuckets, PlainToc, H.ReadHeader, H.ValidateHeader, ValidateLimits, Clamped,
         CheckTocRange, DecodedToc, WellFormed;
    if key == [] {
      return Err(EmptyXorKey);
    }
    var l := Clamped(limits);
    var headerBytes :- ReadSlice(source, 0, HEADER_SIZE);
    var h :- H.ReadHeader(headerBytes);
    var _ :- H.ValidateHeader(h);
    var _ :- ValidateLimits(env, h, l);
    assert CheckedHeader(env, source, limits) == Ok(h);
    var aeadKey := AeadKeyOf(env, H.ProtectionOf(h), key);
    var _ :- CheckTocRange(h, |source|);
    RangeChecked(h, |source|);
    var plain :- ReadToc(env, source, h, key);
    PlainSize(env, h, key, ReadSlice(source, h.tocOffset, h.tocSize).value);
    var stripped := H.PathsStripped(h);
    var t :- DecodeToc(env, plain, h.entryCount, h.chunkCount, TocRulesOf(h, l));
    var (entries, chunks) := t;
    assert OpenTables(env, source, key, limits) == Ok(Tables(h, entries, chunks));
    var _ :- ValidateLayout(entries, chunks, LayoutRulesOf(h, l));
    var index := SortUnstableByKey(Pairs(entries));
    var _ :- ValidateIndex(entries, index, stripped);
    r := Ok(Archive(source, entries, chunks, index, h.chunkSize, h.alignment, stripped, aeadKey,
                    l.maxChunksPerOperation));
    OpenedIsWellFormed(env, source, key, limits, r.value);
  }

  lemma RangeChecked(h: H.Header, fileLen: nat)
    requires h.alignment > 0 && CheckTocRange(h, fileLen).Ok?
    ensures h.tocOffset + h.tocSize < POW64
  {
  }

  lemma PlainSize(env: Env, h: H.Header, key: bytes, stored: bytes)
    requires key != []
    ensures PlainToc(env, h, key, stored).Ok? ==> |PlainToc(env, h, key, stored).value| == h.tocRawSize
  {
  }

  /** Forgetting where the TOC is and how large archives may be keeps tables legal. */
  lemma LegalWithoutLimits(entries: seq<TocEntry>, chunks: seq<Chunk>, p: Rules)
    requires p.alignment > 0 && LegalTables(entries, chunks, p)
    ensures LegalTables(entries, chunks, p.(tocOffset := NO_LIMIT, maxTotal := NO_LIMIT))
  {
    var q := p.(tocOffset := NO_LIMIT, maxTotal := NO_LIMIT);
    forall i | 0 <= i < |chunks|
      ensures LegalChunk(chunks[i], q)
    {
      assert LegalChunk(chunks[i], p);
    }
  }

  lemma DebugHashesTied(env: Env, rules: TocRules, entries: seq<TocEntry>, stored: seq<bytes>)
    requires TableAccepted(env, rules, entries, stored, 0) && !rules.stripped
    ensures HashesTied(env, entries)
  {
    forall i | 0 <= i < |entries|
      ensures entries[i].pathHash == env.xxh3(entries[i].path)
    {
      assert EntryAccepted(env, rules, entries[i], stored[i]);
    }
  }

  /** Opening establishes the invariant of archives. */
  lemma OpenedIsWellFormed(env: Env, source: bytes, key: bytes, limits: ArchiveLimits, a: Archive)
    requires OpensAs(env, source, key, limits, a)
    ensures WellFormed(env, a)
  {
    hide LegalTables, LegalBuckets, PlainToc, DecodedToc, CheckTocRange, ReadSlice, TableAccepted,
         EntriesBytes, ChunksBytes, Clamped, CheckedHeader;
    var t := OpenTables(env, source, key, limits).value;
    var h, l := t.header, Clamped(limits);
    LegalWithoutLimits(t.entries, t.chunks, LayoutRulesOf(h, l));
    var stored := ReadSlice(source, h.tocOffset, h.tocSize).value;
    var plain := PlainToc(env, h, key, stored).value;
    var paths := DecodedInputIsImage(env, TocRulesOf(h, l), plain, h.entryCount, h.chunkCount);
    if !H.PathsStripped(h) {
      DebugHashesTied(env, TocRulesOf(h, l), t.entries, paths);
    }
  }
}
