/** Which files an archive reader opens, described from the outside: by the bytes of the file,
    not by the steps of opening. */
module Acceptance {
  import opened Prelude
  import opened Bits
  import opened Wire
  import opened Layout
  import opened Source
  import opened Index
  import opened Cipher
  import opened Toc
  import opened Archive
  import opened Opening
  import H = Header

  /** What a file is made of. */
  datatype Parts = Parts(
    header: H.Header, packed: bytes, plain: bytes,
    entries: seq<TocEntry>, paths: seq<bytes>, chunks: seq<Chunk>)

  predicate Stripped(h: H.Header) {
    h.flags in {31, 61}
  }

  predicate Encrypted(h: H.Header) {
    h.flags in {45, 61}
  }

  ghost predicate GoodHeader(h: H.Header) {
    && h.version == 1 && h.headerSize == 60 && h.flags in {15, 31, 45, 61}
    && 0 < h.chunkSize <= 0x400_0000
    && IsSmallPower(h.alignment)
  }

  /** The TOC lies behind the header, aligned, inside the file. */
  predicate TocInside(h: H.Header, size: nat) {
    && 60 <= h.tocOffset && h.tocOffset + h.tocSize <= size
    && h.alignment > 0 && h.tocOffset % h.alignment == 0
  }

  /** The stored TOC opens under the key and unpacks to the bytes the header describes. */
  ghost predicate TocOpens(env: Env, key: bytes, p: Parts, stored: bytes) {
    && key != []
    && (if Encrypted(p.header)
        then |stored| >= 40 && env.cipherOpen(env.deriveKey(key), stored[..24], stored[24..], TOC_AAD) == Some(p.packed)
        else p.packed == XorKey(stored, key))
    && env.lz4Decode(p.packed, p.header.tocRawSize) == Some(p.plain)
    && |p.plain| == p.header.tocRawSize
    && env.xxh3(p.plain) == p.header.tocHash
  }

  /** The unpacked TOC lists the entries, under some spelling of their paths, and the chunks. */
  ghost predicate TocLists(env: Env, p: Parts) {
    && |p.paths| == |p.entries| == p.header.entryCount && |p.chunks| == p.header.chunkCount
    && p.plain == TocImage(p.entries, p.paths, p.chunks)
    && forall i :: 0 <= i < |p.entries| ==>
         PathStored(env, Stripped(p.header), p.entries[i].path, p.entries[i].pathHash, p.paths[i])
  }

  /** Names are unique, and no hash has too many of them. */
  ghost predicate NamesApart(p: Parts) {
    && (forall i, j :: 0 <= i < j < |p.entries| ==>
          if Stripped(p.header) then p.entries[i].pathHash != p.entries[j].pathHash
          else p.entries[i].path != p.entries[j].path)
    && forall hash: u64 :: |Bucket(p.entries, hash)| <= 64
  }

  function PartRules(h: H.Header): Rules {
    Rules(h.tocOffset, h.chunkSize, h.alignment, Encrypted(h), NO_LIMIT)
  }

  ghost predicate Describes(env: Env, source: bytes, key: bytes, p: Parts) {
    && |source| >= 60 && source[..60] == H.HeaderBytes(p.header)
    && GoodHeader(p.header) && TocInside(p.header, |source|)
    && TocOpens(env, key, p, source[p.header.tocOffset..p.header.tocOffset + p.header.tocSize])
    && TocLists(env, p)
    && LegalTables(p.entries, p.chunks, PartRules(p.header))
    && NamesApart(p)
  }

  /** Every quantity that is limited, in terms of the file. */
  ghost predicate Obeys(env: Env, p: Parts, l: ArchiveLimits) {
    && p.header.tocSize <= l.maxTocStoredBytes
    && |p.plain| <= l.maxTocRawBytes
    && |p.entries| <= l.maxEntries
    && |p.chunks| <= l.maxChunks
    && p.header.tocSize + 2 * |p.plain| + |p.entries| * env.entryFootprint + |p.chunks| * env.chunkFootprint
       <= l.maxMetadataBytes
    && Sum(Originals(p.chunks), 0, |p.chunks|) <= l.maxTotalDecompressedBytes
    && (forall i :: 0 <= i < |p.entries| ==> p.entries[i].originalSize <= l.maxSingleAssetBytes)
    && (forall i :: 0 <= i < |p.paths| ==> |p.paths[i]| <= l.maxPathBytes)
    && PathBytesTotal(p.paths) <= l.maxTotalPathBytes
  }

  // ---- limits ----------------------------------------------------------------------

  lemma ObeysBoth(env: Env, p: Parts, limits: ArchiveLimits)
    ensures Obeys(env, p, Clamped(limits)) <==> Obeys(env, p, limits) && Obeys(env, p, HARD_LIMITS)
  {
    hide Sum, Originals, PathBytesTotal, Clamped;
    ClampedIsLower(limits);
  }

  /** The checks of the header come to the limits on its fields; the two on least sizes are
      implied by the TOC itself. */
  lemma HeaderLimits(env: Env, p: Parts, l: ArchiveLimits)
    requires Obeys(env, p, l) && Obeys(env, p, HARD_LIMITS) && TocLists(env, p) && |p.plain| == p.header.tocRawSize
    requires H.PathsStripped(p.header) == Stripped(p.header)
    ensures ValidateLimits(env, p.header, l) == Ok(Unit)
  {
    hide H.PathsStripped, Sum, Originals, TocImage, PathStored, PathBytesTotal;
    ImageLength(p.entries, p.paths, p.chunks);
    if !Stripped(p.header) {
      forall i | 0 <= i < |p.paths|
        ensures p.paths[i] != []
      {
        assert PathStored(env, false, p.entries[i].path, p.entries[i].pathHash, p.paths[i]);
        StoredInDebug(env, p.entries[i].path, p.entries[i].pathHash, p.paths[i]);
      }
      NonEmptyTotal(p.paths);
    }
  }

  lemma StoredInDebug(env: Env, path: bytes, hash: u64, stored: bytes)
    requires PathStored(env, false, path, hash, stored)
    ensures stored != [] && env.xxh3(path) == hash
  {
  }

  lemma {:induction false} NonEmptyTotal(stored: seq<bytes>)
    requires forall i :: 0 <= i < |stored| ==> stored[i] != []
    ensures PathBytesTotal(stored) >= |stored|
  {
    if stored != [] {
      NonEmptyTotal(stored[1..]);
    }
  }

  // ---- headers ---------------------------------------------------------------------

  lemma HeaderChecks(h: H.Header)
    ensures H.ValidateHeader(h).Ok? <==>
            GoodHeader(h) && h.tocSize <= MAX_TOC_STORED_SIZE && h.tocRawSize <= MAX_TOC_RAW_SIZE
    ensures GoodHeader(h) ==>
              && H.PathsStripped(h) == Stripped(h)
              && H.ProtectionOf(h) == (if Encrypted(h) then Aead else Xor)
  {
    hide H.ValidFlags, BitAnd, IsSmallPower, ValidAlignment;
    H.ValidFlagsExactly(h.flags);
    ValidAlignments(h.alignment);
  }

  lemma HeaderInFile(env: Env, source: bytes, limits: ArchiveLimits, h: H.Header)
    ensures CheckedHeader(env, source, limits) == Ok(h) <==>
            && |source| >= 60 && source[..60] == H.HeaderBytes(h)
            && H.ValidateHeader(h).Ok? && ValidateLimits(env, h, Clamped(limits)).Ok?
  {
    hide H.HeaderBytes, H.ReadHeader, H.ValidateHeader, ValidateLimits, Clamped;
    if |source| >= 60 {
      assert source[0..HEADER_SIZE] == source[..60];
      H.HeaderRoundTrip(h);
      if H.ReadHeader(source[..60]).Ok? {
        H.HeaderIsCanonical(source[..60]);
      }
    }
  }

  // ---- the TOC ---------------------------------------------------------------------

  lemma UnpacksExactly(env: Env, key: bytes, p: Parts, stored: bytes)
    requires key != [] && GoodHeader(p.header)
    ensures TocOpens(env, key, p, stored) <==>
            && Unprotected(env, H.ProtectionOf(p.header), key, stored) == Ok(p.packed)
            && PlainToc(env, p.header, key, stored) == Ok(p.plain)
  {
    hide GoodHeader, H.ProtectionOf, XorKey;
    HeaderChecks(p.header);
  }

  lemma UnpackedParts(env: Env, h: H.Header, key: bytes, stored: bytes)
    requires key != [] && PlainToc(env, h, key, stored).Ok?
    ensures Unprotected(env, H.ProtectionOf(h), key, stored).Ok?
    ensures |PlainToc(env, h, key, stored).value| == h.tocRawSize
  {
    hide H.ProtectionOf;
  }

  lemma TocRangeExactly(h: H.Header, size: nat)
    requires h.alignment > 0 && size < POW64
    ensures CheckTocRange(h, size).Ok? <==> TocInside(h, size)
  {
  }

  // ---- tables ----------------------------------------------------------------------

  /** The decoder's demands on a table: names stored properly, and the limits on records. */
  lemma TableExactly(env: Env, p: Parts, l: ArchiveLimits)
    requires GoodHeader(p.header) && |p.paths| == |p.entries| && l.maxPathBytes <= MAX_PATH_LEN
    ensures TableAccepted(env, TocRulesOf(p.header, l), p.entries, p.paths, 0) <==>
            && (forall i :: 0 <= i < |p.entries| ==>
                  && PathStored(env, Stripped(p.header), p.entries[i].path, p.entries[i].pathHash, p.paths[i])
                  && p.entries[i].originalSize <= l.maxSingleAssetBytes
                  && |p.paths[i]| <= l.maxPathBytes)
            && PathBytesTotal(p.paths) <= l.maxTotalPathBytes
  {
    hide GoodHeader, H.PathsStripped, PathStored, PathBytesTotal;
    HeaderChecks(p.header);
    var rules := TocRulesOf(p.header, l);
    if TableAccepted(env, rules, p.entries, p.paths, 0) {
      forall i | 0 <= i < |p.entries|
        ensures PathStored(env, Stripped(p.header), p.entries[i].path, p.entries[i].pathHash, p.paths[i])
        ensures p.entries[i].originalSize <= l.maxSingleAssetBytes && |p.paths[i]| <= l.maxPathBytes
      {
        assert EntryAccepted(env, rules, p.entries[i], p.paths[i]);
      }
    }
  }

  lemma LayoutExactly(p: Parts, l: ArchiveLimits)
    requires GoodHeader(p.header) && p.header.alignment > 0
    ensures LegalTables(p.entries, p.chunks, LayoutRulesOf(p.header, l)) <==>
            && LegalTables(p.entries, p.chunks, PartRules(p.header))
            && Sum(Originals(p.chunks), 0, |p.chunks|) <= l.maxTotalDecompressedBytes
  {
    hide GoodHeader, H.ProtectionOf, Sum, Originals, LegalEntry;
    HeaderChecks(p.header);
    ChunksUnderTotal(p.chunks, LayoutRulesOf(p.header, l), NO_LIMIT);
  }

  lemma ChunksUnderTotal(chunks: seq<Chunk>, p: Rules, total: u64)
    requires p.alignment > 0 && p.maxTotal <= total
    ensures LegalChunks(chunks, p) <==>
            LegalChunks(chunks, p.(maxTotal := total)) && Sum(Originals(chunks), 0, |chunks|) <= p.maxTotal
  {
    hide Sum, Originals;
    assert forall c: Chunk :: LegalChunk(c, p) <==> LegalChunk(c, p.(maxTotal := total));
  }

  lemma BucketsExactly(env: Env, p: Parts)
    requires TocLists(env, p)
    ensures LegalBuckets(p.entries, Stripped(p.header)) <==> NamesApart(p)
  {
    hide TocImage, Bucket;
    var n := |p.entries|;
    if !Stripped(p.header) {
      forall i | 0 <= i < n
        ensures p.entries[i].pathHash == env.xxh3(p.entries[i].path)
      {
        assert PathStored(env, false, p.entries[i].path, p.entries[i].pathHash, p.paths[i]);
        StoredInDebug(env, p.entries[i].path, p.entries[i].pathHash, p.paths[i]);
      }
    }
  }

  // ---- both directions -------------------------------------------------------------

  /** Whatever opening accepts is described by some parts, within both sets of limits. */
  lemma AcceptedIsDescribed(env: Env, source: bytes, key: bytes, limits: ArchiveLimits) returns (p: Parts)
    requires Accepts(env, source, key, limits) && |source| < POW64
    ensures Describes(env, source, key, p) && Obeys(env, p, limits) && Obeys(env, p, HARD_LIMITS)
    ensures OpenTables(env, source, key, limits) == Ok(Tables(p.header, p.entries, p.chunks))
  {
    hide CheckedHeader, PlainToc, Unprotected, DecodedToc, LegalTables, LegalBuckets, TableAccepted, TocImage,
         Clamped, CheckTocRange, GoodHeader, TocInside, TocOpens, NamesApart, H.ValidateHeader, H.HeaderBytes,
         ValidateLimits, H.ProtectionOf, H.PathsStripped, TocRulesOf, LayoutRulesOf, Obeys, TocLists;
    var l, t := Clamped(limits), OpenTables(env, source, key, limits).value;
    var h := t.header;
    HeaderInFile(env, source, limits, h);
    HeaderChecks(h);
    TocRangeExactly(h, |source|);
    var stored := ReadSlice(source, h.tocOffset, h.tocSize).value;
    var plain := PlainToc(env, h, key, stored).value;
    UnpackedParts(env, h, key, stored);
    var packed := Unprotected(env, H.ProtectionOf(h), key, stored).value;
    var paths := DecodedInputIsImage(env, TocRulesOf(h, l), plain, h.entryCount, h.chunkCount);
    TableLength(env, TocRulesOf(h, l), t.entries, paths);
    p := Parts(h, packed, plain, t.entries, paths, t.chunks);
    UnpacksExactly(env, key, p, stored);
    ClampedIsLower(limits);
    PartsListed(env, p, l);
    BucketsExactly(env, p);
    ObeysBoth(env, p, limits);
  }

  /** Tables that pass the decoder and the layout check list the parts within the limits. */
  lemma PartsListed(env: Env, p: Parts, l: ArchiveLimits)
    requires GoodHeader(p.header) && p.header.alignment > 0 && l.maxPathBytes <= MAX_PATH_LEN
    requires |p.paths| == |p.entries| == p.header.entryCount && |p.chunks| == p.header.chunkCount
    requires TableAccepted(env, TocRulesOf(p.header, l), p.entries, p.paths, 0)
    requires p.plain == TocImage(p.entries, p.paths, p.chunks) && |p.plain| == p.header.tocRawSize
    requires LegalTables(p.entries, p.chunks, LayoutRulesOf(p.header, l))
    requires ValidateLimits(env, p.header, l).Ok?
    ensures TocLists(env, p) && Obeys(env, p, l) && LegalTables(p.entries, p.chunks, PartRules(p.header))
  {
    hide LegalTables, TableAccepted, TocImage, GoodHeader, ValidateLimits, Sum, Originals, PathStored, PathBytesTotal,
         TocRulesOf, LayoutRulesOf;
    LimitsOnHeader(env, p.header, l);
    TableExactly(env, p, l);
    LayoutExactly(p, l);
  }

  lemma TablesPass(env: Env, p: Parts, l: ArchiveLimits)
    requires GoodHeader(p.header) && p.header.alignment > 0 && l.maxPathBytes <= MAX_PATH_LEN
    requires TocLists(env, p) && Obeys(env, p, l) && LegalTables(p.entries, p.chunks, PartRules(p.header))
    ensures TableAccepted(env, TocRulesOf(p.header, l), p.entries, p.paths, 0)
    ensures LegalTables(p.entries, p.chunks, LayoutRulesOf(p.header, l))
  {
    hide LegalTables, TableAccepted, TocImage, GoodHeader, Sum, Originals, PathStored, PathBytesTotal,
         TocRulesOf, LayoutRulesOf;
    TableExactly(env, p, l);
    LayoutExactly(p, l);
  }

  lemma LimitsOnHeader(env: Env, h: H.Header, l: ArchiveLimits)
    requires ValidateLimits(env, h, l).Ok?
    ensures h.tocSize <= l.maxTocStoredBytes && h.tocRawSize <= l.maxTocRawBytes
    ensures h.entryCount <= l.maxEntries && h.chunkCount <= l.maxChunks
    ensures h.tocSize + 2 * h.tocRawSize + h.entryCount * env.entryFootprint + h.chunkCount * env.chunkFootprint
            <= l.maxMetadataBytes
  {
  }

  /** Whatever some parts describe within both sets of limits is accepted. */
  lemma DescribedIsAccepted(env: Env, source: bytes, key: bytes, limits: ArchiveLimits, p: Parts)
    requires Describes(env, source, key, p) && Obeys(env, p, limits) && Obeys(env, p, HARD_LIMITS)
    requires |source| < POW64
    ensures Accepts(env, source, key, limits)
    ensures OpenTables(env, source, key, limits) == Ok(Tables(p.header, p.entries, p.chunks))
  {
    hide CheckedHeader, PlainToc, Unprotected, DecodedToc, LegalTables, LegalBuckets, TableAccepted, TocImage,
         Clamped, CheckTocRange, GoodHeader, TocOpens, NamesApart, H.ValidateHeader, H.HeaderBytes,
         ValidateLimits, H.ProtectionOf, H.PathsStripped, TocRulesOf, LayoutRulesOf, Obeys, TocLists;
    var l, h := Clamped(limits), p.header;
    KeyGiven(env, key, p, source[h.tocOffset..h.tocOffset + h.tocSize]);
    SizesWithin(env, p);
    HeaderChecks(h);
    ObeysBoth(env, p, limits);
    HeaderLimits(env, p, l);
    HeaderInFile(env, source, limits, h);
    TocRangeExactly(h, |source|);
    UnpacksExactly(env, key, p, source[h.tocOffset..h.tocOffset + h.tocSize]);
    ClampedIsLower(limits);
    TablesPass(env, p, l);
    PartCounts(env, p);
    DecodeOfImage(env, TocRulesOf(h, l), p.entries, p.paths, p.chunks);
    BucketsExactly(env, p);
  }

  lemma SizesWithin(env: Env, p: Parts)
    requires Obeys(env, p, HARD_LIMITS)
    ensures p.header.tocSize <= MAX_TOC_STORED_SIZE && |p.plain| <= MAX_TOC_RAW_SIZE
  {
  }

  lemma PartCounts(env: Env, p: Parts)
    requires TocLists(env, p)
    ensures |p.paths| == |p.entries| == p.header.entryCount && |p.chunks| == p.header.chunkCount
    ensures p.plain == TocImage(p.entries, p.paths, p.chunks)
  {
  }

  lemma KeyGiven(env: Env, key: bytes, p: Parts, stored: bytes)
    requires TocOpens(env, key, p, stored)
    ensures key != [] && |p.plain| == p.header.tocRawSize
  {
  }

  /** Opening accepts exactly the files that are put together this way within the caller's
      limits and the hard limits. */
  lemma AcceptedExactly(env: Env, source: bytes, key: bytes, limits: ArchiveLimits)
    requires |source| < POW64
    ensures Accepts(env, source, key, limits) <==>
            exists p :: Describes(env, source, key, p) && Obeys(env, p, limits) && Obeys(env, p, HARD_LIMITS)
  {
    hide Accepts, Describes, Obeys;
    if Accepts(env, source, key, limits) {
      var p := AcceptedIsDescribed(env, source, key, limits);
    }
    if p :| Describes(env, source, key, p) && Obeys(env, p, limits) && Obeys(env, p, HARD_LIMITS) {
      DescribedIsAccepted(env, source, key, limits, p);
    }
  }

  /** The opened archive holds those parts, and its operation limit is the lower of the two. */
  lemma OpenedHoldsParts(env: Env, source: bytes, key: bytes, limits: ArchiveLimits, a: Archive)
    returns (p: Parts)
    requires OpensAs(env, source, key, limits, a) && |source| < POW64
    ensures Describes(env, source, key, p) && Obeys(env, p, limits) && Obeys(env, p, HARD_LIMITS)
    ensures a.source == source && a.entries == p.entries && a.chunks == p.chunks
    ensures a.chunkSize == p.header.chunkSize && a.alignment == p.header.alignment
    ensures a.pathsStripped == Stripped(p.header)
    ensures a.aeadKey == if Encrypted(p.header) then Some(env.deriveKey(key)) else None
    ensures IsLower(a.maxChunksPerOperation, limits.maxChunksPerOperation, 8_000_000)
  {
    hide Accepts, Obeys, OpenTables, Clamped, H.PathsStripped, H.ProtectionOf, GoodHeader, TocOpens, TocLists,
         LegalTables, NamesApart, IsIndex, H.HeaderBytes;
    p := AcceptedIsDescribed(env, source, key, limits);
    HeaderChecks(p.header);
    ClampedIsLower(limits);
  }
}
