/** What a packer leaves behind when it fails: output that no reader takes for an archive, up
    to the moment when the header is complete. */
module Unfinished {
  import opened Prelude
  import opened Wire
  import opened Layout
  import opened Source
  import opened Cipher
  import opened Toc
  import opened Opening
  import opened Packing
  import opened PackInvariant
  import opened RoundTrip
  import Archive
  import Bits
  import Packer
  import H = Header

  /** Whatever made a packer fail: what it wrote so far is rejected. */
  lemma FailedPackerIsRejected(env: Env, packer: Packer.Packer, key: bytes, limits: ArchiveLimits)
    requires packer.Valid(env) && key != []
    ensures OpenTables(env, packer.writer.disk, key, limits) == Err(BadMagic)
  {
    UnfinishedIsRejected(env, packer.writer.disk, key, limits);
  }

  // ---- a header cut off ------------------------------------------------------------

  /** The header up to the raw TOC size, which is followed by the TOC hash only. */
  function Front(h: H.Header): (b: bytes)
    ensures |b| == 44
  {
    H.HeaderBytes(h)[..44]
  }

  lemma HeaderFront(h: H.Header)
    ensures Front(h) == MAGIC + NumbersBytes(H.Numbers(h)[..9], H.Widths()[..9])
    ensures H.HeaderBytes(h) == Front(h) + LE(h.tocRawSize, 8) + LE(h.tocHash, 8)
  {
    hide LE, NumbersBytes;
    var v, w := H.Numbers(h), H.Widths();
    assert v == v[..9] + ([h.tocRawSize] + [h.tocHash]) && w == w[..9] + ([8] + [8]);
    Packer.NumbersConcat(v[..9], [h.tocRawSize] + [h.tocHash], w[..9], [8] + [8]);
    Packer.NumbersConcat([h.tocRawSize], [h.tocHash], [8], [8]);
    Packer.OneNumber(h.tocRawSize, 8);
    Packer.OneNumber(h.tocHash, 8);
    var front := MAGIC + NumbersBytes(v[..9], w[..9]);
    assert H.HeaderBytes(h) == front + LE(h.tocRawSize, 8) + LE(h.tocHash, 8);
    assert |front| == 44;
  }

  lemma SameFront(h: H.Header, raw: u64, hash: u64)
    ensures Front(h.(tocRawSize := raw, tocHash := hash)) == Front(h)
  {
    hide LE, NumbersBytes;
    var g := h.(tocRawSize := raw, tocHash := hash);
    HeaderFront(h);
    HeaderFront(g);
    assert H.Numbers(g)[..9] == H.Numbers(h)[..9];
  }

  lemma {:induction false} ZeroNumber(n: nat)
    ensures FromLE(Zeros(n)) == 0
  {
    if n > 0 {
      ZeroNumber(n - 1);
      assert Zeros(n)[1..] == Zeros(n - 1);
    }
  }

  /** Dropping high bytes never makes a number larger. */
  lemma {:induction false} CutNumber(b: bytes, k: nat)
    requires k <= |b|
    ensures FromLE(b[..k] + Zeros(|b| - k)) <= FromLE(b)
  {
    if k > 0 {
      CutNumber(b[1..], k - 1);
      var cut := b[..k] + Zeros(|b| - k);
      assert cut[1..] == b[1..][..k - 1] + Zeros(|b| - k);
    } else {
      assert b[..k] + Zeros(|b| - k) == Zeros(|b|);
      ZeroNumber(|b|);
    }
  }

  /** The decoder does not write past its buffer: it refuses blocks that hold more. */
  ghost predicate RefusesShortBuffers(env: Env) {
    forall x: bytes, n: nat :: n < |x| ==> env.lz4Decode(env.lz4Encode(x), n).None?
  }

  lemma PartHead(f: Finished, n: nat)
    requires n <= HEADER_SIZE && ZeroHeader(f.disk)
    ensures PartImage(f, n)[0..HEADER_SIZE] == H.HeaderBytes(f.header)[..n] + Zeros(HEADER_SIZE - n)
    ensures PartImage(f, n)[HEADER_SIZE..] == f.disk[HEADER_SIZE..]
  {
    hide H.HeaderBytes;
    assert f.disk[n..HEADER_SIZE] == f.disk[..HEADER_SIZE][n..];
    assert Zeros(HEADER_SIZE)[n..] == Zeros(HEADER_SIZE - n);
  }

  /** As long as the raw TOC size has not been reached it reads as zero, and no TOC is empty. */
  lemma ShortHeader(env: Env, f: Finished, n: nat, limits: ArchiveLimits)
    requires n <= 44 && ZeroHeader(f.disk)
    ensures CheckedHeader(env, PartImage(f, n), limits).Err?
  {
    hide H.HeaderBytes, H.ReadHeader, H.ValidateHeader, LE, FromLE, Front, H.PathsStripped, EstimatedMetadata,
         Clamped, PartImage;
    PartHead(f, n);
    var b := PartImage(f, n)[0..HEADER_SIZE];
    if H.ReadHeader(b).Ok? {
      var h := H.ReadHeader(b).value;
      H.HeaderIsCanonical(b);
      HeaderFront(h);
      ZeroPart(b, n, 44, 8);
      TailParts(b, Front(h), LE(h.tocRawSize, 8), LE(h.tocHash, 8));
      FieldWidths();
      FromLEOfLE(h.tocRawSize, 8);
      ZeroNumber(8);
    }
  }

  lemma ZeroPart(b: bytes, n: nat, from: nat, len: nat)
    requires n <= from && from + len <= |b| && b[n..] == Zeros(|b| - n)
    ensures b[from..from + len] == Zeros(len)
  {
    assert b[from..from + len] == b[n..][from - n..from - n + len];
  }

  lemma TailParts(b: bytes, x: bytes, y: bytes, z: bytes)
    requires b == x + y + z && |x| == 44 && |y| == 8 && |z| == 8
    ensures b[..44] == x && b[44..52] == y && b[52..60] == z
  {
  }

  /** From there on only that size, which can be too small, and the hash are incomplete. */
  lemma LongHeader(f: Finished, n: nat) returns (raw: u64, hash: u64)
    requires 44 <= n <= HEADER_SIZE && ZeroHeader(f.disk)
    ensures PartImage(f, n)[0..HEADER_SIZE] == H.HeaderBytes(f.header.(tocRawSize := raw, tocHash := hash))
    ensures raw <= f.header.tocRawSize && (n >= 52 ==> raw == f.header.tocRawSize)
  {
    hide H.HeaderBytes, LE, FromLE, Front, PartImage;
    PartHead(f, n);
    var whole, b := H.HeaderBytes(f.header), PartImage(f, n)[0..HEADER_SIZE];
    HeaderFront(f.header);
    TailParts(whole, Front(f.header), LE(f.header.tocRawSize, 8), LE(f.header.tocHash, 8));
    SizeInFront(whole, n, b, LE(f.header.tocRawSize, 8));
    raw, hash := HeaderFrom(f.header, b);
    SizeRead(f.header.tocRawSize, n, b[44..52]);
  }

  lemma SizeRead(size: u64, n: nat, b: bytes)
    requires 44 <= n && |b| == 8
    requires b == (if n < 52 then LE(size, 8)[..n - 44] + Zeros(52 - n) else LE(size, 8))
    ensures FromLE(b) <= size && (n >= 52 ==> FromLE(b) == size)
  {
    hide LE, FromLE;
    FieldWidths();
    FromLEOfLE(size, 8);
    if n < 52 {
      CutNumber(LE(size, 8), n - 44);
    }
  }

  /** 60 bytes that start like a header are that header but for its last two fields. */
  lemma HeaderFrom(h: H.Header, b: bytes) returns (raw: u64, hash: u64)
    requires |b| == HEADER_SIZE && b[..44] == Front(h)
    ensures raw == FromLE(b[44..52])
    ensures b == H.HeaderBytes(h.(tocRawSize := raw, tocHash := hash))
  {
    hide H.HeaderBytes, LE, FromLE, Front;
    FieldWidths();
    raw, hash := FromLE(b[44..52]), FromLE(b[52..60]);
    LEOfFromLE(b[44..52]);
    LEOfFromLE(b[52..60]);
    HeaderFront(h.(tocRawSize := raw, tocHash := hash));
    SameFront(h, raw, hash);
    assert b == b[..44] + b[44..52] + b[52..60];
  }

  lemma SizeInFront(whole: bytes, n: nat, b: bytes, size: bytes)
    requires 44 <= n <= |whole| == 60 && b == whole[..n] + Zeros(60 - n)
    requires whole[44..52] == size
    ensures b[..44] == whole[..44]
    ensures b[44..52] == if n < 52 then size[..n - 44] + Zeros(52 - n) else size
  {
    SliceBefore(whole[..n], Zeros(60 - n), 0, 44);
    PrefixSlice(whole, n, 0, 44);
    if n < 52 {
      SliceAcross(whole[..n], Zeros(60 - n), 44, 52);
      PrefixSlice(whole, n, 44, n);
      PrefixSlice(whole[44..], 8, 0, n - 44);
      assert whole[44..][..8] == size && whole[44..][..n - 44] == whole[44..n];
      assert Zeros(60 - n)[..52 - n] == Zeros(52 - n);
    } else {
      SliceBefore(whole[..n], Zeros(60 - n), 44, 52);
      PrefixSlice(whole, n, 44, 52);
    }
  }

  lemma SliceBefore(x: bytes, y: bytes, i: nat, j: nat)
    requires i <= j <= |x|
    ensures (x + y)[i..j] == x[i..j]
  {
  }

  lemma SliceAcross(x: bytes, y: bytes, i: nat, j: nat)
    requires i <= |x| <= j <= |x| + |y|
    ensures (x + y)[i..j] == x[i..|x|] + y[..j - |x|]
  {
  }

  lemma PrefixSlice(s: bytes, n: nat, i: nat, j: nat)
    requires i <= j <= n <= |s|
    ensures s[..n][i..j] == s[i..j]
  {
  }

  /** A header cut off after any number of bytes is refused, unless the missing bytes are zeros
      and the image is complete anyway. Only a cut through the raw TOC size takes more than the
      usual contracts: there the decoder has to refuse the buffer that is too small. */
  lemma CutHeaderIsRejected(env: Env, st: PackState, files: seq<InputFile>, key: bytes, f: Finished,
                            limits: ArchiveLimits, n: nat)
    requires env.Lawful() && PackInv(env, st, files) && FinishedAs(env, st, key, f)
    requires st.aeadKey == AeadKeyOf(env, st.options.protection, key)
    requires n <= HEADER_SIZE && (n <= 44 || n >= 52 || RefusesShortBuffers(env))
    ensures |f.disk| >= HEADER_SIZE
    ensures OpenTables(env, PartImage(f, n), key, limits).Ok? ==> PartImage(f, n) == ImageOf(f)
  {
    hide PackInv, EncodedToc, SealedToc, TocEntries, H.HeaderBytes, Clamped, FinishedAs, PlainToc,
         DecodedToc, H.PathsStripped, H.ProtectionOf, CheckTocRange, ReadSlice, ImageOf, H.ValidateHeader,
         ValidateLimits, Flags, Padded, TocRulesOf, PartImage, H.ReadHeader, CheckedHeader, RefusesShortBuffers;
    FinishedZeros(env, st, files, key, f);
    if OpenTables(env, PartImage(f, n), key, limits).Ok? {
      if n <= 44 {
        ShortHeader(env, f, n, limits);
        assert false;
      } else {
        var raw, hash := LongHeader(f, n);
        HeaderOfPart(env, f, n, f.header.(tocRawSize := raw, tocHash := hash), limits);
        var padded, plain, stored := FinishParts(env, st, key, f);
        StoredPart(f, n, padded, stored);
        HeaderModes(st, f.header);
        PlainTocOf(env, st, key, f, plain, stored);
        SizeDecides(env, st, key, f.header, stored, plain, raw, hash);
        HashDecides(env, f.header, key, stored, plain, hash);
        PartIsWhole(f, n);
      }
    }
  }

  /** The same stored TOC passes under one raw size only. */
  lemma SizeDecides(env: Env, st: PackState, key: bytes, h: H.Header, stored: bytes, plain: bytes,
                    raw: u64, hash: u64)
    requires env.Lawful() && key != [] && SealedToc(env, st, key, plain) == Ok(stored)
    requires st.aeadKey == AeadKeyOf(env, st.options.protection, key)
    requires H.ProtectionOf(h) == st.options.protection && h.tocRawSize == |plain|
    requires raw < h.tocRawSize ==> RefusesShortBuffers(env)
    requires raw <= h.tocRawSize && PlainToc(env, h.(tocRawSize := raw, tocHash := hash), key, stored).Ok?
    ensures raw == h.tocRawSize
  {
    hide Bits.BitAnd;
    match st.options.protection {
      case Xor => XorKeyTwice(env.lz4Encode(plain), key);
      case Aead => DecryptUndoesEncrypt(env, env.lz4Encode(plain), env.deriveKey(key), TOC_AAD, |st.chunks|);
    }
  }

  lemma HeaderOfPart(env: Env, f: Finished, n: nat, g: H.Header, limits: ArchiveLimits)
    requires n <= HEADER_SIZE <= |f.disk| && PartImage(f, n)[0..HEADER_SIZE] == H.HeaderBytes(g)
    requires CheckedHeader(env, PartImage(f, n), limits).Ok?
    ensures CheckedHeader(env, PartImage(f, n), limits) == Ok(g)
  {
    hide H.HeaderBytes, H.ReadHeader, H.ValidateHeader, ValidateLimits, Clamped, PartImage;
    H.HeaderRoundTrip(g);
  }

  lemma StoredPart(f: Finished, n: nat, padded: bytes, stored: bytes)
    requires n <= HEADER_SIZE <= |padded| && f.disk == padded + stored && |padded| + |stored| < POW64
    ensures ReadSlice(PartImage(f, n), |padded|, |stored|) == Ok(stored)
  {
    hide H.HeaderBytes;
    BehindHeader(H.HeaderBytes(f.header)[..n], f.disk, |padded|, |padded| + |stored|);
    assert (padded + stored)[|padded|..|padded| + |stored|] == stored;
  }

  /** The same stored TOC passes under one hash only. */
  lemma HashDecides(env: Env, h: H.Header, key: bytes, stored: bytes, plain: bytes, hash: u64)
    requires key != [] && PlainToc(env, h, key, stored) == Ok(plain)
    requires PlainToc(env, h.(tocHash := hash), key, stored).Ok?
    ensures hash == h.tocHash
  {
    hide Bits.BitAnd, DecompressExact, Unprotected;
  }

  lemma PartIsWhole(f: Finished, n: nat)
    requires n <= HEADER_SIZE <= |f.disk|
    requires PartImage(f, n)[0..HEADER_SIZE] == H.HeaderBytes(f.header)
    ensures PartImage(f, n) == ImageOf(f)
  {
    hide H.HeaderBytes;
    var image := PartImage(f, n);
    assert image == image[0..HEADER_SIZE] + image[HEADER_SIZE..];
    assert image[HEADER_SIZE..] == f.disk[HEADER_SIZE..];
  }

  lemma FinishedZeros(env: Env, st: PackState, files: seq<InputFile>, key: bytes, f: Finished)
    requires PackInv(env, st, files) && FinishedAs(env, st, key, f)
    ensures ZeroHeader(f.disk)
  {
    hide FinishedAs, SealedToc, EncodedToc, TocEntries, Flags, LegalChunk, AllRaws, Archive.Decoded;
    DiskKept(env, st, key, f);
    assert f.disk[..HEADER_SIZE] == f.disk[..|st.disk|][..HEADER_SIZE];
  }
}
