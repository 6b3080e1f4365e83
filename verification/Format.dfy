/** The file format byte by byte: where every field and block of a finished archive lies, and
    in which form. */
module Format {
  import opened Prelude
  import opened Bits
  import opened Wire
  import opened Layout
  import opened Cipher
  import opened Toc
  import opened Packing
  import opened PackInvariant
  import opened RoundTrip
  import opened Opening
  import opened Archive
  import Path
  import H = Header

  // ---- numbers ---------------------------------------------------------------------

  lemma DivideTwice(v: nat, a: nat, p: nat)
    requires a > 0 && p > 0
    ensures a * p > 0 && (v / a) / p == v / (a * p)
  {
    var q, r, d := (v / a) / p, (v / a) % p, v % a;
    assert v / a == q * p + r;
    assert v == (v / a) * a + d;
    assert v == q * (a * p) + (r * a + d) by {
      assert (q * p + r) * a == q * (a * p) + r * a;
    }
    StartsBelow(r + 1, p, a);
    assert r * a + d < a * p;
    RemainderIs(v, a * p, q, r * a + d);
  }

  lemma {:induction false} PowerPositive(n: nat)
    ensures Pow256(n) > 0
  {
    if n > 0 {
      PowerPositive(n - 1);
    }
  }

  /** Numbers are stored with their low digits first. */
  lemma {:induction false} DigitOf(v: nat, n: nat, j: nat)
    requires j < n
    ensures Pow256(j) > 0 && LE(v, n)[j] == v / Pow256(j) % 256
  {
    PowerPositive(j);
    if j > 0 {
      DigitOf(v / 256, n - 1, j - 1);
      DivideTwice(v, 256, Pow256(j - 1));
    }
  }

  // ---- XOR -------------------------------------------------------------------------

  function BitOf(x: nat, j: nat): nat {
    x / Pow2(j) % 2
  }

  lemma {:induction false} XorBit(x: nat, y: nat, j: nat)
    ensures BitOf(BitXor(x, y), j) == (BitOf(x, j) + BitOf(y, j)) % 2
  {
    XorStep(x, y);
    if j == 0 {
      SumParity(x, y);
    } else {
      XorBit(x / 2, y / 2, j - 1);
      NextBit(BitXor(x, y), j);
      NextBit(x, j);
      NextBit(y, j);
    }
  }

  lemma SumParity(x: nat, y: nat)
    ensures (x + y) % 2 == (x % 2 + y % 2) % 2
  {
  }

  lemma NextBit(x: nat, j: nat)
    requires j > 0
    ensures BitOf(x, j) == BitOf(x / 2, j - 1)
  {
    DivideTwice(x, 2, Pow2(j - 1));
  }

  /** Bit j of byte i is flipped exactly when that bit of the repeated key is set. */
  lemma XorKeyBits(data: bytes, key: bytes, i: nat, j: nat)
    requires key != [] && i < |data|
    ensures BitOf(XorKey(data, key)[i], j) == (BitOf(data[i], j) + BitOf(key[i % |key|], j)) % 2
  {
    XorBit(data[i], key[i % |key|], j);
  }

  // ---- the header ------------------------------------------------------------------

  lemma {:induction false} FieldFrom(data: bytes, pos: nat, values: seq<nat>, widths: seq<nat>, i: nat)
    requires |values| == |widths| && i < |widths| && HasAt(data, pos, NumbersBytes(values, widths))
    ensures HasAt(data, pos + Total(widths[..i]), LE(values[i], widths[i]))
    decreases i
  {
    hide LE, HasAt;
    HasAtConcat(data, pos, LE(values[0], widths[0]), NumbersBytes(values[1..], widths[1..]));
    if i > 0 {
      FieldFrom(data, pos + widths[0], values[1..], widths[1..], i - 1);
      assert widths[..i][1..] == widths[1..][..i - 1];
    }
  }

  lemma TotalOfNext(widths: seq<nat>, i: nat)
    requires i < |widths|
    ensures Total(widths[..i + 1]) == Total(widths[..i]) + widths[i]
  {
    assert widths[..i + 1] == widths[..i] + [widths[i]];
    TotalConcat(widths[..i], [widths[i]]);
    assert Total([widths[i]]) == widths[i] by { assert [widths[i]][1..] == []; }
  }

  /** Where header field i starts, magic included. */
  function FieldOffset(i: nat): nat
    requires i < 11
  {
    if i < 2 then 4 + 2 * i else if i < 7 then 8 + 4 * (i - 2) else 28 + 8 * (i - 7)
  }

  lemma {:induction false} FieldOffsets(i: nat)
    requires i < 11
    ensures 4 + Total(H.Widths()[..i]) == FieldOffset(i)
  {
    if i > 0 {
      FieldOffsets(i - 1);
      TotalOfNext(H.Widths(), i - 1);
    } else {
      assert H.Widths()[..0] == [];
    }
  }

  lemma FieldAt(h: H.Header, i: nat)
    requires i < 11
    ensures HasAt(H.HeaderBytes(h), FieldOffset(i), LE(H.Numbers(h)[i], H.Widths()[i]))
  {
    hide LE, NumbersBytes, H.Numbers, H.Widths;
    var b := H.HeaderBytes(h);
    assert b[4..4 + 56] == NumbersBytes(H.Numbers(h), H.Widths());
    FieldFrom(b, 4, H.Numbers(h), H.Widths(), i);
    FieldOffsets(i);
  }

  /** The 60 bytes of a header. */
  lemma HeaderLayout(h: H.Header)
    ensures var b := H.HeaderBytes(h);
            && b[0..4] == [0x52, 0x50, 0x41, 0x4B]
            && b[4..6] == LE(h.version, 2) && b[6..8] == LE(h.flags, 2)
            && b[8..12] == LE(h.headerSize, 4) && b[12..16] == LE(h.alignment, 4)
            && b[16..20] == LE(h.chunkSize, 4) && b[20..24] == LE(h.entryCount, 4)
            && b[24..28] == LE(h.chunkCount, 4) && b[28..36] == LE(h.tocOffset, 8)
            && b[36..44] == LE(h.tocSize, 8) && b[44..52] == LE(h.tocRawSize, 8)
            && b[52..60] == LE(h.tocHash, 8)
  {
    hide LE, NumbersBytes;
    FieldAt(h, 0);
    FieldAt(h, 1);
    FieldAt(h, 2);
    FieldAt(h, 3);
    FieldAt(h, 4);
    FieldAt(h, 5);
    FieldAt(h, 6);
    FieldAt(h, 7);
    FieldAt(h, 8);
    FieldAt(h, 9);
    FieldAt(h, 10);
  }

  // ---- the TOC ---------------------------------------------------------------------

  /** The 36 bytes of a chunk record. */
  lemma ChunkRecordLayout(c: Chunk)
    ensures var b := ChunkBytes(c);
            && |b| == 36
            && b[0..8] == LE(c.offset, 8) && b[8..16] == LE(c.storedSize, 8)
            && b[16..24] == LE(c.originalSize, 8) && b[24..32] == LE(c.checksum, 8)
            && b[32..34] == LE(if c.compressed then 1 else 0, 2) && b[34..36] == LE(0, 2)
  {
    hide LE;
    var b, flag := ChunkBytes(c), if c.compressed then 1 else 0;
    var t4 := LE(flag, 2) + LE(0, 2);
    var t3 := LE(c.checksum, 8) + t4;
    var t2 := LE(c.originalSize, 8) + t3;
    var t1 := LE(c.storedSize, 8) + t2;
    assert b == LE(c.offset, 8) + t1 && b[0..|b|] == b;
    HasAtConcat(b, 0, LE(c.offset, 8), t1);
    HasAtConcat(b, 8, LE(c.storedSize, 8), t2);
    HasAtConcat(b, 16, LE(c.originalSize, 8), t3);
    HasAtConcat(b, 24, LE(c.checksum, 8), t4);
    HasAtConcat(b, 32, LE(flag, 2), LE(0, 2));
  }

  /** The 36 bytes of an entry record, and its path behind them. */
  lemma EntryRecordLayout(e: TocEntry, stored: bytes)
    ensures var b := EntryBytes(e, stored);
            && |b| == 36 + |stored|
            && b[0..8] == LE(e.pathHash, 8) && b[8..16] == LE(e.originalSize, 8)
            && b[16..24] == LE(e.storedSize, 8) && b[24..28] == LE(e.firstChunk, 4)
            && b[28..32] == LE(e.chunkCount, 4) && b[32..34] == LE(|stored|, 2)
            && b[34..36] == LE(0, 2) && b[36..] == stored
  {
    hide LE;
    var b := EntryBytes(e, stored);
    var t6 := LE(0, 2) + stored;
    var t5 := LE(|stored|, 2) + t6;
    var t4 := LE(e.chunkCount, 4) + t5;
    var t3 := LE(e.firstChunk, 4) + t4;
    var t2 := LE(e.storedSize, 8) + t3;
    var t1 := LE(e.originalSize, 8) + t2;
    assert b == LE(e.pathHash, 8) + t1 && b[0..|b|] == b;
    HasAtConcat(b, 0, LE(e.pathHash, 8), t1);
    HasAtConcat(b, 8, LE(e.originalSize, 8), t2);
    HasAtConcat(b, 16, LE(e.storedSize, 8), t3);
    HasAtConcat(b, 24, LE(e.firstChunk, 4), t4);
    HasAtConcat(b, 28, LE(e.chunkCount, 4), t5);
    HasAtConcat(b, 32, LE(|stored|, 2), t6);
    HasAtConcat(b, 34, LE(0, 2), stored);
  }

  lemma {:induction false} EntryFrom(data: bytes, pos: nat, entries: seq<TocEntry>, stored: seq<bytes>, i: nat)
    requires |entries| == |stored| && i < |entries| && HasAt(data, pos, EntriesBytes(entries, stored))
    ensures HasAt(data, pos + 36 * i + PathBytesTotal(stored[..i]), EntryBytes(entries[i], stored[i]))
    decreases i
  {
    hide EntryBytes, HasAt;
    HasAtConcat(data, pos, EntryBytes(entries[0], stored[0]), EntriesBytes(entries[1..], stored[1..]));
    EntryLength(entries[0], stored[0]);
    if i > 0 {
      EntryFrom(data, pos + 36 + |stored[0]|, entries[1..], stored[1..], i - 1);
      assert stored[..i][1..] == stored[1..][..i - 1];
    }
  }

  lemma {:induction false} ChunkFrom(data: bytes, pos: nat, chunks: seq<Chunk>, j: nat)
    requires j < |chunks| && HasAt(data, pos, ChunksBytes(chunks))
    ensures HasAt(data, pos + 36 * j, ChunkBytes(chunks[j]))
    decreases j
  {
    hide ChunkBytes, HasAt;
    HasAtConcat(data, pos, ChunkBytes(chunks[0]), ChunksBytes(chunks[1..]));
    ChunkAtExactly([], 0, chunks[0]);
    if j > 0 {
      ChunkFrom(data, pos + 36, chunks[1..], j - 1);
    }
  }

  /** Magic, then the entry records in order, then the chunk records in order. */
  lemma TocLayout(entries: seq<TocEntry>, stored: seq<bytes>, chunks: seq<Chunk>)
    requires |entries| == |stored|
    ensures var b := TocImage(entries, stored, chunks);
            && |b| == 4 + 36 * (|entries| + |chunks|) + PathBytesTotal(stored)
            && b[..4] == [0x54, 0x4F, 0x43, 0x32]
            && (forall i :: 0 <= i < |entries| ==>
                  HasAt(b, 4 + 36 * i + PathBytesTotal(stored[..i]), EntryBytes(entries[i], stored[i])))
            && (forall j :: 0 <= j < |chunks| ==>
                  HasAt(b, 4 + 36 * |entries| + PathBytesTotal(stored) + 36 * j, ChunkBytes(chunks[j])))
  {
    hide EntryBytes, ChunkBytes, EntriesBytes, ChunksBytes, PathBytesTotal, HasAt;
    var b := TocImage(entries, stored, chunks);
    ImageLength(entries, stored, chunks);
    ImageParts(entries, stored, chunks);
    EntriesLength(entries, stored);
    forall i | 0 <= i < |entries|
      ensures HasAt(b, 4 + 36 * i + PathBytesTotal(stored[..i]), EntryBytes(entries[i], stored[i]))
    {
      EntryFrom(b, 4, entries, stored, i);
    }
    forall j | 0 <= j < |chunks|
      ensures HasAt(b, 4 + 36 * |entries| + PathBytesTotal(stored) + 36 * j, ChunkBytes(chunks[j]))
    {
      ChunkFrom(b, 4 + |EntriesBytes(entries, stored)|, chunks, j);
    }
  }

  // ---- the payload -----------------------------------------------------------------

  /** Where chunk k may start at the earliest; for k past the last chunk, the end of them all. */
  function EndBefore(chunks: seq<Chunk>, k: nat): nat
    requires k <= |chunks|
  {
    if k == 0 then 60 else End(chunks[k - 1])
  }

  /** Block k starts at the first aligned offset it can, after nothing but zeros. */
  ghost predicate TightAt(st: PackState, k: nat)
    requires k < |st.chunks| && st.options.alignment > 0
  {
    var start := st.chunks[k].offset;
    && LeastMultiple(start, EndBefore(st.chunks, k), st.options.alignment)
    && start <= |st.disk|
    && forall x :: EndBefore(st.chunks, k) <= x < start ==> st.disk[x] == 0
  }

  /** The disk is the header area and the blocks, with no more padding than alignment needs. */
  ghost predicate Tight(st: PackState) {
    && st.options.alignment > 0
    && |st.disk| == EndBefore(st.chunks, |st.chunks|)
    && forall k :: 0 <= k < |st.chunks| ==> TightAt(st, k)
  }

  /** Padding goes up to the least aligned offset and is all zeros. */
  lemma PaddingIsLeast(disk: bytes, alignment: nat)
    requires |disk| < POW64 && ValidAlignment(alignment) && Padded(disk, alignment).Ok?
    ensures var padded := Padded(disk, alignment).value;
            && LeastMultiple(|padded|, |disk|, alignment) && |disk| <= |padded|
            && padded[..|disk|] == disk
            && forall x :: |disk| <= x < |padded| ==> padded[x] == 0
  {
    hide LeastMultiple, IsPowerOfTwo, AlignUp;
    AlignUpIsLeastMultiple(|disk|, alignment);
  }

  lemma StoreChunkIsTight(env: Env, st: PackState, raw: bytes)
    requires Sized(st) && Tight(st) && 0 < |raw| <= st.options.chunkSize && StoreChunk(env, st, raw).Ok?
    ensures Tight(StoreChunk(env, st, raw).value)
  {
    hide Padded, Sealed, LeastMultiple, PayloadOf;
    var next := StoreChunk(env, st, raw).value;
    PaddingIsLeast(st.disk, st.options.alignment);
    var padded := Padded(st.disk, st.options.alignment).value;
    forall k | 0 <= k < |next.chunks|
      ensures TightAt(next, k)
    {
      if k < |st.chunks| {
        assert TightAt(st, k);
        assert EndBefore(next.chunks, k) == EndBefore(st.chunks, k);
        assert forall x :: 0 <= x < |st.disk| ==> next.disk[x] == padded[..|st.disk|][x];
      } else {
        assert forall x :: 0 <= x < |padded| ==> next.disk[x] == padded[x];
      }
    }
  }

  lemma {:induction false} StoreAllIsTight(env: Env, st: PackState, data: bytes, original: u64, stored: u64)
    requires Sized(st) && Tight(st) && StoreAll(env, st, data, original, stored).Ok?
    ensures Tight(StoreAll(env, st, data, original, stored).value.0)
    decreases |data|
  {
    hide StoreChunk, Tight;
    if data != [] {
      var n := Min(st.options.chunkSize, |data|);
      StoreChunkIsTight(env, st, data[..n]);
      var next := StoreChunk(env, st, data[..n]).value;
      StoreAllIsTight(env, next, data[n..], original + n, stored + next.chunks[|st.chunks|].storedSize);
    }
  }

  /** Every run packs tightly. */
  lemma {:induction false} RunIsTight(env: Env, options: PackOptions, aeadKey: Option<bytes>, files: seq<InputFile>)
    requires ValidOptions(options) && PackRun(env, Initial(options, aeadKey), files).Ok?
    ensures Tight(PackRun(env, Initial(options, aeadKey), files).value)
  {
    hide StoreAll, TightAt, Path.Normalize, CheckNew;
    if files != [] {
      var front, last := files[..|files| - 1], files[|files| - 1];
      RunIsTight(env, options, aeadKey, front);
      var st := PackRun(env, Initial(options, aeadKey), front).value;
      StoreAllIsTight(env, st, last.1, 0, 0);
      var next := StoreAll(env, st, last.1, 0, 0).value.0;
      EntriesDoNotMatter(next, PackRun(env, Initial(options, aeadKey), files).value);
    }
  }

  lemma EntriesDoNotMatter(st: PackState, other: PackState)
    requires Tight(st) && other == st.(entries := other.entries)
    ensures Tight(other)
  {
    forall k | 0 <= k < |other.chunks|
      ensures TightAt(other, k)
    {
      assert TightAt(st, k);
    }
  }

  // ---- the finished file -----------------------------------------------------------

  /** The bytes stored for the TOC: its LZ4 form under the repeated key, or sealed under the
      derived key with a nonce of its own. */
  ghost predicate TocForm(env: Env, st: PackState, key: bytes, plain: bytes, stored: bytes)
    requires key != []
  {
    if st.options.protection.Xor? then stored == XorKey(env.lz4Encode(plain), key)
    else
      && |stored| >= 24
      && env.nonce(|st.chunks|) == Some(stored[..24])
      && env.cipherSeal(env.deriveKey(key), stored[..24], env.lz4Encode(plain), TOC_AAD) == Some(stored[24..])
  }

  lemma SealedTocForm(env: Env, st: PackState, key: bytes, plain: bytes)
    requires env.Lawful() && key != [] && SealedToc(env, st, key, plain).Ok?
    requires st.aeadKey == AeadKeyOf(env, st.options.protection, key)
    ensures TocForm(env, st, key, plain, SealedToc(env, st, key, plain).value)
  {
    hide XorKey;
    if st.options.protection.Aead? {
      var nonce := env.nonce(|st.chunks|).value;
      var sealed := env.cipherSeal(env.deriveKey(key), nonce, env.lz4Encode(plain), TOC_AAD).value;
      assert (nonce + sealed)[..24] == nonce && (nonce + sealed)[24..] == sealed;
    }
  }

  ghost predicate HeadForm(st: PackState, h: H.Header, image: bytes) {
    && |image| >= 60 && image[..60] == H.HeaderBytes(h)
    && h.version == 1 && h.headerSize == 60
    && h.flags == (if st.options.protection.Xor? then 15 else 45) + (if st.options.mode.Production? then 16 else 0)
    && h.alignment == st.options.alignment && h.chunkSize == st.options.chunkSize
    && h.entryCount == |st.entries| && h.chunkCount == |st.chunks|
  }

  /** The payload, then nothing but the zeros that alignment needs, then the TOC, then the end. */
  ghost predicate BodyForm(st: PackState, h: H.Header, image: bytes) {
    && 60 <= |st.disk| <= h.tocOffset <= |image| && h.alignment > 0
    && image[60..|st.disk|] == st.disk[60..]
    && LeastMultiple(h.tocOffset, |st.disk|, h.alignment)
    && (forall x :: |st.disk| <= x < h.tocOffset ==> image[x] == 0)
    && h.tocOffset + h.tocSize == |image|
  }

  ghost predicate EndForm(env: Env, st: PackState, key: bytes, h: H.Header, stored: bytes)
    requires key != []
  {
    var plain := TocImage(TocEntries(st), PathsOf(TocEntries(st)), st.chunks);
    h.tocRawSize == |plain| && h.tocHash == env.xxh3(plain) && TocForm(env, st, key, plain, stored)
  }

  /** A finished file is the header, the payload, zeros up to the next aligned offset, and the
      stored TOC, which is the end of the file. */
  lemma FileLayout(env: Env, st: PackState, files: seq<InputFile>, key: bytes, f: Finished)
    requires env.Lawful() && PackInv(env, st, files) && FinishedAs(env, st, key, f)
    requires st.aeadKey == AeadKeyOf(env, st.options.protection, key)
    ensures |f.disk| >= HEADER_SIZE && key != []
    ensures HeadForm(st, f.header, ImageOf(f)) && BodyForm(st, f.header, ImageOf(f))
    ensures EndForm(env, st, key, f.header, ImageOf(f)[f.header.tocOffset..])
  {
    hide PackInv, FinishedAs, SealedToc, EncodedToc, TocEntries, TocImage, Padded, H.HeaderBytes, TocForm,
         LeastMultiple;
    var padded, plain, stored := FinishParts(env, st, key, f);
    PackInvSizes(env, st, files);
    PaddingIsLeast(st.disk, st.options.alignment);
    EncodedIsImage(TocEntries(st), st.chunks);
    NonEmptyKey(env, st, key, f);
    SealedTocForm(env, st, key, plain);
    var image := ImageOf(f);
    assert image[60..] == f.disk[60..];
    assert image[|padded|..] == f.disk[|padded|..] == stored;
    assert image[60..|st.disk|] == f.disk[60..|st.disk|] == padded[..|st.disk|][60..];
    forall x | |st.disk| <= x < |padded|
      ensures image[x] == 0
    {
      assert image[x] == f.disk[x] == padded[x];
    }
  }

  /** Block k of a reopened archive: compressed exactly where that pays, and in the form above. */
  lemma BlockLayout(env: Env, st: PackState, files: seq<InputFile>, key: bytes, f: Finished,
                    limits: ArchiveLimits, a: Archive, k: nat)
    requires env.Lawful() && Reopened(env, st, files, key, f, limits, a) && k < |a.chunks|
    ensures st.options.chunkSize > 0 && |AllRaws(files, st.options.chunkSize)| == |a.chunks|
    ensures var raw, c := AllRaws(files, st.options.chunkSize)[k], a.chunks[k];
            && (c.compressed <==> |env.lz4Encode(raw)| < |raw|)
            && c.originalSize == |raw| && c.checksum == env.xxh3(raw)
            && c.storedSize == Min(|env.lz4Encode(raw)|, |raw|) + (if a.aeadKey.Some? then 40 else 0)
            && End(c) <= |a.source|
            && BlockStored(env, a.aeadKey, k, c, raw, a.source[c.offset..End(c)])
  {
    hide PackInv, Reopened, Decoded, WellFormed, LegalChunks, AllRaws, ChunksInv, ImageOf, TocEntries, BlockStored;
    ReopenedFields(env, st, files, key, f, limits, a);
    ReopenedInv(env, st, files, key, f, limits, a);
    PackInvSizes(env, st, files);
    var raws := AllRaws(files, st.options.chunkSize);
    ChunkFacts(env, st, raws, k);
    var c := st.chunks[k];
    BlockUntouched(f, st.disk, c.offset, End(c));
    BlockSizes(env, st.aeadKey, k, c, raws[k], st.disk[c.offset..End(c)]);
  }

  lemma BlockSizes(env: Env, aeadKey: Option<bytes>, k: nat, c: Chunk, raw: bytes, block: bytes)
    requires BlockStored(env, aeadKey, k, c, raw, block)
    ensures c.compressed <==> |env.lz4Encode(raw)| < |raw|
    ensures |block| == Min(|env.lz4Encode(raw)|, |raw|) + (if aeadKey.Some? then 40 else 0)
  {
  }
}
