/** The fixed 60-byte header: codec and checks. */
module Header {
  import opened Prelude
  import opened Bits
  import opened Wire

  const FLAG_TOC_LZ4: nat := 1
  const FLAG_TOC_XOR: nat := 2
  const FLAG_CHUNKED: nat := 4
  const FLAG_XXH3: nat := 8
  const FLAG_PATHS_STRIPPED: nat := 16
  const FLAG_AEAD: nat := 32
  const REQUIRED_FLAGS: nat := 1 + 4 + 8
  const KNOWN_FLAGS: nat := 1 + 2 + 4 + 8 + 16 + 32

  datatype Header = Header(
    version: u16, flags: u16, headerSize: u32, alignment: u32, chunkSize: u32,
    entryCount: u32, chunkCount: u32,
    tocOffset: u64, tocSize: u64, tocRawSize: u64, tocHash: u64)

  /** Field widths in file order: two of 2 bytes, five of 4 and four of 8. */
  function Widths(): (w: seq<nat>)
    ensures |w| == 11 && Total(w) == 56
    ensures forall i :: 0 <= i < 11 ==> w[i] == if i < 2 then 2 else if i < 7 then 4 else 8
  {
    TotalOfRepeat(2, 2);
    TotalOfRepeat(4, 5);
    TotalOfRepeat(8, 4);
    TotalConcat(Repeat(2, 2), Repeat(4, 5));
    TotalConcat(Repeat(2, 2) + Repeat(4, 5), Repeat(8, 4));
    Repeat(2, 2) + Repeat(4, 5) + Repeat(8, 4)
  }

  function Numbers(h: Header): (v: seq<nat>)
    ensures Fit(v, Widths())
  {
    FieldWidths();
    [h.version, h.flags, h.headerSize, h.alignment, h.chunkSize, h.entryCount, h.chunkCount,
     h.tocOffset, h.tocSize, h.tocRawSize, h.tocHash]
  }

  lemma NumberRanges(v: seq<nat>)
    requires Fit(v, Widths())
    ensures v[0] < POW16 && v[1] < POW16
    ensures v[2] < POW32 && v[3] < POW32 && v[4] < POW32 && v[5] < POW32 && v[6] < POW32
    ensures v[7] < POW64 && v[8] < POW64 && v[9] < POW64 && v[10] < POW64
  {
    hide Pow256;
    FieldWidths();
    var w := Widths();
    assert w[2] == w[3] == w[4] == w[5] == w[6] == 4;
    assert w[7] == w[8] == w[9] == w[10] == 8;
  }

  function FromNumbers(v: seq<nat>): (h: Header)
    requires Fit(v, Widths())
    ensures Numbers(h) == v
  {
    NumberRanges(v);
    Header(v[0], v[1], v[2], v[3], v[4], v[5], v[6], v[7], v[8], v[9], v[10])
  }

  function HeaderBytes(h: Header): (b: bytes)
    ensures |b| == HEADER_SIZE
  {
    MAGIC + NumbersBytes(Numbers(h), Widths())
  }

  function ReadHeader(b: bytes): Result<Header>
    requires |b| == HEADER_SIZE
  {
    if b[..4] != MAGIC then Err(BadMagic)
    else
      var v :- ReadNumbers(b, 4, Widths());
      Ok(FromNumbers(v))
  }

  predicate ValidChunkSize(chunkSize: nat) {
    0 < chunkSize <= MAX_CHUNK_SIZE
  }

  predicate ValidFlags(flags: u16) {
    && BitAnd(flags, REQUIRED_FLAGS) == REQUIRED_FLAGS
    && BitAnd(flags, 0xFFFF - KNOWN_FLAGS) == 0
    && CountOnes(BitAnd(flags, FLAG_TOC_XOR + FLAG_AEAD)) == 1
  }

  predicate PathsStripped(h: Header) {
    BitAnd(h.flags, FLAG_PATHS_STRIPPED) != 0
  }

  function ProtectionOf(h: Header): Protection {
    if BitAnd(h.flags, FLAG_AEAD) != 0 then Aead else Xor
  }

  function ValidateHeader(h: Header): Result<Unit> {
    if h.version != VERSION then Err(UnsupportedVersion(h.version))
    else if h.headerSize != HEADER_SIZE then Err(UnsupportedHeaderSize(h.headerSize))
    else if !ValidFlags(h.flags) then Err(UnsupportedFlags(h.flags))
    else if !ValidChunkSize(h.chunkSize) then Err(InvalidChunkSize)
    else if !ValidAlignment(h.alignment) then Err(InvalidAlignment)
    else if h.tocSize > MAX_TOC_STORED_SIZE then Err(TooLarge(StoredToc))
    else if h.tocRawSize > MAX_TOC_RAW_SIZE then Err(TooLarge(RawToc))
    else Ok(Unit)
  }

  // ---- round trip ------------------------------------------------------------------

  /** What the masks leave of a 16-bit flag word, given its six low bits and the rest. */
  lemma MaskedWord(b0: bit, b1: bit, b2: bit, b3: bit, b4: bit, b5: bit, rest: nat)
    requires rest < 1024
    ensures var w := Word(b0, b1, b2, b3, b4, b5, rest);
            && BitAnd(w, 13) == b0 + 4 * b2 + 8 * b3
            && BitAnd(w, 65472) == 64 * rest
            && BitAnd(w, 34) == 2 * b1 + 32 * b5
            && BitAnd(w, 16) == 16 * b4
            && BitAnd(w, 32) == 32 * b5
  {
    hide BitAnd;
    NoBits(rest);
    assert Pow2(10) == 1024;
    KeepAll(rest, 10);
    AndOfWords(b0, b1, b2, b3, b4, b5, rest, 1, 0, 1, 1, 0, 0, 0);
    AndOfWords(b0, b1, b2, b3, b4, b5, rest, 0, 0, 0, 0, 0, 0, 1023);
    AndOfWords(b0, b1, b2, b3, b4, b5, rest, 0, 1, 0, 0, 0, 1, 0);
    AndOfWords(b0, b1, b2, b3, b4, b5, rest, 0, 0, 0, 0, 1, 0, 0);
    AndOfWords(b0, b1, b2, b3, b4, b5, rest, 0, 0, 0, 0, 0, 1, 0);
  }

  /** The three mask tests leave exactly four flag words: one for each mode and protection. */
  lemma ValidFlagsExactly(flags: u16)
    ensures ValidFlags(flags) <==> flags in {15, 31, 45, 61}
    ensures ValidFlags(flags) ==>
              && (BitAnd(flags, FLAG_PATHS_STRIPPED) != 0 <==> flags in {31, 61})
              && (BitAnd(flags, FLAG_AEAD) != 0 <==> flags in {45, 61})
  {
    hide BitAnd, CountOnes, Word;
    var b0, b1, b2, b3, b4, b5, rest := WordOf(flags);
    MaskedWord(b0, b1, b2, b3, b4, b5, rest);
    OneOfTwo(b1, b5);
    WordIs(b0, b1, b2, b3, b4, b5, rest);
  }

  lemma WordOf(flags: u16)
    returns (b0: bit, b1: bit, b2: bit, b3: bit, b4: bit, b5: bit, rest: nat)
    ensures rest < 1024 && flags == Word(b0, b1, b2, b3, b4, b5, rest)
  {
    hide Put;
    var x1 := flags / 2;
    var x2 := x1 / 2;
    var x3 := x2 / 2;
    var x4 := x3 / 2;
    var x5 := x4 / 2;
    b0, b1, b2, b3, b4, b5, rest := flags % 2, x1 % 2, x2 % 2, x3 % 2, x4 % 2, x5 % 2, x5 / 2;
    Halves(flags);
    Halves(x1);
    Halves(x2);
    Halves(x3);
    Halves(x4);
    Halves(x5);
  }

  lemma WordIs(b0: bit, b1: bit, b2: bit, b3: bit, b4: bit, b5: bit, rest: nat)
    ensures Word(b0, b1, b2, b3, b4, b5, rest) ==
            b0 + 2 * b1 + 4 * b2 + 8 * b3 + 16 * b4 + 32 * b5 + 64 * rest
  {
  }

  lemma OneOfTwo(b1: bit, b5: bit)
    ensures CountOnes(2 * b1 + 32 * b5) == b1 + b5
  {
    assert CountOnes(2) == 1 && CountOnes(32) == 1 && CountOnes(34) == 2;
  }

  lemma NumbersOfHeader(h: Header)
    ensures FromNumbers(Numbers(h)) == h
  {
  }

  /** What the packer writes is what the reader sees. */
  lemma HeaderRoundTrip(h: Header)
    ensures ReadHeader(HeaderBytes(h)) == Ok(h)
  {
    hide NumbersBytes, ReadNumbers, Widths, FromNumbers, Numbers;
    var b := HeaderBytes(h);
    NumbersOfHeader(h);
    assert b[4..4 + 56] == NumbersBytes(Numbers(h), Widths());
    NumbersReadBack(b, 4, Numbers(h), Widths());
  }

  /** A header that parses is stored exactly as it would be written. */
  lemma HeaderIsCanonical(b: bytes)
    requires |b| == HEADER_SIZE && ReadHeader(b).Ok?
    ensures HeaderBytes(ReadHeader(b).value) == b
  {
    NumbersStored(b, 4, Widths());
    SplitAtMagic(b, NumbersBytes(ReadNumbers(b, 4, Widths()).value, Widths()));
  }

  lemma SplitAtMagic(b: bytes, rest: bytes)
    requires |b| == 4 + |rest| && b[..4] == MAGIC && HasAt(b, 4, rest)
    ensures b == MAGIC + rest
  {
    assert b == b[..4] + b[4..];
  }

  /** A header that was never rewritten is rejected. */
  lemma ZeroHeaderIsRejected(b: bytes)
    requires |b| == HEADER_SIZE && b[0] == 0
    ensures ReadHeader(b) == Err(BadMagic)
  {
    assert b[..4][0] == 0;
  }
}
