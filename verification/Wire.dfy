/** Little-endian numbers, the consuming TOC cursor and alignment arithmetic. */
module Wire {
  import opened Prelude
  import opened Bits

  function Pow256(n: nat): nat {
    if n == 0 then 1 else 256 * Pow256(n - 1)
  }

  lemma FieldWidths()
    ensures Pow256(2) == POW16 && Pow256(4) == POW32 && Pow256(8) == POW64
  {
  }

  function LE(v: nat, n: nat): (b: bytes)
    ensures |b| == n
  {
    if n == 0 then [] else [v % 256] + LE(v / 256, n - 1)
  }

  function FromLE(b: bytes): (v: nat)
    ensures v < Pow256(|b|)
  {
    if b == [] then 0 else b[0] + 256 * FromLE(b[1..])
  }

  lemma {:induction false} FromLEOfLE(v: nat, n: nat)
    requires v < Pow256(n)
    ensures FromLE(LE(v, n)) == v
  {
    if n > 0 {
      FromLEOfLE(v / 256, n - 1);
      assert LE(v, n)[1..] == LE(v / 256, n - 1);
    }
  }

  lemma {:induction false} LEOfFromLE(b: bytes)
    ensures LE(FromLE(b), |b|) == b
  {
    if b != [] {
      LEOfFromLE(b[1..]);
      var v := FromLE(b);
      assert v % 256 == b[0] && v / 256 == FromLE(b[1..]);
      assert b == [b[0]] + b[1..];
    }
  }

  // ---- reading at a position -------------------------------------------------------

  /** `part` is stored at position `pos` of `data`. */
  ghost predicate HasAt(data: bytes, pos: nat, part: bytes) {
    pos + |part| <= |data| && data[pos..pos + |part|] == part
  }

  lemma HasAtConcat(data: bytes, pos: nat, a: bytes, b: bytes)
    ensures HasAt(data, pos, a + b) <==> HasAt(data, pos, a) && HasAt(data, pos + |a|, b)
  {
    if pos + |a + b| <= |data| {
      var s := data[pos..pos + |a + b|];
      assert s[..|a|] == data[pos..pos + |a|];
      assert s[|a|..] == data[pos + |a|..pos + |a| + |b|];
      assert s == s[..|a|] + s[|a|..];
      assert (a + b)[..|a|] == a && (a + b)[|a|..] == b;
    }
  }

  /** The bytes a cursor at `pos` hands out when asked for `n`. */
  function TakeAt(data: bytes, pos: nat, n: nat): (r: Result<bytes>)
    ensures r.Ok? ==> |r.value| == n && pos + n <= |data|
  {
    if pos + n <= |data| then Ok(data[pos..pos + n]) else Err(Corrupt(TruncatedToc))
  }

  /** The number a cursor at `pos` reads from `n` bytes. */
  function NumberAt(data: bytes, pos: nat, n: nat): (r: Result<nat>)
    ensures r.Ok? ==> r.value < Pow256(n) && pos + n <= |data|
  {
    var b :- TakeAt(data, pos, n);
    Ok(FromLE(b))
  }

  /** Numbers below 256^n and strings of n bytes correspond one to one. */
  lemma {:induction false} LittleEndianBijection(b: bytes, v: nat)
    requires v < Pow256(|b|)
    ensures FromLE(b) == v <==> b == LE(v, |b|)
  {
    FromLEOfLE(v, |b|);
    LEOfFromLE(b);
  }

  /** A number is read exactly where its bytes are stored. */
  lemma NumberIsStored(data: bytes, pos: nat, v: nat, n: nat)
    requires v < Pow256(n)
    ensures NumberAt(data, pos, n) == Ok(v) <==> HasAt(data, pos, LE(v, n))
  {
    hide LE, FromLE, Pow256;
    if pos + n <= |data| {
      LittleEndianBijection(data[pos..pos + n], v);
    }
  }

  // ---- runs of numbers -------------------------------------------------------------

  function Total(widths: seq<nat>): nat {
    if widths == [] then 0 else widths[0] + Total(widths[1..])
  }

  function Repeat(width: nat, n: nat): (w: seq<nat>)
    ensures |w| == n && forall i :: 0 <= i < n ==> w[i] == width
  {
    seq(n, _ => width)
  }

  lemma {:induction false} TotalOfRepeat(width: nat, n: nat)
    ensures Total(Repeat(width, n)) == n * width
  {
    if n > 0 {
      TotalOfRepeat(width, n - 1);
      assert Repeat(width, n)[1..] == Repeat(width, n - 1);
    }
  }

  lemma {:induction false} TotalConcat(a: seq<nat>, b: seq<nat>)
    ensures Total(a + b) == Total(a) + Total(b)
  {
    if a == [] {
      assert a + b == b;
    } else {
      TotalConcat(a[1..], b);
      assert (a + b)[1..] == a[1..] + b;
    }
  }

  ghost predicate Fit(values: seq<nat>, widths: seq<nat>) {
    |values| == |widths| && forall i :: 0 <= i < |values| ==> values[i] < Pow256(widths[i])
  }

  /** Numbers written one after the other. */
  function NumbersBytes(values: seq<nat>, widths: seq<nat>): (b: bytes)
    requires |values| == |widths|
    ensures |b| == Total(widths)
    decreases |widths|
  {
    if widths == [] then []
    else LE(values[0], widths[0]) + NumbersBytes(values[1..], widths[1..])
  }

  /** Numbers read one after the other. */
  function ReadNumbers(data: bytes, pos: nat, widths: seq<nat>): (r: Result<seq<nat>>)
    ensures r.Ok? ==> Fit(r.value, widths)
    decreases |widths|
  {
    if widths == [] then Ok([])
    else
      var first :- NumberAt(data, pos, widths[0]);
      var rest :- ReadNumbers(data, pos + widths[0], widths[1..]);
      Ok([first] + rest)
  }

  lemma {:induction false} NumbersReadBack(data: bytes, pos: nat, values: seq<nat>, widths: seq<nat>)
    requires Fit(values, widths)
    requires HasAt(data, pos, NumbersBytes(values, widths))
    ensures ReadNumbers(data, pos, widths) == Ok(values)
    decreases |widths|
  {
    if widths != [] {
      HasAtConcat(data, pos, LE(values[0], widths[0]), NumbersBytes(values[1..], widths[1..]));
      NumberIsStored(data, pos, values[0], widths[0]);
      assert Fit(values[1..], widths[1..]);
      NumbersReadBack(data, pos + widths[0], values[1..], widths[1..]);
      assert values == [values[0]] + values[1..];
    }
  }

  lemma {:induction false} NumbersStored(data: bytes, pos: nat, widths: seq<nat>)
    requires pos <= |data| && ReadNumbers(data, pos, widths).Ok?
    ensures HasAt(data, pos, NumbersBytes(ReadNumbers(data, pos, widths).value, widths))
    decreases |widths|
  {
    if widths != [] {
      NumbersStored(data, pos + widths[0], widths[1..]);
      var values := ReadNumbers(data, pos, widths).value;
      var rest := ReadNumbers(data, pos + widths[0], widths[1..]).value;
      assert values[1..] == rest;
      NumberIsStored(data, pos, values[0], widths[0]);
      HasAtConcat(data, pos, LE(values[0], widths[0]), NumbersBytes(rest, widths[1..]));
    }
  }

  /** The cursor of the TOC decoder, over a slice no longer than the platform allows. */
  class Cursor {
    const data: bytes
    var pos: nat

    ghost predicate Valid()
      reads this
    {
      pos <= |data| <= MAX_SLICE
    }

    constructor (data: bytes)
      requires |data| <= MAX_SLICE
      ensures Valid() && this.data == data && pos == 0
    {
      this.data := data;
      pos := 0;
    }

    /** The next n bytes; asking past the last u64 is a different error than past the end. */
    method Take(n: u64) returns (r: Result<bytes>)
      requires Valid()
      modifies this
      ensures Valid()
      ensures r == if old(pos) + n >= POW64 then Err(Corrupt(CursorOverflow)) else TakeAt(data, old(pos), n)
      ensures pos == if r.Ok? then old(pos) + n else old(pos)
    {
      if pos + n >= POW64 {
        return Err(Corrupt(CursorOverflow));
      }
      var end := pos + n;
      if end > |data| {
        return Err(Corrupt(TruncatedToc));
      }
      r := Ok(data[pos..end]);
      pos := end;
    }

    method U16() returns (r: Result<u16>)
      requires Valid()
      modifies this
      ensures Valid()
      ensures r == NumberAt(data, old(pos), 2)
      ensures pos == if r.Ok? then old(pos) + 2 else old(pos)
    {
      var b :- Take(2);
      FieldWidths();
      r := Ok(FromLE(b));
    }

    method U32() returns (r: Result<u32>)
      requires Valid()
      modifies this
      ensures Valid()
      ensures r == NumberAt(data, old(pos), 4)
      ensures pos == if r.Ok? then old(pos) + 4 else old(pos)
    {
      var b :- Take(4);
      FieldWidths();
      r := Ok(FromLE(b));
    }

    method U64() returns (r: Result<u64>)
      requires Valid()
      modifies this
      ensures Valid()
      ensures r == NumberAt(data, old(pos), 8)
      ensures pos == if r.Ok? then old(pos) + 8 else old(pos)
    {
      var b :- Take(8);
      FieldWidths();
      r := Ok(FromLE(b));
    }

    predicate IsEmpty()
      reads this
    {
      pos == |data|
    }
  }

  // ---- alignment -------------------------------------------------------------------

  function AlignUp(value: u64, alignment: u64): Result<u64>
    requires alignment > 0
  {
    var mask := alignment - 1;
    if value + mask >= POW64 then Err(TooLarge(AlignedOffset))
    else
      assert BitAnd(value + mask, POW64 - 1 - mask) < POW64 by {
        AndBound(value + mask, POW64 - 1 - mask);
      }
      Ok(BitAnd(value + mask, POW64 - 1 - mask))
  }

  lemma {:induction false} AndBound(x: nat, y: nat)
    ensures BitAnd(x, y) <= x
  {
    if x != 0 && y != 0 {
      AndBound(x / 2, y / 2);
    }
  }

  predicate ValidAlignment(alignment: nat) {
    0 < alignment <= MAX_ALIGNMENT && IsPowerOfTwo(alignment)
  }

  lemma {:induction false} PowerHasOneBit(k: nat)
    ensures IsPowerOfTwo(Pow2(k))
  {
    if k > 0 {
      PowerHasOneBit(k - 1);
      EvenOnes(Pow2(k - 1));
    }
  }

  lemma EvenOnes(x: nat)
    ensures CountOnes(2 * x) == CountOnes(x)
  {
    assert (2 * x) % 2 == 0 && (2 * x) / 2 == x;
  }

  /** 1, 2, 4 and so on up to 2^20. */
  ghost predicate IsSmallPower(a: nat) {
    exists k: nat :: k <= 20 && a == Pow2(k)
  }

  /** The alignments are exactly the powers of two up to 2^20. */
  lemma ValidAlignments(alignment: nat)
    ensures ValidAlignment(alignment) <==> IsSmallPower(alignment)
  {
    hide Pow2, IsPowerOfTwo;
    TwentyBits();
    if ValidAlignment(alignment) {
      var k := PowerOfTwoExponent(alignment);
      if k > 20 {
        PowersIncrease(20, k);
      }
      assert alignment == Pow2(k);
    }
    if IsSmallPower(alignment) {
      var k: nat :| k <= 20 && alignment == Pow2(k);
      PowerHasOneBit(k);
      if k < 20 {
        PowersIncrease(k, 20);
      }
    }
  }

  lemma TwentyBits()
    ensures Pow2(20) == MAX_ALIGNMENT
  {
    PowersMultiply(10, 10);
    assert Pow2(10) == 1024;
  }

  /** The result is the least multiple of a power of two at or above the value,
      and the only failure is that this multiple is no u64. */
  lemma AlignUpIsLeastMultiple(value: u64, alignment: u64)
    requires ValidAlignment(alignment)
    ensures var r := AlignUp(value, alignment);
            && (r.Ok? ==> LeastMultiple(r.value, value, alignment))
            && (r.Err? ==> forall m: nat :: value <= m && m % alignment == 0 ==> m >= POW64)
  {
    RoundUp(value, alignment);
    if value + (alignment - 1) < POW64 {
      AlignUpValue(value, alignment);
    } else {
      AlignUpOverflow(value, alignment);
    }
  }

  lemma ExponentOf(alignment: nat) returns (k: nat)
    requires ValidAlignment(alignment)
    ensures k <= 64 && alignment == Pow2(k)
  {
    k := PowerOfTwoExponent(alignment);
    WordSize();
    if k > 64 {
      PowersIncrease(64, k);
    }
  }

  lemma AlignUpValue(value: u64, alignment: u64)
    requires ValidAlignment(alignment) && value + (alignment - 1) < POW64
    ensures var up := value + (alignment - 1);
            AlignUp(value, alignment) == Ok(up - up % alignment)
  {
    hide Pow2, BitAnd;
    var k := ExponentOf(alignment);
    WordSize();
    ClearLowBits(value + (alignment - 1), k, 64);
  }

  lemma AlignUpOverflow(value: u64, alignment: u64)
    requires ValidAlignment(alignment) && value + (alignment - 1) >= POW64
    ensures var up := value + (alignment - 1); up - up % alignment >= POW64
  {
    hide Pow2, IsPowerOfTwo;
    var up := value + (alignment - 1);
    var k := ExponentOf(alignment);
    WordSize();
    PowersMultiply(k, 64 - k);
    assert POW64 == Pow2(64 - k) * alignment;
    Bits.RemainderIs(POW64, alignment, Pow2(64 - k), 0);
    RoundUp(value, alignment);
    if up - up % alignment < POW64 {
      MultipleGap(up - up % alignment, POW64, alignment);
    }
  }

  ghost predicate LeastMultiple(r: nat, value: nat, a: nat)
    requires a > 0
  {
    && value <= r < value + a
    && r % a == 0
    && forall m: nat :: value <= m && m % a == 0 ==> r <= m
  }

  lemma RoundUp(value: nat, a: nat)
    requires a > 0
    ensures var up := value + (a - 1); LeastMultiple(up - up % a, value, a)
  {
    var up := value + (a - 1);
    var floor := up - up % a;
    assert floor == up / a * a;
    Bits.RemainderIs(floor, a, up / a, 0);
    forall m: nat | value <= m && m % a == 0
      ensures floor <= m
    {
      if m < floor {
        MultipleGap(m, floor, a);
      }
    }
  }

  lemma WordSize()
    ensures Pow2(64) == POW64
  {
    hide Pow2;
    ByteSize();
    PowersMultiply(8, 8);
    PowersMultiply(16, 16);
    PowersMultiply(32, 32);
  }

  lemma ByteSize()
    ensures Pow2(8) == 0x100
  {
  }

  lemma {:induction false} PowersIncrease(j: nat, k: nat)
    requires j < k
    ensures Pow2(j) < Pow2(k)
  {
    if j + 1 < k {
      PowersIncrease(j, k - 1);
    }
  }

  lemma MultipleGap(x: nat, y: nat, a: nat)
    requires a > 0 && x % a == 0 && y % a == 0 && x < y
    ensures x + a <= y
  {
    assert x == x / a * a && y == y / a * a;
    assert y - x == (y / a - x / a) * a;
    if y / a > x / a {
      MultipleAtLeast(y / a - x / a, a);
    }
  }
}
