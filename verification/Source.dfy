/** Byte sources: exact reads from a slice, and devices that deliver reads in pieces. */
module Source {
  import opened Prelude

  /** `s` with the bytes from `at` on replaced by `part`. */
  function Patched(s: bytes, at: nat, part: bytes): (r: bytes)
    requires at + |part| <= |s|
    ensures |r| == |s|
  {
    s[..at] + part + s[at + |part|..]
  }

  lemma PatchedTwice(s: bytes, at: nat, a: bytes, b: bytes)
    requires at + |a| + |b| <= |s|
    ensures Patched(Patched(s, at, a), at + |a|, b) == Patched(s, at, a + b)
  {
  }

  lemma PatchedNothing(s: bytes, at: nat)
    requires at <= |s|
    ensures Patched(s, at, []) == s
  {
  }

  lemma PatchedOutside(s: bytes, at: nat, part: bytes, hi: nat)
    requires at + |part| <= hi <= |s|
    ensures Patched(s, at, part)[..at] == s[..at] && Patched(s, at, part)[hi..] == s[hi..]
    ensures Patched(s, at, part)[at..at + |part|] == part
  {
  }

  /** The bytes an exact positioned read delivers. */
  function ReadSlice(source: bytes, offset: u64, len: nat): (r: Result<bytes>)
    ensures r.Ok? ==> |r.value| == len
  {
    if offset + len < POW64 && offset + len <= |source| then Ok(source[offset..offset + len])
    else Err(Io(UnexpectedEof))
  }

  /** Slice sources copy all or nothing. */
  method ReadSliceExact(source: bytes, offset: u64, dst: array<byte>, lo: nat, hi: nat)
    returns (r: Result<Unit>)
    requires lo <= hi <= dst.Length
    modifies dst
    ensures r.Ok? <==> ReadSlice(source, offset, hi - lo).Ok?
    ensures r.Ok? ==> dst[..] == Patched(old(dst[..]), lo, ReadSlice(source, offset, hi - lo).value)
    ensures r.Err? ==> r.error == Io(UnexpectedEof) && dst[..] == old(dst[..])
  {
    var start := offset;
    if start + (hi - lo) >= POW64 {
      return Err(Io(UnexpectedEof));
    }
    var end := start + (hi - lo);
    if end > |source| {
      return Err(Io(UnexpectedEof));
    }
    CopyFromSlice(dst, lo, source[start..end]);
    r := Ok(Unit);
  }

  method CopyFromSlice(dst: array<byte>, at: nat, part: bytes)
    requires at + |part| <= dst.Length
    modifies dst
    ensures dst[..] == Patched(old(dst[..]), at, part)
  {
    forall i | 0 <= i < |part| {
      dst[at + i] := part[i];
    }
    assert dst[..] == old(dst[..])[..at] + part + old(dst[..])[at + |part|..];
  }

  // ---- devices ---------------------------------------------------------------------

  datatype Outcome = Deliver(atMost: nat) | Fail

  /** One effective read: how often it is interrupted first, and what it then does. */
  datatype Attempt = Attempt(interrupts: nat, outcome: Outcome)

  datatype Response = Got(count: nat) | Interrupted | Failed

  /** A file or reader over fixed bytes. Its schedule decides how reads are cut short,
      interrupted or failed; a read returns 0 exactly at the end, every time. */
  class Device {
    const contents: bytes
    const schedule: nat -> Attempt
    var calls: nat
    var pending: nat
    var pos: nat

    constructor (contents: bytes, schedule: nat -> Attempt)
      requires |contents| < POW64
      ensures this.contents == contents && this.schedule == schedule
      ensures Valid() && pos == 0
    {
      this.contents := contents;
      this.schedule := schedule;
      calls := 0;
      pending := schedule(0).interrupts;
      pos := 0;
    }

    ghost predicate Valid()
      reads this
    {
      pos <= |contents| < POW64
    }

    ghost predicate NeverFails() {
      forall i: nat :: schedule(i).outcome.Deliver?
    }

    /** Positioned read into dst[lo..hi]: a short one is allowed. */
    method ReadAt(offset: nat, dst: array<byte>, lo: nat, hi: nat) returns (o: Response)
      requires lo <= hi <= dst.Length
      modifies this`calls, this`pending, dst
      ensures o.Interrupted? ==> pending < old(pending) && dst[..] == old(dst[..])
      ensures o.Failed? ==> !NeverFails() && dst[..] == old(dst[..])
      ensures o.Got? ==>
                && o.count <= hi - lo
                && (o.count == 0 <==> lo == hi || offset >= |contents|)
                && (o.count > 0 ==> offset + o.count <= |contents|)
                && dst[..] == if o.count == 0 then old(dst[..])
                              else Patched(old(dst[..]), lo, contents[offset..offset + o.count])
    {
      if pending > 0 {
        pending := pending - 1;
        return Interrupted;
      }
      var attempt := schedule(calls);
      calls := calls + 1;
      pending := schedule(calls).interrupts;
      match attempt.outcome
      case Fail => o := Failed;
      case Deliver(most) =>
        var left := if offset < |contents| then |contents| - offset else 0;
        var n := if most == 0 then 1 else most;
        n := if n < left then n else left;
        n := if n < hi - lo then n else hi - lo;
        if n > 0 {
          CopyFromSlice(dst, lo, contents[offset..offset + n]);
        }
        o := Got(n);
    }

    /** Sequential read into dst[lo..hi]. */
    method Read(dst: array<byte>, lo: nat, hi: nat) returns (o: Response)
      requires Valid() && lo <= hi <= dst.Length
      modifies this`calls, this`pending, this`pos, dst
      ensures Valid()
      ensures o.Interrupted? ==> pending < old(pending)
      ensures o.Failed? ==> !NeverFails()
      ensures o.Got? ==>
                && o.count <= hi - lo && pos == old(pos) + o.count
                && (o.count == 0 <==> lo == hi || old(pos) == |contents|)
      ensures !o.Got? ==> pos == old(pos)
      ensures dst[..] == Patched(old(dst[..]), lo, contents[old(pos)..pos])
    {
      o := ReadAt(pos, dst, lo, hi);
      if o.Got? {
        pos := pos + o.count;
      }
      assert dst[..] == Patched(old(dst[..]), lo, contents[old(pos)..pos]);
    }
  }

  /** The retry loop of a file source. On success it has the effect of the slice copy; without
      device failures it succeeds exactly when the slice copy does, whatever the schedule. */
  method ReadExactAt(file: Device, offset0: u64, dst: array<byte>, lo: nat, hi: nat)
    returns (r: Result<Unit>)
    requires lo <= hi <= dst.Length && file.Valid()
    modifies file`calls, file`pending, dst
    ensures r.Ok? && lo < hi ==>
              && ReadSlice(file.contents, offset0, hi - lo).Ok?
              && dst[..] == Patched(old(dst[..]), lo, ReadSlice(file.contents, offset0, hi - lo).value)
    ensures lo == hi ==> r.Ok? && dst[..] == old(dst[..])
    ensures file.NeverFails() && lo < hi ==> r.Ok? == ReadSlice(file.contents, offset0, hi - lo).Ok?
    ensures r.Err? && file.NeverFails() ==> r.error == Io(UnexpectedEof)
    ensures dst[..lo] == old(dst[..lo]) && dst[hi..] == old(dst[hi..])
  {
    hide Patched;
    var offset, at := offset0, lo;
    ghost var part: bytes := [];
    PatchedNothing(dst[..], lo);
    while at < hi
      invariant lo <= at <= hi
      invariant offset == offset0 + (at - lo) && |part| == at - lo
      invariant part == [] || (offset <= |file.contents| && part == file.contents[offset0..offset])
      invariant dst[..] == Patched(old(dst[..]), lo, part)
      decreases hi - at, file.pending
    {
      PatchedOutside(old(dst[..]), lo, part, hi);
      var o := file.ReadAt(offset, dst, at, hi);
      match o
      case Interrupted =>
      case Failed => return Err(Io(DeviceFailed));
      case Got(count) =>
        if count == 0 {
          return Err(Io(UnexpectedEof));
        }
        if offset + count >= POW64 {
          return Err(Io(ReadOffsetOverflow));
        }
        PatchedTwice(old(dst[..]), lo, part, file.contents[offset..offset + count]);
        part := part + file.contents[offset..offset + count];
        offset := offset + count;
        at := at + count;
    }
    PatchedOutside(old(dst[..]), lo, part, hi);
    r := Ok(Unit);
  }
}
