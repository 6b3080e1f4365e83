/** Scratch reuse is invisible: any sequence of reads through one scratch, of any archives and
    with failures in between, gives what each read gives by itself. */
module Sharing {
  import opened Prelude
  import opened Archive
  import opened Reader
  import opened Access

  datatype Operation =
    | Whole(path: bytes)
    | OneChunk(path: bytes, local: u32)
    | Part(path: bytes, offset: u64)

  datatype Request = Request(archive: Archive, operation: Operation)

  /** What a request into a buffer of n bytes gives, whatever happened before. */
  function Answer(env: Env, q: Request, n: u64): Result<bytes>
    requires env.Lawful() && WellFormed(env, q.archive)
  {
    var a := q.archive;
    match q.operation
    case Whole(path) => ReadIntoResult(env, a, path, n)
    case OneChunk(path, local) => ReadChunkIntoResult(env, a, path, local, n)
    case Part(path, offset) => RangeResult(env, a, path, offset, n, false)
  }

  /** How far a request may write into a buffer of n bytes, even if it fails. */
  function Touched(env: Env, q: Request, n: u64): (t: nat)
    requires WellFormed(env, q.archive)
    ensures t <= n
  {
    match q.operation
    case Whole(path) => if AssetFits(env, q.archive, path, n) then n else 0
    case OneChunk(path, local) => if ChunkFits(env, q.archive, path, local, n) then n else 0
    case Part(path, offset) => RangeSize(env, q.archive, path, offset, n)
  }

  /** A buffer holds the answer in front, of length `r`, and what it held before behind; after
      a failure at least the bytes out of the request's reach are what they were. */
  ghost predicate Holds(answer: Result<bytes>, touched: nat, r: Result<nat>, before: bytes, after: bytes) {
    && touched <= |before| == |after|
    && after[touched..] == before[touched..]
    && match answer
       case Err(error) => r == Err(error)
       case Ok(data) => r == Ok(|data|) && |data| <= |before| && after == data + before[|data|..]
  }

  lemma HoldsFront(answer: Result<bytes>, touched: nat, n: nat, before: bytes, after: bytes)
    requires n <= |before| == |after| && answer == Ok(after[..n]) && after[n..] == before[n..]
    requires touched <= |before| && after[touched..] == before[touched..]
    ensures Holds(answer, touched, Ok(n), before, after)
  {
  }

  lemma HoldsNothing(answer: Result<bytes>, touched: nat, error: Error, before: bytes, after: bytes)
    requires answer == Err(error)
    requires touched <= |before| == |after| && after[touched..] == before[touched..]
    ensures Holds(answer, touched, Err(error), before, after)
  {
  }

  method ServeWhole(env: Env, a: Archive, path: bytes, dst: array<byte>, scratch: ArchiveScratch)
    returns (r: Result<nat>)
    requires env.Lawful() && WellFormed(env, a) && scratch.Apart(dst) && dst.Length < POW64
    modifies dst, scratch, scratch.stored, scratch.decoded
    ensures scratch.Apart(dst)
    ensures scratch.stored == old(scratch.stored) || fresh(scratch.stored)
    ensures scratch.decoded == old(scratch.decoded) || fresh(scratch.decoded)
    ensures var q := Request(a, Whole(path));
            Holds(Answer(env, q, dst.Length), Touched(env, q, dst.Length), r, old(dst[..]), dst[..])
  {
    hide WellFormed, ReadIntoResult, ReadChunkIntoResult, RangeResult, RangeSize, AssetFits, ChunkFits, Holds;
    ghost var q, before := Request(a, Whole(path)), dst[..];
    ghost var answer, touched := Answer(env, q, dst.Length), Touched(env, q, dst.Length);
    var step := ReadIntoWithScratch(env, a, path, dst, scratch);
    if step.Err? {
      HoldsNothing(answer, touched, step.error, before, dst[..]);
      return Err(step.error);
    }
    assert dst[..][..dst.Length] == dst[0..dst.Length] == dst[..];
    HoldsFront(answer, touched, dst.Length, before, dst[..]);
    r := Ok(dst.Length);
  }

  method ServeChunk(env: Env, a: Archive, path: bytes, local: u32, dst: array<byte>, scratch: ArchiveScratch)
    returns (r: Result<nat>)
    requires env.Lawful() && WellFormed(env, a) && scratch.Apart(dst) && dst.Length < POW64
    modifies dst, scratch, scratch.stored, scratch.decoded
    ensures scratch.Apart(dst)
    ensures scratch.stored == old(scratch.stored) || fresh(scratch.stored)
    ensures scratch.decoded == old(scratch.decoded) || fresh(scratch.decoded)
    ensures var q := Request(a, OneChunk(path, local));
            Holds(Answer(env, q, dst.Length), Touched(env, q, dst.Length), r, old(dst[..]), dst[..])
  {
    hide WellFormed, ReadIntoResult, ReadChunkIntoResult, RangeResult, RangeSize, AssetFits, ChunkFits, Holds;
    ghost var q, before := Request(a, OneChunk(path, local)), dst[..];
    ghost var answer, touched := Answer(env, q, dst.Length), Touched(env, q, dst.Length);
    var step := ReadChunkIntoWithScratch(env, a, path, local, dst, scratch);
    if step.Err? {
      HoldsNothing(answer, touched, step.error, before, dst[..]);
      return Err(step.error);
    }
    assert dst[..][..dst.Length] == dst[0..dst.Length] == dst[..];
    HoldsFront(answer, touched, dst.Length, before, dst[..]);
    r := Ok(dst.Length);
  }

  method ServePart(env: Env, a: Archive, path: bytes, offset: u64, dst: array<byte>, scratch: ArchiveScratch)
    returns (r: Result<nat>)
    requires env.Lawful() && WellFormed(env, a) && scratch.Apart(dst) && dst.Length < POW64
    modifies dst, scratch, scratch.stored, scratch.decoded
    ensures scratch.Apart(dst)
    ensures scratch.stored == old(scratch.stored) || fresh(scratch.stored)
    ensures scratch.decoded == old(scratch.decoded) || fresh(scratch.decoded)
    ensures var q := Request(a, Part(path, offset));
            Holds(Answer(env, q, dst.Length), Touched(env, q, dst.Length), r, old(dst[..]), dst[..])
  {
    hide WellFormed, ReadIntoResult, ReadChunkIntoResult, RangeResult, RangeSize, AssetFits, ChunkFits, Holds;
    ghost var q, before := Request(a, Part(path, offset)), dst[..];
    ghost var answer, touched := Answer(env, q, dst.Length), Touched(env, q, dst.Length);
    r := ReadRangeWithScratch(env, a, path, offset, dst, scratch);
    if r.Err? {
      HoldsNothing(answer, touched, r.error, before, dst[..]);
    } else {
      assert dst[..][..r.value] == dst[..r.value] && dst[..][r.value..] == dst[r.value..];
      HoldsFront(answer, touched, r.value, before, dst[..]);
    }
  }

  method Serve(env: Env, q: Request, dst: array<byte>, scratch: ArchiveScratch)
    returns (r: Result<nat>)
    requires env.Lawful() && WellFormed(env, q.archive) && scratch.Apart(dst) && dst.Length < POW64
    modifies dst, scratch, scratch.stored, scratch.decoded
    ensures scratch.Apart(dst)
    ensures scratch.stored == old(scratch.stored) || fresh(scratch.stored)
    ensures scratch.decoded == old(scratch.decoded) || fresh(scratch.decoded)
    ensures Holds(Answer(env, q, dst.Length), Touched(env, q, dst.Length), r,
                  old(dst[..]), dst[..])
  {
    hide WellFormed, Answer, Touched, Holds;
    match q.operation
    case Whole(path) => r := ServeWhole(env, q.archive, path, dst, scratch);
    case OneChunk(path, local) => r := ServeChunk(env, q.archive, path, local, dst, scratch);
    case Part(path, offset) => r := ServePart(env, q.archive, path, offset, dst, scratch);
  }

  /** Serves the requests one after the other, each into its own buffer, all with one scratch. */
  method ServeAll(env: Env, requests: seq<Request>, dsts: seq<array<byte>>, scratch: ArchiveScratch)
    returns (results: seq<Result<nat>>)
    requires env.Lawful() && |requests| == |dsts| && scratch.Valid()
    requires forall i :: 0 <= i < |requests| ==> WellFormed(env, requests[i].archive)
    requires forall i :: 0 <= i < |dsts| ==> scratch.Apart(dsts[i]) && dsts[i].Length < POW64
    requires forall i, j :: 0 <= i < j < |dsts| ==> dsts[i] != dsts[j]
    modifies dsts, scratch, scratch.stored, scratch.decoded
    ensures |results| == |requests|
    ensures forall i :: 0 <= i < |requests| ==>
              Holds(Answer(env, requests[i], dsts[i].Length), Touched(env, requests[i], dsts[i].Length),
                    results[i], old(dsts[i][..]), dsts[i][..])
  {
    hide WellFormed, Answer, Touched, Holds;
    results := [];
    for n := 0 to |requests|
      invariant |results| == n
      invariant scratch.stored == old(scratch.stored) || fresh(scratch.stored)
      invariant scratch.decoded == old(scratch.decoded) || fresh(scratch.decoded)
      invariant forall i :: 0 <= i < |dsts| ==> scratch.Apart(dsts[i])
      invariant forall i :: n <= i < |dsts| ==> dsts[i][..] == old(dsts[i][..])
      invariant forall i :: 0 <= i < n ==>
                  Holds(Answer(env, requests[i], dsts[i].Length), Touched(env, requests[i], dsts[i].Length),
                    results[i], old(dsts[i][..]), dsts[i][..])
    {
      var r := Serve(env, requests[n], dsts[n], scratch);
      results := results + [r];
    }
  }
}
