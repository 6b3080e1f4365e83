/** The sorted hash index of an opened archive, its checks and the lookups over it. */
module Index {
  import opened Prelude

  type Pair = (u64, nat)

  const MAX_BUCKET: nat := 64

  ghost predicate Sorted(index: seq<Pair>) {
    forall i, j :: 0 <= i < j < |index| ==> index[i].0 <= index[j].0
  }

  function Pairs(entries: seq<TocEntry>): (p: seq<Pair>)
    ensures |p| == |entries|
    ensures forall i :: 0 <= i < |p| ==> p[i] == (entries[i].pathHash, i)
  {
    seq(|entries|, i requires 0 <= i < |entries| => (entries[i].pathHash, i))
  }

  /** Any arrangement an unstable sort by hash may produce. */
  ghost predicate IsIndex(index: seq<Pair>, entries: seq<TocEntry>) {
    Sorted(index) && multiset(index) == multiset(Pairs(entries))
  }

  /** Stands in for the library sort; only its contract is used. */
  method SortUnstableByKey(pairs: seq<Pair>) returns (s: seq<Pair>)
    ensures Sorted(s) && multiset(s) == multiset(pairs)
  {
    s := [];
    for i := 0 to |pairs|
      invariant Sorted(s) && multiset(s) == multiset(pairs[..i])
    {
      var at := PartitionPoint(s, pairs[i].0, true, 0, |s|);
      InsertSorted(s, pairs[i], at);
      s := s[..at] + [pairs[i]] + s[at..];
      assert pairs[..i + 1] == pairs[..i] + [pairs[i]];
    }
    assert pairs[..|pairs|] == pairs;
  }

  lemma InsertSorted(s: seq<Pair>, p: Pair, at: nat)
    requires Sorted(s) && at <= |s|
    requires forall k :: 0 <= k < at ==> s[k].0 <= p.0
    requires forall k :: at <= k < |s| ==> p.0 <= s[k].0
    ensures Sorted(s[..at] + [p] + s[at..])
    ensures multiset(s[..at] + [p] + s[at..]) == multiset(s) + multiset{p}
  {
    assert s == s[..at] + s[at..];
  }

  // ---- binary search ---------------------------------------------------------------

  predicate Before(x: u64, id: u64, inclusive: bool) {
    if inclusive then x <= id else x < id
  }

  /** The first position in [lo, hi) whose id is not before the wanted one. */
  function PartitionPoint(index: seq<Pair>, id: u64, inclusive: bool, lo: nat, hi: nat): (p: nat)
    requires Sorted(index) && lo <= hi <= |index|
    requires forall k :: 0 <= k < lo ==> Before(index[k].0, id, inclusive)
    requires forall k :: hi <= k < |index| ==> !Before(index[k].0, id, inclusive)
    ensures lo <= p <= hi
    ensures forall k :: 0 <= k < p ==> Before(index[k].0, id, inclusive)
    ensures forall k :: p <= k < |index| ==> !Before(index[k].0, id, inclusive)
    decreases hi - lo
  {
    if lo == hi then lo
    else
      var mid := lo + (hi - lo) / 2;
      if Before(index[mid].0, id, inclusive) then PartitionPoint(index, id, inclusive, mid + 1, hi)
      else PartitionPoint(index, id, inclusive, lo, mid)
  }

  lemma SearchesOrdered(index: seq<Pair>, id: u64)
    requires Sorted(index)
    ensures PartitionPoint(index, id, false, 0, |index|) <= PartitionPoint(index, id, true, 0, |index|)
  {
    var end := PartitionPoint(index, id, true, 0, |index|);
    assert end < |index| ==> !Before(index[end].0, id, true);
  }

  /** The positions holding an id, if there are any. */
  function HashRange(index: seq<Pair>, id: u64): (r: Option<(nat, nat)>)
    requires Sorted(index)
    ensures r.None? ==> forall k :: 0 <= k < |index| ==> index[k].0 != id
    ensures r.Some? ==> r.value.0 < r.value.1 <= |index|
    ensures r.Some? ==> forall k :: 0 <= k < |index| ==>
                          (index[k].0 == id <==> r.value.0 <= k < r.value.1)
  {
    var start := PartitionPoint(index, id, false, 0, |index|);
    var end := PartitionPoint(index, id, true, 0, |index|);
    SearchesOrdered(index, id);
    if start != end then Some((start, end)) else None
  }

  function FindInBucket(entries: seq<TocEntry>, index: seq<Pair>, path: bytes, lo: nat, hi: nat)
    : (r: Option<nat>)
    requires lo <= hi <= |index|
    requires forall k :: 0 <= k < |index| ==> index[k].1 < |entries|
    ensures r.Some? ==> exists k :: lo <= k < hi && index[k].1 == r.value && entries[r.value].path == path
    ensures r.None? ==> forall k :: lo <= k < hi ==> entries[index[k].1].path != path
    decreases hi - lo
  {
    if lo == hi then None
    else if entries[index[lo].1].path == path then Some(index[lo].1)
    else FindInBucket(entries, index, path, lo + 1, hi)
  }

  // ---- positions and entries -------------------------------------------------------

  lemma IndexEntry(index: seq<Pair>, entries: seq<TocEntry>, k: nat)
    requires multiset(index) == multiset(Pairs(entries)) && k < |index|
    ensures index[k].1 < |entries| && index[k].0 == entries[index[k].1].pathHash
  {
    assert index[k] in multiset(index);
    assert index[k] in Pairs(entries);
  }

  lemma IndexEntries(index: seq<Pair>, entries: seq<TocEntry>)
    requires multiset(index) == multiset(Pairs(entries))
    ensures |index| == |entries|
    ensures forall k :: 0 <= k < |index| ==>
              index[k].1 < |entries| && index[k].0 == entries[index[k].1].pathHash
  {
    assert |multiset(index)| == |index| && |multiset(Pairs(entries))| == |entries|;
    forall k | 0 <= k < |index|
      ensures index[k].1 < |entries| && index[k].0 == entries[index[k].1].pathHash
    {
      IndexEntry(index, entries, k);
    }
  }

  lemma PositionOf(index: seq<Pair>, entries: seq<TocEntry>, i: nat) returns (k: nat)
    requires multiset(index) == multiset(Pairs(entries)) && i < |entries|
    ensures k < |index| && index[k] == (entries[i].pathHash, i)
  {
    assert Pairs(entries)[i] in multiset(Pairs(entries));
    assert (entries[i].pathHash, i) in index;
    k :| 0 <= k < |index| && index[k] == (entries[i].pathHash, i);
  }

  lemma {:induction false} CountTwice<T>(s: seq<T>, j: nat, k: nat)
    requires j < k < |s| && s[j] == s[k]
    ensures multiset(s)[s[j]] >= 2
  {
    assert s == s[..k] + [s[k]] + s[k + 1..];
    assert s[..k][j] in multiset(s[..k]);
  }

  lemma {:induction false} CountPair(entries: seq<TocEntry>, n: nat, p: Pair)
    requires n <= |entries|
    ensures multiset(Pairs(entries)[..n])[p] <= 1
    ensures p.1 >= n ==> multiset(Pairs(entries)[..n])[p] == 0
  {
    if n > 0 {
      CountPair(entries, n - 1, p);
      assert Pairs(entries)[..n] == Pairs(entries)[..n - 1] + [Pairs(entries)[n - 1]];
    }
  }

  lemma PositionsDiffer(index: seq<Pair>, entries: seq<TocEntry>, j: nat, k: nat)
    requires multiset(index) == multiset(Pairs(entries)) && j < k < |index|
    ensures index[j].1 != index[k].1
  {
    IndexEntries(index, entries);
    if index[j].1 == index[k].1 {
      CountTwice(index, j, k);
      assert Pairs(entries)[..|entries|] == Pairs(entries);
      CountPair(entries, |entries|, index[j]);
    }
  }

  // ---- uniqueness ------------------------------------------------------------------

  function Bucket(entries: seq<TocEntry>, hash: u64): set<nat> {
    set i: nat | i < |entries| && entries[i].pathHash == hash
  }

  ghost predicate DistinctHashes(entries: seq<TocEntry>) {
    forall i, j :: 0 <= i < j < |entries| ==> entries[i].pathHash != entries[j].pathHash
  }

  ghost predicate NoDuplicates(entries: seq<TocEntry>) {
    forall i, j :: 0 <= i < j < |entries| && entries[i].pathHash == entries[j].pathHash ==>
                     entries[i].path != entries[j].path
  }

  /** What the index check demands of the entries. */
  ghost predicate LegalBuckets(entries: seq<TocEntry>, stripped: bool) {
    && (forall h: u64 :: |Bucket(entries, h)| <= MAX_BUCKET)
    && (stripped ==> DistinctHashes(entries))
    && NoDuplicates(entries)
  }

  /** The entries found at positions [lo, hi) of the index. */
  ghost function EntriesAt(index: seq<Pair>, lo: nat, hi: nat): set<nat>
    requires lo <= hi <= |index|
  {
    set k | lo <= k < hi :: index[k].1
  }

  lemma {:induction false} EntriesAtSize(index: seq<Pair>, entries: seq<TocEntry>, lo: nat, hi: nat)
    requires multiset(index) == multiset(Pairs(entries)) && lo <= hi <= |index|
    ensures |EntriesAt(index, lo, hi)| == hi - lo
    decreases hi - lo
  {
    if lo < hi {
      EntriesAtSize(index, entries, lo, hi - 1);
      forall k | lo <= k < hi - 1
        ensures index[k].1 != index[hi - 1].1
      {
        PositionsDiffer(index, entries, k, hi - 1);
      }
      assert EntriesAt(index, lo, hi) == EntriesAt(index, lo, hi - 1) + {index[hi - 1].1};
    } else {
      assert EntriesAt(index, lo, hi) == {};
    }
  }

  /** A run of equal ids in the index is exactly a bucket of entries. */
  lemma RunIsBucket(index: seq<Pair>, entries: seq<TocEntry>, lo: nat, hi: nat, h: u64)
    requires multiset(index) == multiset(Pairs(entries)) && lo <= hi <= |index|
    requires forall k :: 0 <= k < |index| ==> (index[k].0 == h <==> lo <= k < hi)
    ensures EntriesAt(index, lo, hi) == Bucket(entries, h)
    ensures |Bucket(entries, h)| == hi - lo
  {
    IndexEntries(index, entries);
    forall i: nat | i in Bucket(entries, h)
      ensures i in EntriesAt(index, lo, hi)
    {
      var k := PositionOf(index, entries, i);
      assert lo <= k < hi;
    }
    EntriesAtSize(index, entries, lo, hi);
  }

  lemma RunOf(index: seq<Pair>, h: u64) returns (lo: nat, hi: nat)
    requires Sorted(index)
    ensures lo <= hi <= |index|
    ensures forall k :: 0 <= k < |index| ==> (index[k].0 == h <==> lo <= k < hi)
  {
    SearchesOrdered(index, h);
    lo := PartitionPoint(index, h, false, 0, |index|);
    hi := PartitionPoint(index, h, true, 0, |index|);
  }

  /** One bucket: its size, its collisions and its paths. */
  ghost predicate LegalRun(index: seq<Pair>, entries: seq<TocEntry>, stripped: bool, lo: nat, hi: nat)
    requires lo <= hi <= |index|
    requires forall k :: 0 <= k < |index| ==> index[k].1 < |entries|
  {
    && hi - lo <= MAX_BUCKET
    && (stripped ==> hi - lo == 1)
    && (forall j, k :: lo <= j < k < hi ==> entries[index[j].1].path != entries[index[k].1].path)
  }

  method ValidateBucket(entries: seq<TocEntry>, index: seq<Pair>, stripped: bool, start: nat, end: nat)
    returns (r: Result<Unit>)
    requires start < end <= |index|
    requires forall k :: 0 <= k < |index| ==> index[k].1 < |entries|
    ensures r.Ok? <==> LegalRun(index, entries, stripped, start, end)
    ensures r.Err? ==> || (r.error == TooLarge(CollisionBucket) && end - start > MAX_BUCKET)
                       || (r.error == HashCollision(index[start].0) && stripped && end - start > 1)
                       || r.error.DuplicatePath?
    ensures r.Err? && r.error.DuplicatePath? ==>
              exists j, k :: start <= j < k < end && entries[index[j].1].path == r.error.path
                             && entries[index[k].1].path == r.error.path
  {
    if end - start > MAX_BUCKET {
      return Err(TooLarge(CollisionBucket));
    }
    if stripped && end - start != 1 {
      return Err(HashCollision(index[start].0));
    }
    var paths: set<bytes> := {};
    for k := start to end
      invariant forall p :: p in paths <==> exists j :: start <= j < k && entries[index[j].1].path == p
      invariant forall i, j :: start <= i < j < k ==> entries[index[i].1].path != entries[index[j].1].path
    {
      var path := entries[index[k].1].path;
      if path in paths {
        var j :| start <= j < k && entries[index[j].1].path == path;
        return Err(DuplicatePath(path));
      }
      paths := paths + {path};
    }
    r := Ok(Unit);
  }

  /** Accepts exactly the entry lists whose buckets are legal; each error names a real fault. */
  method ValidateIndex(entries: seq<TocEntry>, index: seq<Pair>, stripped: bool)
    returns (r: Result<Unit>)
    requires IsIndex(index, entries)
    ensures r.Ok? <==> LegalBuckets(entries, stripped)
    ensures r == Err(TooLarge(CollisionBucket)) ==> exists h: u64 :: |Bucket(entries, h)| > MAX_BUCKET
    ensures r.Err? && r.error.HashCollision? ==> stripped && |Bucket(entries, r.error.hash)| > 1
    ensures r.Err? && r.error.DuplicatePath? ==>
              exists i, j :: 0 <= i < j < |entries| && entries[i].path == entries[j].path == r.error.path
    ensures r.Err? ==> r.error == TooLarge(CollisionBucket) || r.error.HashCollision?
                       || r.error.DuplicatePath?
  {
    hide LegalBuckets, IsIndex, LegalRun;
    IsIndexMeans(index, entries);
    IndexEntries(index, entries);
    var start := 0;
    while start < |index|
      invariant start <= |index|
      invariant start < |index| ==> forall k :: 0 <= k < start ==> index[k].0 < index[start].0
      invariant RunsLegal(index, entries, stripped, start)
    {
      var end := start + 1;
      while end < |index| && index[end].0 == index[start].0
        invariant start < end <= |index|
        invariant forall k :: start <= k < end ==> index[k].0 == index[start].0
      {
        end := end + 1;
      }
      RunEnds(index, start, end);
      RunIsBucket(index, entries, start, end, index[start].0);
      ghost var legal := LegalRun(index, entries, stripped, start, end);
      if !legal {
        IllegalRun(index, entries, stripped, start, end);
      }
      var step := ValidateBucket(entries, index, stripped, start, end);
      if step.Err? {
        if step.error.DuplicatePath? {
          SharedPath(index, entries, start, end, step.error.path);
        }
        return step;
      }
      RunsExtend(index, entries, stripped, start, end);
      start := end;
    }
    RunsToBuckets(index, entries, stripped);
    r := Ok(Unit);
  }

  lemma SharedPath(index: seq<Pair>, entries: seq<TocEntry>, start: nat, end: nat, path: bytes)
    requires multiset(index) == multiset(Pairs(entries)) && end <= |index|
    requires forall k :: 0 <= k < |index| ==> index[k].1 < |entries|
    requires exists j, k :: start <= j < k < end && entries[index[j].1].path == path
                            && entries[index[k].1].path == path
    ensures exists i, j :: 0 <= i < j < |entries| && entries[i].path == entries[j].path == path
  {
    var j, k :| start <= j < k < end && entries[index[j].1].path == path && entries[index[k].1].path == path;
    PositionsDiffer(index, entries, j, k);
    var a, b := index[j].1, index[k].1;
    if a < b {
      assert entries[a].path == entries[b].path == path;
    } else {
      assert entries[b].path == entries[a].path == path;
    }
  }

  lemma IsIndexMeans(index: seq<Pair>, entries: seq<TocEntry>)
    requires IsIndex(index, entries)
    ensures Sorted(index) && multiset(index) == multiset(Pairs(entries))
  {
  }

  /** Every run that ends at or before `n` is legal. */
  ghost predicate RunsLegal(index: seq<Pair>, entries: seq<TocEntry>, stripped: bool, n: nat)
    requires n <= |index|
    requires forall k :: 0 <= k < |index| ==> index[k].1 < |entries|
  {
    forall lo, hi :: 0 <= lo < hi <= n && IsRun(index, lo, hi) ==>
      LegalRun(index, entries, stripped, lo, hi)
  }

  ghost predicate IsRun(index: seq<Pair>, lo: nat, hi: nat)
    requires lo < hi <= |index|
  {
    forall k :: 0 <= k < |index| ==> (index[k].0 == index[lo].0 <==> lo <= k < hi)
  }

  lemma RunEnds(index: seq<Pair>, start: nat, end: nat)
    requires Sorted(index) && start < end <= |index|
    requires forall k :: 0 <= k < start ==> index[k].0 < index[start].0
    requires forall k :: start <= k < end ==> index[k].0 == index[start].0
    requires end < |index| ==> index[end].0 != index[start].0
    ensures IsRun(index, start, end)
    ensures end < |index| ==> forall k :: 0 <= k < end ==> index[k].0 < index[end].0
  {
  }

  lemma RunsExtend(index: seq<Pair>, entries: seq<TocEntry>, stripped: bool, start: nat, end: nat)
    requires forall k :: 0 <= k < |index| ==> index[k].1 < |entries|
    requires start < end <= |index| && RunsLegal(index, entries, stripped, start)
    requires IsRun(index, start, end) && LegalRun(index, entries, stripped, start, end)
    ensures RunsLegal(index, entries, stripped, end)
  {
    hide LegalRun;
    forall lo, hi | 0 <= lo < hi <= end && IsRun(index, lo, hi)
      ensures LegalRun(index, entries, stripped, lo, hi)
    {
      if hi > start {
        assert index[hi - 1].0 == index[start].0;
        assert index[start].0 == index[lo].0;
        assert index[end - 1].0 == index[lo].0;
      }
    }
  }

  lemma RunsToBuckets(index: seq<Pair>, entries: seq<TocEntry>, stripped: bool)
    requires Sorted(index) && multiset(index) == multiset(Pairs(entries))
    requires |index| == |entries| && forall k :: 0 <= k < |index| ==> index[k].1 < |entries|
    requires RunsLegal(index, entries, stripped, |index|)
    ensures LegalBuckets(entries, stripped)
  {
    forall h: u64
      ensures |Bucket(entries, h)| <= MAX_BUCKET
    {
      var lo, hi := RunOf(index, h);
      RunIsBucket(index, entries, lo, hi, h);
      if lo < hi {
        assert IsRun(index, lo, hi);
      }
    }
    forall i, j | 0 <= i < j < |entries| && entries[i].pathHash == entries[j].pathHash
      ensures !stripped && entries[i].path != entries[j].path
    {
      SameRun(index, entries, stripped, i, j);
    }
  }

  lemma SameRun(index: seq<Pair>, entries: seq<TocEntry>, stripped: bool, i: nat, j: nat)
    requires Sorted(index) && multiset(index) == multiset(Pairs(entries))
    requires |index| == |entries| && forall k :: 0 <= k < |index| ==> index[k].1 < |entries|
    requires RunsLegal(index, entries, stripped, |index|)
    requires i < j < |entries| && entries[i].pathHash == entries[j].pathHash
    ensures !stripped && entries[i].path != entries[j].path
  {
    var a := PositionOf(index, entries, i);
    var b := PositionOf(index, entries, j);
    var lo, hi := RunOf(index, entries[i].pathHash);
    assert lo <= a < hi && lo <= b < hi && a != b;
    assert IsRun(index, lo, hi);
    assert LegalRun(index, entries, stripped, lo, hi);
  }

  lemma IllegalRun(index: seq<Pair>, entries: seq<TocEntry>, stripped: bool, lo: nat, hi: nat)
    requires multiset(index) == multiset(Pairs(entries)) && lo < hi <= |index|
    requires forall k :: 0 <= k < |index| ==> index[k].1 < |entries|
    requires IsRun(index, lo, hi) && !LegalRun(index, entries, stripped, lo, hi)
    ensures !LegalBuckets(entries, stripped)
  {
    var h := index[lo].0;
    IndexEntries(index, entries);
    RunIsBucket(index, entries, lo, hi, h);
    if LegalBuckets(entries, stripped) {
      if stripped && hi - lo > 1 {
        PositionsDiffer(index, entries, lo, lo + 1);
      }
      forall j, k | lo <= j < k < hi
        ensures entries[index[j].1].path != entries[index[k].1].path
      {
        PositionsDiffer(index, entries, j, k);
        assert entries[index[j].1].pathHash == entries[index[k].1].pathHash;
      }
    }
  }

  // ---- lookups ---------------------------------------------------------------------

  /** In a debug archive every path carries its own hash. */
  ghost predicate HashesTied(env: Env, entries: seq<TocEntry>) {
    forall i :: 0 <= i < |entries| ==> entries[i].pathHash == env.xxh3(entries[i].path)
  }

  /** The entry a normalized path stands for. */
  ghost predicate Names(env: Env, entries: seq<TocEntry>, stripped: bool, path: bytes, i: nat) {
    && i < |entries|
    && if stripped then entries[i].pathHash == env.xxh3(path) else entries[i].path == path
  }

  /** Checking bucket by bucket makes names unique across the whole archive. */
  lemma NamesAreUnique(env: Env, entries: seq<TocEntry>, stripped: bool, path: bytes, i: nat, j: nat)
    requires LegalBuckets(entries, stripped) && (stripped || HashesTied(env, entries))
    requires Names(env, entries, stripped, path, i) && Names(env, entries, stripped, path, j)
    ensures i == j
  {
  }

  lemma PathsAreUnique(env: Env, entries: seq<TocEntry>)
    requires LegalBuckets(entries, false) && HashesTied(env, entries)
    ensures forall i, j :: 0 <= i < j < |entries| ==> entries[i].path != entries[j].path
  {
    forall i, j | 0 <= i < j < |entries|
      ensures entries[i].path != entries[j].path
    {
      if entries[i].path == entries[j].path {
        NamesAreUnique(env, entries, false, entries[i].path, i, j);
      }
    }
  }

  function FindNormalized(env: Env, entries: seq<TocEntry>, index: seq<Pair>, stripped: bool, path: bytes)
    : Result<nat>
    requires IsIndex(index, entries)
  {
    IndexEntries(index, entries);
    match HashRange(index, env.xxh3(path))
    case None => Err(NotFound(ByPath(path)))
    case Some(range) =>
      if stripped then Ok(index[range.0].1)
      else
        match FindInBucket(entries, index, path, range.0, range.1)
        case Some(i) => Ok(i)
        case None => Err(NotFound(ByPath(path)))
  }

  function FindById(entries: seq<TocEntry>, index: seq<Pair>, id: u64): Result<nat>
    requires IsIndex(index, entries)
  {
    match HashRange(index, id)
    case None => Err(NotFound(ByHash(id)))
    case Some(range) =>
      if range.1 - range.0 != 1 then Err(HashCollision(id)) else Ok(index[range.0].1)
  }

  /** The binary searches and the bucket scan agree with looking at every entry. */
  lemma LookupIsLinearScan(env: Env, entries: seq<TocEntry>, index: seq<Pair>, stripped: bool, path: bytes)
    requires IsIndex(index, entries) && LegalBuckets(entries, stripped)
    requires stripped || HashesTied(env, entries)
    ensures forall i: nat :: FindNormalized(env, entries, index, stripped, path) == Ok(i) <==>
                             Names(env, entries, stripped, path, i)
    ensures FindNormalized(env, entries, index, stripped, path).Err? <==>
            forall i: nat :: !Names(env, entries, stripped, path, i)
    ensures FindNormalized(env, entries, index, stripped, path).Err? ==>
              FindNormalized(env, entries, index, stripped, path).error == NotFound(ByPath(path))
  {
    hide LegalBuckets, FindInBucket;
    IndexEntries(index, entries);
    var r := FindNormalized(env, entries, index, stripped, path);
    if r.Ok? {
      assert Names(env, entries, stripped, path, r.value);
    }
    forall i: nat | Names(env, entries, stripped, path, i)
      ensures r == Ok(i)
    {
      var k := PositionOf(index, entries, i);
      assert r.Ok?;
      NamesAreUnique(env, entries, stripped, path, i, r.value);
    }
  }

  /** Lookup by id answers by the number of entries with that hash. */
  lemma FindByIdCounts(entries: seq<TocEntry>, index: seq<Pair>, id: u64)
    requires IsIndex(index, entries)
    ensures FindById(entries, index, id) == Err(NotFound(ByHash(id))) <==> Bucket(entries, id) == {}
    ensures FindById(entries, index, id) == Err(HashCollision(id)) <==> |Bucket(entries, id)| > 1
    ensures forall i: nat :: FindById(entries, index, id) == Ok(i) <==> Bucket(entries, id) == {i}
  {
    IndexEntries(index, entries);
    match HashRange(index, id)
    case None =>
      RunIsBucket(index, entries, 0, 0, id);
      assert EntriesAt(index, 0, 0) == {};
    case Some(range) =>
      RunIsBucket(index, entries, range.0, range.1, id);
      if range.1 - range.0 == 1 {
        assert EntriesAt(index, range.0, range.1) == {index[range.0].1};
      }
  }
}
