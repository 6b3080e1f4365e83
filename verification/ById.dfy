/** Reads by id: whose bytes they return. */
module ById {
  import opened Prelude
  import opened Index
  import opened Archive
  import opened Access

  /** The only entry with that hash is the one that is read; damage is reported under its hash
      in production and under its path otherwise. */
  lemma ReadByIdIs(env: Env, a: Archive, id: u64, i: nat)
    requires WellFormed(env, a) && Bucket(a.entries, id) == {i}
    ensures i < |a.entries| && EntryOf(a, a.entries[i])
    ensures ReadByIdResult(env, a, id) ==
            EntryData(env, a, if a.pathsStripped then ByHash(id) else ByPath(a.entries[i].path), i)
  {
    hide WellFormed, EntryData, FindById;
    assert i in Bucket(a.entries, id);
    IndexOfArchive(env, a);
    FindByIdCounts(a.entries, a.index, id);
    EntryIsLegal(env, a, i);
  }

  lemma ReadByIdFails(env: Env, a: Archive, id: u64)
    requires WellFormed(env, a)
    ensures Bucket(a.entries, id) == {} ==> ReadByIdResult(env, a, id) == Err(NotFound(ByHash(id)))
    ensures |Bucket(a.entries, id)| > 1 ==> ReadByIdResult(env, a, id) == Err(HashCollision(id))
  {
    hide WellFormed, EntryData, FindById;
    IndexOfArchive(env, a);
    FindByIdCounts(a.entries, a.index, id);
  }

  /** Reading by the hash of a path and by the path itself come to the same, unless other
      entries share the hash. */
  lemma ByIdAgreesWithPath(env: Env, a: Archive, path: bytes)
    requires WellFormed(env, a) && Located(env, a, path).Ok?
    requires |Bucket(a.entries, env.xxh3(Located(env, a, path).value.0))| <= 1
    ensures var p, q := ReadByIdResult(env, a, env.xxh3(Located(env, a, path).value.0)), ReadResult(env, a, path);
            p.Ok? == q.Ok? && (p.Ok? ==> p == q)
  {
    hide WellFormed, Located, ChunksData, Names;
    var (n, i) := Located(env, a, path).value;
    HashOfNamed(env, a, n, i);
    var id := env.xxh3(n);
    assert i in Bucket(a.entries, id);
    OnlyMember(Bucket(a.entries, id), i);
    ReadByIdIs(env, a, id, i);
    LabelIsOnlyReported(env, a, if a.pathsStripped then ByHash(id) else ByPath(a.entries[i].path), ByPath(n),
                        a.entries[i], 0, a.entries[i].chunkCount);
  }

  lemma HashOfNamed(env: Env, a: Archive, name: bytes, i: nat)
    requires WellFormed(env, a) && Names(env, a.entries, a.pathsStripped, name, i)
    ensures i < |a.entries| && a.entries[i].pathHash == env.xxh3(name)
  {
    hide LegalBuckets, IsIndex;
  }

  lemma OnlyMember(s: set<nat>, i: nat)
    requires i in s && |s| <= 1
    ensures s == {i}
  {
    assert |s - {i}| == 0;
  }

  /** In production hashes are unique, so there the two always agree. */
  lemma ProductionHashesAreUnique(env: Env, a: Archive, id: u64)
    requires WellFormed(env, a) && a.pathsStripped
    ensures |Bucket(a.entries, id)| <= 1
  {
    var bucket := Bucket(a.entries, id);
    if i: nat :| i in bucket {
      assert forall j: nat :: j in bucket ==> j == i;
      assert bucket == {i};
    }
  }
}
