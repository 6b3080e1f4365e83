/** Path normalization: the text rules every path goes through before it is hashed. */
module Path {
  import opened Prelude

  const SLASH: byte := 0x2F
  const BACKSLASH: byte := 0x5C
  const DOT: byte := 0x2E

  predicate IsSeparator(c: byte) {
    c == SLASH || c == BACKSLASH
  }

  /** The pieces between separators, empty ones included: always at least one. */
  function Split(s: bytes): (parts: seq<bytes>)
    ensures |parts| > 0
  {
    if s == [] then [[]]
    else
      var rest := Split(s[1..]);
      if IsSeparator(s[0]) then [[]] + rest
      else [[s[0]] + rest[0]] + rest[1..]
  }

  predicate IsKept(part: bytes) {
    part != [] && part != [DOT]
  }

  function Kept(parts: seq<bytes>): seq<bytes> {
    if parts == [] then []
    else if IsKept(parts[0]) then [parts[0]] + Kept(parts[1..])
    else Kept(parts[1..])
  }

  function Join(segments: seq<bytes>): bytes {
    if segments == [] then []
    else if |segments| == 1 then segments[0]
    else segments[0] + [SLASH] + Join(segments[1..])
  }

  /** The inputs that have a normal form. */
  predicate Acceptable(path: bytes) {
    && |path| <= MAX_PATH_LEN
    && 0 !in path
    && (path != [] ==> !IsSeparator(path[0]))
    && |Split(path)| <= MAX_PATH_SEGMENTS
    && [DOT, DOT] !in Split(path)
    && Kept(Split(path)) != []
  }

  /** Split on either slash, drop empty and "." pieces, join with "/". */
  function Normalize(path: bytes): Result<bytes> {
    if Acceptable(path) then Ok(Join(Kept(Split(path)))) else Err(InvalidPath)
  }

  /** The loop of the source, with its early returns. */
  method NormalizePath(path: bytes) returns (r: Result<bytes>)
    ensures r == Normalize(path)
  {
    if |path| > MAX_PATH_LEN || 0 in path {
      return Err(InvalidPath);
    }
    if path != [] && IsSeparator(path[0]) {
      return Err(InvalidPath);
    }
    var parts := Split(path);
    var normalized: bytes := [];
    for index := 0 to |parts|
      invariant index <= MAX_PATH_SEGMENTS
      invariant [DOT, DOT] !in parts[..index]
      invariant normalized == Join(Kept(parts[..index]))
    {
      if index >= MAX_PATH_SEGMENTS {
        return Err(InvalidPath);
      }
      var part := parts[index];
      PieceStep(parts, index);
      if part == [] || part == [DOT] {
      } else if part == [DOT, DOT] {
        return Err(InvalidPath);
      } else {
        if normalized != [] {
          normalized := normalized + [SLASH];
        }
        normalized := normalized + part;
      }
    }
    assert parts[..|parts|] == parts;
    NormalFormSize(path);
    if normalized != [] && |normalized| <= MAX_PATH_LEN {
      return Ok(normalized);
    }
    return Err(InvalidPath);
  }

  /** What one more piece does to the normal form built so far. */
  lemma PieceStep(parts: seq<bytes>, i: nat)
    requires i < |parts|
    ensures [DOT, DOT] in parts[..i + 1] <==> [DOT, DOT] in parts[..i] || parts[i] == [DOT, DOT]
    ensures parts[i] in parts
    ensures Join(Kept(parts[..i + 1])) ==
            var before := Join(Kept(parts[..i]));
            if !IsKept(parts[i]) then before
            else (if before == [] then [] else before + [SLASH]) + parts[i]
  {
    assert parts[..i + 1] == parts[..i] + [parts[i]];
    KeptSnoc(parts, i);
    JoinSnoc(Kept(parts[..i]), parts[i]);
    JoinOfKept(parts[..i]);
    var kept := Kept(parts[..i]);
    assert kept + [] == kept;
    assert [] + parts[i] == parts[i];
  }

  lemma JoinOfKept(parts: seq<bytes>)
    ensures Join(Kept(parts)) == [] <==> Kept(parts) == []
  {
    KeptNonEmpty(parts);
    if Kept(parts) != [] {
      assert Kept(parts)[0] in Kept(parts);
    }
  }

  lemma NormalFormSize(path: bytes)
    ensures |Join(Kept(Split(path)))| <= |path|
    ensures Join(Kept(Split(path))) == [] <==> Kept(Split(path)) == []
  {
    JoinShrinks(Split(path));
    JoinOfSplit(path);
    JoinOfKept(Split(path));
  }

  // ---- splitting and joining -------------------------------------------------------

  lemma {:induction false} KeptConcat(a: seq<bytes>, b: seq<bytes>)
    ensures Kept(a + b) == Kept(a) + Kept(b)
  {
    if a == [] {
      assert a + b == b;
    } else {
      assert (a + b)[1..] == a[1..] + b;
      KeptConcat(a[1..], b);
    }
  }

  lemma KeptSnoc(parts: seq<bytes>, i: nat)
    requires i < |parts|
    ensures Kept(parts[..i + 1]) ==
            Kept(parts[..i]) + (if IsKept(parts[i]) then [parts[i]] else [])
  {
    assert parts[..i + 1] == parts[..i] + [parts[i]];
    KeptConcat(parts[..i], [parts[i]]);
  }

  lemma {:induction false} KeptNonEmpty(parts: seq<bytes>)
    ensures forall s :: s in Kept(parts) <==> s in parts && IsKept(s)
  {
    if parts != [] {
      KeptNonEmpty(parts[1..]);
      assert parts == [parts[0]] + parts[1..];
    }
  }

  lemma {:induction false} JoinSnoc(segments: seq<bytes>, part: bytes)
    ensures Join(segments + [part]) ==
            if segments == [] then part else Join(segments) + [SLASH] + part
  {
    if |segments| > 0 {
      JoinSnoc(segments[1..], part);
      assert (segments + [part])[1..] == segments[1..] + [part];
    }
  }

  lemma {:induction false} JoinShrinks(parts: seq<bytes>)
    ensures |Join(Kept(parts))| <= |Join(parts)|
  {
    if parts != [] {
      JoinShrinks(parts[1..]);
      var rest := Kept(parts[1..]);
      assert ([parts[0]] + rest)[1..] == rest;
      if parts[1..] == [] {
        assert rest == [];
      }
    }
  }

  /** Only the spelling of the separators is lost by splitting. */
  lemma {:induction false} JoinOfSplit(s: bytes)
    ensures |Join(Split(s))| == |s|
  {
    if s != [] {
      var rest := Split(s[1..]);
      JoinOfSplit(s[1..]);
      if IsSeparator(s[0]) {
        assert ([[]] + rest)[1..] == rest;
      } else {
        var parts := [[s[0]] + rest[0]] + rest[1..];
        assert parts[1..] == rest[1..];
      }
    }
  }

  ghost predicate IsSegment(s: bytes) {
    forall i :: 0 <= i < |s| ==> !IsSeparator(s[i])
  }

  lemma {:induction false} SplitPieces(s: bytes, c: byte)
    ensures forall p :: p in Split(s) ==> IsSegment(p)
    ensures c !in s ==> forall p :: p in Split(s) ==> c !in p
  {
    if s != [] {
      SplitPieces(s[1..], c);
      var rest := Split(s[1..]);
      assert rest[0] in rest;
      assert forall p :: p in rest[1..] ==> p in rest;
      assert c !in s ==> c !in s[1..] && c != s[0];
    }
  }

  lemma {:induction false} SplitSegment(s: bytes)
    requires IsSegment(s)
    ensures Split(s) == [s]
  {
    if s != [] {
      assert forall i :: 0 <= i < |s[1..]| ==> s[1..][i] == s[i + 1];
      SplitSegment(s[1..]);
      assert s == [s[0]] + s[1..];
    }
  }

  lemma {:induction false} SplitAtSlash(segment: bytes, rest: bytes)
    requires IsSegment(segment)
    ensures Split(segment + [SLASH] + rest) == [segment] + Split(rest)
  {
    var s := segment + [SLASH] + rest;
    if segment == [] {
      assert s[1..] == rest;
    } else {
      assert forall i :: 0 <= i < |segment[1..]| ==> segment[1..][i] == segment[i + 1];
      SplitAtSlash(segment[1..], rest);
      assert s[1..] == segment[1..] + [SLASH] + rest;
      assert segment == [segment[0]] + segment[1..];
    }
  }

  /** Splitting undoes joining. */
  lemma {:induction false} SplitOfJoin(segments: seq<bytes>)
    requires segments != []
    requires forall s :: s in segments ==> IsSegment(s)
    ensures Split(Join(segments)) == segments
  {
    if |segments| == 1 {
      SplitSegment(segments[0]);
    } else {
      SplitOfJoin(segments[1..]);
      SplitAtSlash(segments[0], Join(segments[1..]));
    }
  }

  lemma {:induction false} KeptAll(segments: seq<bytes>)
    requires forall s :: s in segments ==> IsKept(s)
    ensures Kept(segments) == segments
  {
    if segments != [] {
      KeptAll(segments[1..]);
    }
  }

  lemma {:induction false} KeptNoLonger(parts: seq<bytes>)
    ensures |Kept(parts)| <= |parts|
  {
    if parts != [] {
      KeptNoLonger(parts[1..]);
    }
  }

  lemma {:induction false} JoinBytes(segments: seq<bytes>, c: byte)
    requires c != SLASH
    requires forall s :: s in segments ==> c !in s
    ensures c !in Join(segments)
  {
    if segments != [] {
      JoinBytes(segments[1..], c);
    }
  }

  lemma JoinStart(segments: seq<bytes>)
    requires segments != [] && segments[0] != []
    ensures Join(segments) != [] && Join(segments)[0] == segments[0][0]
  {
  }

  // ---- what normal forms are -------------------------------------------------------

  /** Every piece of a normal form is a proper name. */
  ghost predicate Clean(path: bytes) {
    && path != []
    && 0 !in path
    && BACKSLASH !in path
    && (forall p :: p in Split(path) ==> p != [] && p != [DOT] && p != [DOT, DOT])
  }

  lemma NormalForm(path: bytes)
    requires Acceptable(path)
    ensures var n := Join(Kept(Split(path)));
            && Split(n) == Kept(Split(path)) && |n| <= |path| && Clean(n) && Acceptable(n)
  {
    var parts := Split(path);
    var kept := Kept(parts);
    var n := Join(kept);
    KeptNonEmpty(parts);
    SplitPieces(path, 0);
    SplitOfJoin(kept);
    JoinShrinks(parts);
    JoinOfSplit(path);
    JoinBytes(kept, 0);
    assert kept[0] in kept;
    JoinStart(kept);
    forall s | s in kept
      ensures BACKSLASH !in s && IsKept(s)
    {
      assert IsSegment(s);
    }
    JoinBytes(kept, BACKSLASH);
    KeptAll(kept);
    KeptNoLonger(parts);
    assert IsSegment(kept[0]);
  }

  /** The output never grows and contains no NUL, no backslash and no empty, "." or ".." piece. */
  lemma NormalizedIsClean(path: bytes)
    requires Normalize(path).Ok?
    ensures Clean(Normalize(path).value) && |Normalize(path).value| <= |path|
  {
    NormalForm(path);
  }

  /** Normalizing twice changes nothing. */
  lemma NormalizeIdempotent(path: bytes)
    requires Normalize(path).Ok?
    ensures Normalize(Normalize(path).value) == Normalize(path)
  {
    NormalForm(path);
    KeptNonEmpty(Split(path));
    KeptAll(Kept(Split(path)));
  }

  /** Two accepted spellings name the same asset exactly when their kept pieces agree. */
  lemma NormalizeSeparates(p: bytes, q: bytes)
    requires Acceptable(p) && Acceptable(q)
    ensures Normalize(p) == Normalize(q) <==> Kept(Split(p)) == Kept(Split(q))
  {
    NormalForm(p);
    NormalForm(q);
  }

  /** The normal forms are exactly the short clean paths with at most 1024 pieces. */
  lemma NormalFormsAreCleanPaths(path: bytes)
    ensures Normalize(path) == Ok(path) <==>
            Clean(path) && |path| <= MAX_PATH_LEN && |Split(path)| <= MAX_PATH_SEGMENTS
  {
    if Normalize(path) == Ok(path) {
      NormalForm(path);
    }
    if Clean(path) && |path| <= MAX_PATH_LEN && |Split(path)| <= MAX_PATH_SEGMENTS {
      KeptAll(Split(path));
      if IsSeparator(path[0]) {
        LeadingSeparator(path);
      }
      JoinWithSlashes(path);
    }
  }

  lemma LeadingSeparator(path: bytes)
    requires path != [] && IsSeparator(path[0])
    ensures [] in Split(path)
  {
    assert Split(path)[0] == [];
  }

  lemma {:induction false} JoinWithSlashes(path: bytes)
    requires BACKSLASH !in path
    ensures Join(Split(path)) == path
  {
    if path != [] {
      JoinWithSlashes(path[1..]);
      var rest := Split(path[1..]);
      if IsSeparator(path[0]) {
        assert ([[]] + rest)[1..] == rest;
      } else {
        assert ([[path[0]] + rest[0]] + rest[1..])[1..] == rest[1..];
      }
      assert path == [path[0]] + path[1..];
    }
  }

  // ---- what is rejected ------------------------------------------------------------

  function Separators(s: bytes): nat {
    if s == [] then 0 else Separators(s[1..]) + if s[0] == 0x2F || s[0] == 0x5C then 1 else 0
  }

  lemma {:induction false} PieceCount(s: bytes)
    ensures |Split(s)| == Separators(s) + 1
  {
    if s != [] {
      PieceCount(s[1..]);
    }
  }

  lemma {:induction false} NothingKept(parts: seq<bytes>)
    ensures Kept(parts) == [] <==> forall p :: p in parts ==> p == [] || p == [0x2E]
  {
    if parts != [] {
      NothingKept(parts[1..]);
      assert parts[0] in parts;
      assert forall p :: p in parts[1..] ==> p in parts;
      assert IsKept(parts[0]) ==> Kept(parts)[0] == parts[0];
      if Kept(parts) == [] {
        forall p | p in parts
          ensures p == [] || p == [0x2E]
        {
          assert p == parts[0] || p in parts[1..];
        }
      }
    }
  }

  /** A path is rejected exactly when it is too long, contains a NUL, starts with a slash of
      either kind, has more than 1024 pieces or one that is "..", or has no piece to keep. */
  lemma RejectedExactly(path: bytes)
    ensures Normalize(path).Err? ==> Normalize(path) == Err(InvalidPath)
    ensures Normalize(path).Err? <==>
            || |path| > 0xFFFF
            || (exists i :: 0 <= i < |path| && path[i] == 0)
            || (path != [] && (path[0] == 0x2F || path[0] == 0x5C))
            || Separators(path) >= 1024
            || (exists p :: p in Split(path) && p == [0x2E, 0x2E])
            || (forall p :: p in Split(path) ==> p == [] || p == [0x2E])
  {
    hide Split, Kept, Join, Separators;
    PieceCount(path);
    NothingKept(Split(path));
  }

  // ---- text ------------------------------------------------------------------------

  predicate IsTail(b: byte) {
    0x80 <= b <= 0xBF
  }

  /** The length of the character at the start, by section 4 of RFC 3629; 0 if there is none. */
  function Lead(s: bytes): (n: nat)
    requires s != []
    ensures n <= |s| && n <= 4
  {
    var b := s[0];
    if b < 0x80 then 1
    else if 0xC2 <= b <= 0xDF && |s| >= 2 && IsTail(s[1]) then 2
    else if 0xE0 <= b <= 0xEF && |s| >= 3 && IsTail(s[1]) && IsTail(s[2])
            && (b == 0xE0 ==> s[1] >= 0xA0) && (b == 0xED ==> s[1] <= 0x9F) then 3
    else if 0xF0 <= b <= 0xF4 && |s| >= 4 && IsTail(s[1]) && IsTail(s[2]) && IsTail(s[3])
            && (b == 0xF0 ==> s[1] >= 0x90) && (b == 0xF4 ==> s[1] <= 0x8F) then 4
    else 0
  }

  predicate IsUtf8(s: bytes) {
    s == [] || (Lead(s) > 0 && IsUtf8(s[Lead(s)..]))
  }

  type text = s: bytes | IsUtf8(s)

  lemma LeadExtends(a: bytes, b: bytes)
    requires a != [] && Lead(a) > 0
    ensures Lead(a + b) == Lead(a)
  {
  }

  lemma Utf8Rest(s: bytes)
    requires IsUtf8(s) && s != []
    ensures Lead(s) > 0 && IsUtf8(s[Lead(s)..])
  {
    hide Lead;
  }

  lemma Utf8Cons(s: bytes, n: nat)
    requires s != [] && Lead(s) == n > 0 && IsUtf8(s[n..])
    ensures IsUtf8(s)
  {
    hide Lead;
  }

  lemma {:induction false} Utf8Concat(a: bytes, b: bytes)
    requires IsUtf8(a) && IsUtf8(b)
    ensures IsUtf8(a + b)
  {
    hide Lead, IsUtf8;
    if a == [] {
      assert a + b == b;
    } else {
      var n := Lead(a);
      Utf8Rest(a);
      LeadExtends(a, b);
      Utf8Concat(a[n..], b);
      assert (a + b)[n..] == a[n..] + b;
      Utf8Cons(a + b, n);
    }
  }

  /** A character that is no separator goes into the first piece. */
  lemma {:induction false} SplitBehind(c: bytes, s: bytes)
    requires forall b :: b in c ==> !IsSeparator(b)
    ensures Split(c + s) == [c + Split(s)[0]] + Split(s)[1..]
  {
    if c == [] {
      assert c + s == s && c + Split(s)[0] == Split(s)[0];
    } else {
      SplitBehind(c[1..], s);
      assert (c + s)[1..] == c[1..] + s && c == [c[0]] + c[1..];
      var rest := Split(c[1..] + s);
      assert rest[0] == c[1..] + Split(s)[0] && rest[1..] == Split(s)[1..];
      assert [c[0]] + rest[0] == c + Split(s)[0];
    }
  }

  lemma FirstCharacter(s: bytes)
    requires s != [] && Lead(s) > 0 && !IsSeparator(s[0])
    ensures forall b :: b in s[..Lead(s)] ==> !IsSeparator(b)
    ensures IsUtf8(s[..Lead(s)])
  {
    var c := s[..Lead(s)];
    assert Lead(c) == |c| && c[|c|..] == [];
    forall b | b in c
      ensures !IsSeparator(b)
    {
      var i :| 0 <= i < |c| && c[i] == b;
      assert i > 0 ==> IsTail(b);
    }
  }

  lemma {:induction false} SplitKeepsUtf8(s: bytes)
    requires IsUtf8(s)
    ensures forall p :: p in Split(s) ==> IsUtf8(p)
  {
    if s != [] {
      var n := Lead(s);
      SplitKeepsUtf8(s[n..]);
      var rest := Split(s[n..]);
      if IsSeparator(s[0]) {
        assert Split(s) == [[]] + rest;
      } else {
        FirstCharacter(s);
        SplitBehind(s[..n], s[n..]);
        assert s == s[..n] + s[n..];
        assert rest[0] in rest;
        Utf8Concat(s[..n], rest[0]);
        assert forall p :: p in rest[1..] ==> p in rest;
      }
    }
  }

  lemma {:induction false} KeptAreParts(parts: seq<bytes>)
    ensures forall p :: p in Kept(parts) ==> p in parts
  {
    if parts != [] {
      KeptAreParts(parts[1..]);
    }
  }

  lemma {:induction false} JoinKeepsUtf8(segments: seq<bytes>)
    requires forall p :: p in segments ==> IsUtf8(p)
    ensures IsUtf8(Join(segments))
  {
    if |segments| > 1 {
      JoinKeepsUtf8(segments[1..]);
      assert [SLASH][1..] == [] && IsUtf8([SLASH]);
      Utf8Concat(segments[0], [SLASH]);
      Utf8Concat(segments[0] + [SLASH], Join(segments[1..]));
    }
  }

  /** Normalizing text gives text: splitting bytes at ASCII separators never cuts a character. */
  lemma NormalizeKeepsUtf8(path: bytes)
    requires IsUtf8(path) && Normalize(path).Ok?
    ensures IsUtf8(Normalize(path).value)
  {
    SplitKeepsUtf8(path);
    KeptAreParts(Split(path));
    JoinKeepsUtf8(Kept(Split(path)));
  }
}
