/** Wildcard patterns of pkg/policy/matcher.go: the greedy matcher and the declarative glob relation. */
module Matcher {
  import opened Strings

  const STAR: char := '*'

  /** What a pattern denotes: a star stands for any string, every other character for itself. */
  ghost predicate Glob(p: string, v: string)
    decreases |p|
  {
    if p == "" then v == ""
    else if p[0] == STAR then exists k :: 0 <= k <= |v| && Glob(p[1..], v[k..])
    else v != "" && v[0] == p[0] && Glob(p[1..], v[1..])
  }

  // ---------------------------------------------------------------- the matcher

  /** The middle loop: each part is searched leftmost in what the parts before it left over. */
  predicate MidsFound(mids: seq<string>, remaining: string)
    decreases |mids|
  {
    mids == [] ||
    var idx := Index(remaining, mids[0]);
    idx >= 0 && MidsFound(mids[1..], remaining[idx + |mids[0]|..])
  }

  /** The parts around the stars: prefix, then suffix, then the middle parts from left to right. */
  predicate PartsMatch(parts: seq<string>, value: string)
    requires |parts| >= 2
  {
    HasPrefix(value, parts[0]) &&
    var remaining, last := value[|parts[0]|..], parts[|parts| - 1];
    HasSuffix(remaining, last) && MidsFound(parts[1..|parts| - 1], remaining[..|remaining| - |last|])
  }

  predicate MatchesWildcard(pattern: string, value: string) {
    if pattern == "*" then true
    else
      var parts := Split(pattern, STAR);
      if |parts| == 1 then pattern == value else PartsMatch(parts, value)
  }

  /** The same with the loop that shrinks `remaining`; it decides the glob relation. */
  method MatchWildcard(pattern: string, value: string) returns (ok: bool)
    ensures ok <==> Glob(pattern, value)
  {
    MatchesWildcardIsGlob(pattern, value);
    if pattern == "*" {
      return true;
    }
    var parts := Split(pattern, STAR);
    if |parts| == 1 {
      return pattern == value;
    }
    ok := MatchParts(parts, value);
  }

  method MatchParts(parts: seq<string>, value: string) returns (ok: bool)
    requires |parts| >= 2
    ensures ok == PartsMatch(parts, value)
  {
    if !HasPrefix(value, parts[0]) {
      return false;
    }
    var remaining := value[|parts[0]|..];
    var last := parts[|parts| - 1];
    if !HasSuffix(remaining, last) {
      return false;
    }
    ok := FindMids(parts[1..|parts| - 1], remaining[..|remaining| - |last|]);
  }

  method FindMids(mids: seq<string>, text: string) returns (ok: bool)
    ensures ok == MidsFound(mids, text)
  {
    var remaining := text;
    var i := 0;
    while i < |mids|
      invariant 0 <= i <= |mids|
      invariant MidsFound(mids[i..], remaining) == MidsFound(mids, text)
    {
      assert mids[i..][0] == mids[i] && mids[i..][1..] == mids[i + 1..];
      var idx := Index(remaining, mids[i]);
      if idx < 0 {
        return false;
      }
      remaining := remaining[idx + |mids[i]|..];
      i := i + 1;
    }
    return true;
  }

  // ---------------------------------------------------------------- greedy search is complete

  /** A star swallows more: what matches a suffix matches the whole. */
  lemma StarAbsorbs(p: string, v: string, j: nat)
    requires p != "" && p[0] == STAR && j <= |v| && Glob(p, v[j..])
    ensures Glob(p, v)
  {
  }

  /** A star-free head is matched literally. */
  lemma {:induction false} GlobLiteral(lit: string, p: string, v: string)
    requires STAR !in lit
    ensures Glob(lit + p, v) <==> HasPrefix(v, lit) && Glob(p, v[|lit|..])
  {
    if lit == "" {
      assert lit + p == p && v[0..] == v;
    } else {
      assert (lit + p)[1..] == lit[1..] + p;
      if v != "" && v[0] == lit[0] {
        GlobLiteral(lit[1..], p, v[1..]);
        assert lit == [lit[0]] + lit[1..];
        assert v == [v[0]] + v[1..];
        if HasPrefix(v[1..], lit[1..]) {
          assert v[..|lit|] == [v[0]] + v[1..][..|lit| - 1];
          assert v[1..][|lit| - 1..] == v[|lit|..];
        }
        if HasPrefix(v, lit) {
          assert v[1..][..|lit| - 1] == v[..|lit|][1..];
          assert v[1..][|lit| - 1..] == v[|lit|..];
        }
      }
    }
  }

  lemma {:induction false} GlobExact(lit: string, v: string)
    requires STAR !in lit
    ensures Glob(lit, v) <==> lit == v
  {
    assert lit + "" == lit;
    GlobLiteral(lit, "", v);
    if HasPrefix(v, lit) && v[|lit|..] == "" {
      assert v == v[..|lit|];
    }
  }

  /** The pattern that follows the first part: every remaining part with a star in front. */
  function Starred(parts: seq<string>): string {
    if parts == [] then "" else [STAR] + parts[0] + Starred(parts[1..])
  }

  lemma {:induction false} JoinStarred(parts: seq<string>)
    requires parts != []
    ensures Join(parts, STAR) == parts[0] + Starred(parts[1..])
  {
    if |parts| > 1 {
      JoinStarred(parts[1..]);
    }
  }

  /** Trailing star and literal: the literal is a suffix. */
  lemma GlobSuffix(last: string, v: string)
    requires STAR !in last
    ensures Glob([STAR] + last, v) <==> HasSuffix(v, last)
  {
    var p := [STAR] + last;
    assert p[1..] == last;
    if HasSuffix(v, last) {
      GlobExact(last, v[|v| - |last|..]);
    }
    if Glob(p, v) {
      var k :| 0 <= k <= |v| && Glob(last, v[k..]);
      GlobExact(last, v[k..]);
    }
  }

  lemma BeforeSuffix(v: string, last: string, i: nat)
    requires HasSuffix(v, last) && i <= |v| - |last|
    ensures HasSuffix(v[i..], last)
    ensures v[i..][..|v| - i - |last|] == v[..|v| - |last|][i..]
  {
  }

  /** Exchange argument: whatever position a middle part is matched at, the leftmost occurrence
      leaves at least as much text for the parts behind it, so leftmost search loses no match. */
  lemma {:induction false} GreedyIsComplete(mids: seq<string>, last: string, v: string)
    requires AllFree(mids, STAR) && STAR !in last
    ensures Glob(Starred(mids + [last]), v)
       <==> HasSuffix(v, last) && MidsFound(mids, v[..|v| - |last|])
    decreases |mids|, 2
  {
    if mids == [] {
      assert mids + [last] == [last];
      assert Starred([last]) == [STAR] + last;
      GlobSuffix(last, v);
    } else {
      if Glob(Starred(mids + [last]), v) {
        GreedyFindsWhatGlobFinds(mids, last, v);
      }
      if HasSuffix(v, last) && MidsFound(mids, v[..|v| - |last|]) {
        GreedyFindsOnlyMatches(mids, last, v);
      }
    }
  }

  /** Behind position from, the remaining parts are a glob exactly when they are found before the suffix. */
  lemma {:induction false} RestIsGlob(rest: seq<string>, last: string, v: string, from: nat)
    requires AllFree(rest, STAR) && STAR !in last && HasSuffix(v, last) && from <= |v| - |last|
    ensures Glob(Starred(rest + [last]), v[from..]) <==> MidsFound(rest, v[..|v| - |last|][from..])
    decreases |rest|, 3
  {
    BeforeSuffix(v, last, from);
    GreedyIsComplete(rest, last, v[from..]);
  }

  lemma ConsParts(mids: seq<string>, last: string)
    requires mids != []
    ensures mids + [last] == [mids[0]] + (mids[1..] + [last])
  {
  }

  lemma OccursInPrefix(v: string, n: nat, m: string, i: nat)
    requires n <= |v| && OccursAt(v[..n], m, i)
    ensures OccursAt(v, m, i) && i + |m| <= n
  {
    assert v[i..i + |m|] == v[..n][i..i + |m|];
  }

  lemma {:induction false} GreedyFindsOnlyMatches(mids: seq<string>, last: string, v: string)
    requires AllFree(mids, STAR) && STAR !in last && mids != []
    requires HasSuffix(v, last) && MidsFound(mids, v[..|v| - |last|])
    ensures Glob(Starred(mids + [last]), v)
    decreases |mids|, 0
  {
    var m, n, rest := mids[0], |v| - |last|, mids[1..];
    var idx := Index(v[..n], m);
    OccursInPrefix(v, n, m, idx);
    RestIsGlob(rest, last, v, idx + |m|);
    PlaceFirstPart(m, rest + [last], v, idx);
    ConsParts(mids, last);
  }

  lemma {:induction false} GreedyFindsWhatGlobFinds(mids: seq<string>, last: string, v: string)
    requires AllFree(mids, STAR) && STAR !in last && mids != []
    requires Glob(Starred(mids + [last]), v)
    ensures HasSuffix(v, last) && MidsFound(mids, v[..|v| - |last|])
    decreases |mids|, 1
  {
    var m, tail := mids[0], mids[1..] + [last];
    ConsParts(mids, last);
    var k := FirstPart(m, tail, v);
    GreedyIsComplete(mids[1..], last, v[k + |m|..]);
    OutsideSuffix(v, last, m, k);
    LeftmostIsEnough(mids, last, v, k);
  }

  lemma IndexIsLeftmost(s: string, sub: string, k: nat) returns (i: nat)
    requires OccursAt(s, sub, k)
    ensures i == Index(s, sub) && i <= k && i + |sub| <= |s|
  {
    i := Index(s, sub);
  }

  lemma {:induction false} LeftmostIsEnough(mids: seq<string>, last: string, v: string, k: nat)
    requires AllFree(mids, STAR) && STAR !in last && mids != [] && HasSuffix(v, last)
    requires OccursAt(v[..|v| - |last|], mids[0], k)
    requires Glob(Starred(mids[1..] + [last]), v[k + |mids[0]|..])
    ensures MidsFound(mids, v[..|v| - |last|])
    decreases |mids|, 0
  {
    var m, n, rest := mids[0], |v| - |last|, mids[1..];
    var idx := IndexIsLeftmost(v[..n], m, k);
    OccursInPrefix(v, n, m, k);
    MoveLeft(rest + [last], v, idx + |m|, k + |m|);
    RestIsGlob(rest, last, v, idx + |m|);
  }

  lemma OutsideSuffix(v: string, last: string, m: string, k: nat)
    requires OccursAt(v, m, k) && HasSuffix(v[k + |m|..], last)
    ensures HasSuffix(v, last) && OccursAt(v[..|v| - |last|], m, k)
  {
  }

  lemma MoveLeft(parts: seq<string>, v: string, a: nat, b: nat)
    requires parts != [] && a <= b <= |v| && Glob(Starred(parts), v[b..])
    ensures Glob(Starred(parts), v[a..])
  {
    assert v[a..][b - a..] == v[b..];
    StarAbsorbs(Starred(parts), v[a..], b - a);
  }

  lemma PlaceFirstPart(m: string, parts: seq<string>, v: string, k: nat)
    requires STAR !in m && OccursAt(v, m, k) && Glob(Starred(parts), v[k + |m|..])
    ensures Glob(Starred([m] + parts), v)
  {
    assert ([m] + parts)[1..] == parts;
    var rest := Starred(parts);
    assert v[k..][|m|..] == v[k + |m|..] && v[k..][..|m|] == v[k..k + |m|];
    GlobLiteral(m, rest, v[k..]);
    GlobStarIntro(m + rest, v, k);
    assert [STAR] + (m + rest) == Starred([m] + parts);
  }

  /** Where a match places the first starred part. */
  lemma FirstPart(m: string, parts: seq<string>, v: string) returns (k: nat)
    requires STAR !in m && Glob(Starred([m] + parts), v)
    ensures OccursAt(v, m, k) && Glob(Starred(parts), v[k + |m|..])
  {
    assert ([m] + parts)[1..] == parts;
    var rest := Starred(parts);
    var p := [STAR] + m + rest;
    assert p == Starred([m] + parts) && p[1..] == m + rest;
    k :| 0 <= k <= |v| && Glob(m + rest, v[k..]);
    GlobLiteral(m, rest, v[k..]);
    assert v[k..][|m|..] == v[k + |m|..] && v[k..][..|m|] == v[k..k + |m|];
  }

  /** A pattern with at least one star: its first part, its middle parts and its last part. */
  lemma PartsAreGlob(parts: seq<string>, value: string)
    requires AllFree(parts, STAR) && |parts| >= 2
    ensures Glob(Join(parts, STAR), value) <==> PartsMatch(parts, value)
  {
    var last, mids := parts[|parts| - 1], parts[1..|parts| - 1];
    assert parts[1..] == mids + [last];
    JoinStarred(parts);
    GlobLiteral(parts[0], Starred(mids + [last]), value);
    if HasPrefix(value, parts[0]) {
      GreedyIsComplete(mids, last, value[|parts[0]|..]);
    }
  }

  lemma LoneStar(value: string)
    ensures Glob("*", value)
  {
    assert "*"[1..] == "" && value[|value|..] == "";
    assert Glob("", value[|value|..]);
  }

  /** MatchesWildcard decides exactly the declarative relation. */
  lemma MatchesWildcardIsGlob(pattern: string, value: string)
    ensures MatchesWildcard(pattern, value) <==> Glob(pattern, value)
  {
    var parts := Split(pattern, STAR);
    SplitFree(pattern, STAR);
    JoinSplit(pattern, STAR);
    if pattern == "*" {
      LoneStar(value);
    } else if |parts| == 1 {
      GlobExact(pattern, value);
    } else {
      PartsAreGlob(parts, value);
    }
  }

  // ---------------------------------------------------------------- patterns used as values

  /** A pattern covers itself. */
  lemma {:induction false} GlobReflexive(p: string)
    ensures Glob(p, p)
  {
    if p != "" {
      GlobReflexive(p[1..]);
      if p[0] == STAR {
        assert p[1..] == p[1..][0..];
      }
    }
  }

  lemma GlobStarIntro(p: string, v: string, k: nat)
    requires k <= |v| && Glob(p, v[k..])
    ensures Glob([STAR] + p, v)
  {
  }

  lemma Slices(v: string, k: nat, i: nat)
    requires k + i <= |v|
    ensures v[k..][i..] == v[k + i..] && v[..k + i][k..] == v[k..][..i]
  {
  }

  /** A concatenated pattern matches in two pieces. */
  lemma {:induction false} GlobSplit(p: string, q: string, v: string) returns (j: nat)
    requires Glob(p + q, v)
    ensures j <= |v| && Glob(p, v[..j]) && Glob(q, v[j..])
    decreases |p|, 1
  {
    if p == "" {
      j := 0;
      assert p + q == q && v[0..] == v;
    } else {
      var k: nat;
      assert (p + q)[1..] == p[1..] + q && (p + q)[0] == p[0];
      if p[0] == STAR {
        k :| 0 <= k <= |v| && Glob(p[1..] + q, v[k..]);
      } else {
        k := 1;
      }
      j := GlobSplitAfter(p, q, v, k);
    }
  }

  /** The head of the pattern takes the first k characters. */
  lemma {:induction false} GlobSplitAfter(p: string, q: string, v: string, k: nat) returns (j: nat)
    requires p != "" && k <= |v| && Glob(p[1..] + q, v[k..])
    requires p[0] == STAR || (k == 1 && v[0] == p[0])
    ensures j <= |v| && Glob(p, v[..j]) && Glob(q, v[j..])
    decreases |p|, 0
  {
    var i := GlobSplit(p[1..], q, v[k..]);
    j := k + i;
    Slices(v, k, i);
    assert p == [p[0]] + p[1..];
    if p[0] == STAR {
      GlobStarIntro(p[1..], v[..j], k);
    }
  }

  lemma {:induction false} GlobTransitive(p: string, q: string, v: string)
    requires Glob(p, q) && Glob(q, v)
    ensures Glob(p, v)
    decreases |p|
  {
    if p != "" {
      if p[0] == STAR {
        var k :| 0 <= k <= |q| && Glob(p[1..], q[k..]);
        assert q == q[..k] + q[k..];
        var j := GlobSplit(q[..k], q[k..], v);
        GlobTransitive(p[1..], q[k..], v[j..]);
      } else {
        GlobTransitive(p[1..], q[1..], v[1..]);
      }
    }
  }

  /** Matching is a preorder when patterns are themselves used as values. */
  lemma WildcardPreorder(p: string, q: string, v: string)
    ensures MatchesWildcard(p, p)
    ensures MatchesWildcard(p, q) && MatchesWildcard(q, v) ==> MatchesWildcard(p, v)
  {
    MatchesWildcardIsGlob(p, p);
    GlobReflexive(p);
    MatchesWildcardIsGlob(p, q);
    MatchesWildcardIsGlob(q, v);
    MatchesWildcardIsGlob(p, v);
    if MatchesWildcard(p, q) && MatchesWildcard(q, v) {
      GlobTransitive(p, q, v);
    }
  }

  // ---------------------------------------------------------------- derived matchers

  predicate MatchesAnyWildcard(patterns: seq<string>, value: string) {
    exists i :: 0 <= i < |patterns| && MatchesWildcard(patterns[i], value)
  }

  predicate ContainsOrStar(xs: seq<string>, value: string) {
    value in xs || "*" in xs
  }

  /** A resource pattern also covers the subresources of the resource it names, unless it has a star. */
  predicate MatchesResourceName(pattern: string, resource: string) {
    MatchesWildcard(pattern, resource) || (STAR !in pattern && HasPrefix(resource, pattern + "/"))
  }

  predicate APIGroupRestrictionCovers(restricted: string, required: string) {
    if restricted == "" || restricted == "*" then true
    else if required == "*" then false
    else MatchesWildcard(restricted, required)
  }

  /** Without stars, covering a resource means naming it or one of its ancestors. */
  lemma ResourceNameWithoutStar(pattern: string, resource: string)
    requires STAR !in pattern
    ensures MatchesResourceName(pattern, resource) <==> pattern == resource || HasPrefix(resource, pattern + "/")
  {
    MatchesWildcardIsGlob(pattern, resource);
    GlobExact(pattern, resource);
  }

  /** The last character of a match, when the pattern ends in a literal. */
  lemma {:induction false} GlobLastLiteral(p: string, v: string)
    requires p != "" && p[|p| - 1] != STAR && Glob(p, v)
    ensures v != "" && v[|v| - 1] == p[|p| - 1]
    decreases |p|
  {
    if p[0] == STAR {
      var k :| 0 <= k <= |v| && Glob(p[1..], v[k..]);
      GlobLastLiteral(p[1..], v[k..]);
    } else if |p| > 1 {
      GlobLastLiteral(p[1..], v[1..]);
    }
  }

  /** A pattern that ends in a star matches every extension of a match. */
  lemma {:induction false} GlobTrailingStar(p: string, v: string, w: string)
    requires p != "" && p[|p| - 1] == STAR && Glob(p, v)
    ensures Glob(p, v + w)
    decreases |p|
  {
    assert p == [p[0]] + p[1..];
    if p[0] == STAR {
      var k :| 0 <= k <= |v| && Glob(p[1..], v[k..]);
      if |p| == 1 {
        assert (v + w)[|v + w|..] == "";
        GlobStarIntro("", v + w, |v + w|);
      } else {
        GlobTrailingStar(p[1..], v[k..], w);
        assert (v + w)[k..] == v[k..] + w;
        GlobStarIntro(p[1..], v + w, k);
      }
    } else {
      GlobTrailingStar(p[1..], v[1..], w);
      assert (v + w)[1..] == v[1..] + w;
    }
  }

  lemma SubresourceOfStarFree(p: string, q: string, r: string)
    requires STAR !in p && MatchesResourceName(p, q) && MatchesResourceName(q, r)
    ensures MatchesResourceName(p, r)
  {
    ResourceNameWithoutStar(p, q);
    ResourceNameWithoutStar(p, r);
    if p != q {
      var s := p + "/";
      assert q == s + q[|s|..];
      if MatchesWildcard(q, r) {
        MatchesWildcardIsGlob(q, r);
        GlobLiteral(s, q[|s|..], r);
      } else {
        assert r[..|s|] == r[..|q| + 1][..|s|] == (q + "/")[..|s|] == s;
      }
    }
  }

  /** The caller-checkable guard under which covering resources chains. */
  predicate CoversSubresources(p: string, q: string) {
    STAR !in p || STAR in q || p[|p| - 1] == STAR
  }

  /** Covering a resource pattern covers everything that pattern covers exactly under the guard:
      a starred pattern that ends in a literal does not follow a star-free resource to its subresources. */
  lemma ResourceCoverageChainsIff(p: string, q: string)
    requires MatchesResourceName(p, q)
    ensures (forall r :: MatchesResourceName(q, r) ==> MatchesResourceName(p, r)) <==> CoversSubresources(p, q)
  {
    if CoversSubresources(p, q) {
      forall r | MatchesResourceName(q, r) ensures MatchesResourceName(p, r) {
        if STAR !in p {
          SubresourceOfStarFree(p, q, r);
        } else if MatchesWildcard(q, r) {
          WildcardPreorder(p, q, r);
        } else {
          MatchesWildcardIsGlob(p, q);
          MatchesWildcardIsGlob(p, r);
          assert r == q + r[|q|..];
          GlobTrailingStar(p, q, r[|q|..]);
        }
      }
    } else {
      var c := if p[|p| - 1] == 'x' then 'y' else 'x';
      var r := q + "/" + [c];
      assert HasPrefix(r, q + "/");
      assert MatchesResourceName(q, r);
      MatchesWildcardIsGlob(p, r);
      if Glob(p, r) {
        GlobLastLiteral(p, r);
      }
      assert !MatchesResourceName(p, r);
    }
  }
}
