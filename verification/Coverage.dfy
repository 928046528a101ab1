/** When a list of patterns covers everything another pattern stands for (pkg/policy/matcher.go).
    A pattern is represented by one value: its stars replaced by a character the covering patterns do not use. */
module Coverage {
  import opened Strings
  import opened Matcher

  /** The value that stands for all values of a pattern. */
  function Instance(p: string, c: char): (v: string)
    ensures |v| == |p| && forall i :: 0 <= i < |v| ==> v[i] == if p[i] == STAR then c else p[i]
  {
    if p == "" then "" else [if p[0] == STAR then c else p[0]] + Instance(p[1..], c)
  }

  lemma InstanceFrom(p: string, c: char, k: nat)
    requires k <= |p|
    ensures Instance(p, c)[k..] == Instance(p[k..], c)
  {
  }

  lemma {:induction false} InstanceMatches(p: string, c: char)
    ensures Glob(p, Instance(p, c))
  {
    if p != "" {
      var v := Instance(p, c);
      InstanceFrom(p, c, 1);
      InstanceMatches(p[1..], c);
      if p[0] == STAR {
        assert p == [STAR] + p[1..];
        GlobStarIntro(p[1..], v, 1);
      }
    }
  }

  /** A pattern without the character matches the instance exactly when it matches the pattern itself. */
  lemma {:induction false} GlobInstance(e: string, p: string, c: char)
    requires c !in e && c != STAR
    ensures Glob(e, Instance(p, c)) <==> Glob(e, p)
    decreases |e|
  {
    if e == "" {
    } else if e[0] == STAR {
      forall k | 0 <= k <= |p| ensures Glob(e[1..], Instance(p, c)[k..]) <==> Glob(e[1..], p[k..]) {
        InstanceFrom(p, c, k);
        GlobInstance(e[1..], p[k..], c);
      }
    } else if p != "" {
      assert e[0] in e;
      InstanceFrom(p, c, 1);
      GlobInstance(e[1..], p[1..], c);
    }
  }

  lemma WildcardInstance(e: string, p: string, c: char)
    requires c !in e && c != STAR
    ensures MatchesWildcard(e, Instance(p, c)) <==> MatchesWildcard(e, p)
  {
    MatchesWildcardIsGlob(e, Instance(p, c));
    MatchesWildcardIsGlob(e, p);
    GlobInstance(e, p, c);
  }

  lemma InstanceIsMatched(p: string, c: char)
    ensures MatchesWildcard(p, Instance(p, c))
  {
    MatchesWildcardIsGlob(p, Instance(p, c));
    InstanceMatches(p, c);
  }

  /** The same for covering resources: neither the slash nor an entry's own characters hide behind a star. */
  lemma ResourceInstance(e: string, p: string, c: char)
    requires c !in e && c != STAR && c != '/'
    ensures MatchesResourceName(e, Instance(p, c)) <==> MatchesResourceName(e, p)
  {
    WildcardInstance(e, p, c);
    if STAR !in e {
      PrefixInstance(e + "/", p, c);
    }
  }

  lemma PrefixInstance(s: string, p: string, c: char)
    requires c !in s && STAR !in s
    ensures HasPrefix(Instance(p, c), s) <==> HasPrefix(p, s)
  {
    var v := Instance(p, c);
    if |s| <= |p| {
      if HasPrefix(v, s) {
        forall i | 0 <= i < |s| ensures p[i] == s[i] { assert v[..|s|][i] == s[i] && s[i] in s; }
        assert p[..|s|] == s;
      }
      if HasPrefix(p, s) {
        forall i | 0 <= i < |s| ensures v[i] == s[i] { assert p[..|s|][i] == s[i] && s[i] in s; }
        assert v[..|s|] == s;
      }
    }
  }

  /** Matching a pattern as a value is exactly covering all its values, also for a list of patterns together:
      no union of them covers a pattern that none of them covers. */
  lemma CoverageIsMatching(es: seq<string>, p: string, c: char)
    requires c != STAR && forall i :: 0 <= i < |es| ==> c !in es[i]
    ensures MatchesAnyWildcard(es, p) <==> forall v :: MatchesWildcard(p, v) ==> MatchesAnyWildcard(es, v)
  {
    if MatchesAnyWildcard(es, p) {
      var i :| 0 <= i < |es| && MatchesWildcard(es[i], p);
      forall v | MatchesWildcard(p, v) ensures MatchesAnyWildcard(es, v) {
        WildcardPreorder(es[i], p, v);
      }
    } else {
      InstanceIsMatched(p, c);
      forall i | 0 <= i < |es| ensures !MatchesWildcard(es[i], Instance(p, c)) {
        WildcardInstance(es[i], p, c);
      }
      assert !MatchesAnyWildcard(es, Instance(p, c));
    }
  }

  // ---------------------------------------------------------------- resources and their subresources

  /** A star-free resource stands for itself and for the pattern of its subresources. */
  function Subresources(q: string): string {
    q + "/" + [STAR]
  }

  lemma SubresourcePattern(q: string, r: string)
    requires STAR !in q
    ensures MatchesResourceName(q, r) <==> r == q || MatchesWildcard(Subresources(q), r)
  {
    var head := q + "/";
    ResourceNameWithoutStar(q, r);
    assert Subresources(q) == head + [STAR];
    MatchesWildcardIsGlob(Subresources(q), r);
    GlobLiteral(head, [STAR], r);
    if HasPrefix(r, head) {
      LoneStar(r[|head|..]);
    }
  }

  /** Covering the pattern of subresources covers each of them, whatever the covering pattern looks like. */
  lemma StarredCoverageChains(e: string, q: string, r: string)
    requires STAR in q && MatchesResourceName(e, q) && MatchesResourceName(q, r)
    ensures MatchesResourceName(e, r)
  {
    ResourceCoverageChainsIff(e, q);
  }

  // ---------------------------------------------------------------- patterns and endings

  /** Some value of the pattern ends in the text: their characters agree from the back up to a star. */
  predicate CanEndIn(p: string, end: string) {
    end == "" ||
    (p != "" && (p[|p| - 1] == STAR || (p[|p| - 1] == end[|end| - 1] && CanEndIn(p[..|p| - 1], end[..|end| - 1]))))
  }

  /** Matches of two patterns make a match of their concatenation. */
  lemma {:induction false} GlobConcat(p: string, q: string, u: string, w: string)
    requires Glob(p, u) && Glob(q, w)
    ensures Glob(p + q, u + w)
    decreases |p|
  {
    if p == "" {
      assert p + q == q && u + w == w;
    } else {
      assert (p + q)[1..] == p[1..] + q;
      if p[0] == STAR {
        var k :| 0 <= k <= |u| && Glob(p[1..], u[k..]);
        GlobConcat(p[1..], q, u[k..], w);
        assert (u + w)[k..] == u[k..] + w;
        GlobStarIntro(p[1..] + q, u + w, k);
        assert p + q == [STAR] + (p[1..] + q);
      } else {
        GlobConcat(p[1..], q, u[1..], w);
        assert (u + w)[1..] == u[1..] + w;
      }
    }
  }

  lemma {:induction false} EndingExists(p: string, end: string) returns (x: string)
    requires CanEndIn(p, end)
    ensures Glob(p, x + end) && STAR !in x
  {
    if end == "" {
      x := Instance(p, 'x');
      InstanceMatches(p, 'x');
      assert x + end == x;
    } else {
      var init, last := p[..|p| - 1], p[|p| - 1];
      assert p == init + [last];
      if last == STAR {
        x := Instance(init, 'x');
        InstanceMatches(init, 'x');
        LoneStar(end);
        GlobConcat(init, [STAR], x, end);
      } else {
        x := EndingExists(init, end[..|end| - 1]);
        GlobExact([last], [last]);
        GlobConcat(init, [last], x + end[..|end| - 1], [last]);
        assert x + end == x + end[..|end| - 1] + [last];
      }
    }
  }

  lemma {:induction false} EndingFound(p: string, x: string, end: string)
    requires Glob(p, x + end)
    ensures CanEndIn(p, end)
  {
    if end != "" {
      var v := x + end;
      assert p != "";
      var init, last := p[..|p| - 1], p[|p| - 1];
      assert p == init + [last];
      if last != STAR {
        var j := GlobSplit(init, [last], v);
        GlobExact([last], v[j..]);
        assert v[j..] == [last] && j == |v| - 1;
        assert v[..j] == x + end[..|end| - 1];
        EndingFound(init, x, end[..|end| - 1]);
      }
    }
  }
}
