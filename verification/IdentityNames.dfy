/** The limits on identity names read the allow lists as alternatives, the limits on subjects read them as
    conditions that add up (pkg/policy/constrained_impersonation.go, pkg/policy/evaluator.go). */
module IdentityNames {
  import opened Strings
  import opened BindEvaluator
  import opened ImpersonationPolicy

  /** Both readings give the same verdict on every name. */
  ghost predicate SameVerdicts(l: NameLimits) {
    forall n :: NameAdmitted(l, n) <==> NameOk(l, n)
  }

  /** The item markers: no entry is empty. */
  predicate EntriesGiven(l: NameLimits) {
    && "" !in l.allowedPrefixes && "" !in l.allowedSuffixes && "" !in l.forbiddenPrefixes && "" !in l.forbiddenSuffixes
  }

  predicate NoEntryUses(l: NameLimits, c: char) {
    && AllFree(l.allowed, c) && AllFree(l.allowedPrefixes, c) && AllFree(l.allowedSuffixes, c)
    && AllFree(l.forbidden, c) && AllFree(l.forbiddenPrefixes, c) && AllFree(l.forbiddenSuffixes, c)
  }

  predicate OneAllowList(l: NameLimits) {
    (l.allowed == [] || l.allowedPrefixes == []) && (l.allowed == [] || l.allowedSuffixes == []) && (l.allowedPrefixes == [] || l.allowedSuffixes == [])
  }

  predicate Denied(l: NameLimits, n: string) {
    n in l.forbidden || HasAnyPrefix(l.forbiddenPrefixes, n) || HasAnySuffix(l.forbiddenSuffixes, n)
  }

  predicate LiveName(l: NameLimits, i: nat) {
    i < |l.allowed| && !Denied(l, l.allowed[i])
  }

  predicate LivePrefix(l: NameLimits, i: nat) {
    i < |l.allowedPrefixes| && !HasAnyPrefix(l.forbiddenPrefixes, l.allowedPrefixes[i])
  }

  predicate LiveSuffix(l: NameLimits, i: nat) {
    i < |l.allowedSuffixes| && !HasAnySuffix(l.forbiddenSuffixes, l.allowedSuffixes[i])
  }

  /** Some entry of an allow list survives the forbidden entries. */
  predicate SomeEntryLives(l: NameLimits) {
    || (exists i :: 0 <= i < |l.allowed| && LiveName(l, i))
    || (exists i :: 0 <= i < |l.allowedPrefixes| && LivePrefix(l, i))
    || (exists i :: 0 <= i < |l.allowedSuffixes| && LiveSuffix(l, i))
  }

  /** The limits on identity names are never stricter than the limits on subjects. */
  lemma SubjectLimitsAreStricter(l: NameLimits, n: string)
    requires NameOk(l, n)
    ensures NameAdmitted(l, n)
  {
  }

  // ---------------------------------------------------------------- names with an unused character

  lemma PrefixInside(s: string, q: string, c: char)
    ensures HasPrefix(s + [c], q) && c !in q ==> HasPrefix(s, q)
  {
    var n := s + [c];
    if |q| <= |s| {
      assert n[..|q|] == s[..|q|];
    } else if |q| == |n| {
      assert n[..|q|][|s|] == c;
    }
  }

  lemma SuffixInside(s: string, q: string, c: char)
    ensures HasSuffix([c] + s, q) && c !in q ==> HasSuffix(s, q)
  {
    var n := [c] + s;
    if |q| <= |s| {
      assert n[|n| - |q|..] == s[|s| - |q|..];
    } else if |q| == |n| {
      assert n[|n| - |q|..][0] == c;
    }
  }

  lemma PrefixLivesOn(prefixes: seq<string>, p: string, c: char)
    requires AllFree(prefixes, c) && HasAnyPrefix(prefixes, p + [c])
    ensures HasAnyPrefix(prefixes, p)
  {
    var i :| 0 <= i < |prefixes| && HasPrefix(p + [c], prefixes[i]);
    PrefixInside(p, prefixes[i], c);
  }

  lemma SuffixLivesOn(suffixes: seq<string>, s: string, c: char)
    requires AllFree(suffixes, c) && HasAnySuffix(suffixes, [c] + s)
    ensures HasAnySuffix(suffixes, s)
  {
    var i :| 0 <= i < |suffixes| && HasSuffix([c] + s, suffixes[i]);
    SuffixInside(s, suffixes[i], c);
  }

  lemma SuffixEnd(n: string, q: string)
    ensures q != "" && HasSuffix(n, q) ==> n != "" && n[|n| - 1] in q
  {
    if q != "" && |q| <= |n| {
      assert n[|n| - |q|..][|q| - 1] == n[|n| - 1];
    }
  }

  lemma PrefixStart(n: string, q: string)
    ensures q != "" && HasPrefix(n, q) ==> n != "" && n[0] in q
  {
    if q != "" && |q| <= |n| {
      assert n[..|q|][0] == n[0];
    }
  }

  lemma EndsUnused(suffixes: seq<string>, p: string, c: char)
    requires AllFree(suffixes, c) && "" !in suffixes
    ensures !HasAnySuffix(suffixes, p + [c])
  {
    forall i | 0 <= i < |suffixes| ensures !HasSuffix(p + [c], suffixes[i]) {
      assert suffixes[i] in suffixes;
      SuffixEnd(p + [c], suffixes[i]);
    }
  }

  lemma StartsUnused(prefixes: seq<string>, s: string, c: char)
    requires AllFree(prefixes, c) && "" !in prefixes
    ensures !HasAnyPrefix(prefixes, [c] + s)
  {
    forall i | 0 <= i < |prefixes| ensures !HasPrefix([c] + s, prefixes[i]) {
      assert prefixes[i] in prefixes;
      PrefixStart([c] + s, prefixes[i]);
    }
  }

  lemma UsesUnused(names: seq<string>, n: string, c: char)
    requires AllFree(names, c) && c in n
    ensures n !in names
  {
  }

  /** A surviving prefix followed by the unused character is admitted by the prefix alone. */
  lemma PrefixOnly(l: NameLimits, c: char, i: nat) returns (n: string)
    requires EntriesGiven(l) && NoEntryUses(l, c) && LivePrefix(l, i)
    ensures NameAdmitted(l, n) && n !in l.allowed && !HasAnySuffix(l.allowedSuffixes, n)
  {
    var p := l.allowedPrefixes[i];
    n := p + [c];
    assert n[|p|] == c;
    UsesUnused(l.allowed, n, c);
    UsesUnused(l.forbidden, n, c);
    EndsUnused(l.allowedSuffixes, p, c);
    EndsUnused(l.forbiddenSuffixes, p, c);
    if HasAnyPrefix(l.forbiddenPrefixes, n) { PrefixLivesOn(l.forbiddenPrefixes, p, c); }
    assert HasPrefix(n, l.allowedPrefixes[i]);
  }

  lemma SuffixOnly(l: NameLimits, c: char, i: nat) returns (n: string)
    requires EntriesGiven(l) && NoEntryUses(l, c) && LiveSuffix(l, i)
    ensures NameAdmitted(l, n) && n !in l.allowed && !HasAnyPrefix(l.allowedPrefixes, n)
  {
    var s := l.allowedSuffixes[i];
    n := [c] + s;
    assert n[0] == c;
    UsesUnused(l.allowed, n, c);
    UsesUnused(l.forbidden, n, c);
    StartsUnused(l.allowedPrefixes, s, c);
    StartsUnused(l.forbiddenPrefixes, s, c);
    if HasAnySuffix(l.forbiddenSuffixes, n) { SuffixLivesOn(l.forbiddenSuffixes, s, c); }
    assert HasSuffix(n, l.allowedSuffixes[i]);
  }

  // ---------------------------------------------------------------- entries that survive

  lemma PrefixTransitive(n: string, p: string, q: string)
    ensures HasPrefix(n, p) && HasPrefix(p, q) ==> HasPrefix(n, q)
  {
    if |q| <= |p| <= |n| {
      assert n[..|p|][..|q|] == n[..|q|];
    }
  }

  lemma SuffixTransitive(n: string, s: string, q: string)
    ensures HasSuffix(n, s) && HasSuffix(s, q) ==> HasSuffix(n, q)
  {
    if |q| <= |s| <= |n| {
      assert n[|n| - |s|..][|s| - |q|..] == n[|n| - |q|..];
    }
  }

  /** A name that an allowed prefix admits shows that the prefix survives, and the same for suffixes. */
  lemma AdmittingPrefixLives(l: NameLimits, n: string)
    requires !Denied(l, n)
    ensures HasAnyPrefix(l.allowedPrefixes, n) ==> exists i :: 0 <= i < |l.allowedPrefixes| && LivePrefix(l, i)
  {
    if i :| 0 <= i < |l.allowedPrefixes| && HasPrefix(n, l.allowedPrefixes[i]) {
      forall k | 0 <= k < |l.forbiddenPrefixes| ensures !HasPrefix(l.allowedPrefixes[i], l.forbiddenPrefixes[k]) {
        PrefixTransitive(n, l.allowedPrefixes[i], l.forbiddenPrefixes[k]);
      }
      assert LivePrefix(l, i);
    }
  }

  lemma AdmittingSuffixLives(l: NameLimits, n: string)
    requires !Denied(l, n)
    ensures HasAnySuffix(l.allowedSuffixes, n) ==> exists i :: 0 <= i < |l.allowedSuffixes| && LiveSuffix(l, i)
  {
    if i :| 0 <= i < |l.allowedSuffixes| && HasSuffix(n, l.allowedSuffixes[i]) {
      forall k | 0 <= k < |l.forbiddenSuffixes| ensures !HasSuffix(l.allowedSuffixes[i], l.forbiddenSuffixes[k]) {
        SuffixTransitive(n, l.allowedSuffixes[i], l.forbiddenSuffixes[k]);
      }
      assert LiveSuffix(l, i);
    }
  }

  /** With two allow lists of which some entry survives, a name that only one of them admits. */
  lemma OneListOnly(l: NameLimits, c: char) returns (n: string)
    requires EntriesGiven(l) && NoEntryUses(l, c) && !OneAllowList(l) && SomeEntryLives(l)
    ensures NameAdmitted(l, n) && !NameOk(l, n)
  {
    if i :| 0 <= i < |l.allowedPrefixes| && LivePrefix(l, i) {
      n := PrefixOnly(l, c, i);
    } else if i :| 0 <= i < |l.allowedSuffixes| && LiveSuffix(l, i) {
      n := SuffixOnly(l, c, i);
    } else {
      var i :| 0 <= i < |l.allowed| && LiveName(l, i);
      n := l.allowed[i];
      AdmittingPrefixLives(l, n);
      AdmittingSuffixLives(l, n);
    }
  }

  /** The documentation promises one semantics for both limits. The verdicts are the same on all names if and only
      if at most one allow list is given, or the forbidden entries leave no entry of the allow lists alive. */
  lemma SameVerdictsIff(l: NameLimits, c: char)
    requires EntriesGiven(l) && NoEntryUses(l, c)
    ensures SameVerdicts(l) <==> OneAllowList(l) || !SomeEntryLives(l)
  {
    if OneAllowList(l) || !SomeEntryLives(l) {
      forall n ensures NameAdmitted(l, n) <==> NameOk(l, n) {
        if NameAdmitted(l, n) && !OneAllowList(l) {
          DeadListsAdmitNothing(l, n);
        }
      }
    } else {
      var n := OneListOnly(l, c);
      assert !(NameAdmitted(l, n) <==> NameOk(l, n));
    }
  }

  lemma DeadListsAdmitNothing(l: NameLimits, n: string)
    requires !OneAllowList(l) && !SomeEntryLives(l)
    ensures !NameAdmitted(l, n)
  {
    if NameAdmitted(l, n) {
      AdmittingPrefixLives(l, n);
      AdmittingSuffixLives(l, n);
      var i :| 0 <= i < |l.allowed| && l.allowed[i] == n;
      assert LiveName(l, i);
    }
  }
}
