/** The comparison made before a server-side apply: string keys stand in for order-insensitive equality
    (pkg/ssa/patchhelper.go). Skipping an apply is right only if equal keys mean equal grants. */
module ApplyDiff {
  import opened Options
  import opened Owners
  import opened Strings
  import opened Rbac

  // ---------------------------------------------------------------- list keys

  /** A clone of the list, sorted and joined with commas. */
  function ListKey(xs: seq<string>): string {
    Join(Sort(xs), ',')
  }

  /** A joined key cannot tell the empty list from the list of one empty entry. */
  function Listing(xs: seq<string>): seq<string> {
    if xs == [] then [""] else xs
  }

  predicate SameEntries(a: seq<string>, b: seq<string>) {
    multiset(Listing(a)) == multiset(Listing(b))
  }

  lemma FreeOfMultiset(a: seq<string>, b: seq<string>, c: char)
    requires multiset(a) == multiset(b) && AllFree(a, c)
    ensures AllFree(b, c)
  {
    SameMultisetSameElements(a, b);
    forall i | 0 <= i < |b| ensures c !in b[i] {
      assert b[i] in a;
    }
  }

  lemma ListKeyParses(xs: seq<string>)
    requires AllFree(xs, ',')
    ensures Split(ListKey(xs), ',') == Sort(Listing(xs))
  {
    SortSorts(xs);
    if xs == [] {
      assert Sort([""]) == [""];
    } else {
      FreeOfMultiset(xs, Sort(xs), ',');
      SameMultisetSameElements(xs, Sort(xs));
      SplitJoin(Sort(xs), ',');
    }
  }

  lemma SortByMultiset(a: seq<string>, b: seq<string>)
    ensures Sort(a) == Sort(b) <==> multiset(a) == multiset(b)
  {
    SortSorts(a);
    SortSorts(b);
    if multiset(a) == multiset(b) {
      SortedUnique(Sort(a), Sort(b));
    }
  }

  /** On comma-free entries two lists have the same key exactly when they hold the same entries. */
  lemma ListKeyExact(a: seq<string>, b: seq<string>)
    requires AllFree(a, ',') && AllFree(b, ',')
    ensures ListKey(a) == ListKey(b) <==> SameEntries(a, b)
  {
    ListKeyParses(a);
    ListKeyParses(b);
    JoinSplit(ListKey(a), ',');
    JoinSplit(ListKey(b), ',');
    SortByMultiset(Listing(a), Listing(b));
  }

  /** Whatever the entries contain: two lists have the same key exactly when their sorted entries have the same
      pieces between commas, one after the other. */
  lemma ListKeyMeaning(a: seq<string>, b: seq<string>)
    ensures ListKey(a) == ListKey(b) <==> Flat(Sort(Listing(a)), ',') == Flat(Sort(Listing(b)), ',')
  {
    KeyOfListing(a);
    KeyOfListing(b);
    JoinSplit(ListKey(a), ',');
    JoinSplit(ListKey(b), ',');
  }

  lemma KeyOfListing(xs: seq<string>)
    ensures ListKey(xs) == Join(Sort(Listing(xs)), ',') && Split(ListKey(xs), ',') == Flat(Sort(Listing(xs)), ',')
  {
    SortSorts(Listing(xs));
    SameMultisetSameElements(Listing(xs), Sort(Listing(xs)));
    if xs == [] {
      assert Sort([""]) == [""];
    }
    SplitJoinFlat(Sort(Listing(xs)), ',');
  }

  /** How often each sorted entry is cut by a comma; the empty list has no entry. */
  function Cuts(xs: seq<string>): seq<nat> {
    PieceCounts(Sort(xs), ',')
  }

  /** The key and the cuts determine the entries. */
  lemma SameCutsSameEntries(a: seq<string>, b: seq<string>)
    ensures ListKey(a) == ListKey(b) && Cuts(a) == Cuts(b) <==> multiset(a) == multiset(b)
  {
    SortByMultiset(a, b);
    if ListKey(a) == ListKey(b) && Cuts(a) == Cuts(b) {
      PieceCountsSize(Sort(a), ',');
      PieceCountsSize(Sort(b), ',');
      if Sort(a) != [] {
        SplitJoinFlat(Sort(a), ',');
        SplitJoinFlat(Sort(b), ',');
        JoinedAlike(Sort(a), Sort(b), ',');
      }
    }
  }

  lemma {:induction false} JoinFree(parts: seq<string>, sep: char, c: char)
    requires AllFree(parts, c) && c != sep
    ensures c !in Join(parts, sep)
  {
    if |parts| > 1 {
      JoinFree(parts[1..], sep, c);
    }
  }

  lemma ListKeyFree(xs: seq<string>)
    requires AllFree(xs, '|')
    ensures '|' !in ListKey(xs)
  {
    SortSorts(xs);
    FreeOfMultiset(xs, Sort(xs), '|');
    JoinFree(Sort(xs), ',', '|');
  }

  // ---------------------------------------------------------------- rule keys

  function RuleKey(r: PolicyRule): string {
    ListKey(r.verbs) + "|" + (ListKey(r.apiGroups) + "|" + (ListKey(r.resources) + "|" + (ListKey(r.resourceNames) + "|" + ListKey(r.nonResourceURLs))))
  }

  predicate PlainList(xs: seq<string>) {
    AllFree(xs, ',') && AllFree(xs, '|')
  }

  predicate PlainRule(r: PolicyRule) {
    && PlainList(r.verbs) && PlainList(r.apiGroups) && PlainList(r.resources)
    && PlainList(r.resourceNames) && PlainList(r.nonResourceURLs)
  }

  predicate SameKeyedRule(a: PolicyRule, b: PolicyRule) {
    && SameEntries(a.verbs, b.verbs) && SameEntries(a.apiGroups, b.apiGroups) && SameEntries(a.resources, b.resources)
    && SameEntries(a.resourceNames, b.resourceNames) && SameEntries(a.nonResourceURLs, b.nonResourceURLs)
  }

  /** Peels one list key off two rule keys. */
  lemma PeelKey(a: seq<string>, x: string, b: seq<string>, y: string)
    requires PlainList(a) && PlainList(b)
    ensures ListKey(a) + "|" + x == ListKey(b) + "|" + y <==> SameEntries(a, b) && x == y
  {
    ListKeyFree(a);
    ListKeyFree(b);
    ListKeyExact(a, b);
    if ListKey(a) + "|" + x == ListKey(b) + "|" + y {
      CutUnique(ListKey(a), x, ListKey(b), y, '|');
    }
  }

  /** The exact meaning of equal rule keys, for all entries free of the two separators. */
  lemma RuleKeyExact(a: PolicyRule, b: PolicyRule)
    requires PlainRule(a) && PlainRule(b)
    ensures RuleKey(a) == RuleKey(b) <==> SameKeyedRule(a, b)
  {
    var a4, b4 := ListKey(a.nonResourceURLs), ListKey(b.nonResourceURLs);
    var a3, b3 := ListKey(a.resourceNames) + "|" + a4, ListKey(b.resourceNames) + "|" + b4;
    var a2, b2 := ListKey(a.resources) + "|" + a3, ListKey(b.resources) + "|" + b3;
    var a1, b1 := ListKey(a.apiGroups) + "|" + a2, ListKey(b.apiGroups) + "|" + b2;
    PeelKey(a.verbs, a1, b.verbs, b1);
    PeelKey(a.apiGroups, a2, b.apiGroups, b2);
    PeelKey(a.resources, a3, b.resources, b3);
    PeelKey(a.resourceNames, a4, b.resourceNames, b4);
    ListKeyExact(a.nonResourceURLs, b.nonResourceURLs);
  }

  function Fields(r: PolicyRule): seq<string> {
    [ListKey(r.verbs), ListKey(r.apiGroups), ListKey(r.resources), ListKey(r.resourceNames), ListKey(r.nonResourceURLs)]
  }

  lemma RuleKeyIsJoin(r: PolicyRule)
    ensures RuleKey(r) == Join(Fields(r), '|')
  {
    var f := Fields(r);
    assert f[1..][1..][1..][1..] == [f[4]] && f[1..][1..][1..] == [f[3], f[4]] && f[1..][1..] == [f[2], f[3], f[4]];
    JoinTwo(f[3], f[4], '|');
    JoinMore(f[2], [f[3], f[4]], '|');
    JoinMore(f[1], [f[2], f[3], f[4]], '|');
    JoinMore(f[0], [f[1], f[2], f[3], f[4]], '|');
    assert f == [f[0]] + [f[1], f[2], f[3], f[4]];
  }

  lemma JoinTwo(x: string, y: string, sep: char)
    ensures Join([x, y], sep) == x + [sep] + y
  {
    assert [x, y][1..] == [y];
  }

  lemma JoinMore(x: string, rest: seq<string>, sep: char)
    requires rest != []
    ensures Join([x] + rest, sep) == x + [sep] + Join(rest, sep)
  {
    assert ([x] + rest)[1..] == rest;
  }

  /** Both separators cut the rules in the same places: bars between and within the lists, commas within. */
  predicate CutAlike(a: PolicyRule, b: PolicyRule) {
    && PieceCounts(Fields(a), '|') == PieceCounts(Fields(b), '|')
    && Cuts(a.verbs) == Cuts(b.verbs) && Cuts(a.apiGroups) == Cuts(b.apiGroups) && Cuts(a.resources) == Cuts(b.resources)
    && Cuts(a.resourceNames) == Cuts(b.resourceNames) && Cuts(a.nonResourceURLs) == Cuts(b.nonResourceURLs)
  }

  predicate SameFields(a: PolicyRule, b: PolicyRule) {
    && ListKey(a.verbs) == ListKey(b.verbs) && ListKey(a.apiGroups) == ListKey(b.apiGroups) && ListKey(a.resources) == ListKey(b.resources)
    && ListKey(a.resourceNames) == ListKey(b.resourceNames) && ListKey(a.nonResourceURLs) == ListKey(b.nonResourceURLs)
  }

  lemma FieldsEqual(a: PolicyRule, b: PolicyRule)
    ensures Fields(a) == Fields(b) <==> SameFields(a, b)
  {
    var f, g := Fields(a), Fields(b);
    if f == g {
      assert f[0] == g[0] && f[1] == g[1] && f[2] == g[2] && f[3] == g[3] && f[4] == g[4];
    }
  }

  /** The key and the places of the bars determine the five fields. */
  lemma KeyAndBars(a: PolicyRule, b: PolicyRule)
    ensures RuleKey(a) == RuleKey(b) && PieceCounts(Fields(a), '|') == PieceCounts(Fields(b), '|') <==> SameFields(a, b)
  {
    RuleKeyIsJoin(a);
    RuleKeyIsJoin(b);
    FieldsEqual(a, b);
    if RuleKey(a) == RuleKey(b) && PieceCounts(Fields(a), '|') == PieceCounts(Fields(b), '|') {
      SplitJoinFlat(Fields(a), '|');
      SplitJoinFlat(Fields(b), '|');
      JoinedAlike(Fields(a), Fields(b), '|');
    }
  }

  /** What equal keys can hide, for all rules: exactly a difference in where the separators cut. */
  lemma EqualKeysIff(a: PolicyRule, b: PolicyRule)
    ensures SameRule(a, b) <==> RuleKey(a) == RuleKey(b) && CutAlike(a, b)
  {
    KeyAndBars(a, b);
    SameCutsSameEntries(a.verbs, b.verbs);
    SameCutsSameEntries(a.apiGroups, b.apiGroups);
    SameCutsSameEntries(a.resources, b.resources);
    SameCutsSameEntries(a.resourceNames, b.resourceNames);
    SameCutsSameEntries(a.nonResourceURLs, b.nonResourceURLs);
  }

  predicate SamePieces(a: seq<string>, b: seq<string>) {
    Flat(Sort(Listing(a)), ',') == Flat(Sort(Listing(b)), ',')
  }

  predicate BarsInNamesOnly(r: PolicyRule) {
    AllFree(r.verbs, '|') && AllFree(r.apiGroups, '|') && AllFree(r.resources, '|') && AllFree(r.nonResourceURLs, '|')
  }

  /** With bars in resource names at most, equal keys mean the same comma pieces in each of the five lists. */
  lemma RuleKeyMeaning(a: PolicyRule, b: PolicyRule)
    requires BarsInNamesOnly(a) && BarsInNamesOnly(b)
    ensures RuleKey(a) == RuleKey(b) <==>
            && SamePieces(a.verbs, b.verbs) && SamePieces(a.apiGroups, b.apiGroups) && SamePieces(a.resources, b.resources)
            && SamePieces(a.resourceNames, b.resourceNames) && SamePieces(a.nonResourceURLs, b.nonResourceURLs)
  {
    ListKeyMeaning(a.verbs, b.verbs);
    ListKeyMeaning(a.apiGroups, b.apiGroups);
    ListKeyMeaning(a.resources, b.resources);
    ListKeyMeaning(a.resourceNames, b.resourceNames);
    ListKeyMeaning(a.nonResourceURLs, b.nonResourceURLs);
    FieldsFromKey(a, b);
  }

  lemma FieldsFromKey(a: PolicyRule, b: PolicyRule)
    requires BarsInNamesOnly(a) && BarsInNamesOnly(b)
    ensures RuleKey(a) == RuleKey(b) <==> SameFields(a, b)
  {
    ListKeyFree(a.verbs);
    ListKeyFree(b.verbs);
    ListKeyFree(a.apiGroups);
    ListKeyFree(b.apiGroups);
    ListKeyFree(a.resources);
    ListKeyFree(b.resources);
    ListKeyFree(a.nonResourceURLs);
    ListKeyFree(b.nonResourceURLs);
    FiveFields(ListKey(a.verbs), ListKey(a.apiGroups), ListKey(a.resources), ListKey(a.resourceNames), ListKey(a.nonResourceURLs),
               ListKey(b.verbs), ListKey(b.apiGroups), ListKey(b.resources), ListKey(b.resourceNames), ListKey(b.nonResourceURLs));
  }

  /** Five fields joined by bars, with bars in the fourth at most. */
  lemma FiveFields(v: string, g: string, r: string, n: string, u: string, v': string, g': string, r': string, n': string, u': string)
    requires '|' !in v && '|' !in g && '|' !in r && '|' !in u && '|' !in v' && '|' !in g' && '|' !in r' && '|' !in u'
    ensures v + "|" + (g + "|" + (r + "|" + (n + "|" + u))) == v' + "|" + (g' + "|" + (r' + "|" + (n' + "|" + u'))) <==>
            v == v' && g == g' && r == r' && n == n' && u == u'
  {
    var f3, g3 := n + "|" + u, n' + "|" + u';
    var f2, g2 := r + "|" + f3, r' + "|" + g3;
    var f1, g1 := g + "|" + f2, g' + "|" + g2;
    if v + "|" + f1 == v' + "|" + g1 {
      CutUnique(v, f1, v', g1, '|');
      CutUnique(g, f2, g', g2, '|');
      CutUnique(r, f3, r', g3, '|');
      CutUniqueFromRight(n, u, n', u', '|');
    }
  }

  /** Resource rules with at least one group and resource, non-resource rules with neither, and no list made of
      one empty entry except the core API group. */
  predicate WellFormed(r: PolicyRule) {
    && PlainRule(r)
    && (r.apiGroups == [] <==> r.resources == [])
    && r.verbs != [""] && r.resources != [""] && r.resourceNames != [""] && r.nonResourceURLs != [""]
  }

  /** Equal up to the order of the entries. */
  predicate SameRule(a: PolicyRule, b: PolicyRule) {
    && multiset(a.verbs) == multiset(b.verbs) && multiset(a.apiGroups) == multiset(b.apiGroups)
    && multiset(a.resources) == multiset(b.resources) && multiset(a.resourceNames) == multiset(b.resourceNames)
    && multiset(a.nonResourceURLs) == multiset(b.nonResourceURLs)
  }

  /** Lists with the same entries are equal up to order unless only one of them is empty. */
  lemma SameEntriesGap(a: seq<string>, b: seq<string>)
    ensures multiset(a) == multiset(b) <==> SameEntries(a, b) && (a == [] <==> b == [])
  {
    if multiset(a) == multiset(b) {
      SameMultisetSameElements(a, b);
    }
  }

  /** One of two lists with the same entries is empty only when the other is the list of one empty entry. */
  lemma EmptyGap(a: seq<string>, b: seq<string>)
    requires SameEntries(a, b) && a == [] && b != []
    ensures b == [""]
  {
    SameMultisetSameElements([""], b);
    assert b[0] in b;
  }

  lemma NonEmptyEntries(a: seq<string>, b: seq<string>)
    requires a != [""] && b != [""]
    ensures SameEntries(a, b) <==> multiset(a) == multiset(b)
  {
    SameEntriesGap(a, b);
    if SameEntries(a, b) {
      if a == [] && b != [] { EmptyGap(a, b); }
      if b == [] && a != [] { EmptyGap(b, a); }
    }
  }

  /** The same lists of both rules are empty. */
  predicate EmptyAlike(a: PolicyRule, b: PolicyRule) {
    && (a.verbs == [] <==> b.verbs == []) && (a.apiGroups == [] <==> b.apiGroups == []) && (a.resources == [] <==> b.resources == [])
    && (a.resourceNames == [] <==> b.resourceNames == []) && (a.nonResourceURLs == [] <==> b.nonResourceURLs == [])
  }

  /** Without separators in the entries: exactly a list that is empty in one rule only. */
  lemma PlainKeysIff(a: PolicyRule, b: PolicyRule)
    requires PlainRule(a) && PlainRule(b)
    ensures SameRule(a, b) <==> RuleKey(a) == RuleKey(b) && EmptyAlike(a, b)
  {
    RuleKeyExact(a, b);
    SameEntriesGap(a.verbs, b.verbs);
    SameEntriesGap(a.apiGroups, b.apiGroups);
    SameEntriesGap(a.resources, b.resources);
    SameEntriesGap(a.resourceNames, b.resourceNames);
    SameEntriesGap(a.nonResourceURLs, b.nonResourceURLs);
  }

  lemma WellFormedKeys(a: PolicyRule, b: PolicyRule)
    requires WellFormed(a) && WellFormed(b)
    ensures RuleKey(a) == RuleKey(b) <==> SameRule(a, b)
  {
    PlainKeysIff(a, b);
    if RuleKey(a) == RuleKey(b) {
      RuleKeyExact(a, b);
      NonEmptyEntries(a.verbs, b.verbs);
      NonEmptyEntries(a.resources, b.resources);
      NonEmptyEntries(a.resourceNames, b.resourceNames);
      NonEmptyEntries(a.nonResourceURLs, b.nonResourceURLs);
      SameEntriesGap(a.verbs, b.verbs);
      SameEntriesGap(a.resources, b.resources);
      SameEntriesGap(a.resourceNames, b.resourceNames);
      SameEntriesGap(a.nonResourceURLs, b.nonResourceURLs);
    }
  }

  // ---------------------------------------------------------------- subject keys

  datatype SubjectConfig = SubjectConfig(kind: Option<string>, apiGroup: Option<string>, name: Option<string>, namespace: Option<string>)

  const RBAC_GROUP := "rbac.authorization.k8s.io"

  function OrEmpty(s: Option<string>): string {
    match s
    case None => ""
    case Some(v) => v
  }

  function Desired(c: SubjectConfig): Subject {
    Subject(OrEmpty(c.kind), OrEmpty(c.apiGroup), OrEmpty(c.name), OrEmpty(c.namespace))
  }

  /** The subject with the API group the server fills in for users and groups. */
  function Defaulted(s: Subject): Subject {
    if s.apiGroup == "" && (s.kind == "User" || s.kind == "Group") then s.(apiGroup := RBAC_GROUP) else s
  }

  function SubjectKey(s: Subject): string {
    var d := Defaulted(s);
    d.kind + "/" + (d.apiGroup + "/" + (d.name + "/" + d.namespace))
  }

  /** Names may contain slashes, the other parts may not. */
  predicate PlainSubject(s: Subject) {
    '/' !in s.kind && '/' !in s.apiGroup && '/' !in s.namespace
  }

  lemma CutUniqueFromRight(a: string, x: string, b: string, y: string, sep: char)
    requires sep !in x && sep !in y
    requires a + [sep] + x == b + [sep] + y
    ensures a == b && x == y
  {
    var s := a + [sep] + x;
    assert s[|a|] == sep && s[|b|] == sep;
    assert forall i :: |a| < i < |s| ==> s[i] == x[i - |a| - 1];
    assert forall i :: |b| < i < |s| ==> s[i] == y[i - |b| - 1];
    assert |a| == |b|;
    assert a == s[..|a|] == b;
    assert x == s[|a| + 1..] == y;
  }

  lemma PlainParts(a: Subject, b: Subject)
    requires PlainSubject(a) && PlainSubject(b)
    requires a.kind + "/" + (a.apiGroup + "/" + (a.name + "/" + a.namespace)) == b.kind + "/" + (b.apiGroup + "/" + (b.name + "/" + b.namespace))
    ensures a == b
  {
    CutUnique(a.kind, a.apiGroup + "/" + (a.name + "/" + a.namespace), b.kind, b.apiGroup + "/" + (b.name + "/" + b.namespace), '/');
    CutUnique(a.apiGroup, a.name + "/" + a.namespace, b.apiGroup, b.name + "/" + b.namespace, '/');
    CutUniqueFromRight(a.name, a.namespace, b.name, b.namespace, '/');
  }

  lemma DefaultedPlain(s: Subject)
    requires PlainSubject(s)
    ensures PlainSubject(Defaulted(s))
  {
  }

  /** Equal subject keys mean the same subject up to the default group. */
  lemma SubjectKeyExact(a: Subject, b: Subject)
    requires PlainSubject(a) && PlainSubject(b)
    ensures SubjectKey(a) == SubjectKey(b) <==> Defaulted(a) == Defaulted(b)
  {
    DefaultedPlain(a);
    DefaultedPlain(b);
    if SubjectKey(a) == SubjectKey(b) {
      PlainParts(Defaulted(a), Defaulted(b));
    }
  }

  /** Subjects are the same up to the default group exactly when they agree in all but the group, and in the group
      too unless both are a user or group whose group is the default or left out. */
  lemma SameUpToDefault(a: Subject, b: Subject)
    ensures Defaulted(a) == Defaulted(b) <==>
            && a.kind == b.kind && a.name == b.name && a.namespace == b.namespace
            && (a.apiGroup == b.apiGroup || (a.kind in {"User", "Group"} && {a.apiGroup, b.apiGroup} <= {"", "rbac.authorization.k8s.io"}))
  {
    if a.apiGroup == "rbac.authorization.k8s.io" || b.apiGroup == "rbac.authorization.k8s.io" {
      assert RBAC_GROUP != "";
    }
  }

  // ---------------------------------------------------------------- order-insensitive comparison

  /** The elements of a can be paired off with those of b, each with one it equals. */
  ghost predicate PairsOff<A(!new), B(!new)>(a: seq<A>, b: seq<B>, same: (A, B) -> bool)
    decreases |a|
  {
    if a == [] then b == []
    else exists j :: 0 <= j < |b| && same(a[0], b[j]) && PairsOff(a[1..], Without(b, j), same)
  }

  function Without<T>(xs: seq<T>, j: nat): seq<T>
    requires j < |xs|
  {
    xs[..j] + xs[j + 1..]
  }

  function Keys<T>(xs: seq<T>, key: T -> string): (r: seq<string>)
    ensures |r| == |xs| && forall i :: 0 <= i < |r| ==> r[i] == key(xs[i])
  {
    seq(|xs|, i requires 0 <= i < |xs| => key(xs[i]))
  }

  /** The keys tell apart what same tells apart. */
  ghost predicate Faithful<A(!new), B(!new)>(a: seq<A>, b: seq<B>, keyA: A -> string, keyB: B -> string, same: (A, B) -> bool) {
    forall i, j :: 0 <= i < |a| && 0 <= j < |b| ==> (keyA(a[i]) == keyB(b[j]) <==> same(a[i], b[j]))
  }

  lemma WithoutKeys<T>(xs: seq<T>, key: T -> string, j: nat)
    requires j < |xs|
    ensures multiset(Keys(xs, key)) == multiset(Keys(Without(xs, j), key)) + multiset{key(xs[j])}
  {
    var ks := Keys(xs, key);
    assert Keys(Without(xs, j), key) == ks[..j] + ks[j + 1..];
    assert ks == ks[..j] + [ks[j]] + ks[j + 1..];
  }

  lemma HeadKeys<T>(xs: seq<T>, key: T -> string)
    requires xs != []
    ensures multiset(Keys(xs, key)) == multiset(Keys(xs[1..], key)) + multiset{key(xs[0])}
  {
    assert Keys(xs, key) == [key(xs[0])] + Keys(xs[1..], key);
  }

  lemma Cancel<T>(x: multiset<T>, y: multiset<T>, e: T)
    requires x + multiset{e} == y + multiset{e}
    ensures x == y
  {
    assert x == (x + multiset{e}) - multiset{e};
    assert y == (y + multiset{e}) - multiset{e};
  }

  lemma {:induction false} PairedKeys<A(!new), B(!new)>(a: seq<A>, b: seq<B>, keyA: A -> string, keyB: B -> string, same: (A, B) -> bool)
    requires Faithful(a, b, keyA, keyB, same) && PairsOff(a, b, same)
    ensures multiset(Keys(a, keyA)) == multiset(Keys(b, keyB))
    decreases |a|
  {
    if a != [] {
      var j :| 0 <= j < |b| && same(a[0], b[j]) && PairsOff(a[1..], Without(b, j), same);
      PairedKeys(a[1..], Without(b, j), keyA, keyB, same);
      HeadKeys(a, keyA);
      WithoutKeys(b, keyB, j);
    }
  }

  lemma {:induction false} KeyedPairs<A(!new), B(!new)>(a: seq<A>, b: seq<B>, keyA: A -> string, keyB: B -> string, same: (A, B) -> bool)
    requires Faithful(a, b, keyA, keyB, same) && multiset(Keys(a, keyA)) == multiset(Keys(b, keyB))
    ensures PairsOff(a, b, same)
    decreases |a|
  {
    SameMultisetSameElements(Keys(a, keyA), Keys(b, keyB));
    if a != [] {
      assert Keys(a, keyA)[0] in Keys(b, keyB);
      var j :| 0 <= j < |b| && Keys(b, keyB)[j] == keyA(a[0]);
      HeadKeys(a, keyA);
      WithoutKeys(b, keyB, j);
      Cancel(multiset(Keys(a[1..], keyA)), multiset(Keys(Without(b, j), keyB)), keyA(a[0]));
      KeyedPairs(a[1..], Without(b, j), keyA, keyB, same);
    }
  }

  /** Sorting two key lists and comparing them position by position. */
  method KeysEqual(a: seq<string>, b: seq<string>) returns (equal: bool)
    ensures equal <==> multiset(a) == multiset(b)
  {
    SortByMultiset(a, b);
    return Sort(a) == Sort(b);
  }

  method CollectKeys<T>(xs: seq<T>, key: T -> string) returns (keys: seq<string>)
    ensures keys == Keys(xs, key)
  {
    keys := [];
    for i := 0 to |xs|
      invariant |keys| == i && forall k :: 0 <= k < i ==> keys[k] == key(xs[k])
    {
      keys := keys + [key(xs[i])];
    }
  }

  method KeyedMatch<A(!new), B(!new)>(a: seq<A>, b: seq<B>, keyA: A -> string, keyB: B -> string) returns (ok: bool)
    ensures ok <==> multiset(Keys(a, keyA)) == multiset(Keys(b, keyB))
  {
    if |a| != |b| {
      if multiset(Keys(a, keyA)) == multiset(Keys(b, keyB)) { SameMultisetSameElements(Keys(a, keyA), Keys(b, keyB)); }
      return false;
    }
    var existing := CollectKeys(a, keyA);
    var desired := CollectKeys(b, keyB);
    ok := KeysEqual(existing, desired);
  }

  predicate RulesMatch(existing: seq<PolicyRule>, desired: seq<PolicyRule>) {
    multiset(Keys(existing, RuleKey)) == multiset(Keys(desired, RuleKey))
  }

  predicate SubjectsMatch(existing: seq<Subject>, desired: seq<SubjectConfig>) {
    multiset(Keys(existing, SubjectKey)) == multiset(Keys(desired, (c: SubjectConfig) => SubjectKey(Desired(c))))
  }

  /** policyRulesMatch. */
  method PolicyRulesMatch(existing: seq<PolicyRule>, desired: seq<PolicyRule>) returns (ok: bool)
    ensures ok <==> RulesMatch(existing, desired)
  {
    ok := KeyedMatch(existing, desired, RuleKey, RuleKey);
  }

  method SubjectListsMatch(existing: seq<Subject>, desired: seq<SubjectConfig>) returns (ok: bool)
    ensures ok <==> SubjectsMatch(existing, desired)
  {
    ok := KeyedMatch(existing, desired, SubjectKey, (c: SubjectConfig) => SubjectKey(Desired(c)));
  }

  /** No pair of rules with the same key is cut differently. */
  predicate ToldApart(existing: seq<PolicyRule>, desired: seq<PolicyRule>) {
    forall i, j :: 0 <= i < |existing| && 0 <= j < |desired| && RuleKey(existing[i]) == RuleKey(desired[j]) ==> CutAlike(existing[i], desired[j])
  }

  lemma RulesMatchExact(existing: seq<PolicyRule>, desired: seq<PolicyRule>)
    requires ToldApart(existing, desired)
    ensures RulesMatch(existing, desired) <==> PairsOff(existing, desired, SameRule)
  {
    forall i, j | 0 <= i < |existing| && 0 <= j < |desired|
      ensures RuleKey(existing[i]) == RuleKey(desired[j]) <==> SameRule(existing[i], desired[j])
    {
      EqualKeysIff(existing[i], desired[j]);
    }
    if RulesMatch(existing, desired) { KeyedPairs(existing, desired, RuleKey, RuleKey, SameRule); }
    if PairsOff(existing, desired, SameRule) { PairedKeys(existing, desired, RuleKey, RuleKey, SameRule); }
  }

  /** Well-formed rules are told apart. */
  lemma WellFormedToldApart(existing: seq<PolicyRule>, desired: seq<PolicyRule>)
    requires forall i :: 0 <= i < |existing| ==> WellFormed(existing[i])
    requires forall i :: 0 <= i < |desired| ==> WellFormed(desired[i])
    ensures ToldApart(existing, desired)
  {
    forall i, j | 0 <= i < |existing| && 0 <= j < |desired| && RuleKey(existing[i]) == RuleKey(desired[j])
      ensures CutAlike(existing[i], desired[j])
    {
      WellFormedKeys(existing[i], desired[j]);
      EqualKeysIff(existing[i], desired[j]);
    }
  }

  predicate SameSubject(a: Subject, b: SubjectConfig) {
    Defaulted(a) == Defaulted(Desired(b))
  }

  lemma SubjectsMatchExact(existing: seq<Subject>, desired: seq<SubjectConfig>)
    requires forall i :: 0 <= i < |existing| ==> PlainSubject(existing[i])
    requires forall i :: 0 <= i < |desired| ==> PlainSubject(Desired(desired[i]))
    ensures SubjectsMatch(existing, desired) <==> PairsOff(existing, desired, SameSubject)
  {
    var key := (c: SubjectConfig) => SubjectKey(Desired(c));
    forall i, j | 0 <= i < |existing| && 0 <= j < |desired|
      ensures SubjectKey(existing[i]) == key(desired[j]) <==> SameSubject(existing[i], desired[j])
    {
      SubjectKeyExact(existing[i], Desired(desired[j]));
    }
    if SubjectsMatch(existing, desired) { KeyedPairs(existing, desired, SubjectKey, key, SameSubject); }
    if PairsOff(existing, desired, SameSubject) { PairedKeys(existing, desired, SubjectKey, key, SameSubject); }
  }

  // ---------------------------------------------------------------- every reordering matches

  lemma {:induction false} SameRuleSameKey(a: PolicyRule, b: PolicyRule)
    requires SameRule(a, b)
    ensures RuleKey(a) == RuleKey(b)
  {
    SortByMultiset(a.verbs, b.verbs);
    SortByMultiset(a.apiGroups, b.apiGroups);
    SortByMultiset(a.resources, b.resources);
    SortByMultiset(a.resourceNames, b.resourceNames);
    SortByMultiset(a.nonResourceURLs, b.nonResourceURLs);
  }

  /** Without any assumption on the entries: reordering rules and entries never looks like a change. */
  lemma {:induction false} ReorderedRulesMatch(a: seq<PolicyRule>, b: seq<PolicyRule>)
    requires PairsOff(a, b, SameRule)
    ensures RulesMatch(a, b)
    decreases |a|
  {
    if a != [] {
      var j :| 0 <= j < |b| && SameRule(a[0], b[j]) && PairsOff(a[1..], Without(b, j), SameRule);
      ReorderedRulesMatch(a[1..], Without(b, j));
      SameRuleSameKey(a[0], b[j]);
      HeadKeys(a, RuleKey);
      WithoutKeys(b, RuleKey, j);
    }
  }

  lemma {:induction false} ReorderedSubjectsMatch(a: seq<Subject>, b: seq<SubjectConfig>)
    requires PairsOff(a, b, SameSubject)
    ensures SubjectsMatch(a, b)
    decreases |a|
  {
    if a != [] {
      var key := (c: SubjectConfig) => SubjectKey(Desired(c));
      var j :| 0 <= j < |b| && SameSubject(a[0], b[j]) && PairsOff(a[1..], Without(b, j), SameSubject);
      ReorderedSubjectsMatch(a[1..], Without(b, j));
      assert SubjectKey(a[0]) == key(b[j]);
      HeadKeys(a, SubjectKey);
      WithoutKeys(b, key, j);
    }
  }

  // ---------------------------------------------------------------- a skipped apply changes no permission

  lemma SameRuleSameGrants(a: PolicyRule, b: PolicyRule, r: Request)
    requires SameRule(a, b)
    ensures RuleAllows(a, r) <==> RuleAllows(b, r)
  {
    SameMultisetSameElements(a.verbs, b.verbs);
    SameMultisetSameElements(a.apiGroups, b.apiGroups);
    SameMultisetSameElements(a.resources, b.resources);
    SameMultisetSameElements(a.resourceNames, b.resourceNames);
    SameMultisetSameElements(a.nonResourceURLs, b.nonResourceURLs);
    SameEntriesSameGrants(a, b, r);
  }

  lemma AllowsWithout(b: seq<PolicyRule>, j: nat, r: Request)
    requires j < |b|
    ensures Allows(b, r) <==> RuleAllows(b[j], r) || Allows(Without(b, j), r)
  {
    var rest := Without(b, j);
    forall i | 0 <= i < |b| && i != j ensures exists k :: 0 <= k < |rest| && rest[k] == b[i] {
      var k := if i < j then i else i - 1;
      assert rest[k] == b[i];
    }
    forall k | 0 <= k < |rest| ensures exists i :: 0 <= i < |b| && b[i] == rest[k] {
      assert rest[k] == b[if k < j then k else k + 1];
    }
  }

  lemma {:induction false} PairedRulesAllow(a: seq<PolicyRule>, b: seq<PolicyRule>, r: Request)
    requires PairsOff(a, b, SameRule)
    ensures Allows(a, r) <==> Allows(b, r)
    decreases |a|
  {
    if a != [] {
      var j :| 0 <= j < |b| && SameRule(a[0], b[j]) && PairsOff(a[1..], Without(b, j), SameRule);
      PairedRulesAllow(a[1..], Without(b, j), r);
      SameRuleSameGrants(a[0], b[j], r);
      AllowsWithout(a, 0, r);
      assert Without(a, 0) == a[1..];
      AllowsWithout(b, j, r);
    }
  }

  /** Matching rule lists that are told apart grant the same requests. */
  lemma MatchingRulesGrantTheSame(existing: seq<PolicyRule>, desired: seq<PolicyRule>, r: Request)
    requires ToldApart(existing, desired) && RulesMatch(existing, desired)
    ensures Allows(existing, r) <==> Allows(desired, r)
  {
    RulesMatchExact(existing, desired);
    PairedRulesAllow(existing, desired, r);
  }

  /** Outside the well-formed rules equal keys can hide a change: a rule for one empty resource name and
      the rule for every name have the same key. */
  lemma EmptyNameCollides(rule: PolicyRule, r: Request)
    requires rule.resourceNames == [] && RuleAllows(rule, r) && r.ResourceRequest? && r.name != ""
    ensures RuleKey(rule) == RuleKey(rule.(resourceNames := [""]))
    ensures !RuleAllows(rule.(resourceNames := [""]), r)
  {
  }

  // ---------------------------------------------------------------- the skip decision for roles

  datatype OwnerRefConfig = OwnerRefConfig(
    apiVersion: Option<string>, kind: Option<string>, name: Option<string>, uid: Option<string>, controller: Option<bool>, block: Option<bool>)

  /** A live Role, or a ClusterRole that does not aggregate. */
  datatype Role = Role(labels: map<string, string>, annotations: map<string, string>, owners: seq<OwnerRef>, rules: seq<PolicyRule>)
  datatype RoleConfig = RoleConfig(
    name: string, namespace: Option<string>, labels: map<string, string>, annotations: map<string, string>, owners: seq<OwnerRefConfig>, rules: seq<PolicyRule>)

  predicate Contains(existing: map<string, string>, desired: map<string, string>) {
    forall k :: k in desired ==> k in existing && existing[k] == desired[k]
  }

  predicate Unset<T(==)>(desired: Option<T>, value: T) {
    desired.None? || desired.value == value
  }

  /** The fields the configuration declares agree with the live reference. */
  predicate OwnerAgrees(e: OwnerRef, d: OwnerRefConfig) {
    && Unset(d.apiVersion, e.owner.apiVersion) && Unset(d.kind, e.owner.kind) && Unset(d.name, e.owner.name)
    && (d.controller.None? || d.controller == e.controller) && (d.block.None? || d.block == e.block)
  }

  /** The first live reference with the desired UID agrees. */
  predicate OwnerPresent(existing: seq<OwnerRef>, d: OwnerRefConfig) {
    && d.uid.Some?
    && exists i :: 0 <= i < |existing| && existing[i].owner.uid == d.uid.value && OwnerAgrees(existing[i], d) &&
         forall k :: 0 <= k < i ==> existing[k].owner.uid != d.uid.value
  }

  method OwnerRefsMatch(existing: seq<OwnerRef>, desired: seq<OwnerRefConfig>) returns (ok: bool)
    ensures ok <==> forall j :: 0 <= j < |desired| ==> OwnerPresent(existing, desired[j])
  {
    for j := 0 to |desired|
      invariant forall k :: 0 <= k < j ==> OwnerPresent(existing, desired[k])
    {
      var d := desired[j];
      if d.uid.None? {
        return false;
      }
      var i := 0;
      while i < |existing| && existing[i].owner.uid != d.uid.value
        invariant 0 <= i <= |existing|
        invariant forall k :: 0 <= k < i ==> existing[k].owner.uid != d.uid.value
      {
        i := i + 1;
      }
      if i == |existing| || !OwnerAgrees(existing[i], d) {
        assert !OwnerPresent(existing, desired[j]);
        return false;
      }
    }
    return true;
  }

  /** The live role already has what the configuration declares. */
  ghost predicate UpToDate(existing: Role, desired: RoleConfig) {
    && Contains(existing.labels, desired.labels) && Contains(existing.annotations, desired.annotations)
    && (forall j :: 0 <= j < |desired.owners| ==> OwnerPresent(existing.owners, desired.owners[j]))
    && RulesMatch(existing.rules, desired.rules)
  }

  method RoleMatches(existing: Role, desired: RoleConfig) returns (ok: bool)
    ensures ok <==> UpToDate(existing, desired)
  {
    if !Contains(existing.labels, desired.labels) || !Contains(existing.annotations, desired.annotations) {
      return false;
    }
    ok := OwnerRefsMatch(existing.owners, desired.owners);
    if ok {
      ok := PolicyRulesMatch(existing.rules, desired.rules);
    }
  }

  // ---------------------------------------------------------------- an up-to-date role is left as it is

  /** The live reference with the declared fields put in. */
  function Overlaid(e: OwnerRef, d: OwnerRefConfig): OwnerRef {
    OwnerRef(
      Owner(Given(d.apiVersion, e.owner.apiVersion), Given(d.kind, e.owner.kind), Given(d.name, e.owner.name), e.owner.uid),
      if d.controller.Some? then d.controller else e.controller,
      if d.block.Some? then d.block else e.block)
  }

  function Given(declared: Option<string>, live: string): string {
    if declared.Some? then declared.value else live
  }

  /** References are merged by UID: the first with the UID gets the declared fields, a new one is appended. */
  function MergedOwner(existing: seq<OwnerRef>, d: OwnerRefConfig, uid: string): seq<OwnerRef> {
    if existing == [] then [Overlaid(OwnerRef(Owner("", "", "", uid), None, None), d)]
    else if existing[0].owner.uid == uid then [Overlaid(existing[0], d)] + existing[1..]
    else [existing[0]] + MergedOwner(existing[1..], d, uid)
  }

  lemma {:induction false} OwnerPresentIffMerged(existing: seq<OwnerRef>, d: OwnerRefConfig)
    ensures OwnerPresent(existing, d) <==> d.uid.Some? && MergedOwner(existing, d, d.uid.value) == existing
  {
    if d.uid.Some? && existing != [] {
      var rest := existing[1..];
      OwnerPresentIffMerged(rest, d);
      assert existing == [existing[0]] + rest;
      if existing[0].owner.uid == d.uid.value {
        assert OwnerAgrees(existing[0], d) <==> Overlaid(existing[0], d) == existing[0];
        assert ([Overlaid(existing[0], d)] + rest)[0] == Overlaid(existing[0], d);
      } else {
        OwnerPresentBehind(existing, d);
        assert ([existing[0]] + MergedOwner(rest, d, d.uid.value))[1..] == MergedOwner(rest, d, d.uid.value);
      }
    }
  }

  lemma OwnerPresentBehind(existing: seq<OwnerRef>, d: OwnerRefConfig)
    requires existing != [] && d.uid.Some? && existing[0].owner.uid != d.uid.value
    ensures OwnerPresent(existing, d) <==> OwnerPresent(existing[1..], d)
  {
    var rest := existing[1..];
    if OwnerPresent(rest, d) {
      var i :| 0 <= i < |rest| && rest[i].owner.uid == d.uid.value && OwnerAgrees(rest[i], d) && forall k :: 0 <= k < i ==> rest[k].owner.uid != d.uid.value;
      assert existing[i + 1] == rest[i];
      assert forall k :: 0 < k < i + 1 ==> existing[k] == rest[k - 1];
    }
    if OwnerPresent(existing, d) {
      var i :| 0 <= i < |existing| && existing[i].owner.uid == d.uid.value && OwnerAgrees(existing[i], d) &&
        forall k :: 0 <= k < i ==> existing[k].owner.uid != d.uid.value;
      assert rest[i - 1] == existing[i];
      assert forall k :: 0 <= k < i - 1 ==> rest[k] == existing[k + 1];
    }
  }

  /** The live role is up to date exactly when merging the declared labels, annotations and owners into it changes
      nothing and the rules match. */
  lemma UpToDateIffUnchanged(existing: Role, desired: RoleConfig)
    ensures UpToDate(existing, desired) <==>
            && existing.labels + desired.labels == existing.labels && existing.annotations + desired.annotations == existing.annotations
            && (forall d :: d in desired.owners ==> d.uid.Some? && MergedOwner(existing.owners, d, d.uid.value) == existing.owners)
            && RulesMatch(existing.rules, desired.rules)
  {
    ContainedIffMerged(existing.labels, desired.labels);
    ContainedIffMerged(existing.annotations, desired.annotations);
    forall d: OwnerRefConfig { OwnerPresentIffMerged(existing.owners, d); }
    if forall d :: d in desired.owners ==> OwnerPresent(existing.owners, d) {
      forall j | 0 <= j < |desired.owners| ensures OwnerPresent(existing.owners, desired.owners[j]) { assert desired.owners[j] in desired.owners; }
    }
  }

  lemma ContainedIffMerged(existing: map<string, string>, desired: map<string, string>)
    ensures Contains(existing, desired) <==> existing + desired == existing
  {
    if existing + desired == existing {
      forall k | k in desired ensures k in existing && existing[k] == desired[k] { assert (existing + desired)[k] == desired[k]; }
    }
  }

  /** An up-to-date role whose rules are told apart from the desired ones grants what the configuration asks for. */
  lemma UpToDateGrantsTheSame(existing: Role, desired: RoleConfig, r: Request)
    requires UpToDate(existing, desired) && ToldApart(existing.rules, desired.rules)
    ensures Allows(existing.rules, r) <==> Allows(desired.rules, r)
  {
    MatchingRulesGrantTheSame(existing.rules, desired.rules, r);
  }

  datatype Lookup = Found(role: Role) | NotFound | Failed
  datatype Decision = Skip | GetError | Apply

  /** patchApplyRoleWithLegacySkip: only an unforced request without preconditions reads the live role, and
      only a live role that is up to date is left alone. */
  method DecideRole(live: Lookup, desired: RoleConfig, namespaced: bool, always: bool, preconditions: bool, force: bool)
    returns (d: Decision)
    ensures var looks := !always && !preconditions && !force && desired.name != "" && (!namespaced || OrEmpty(desired.namespace) != "");
            && (d == Skip <==> looks && live.Found? && UpToDate(live.role, desired))
            && (d == GetError <==> looks && live.Failed?)
  {
    if !always && !preconditions && !force && desired.name != "" &&
       (!namespaced || (desired.namespace.Some? && desired.namespace.value != "")) {
      if live.Found? {
        var matches := RoleMatches(live.role, desired);
        if matches {
          return Skip;
        }
      } else if live.Failed? {
        return GetError;
      }
    }
    return Apply;
  }
}
