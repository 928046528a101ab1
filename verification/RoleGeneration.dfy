/** The rules generated for a RestrictedRoleDefinition from the discovered API resources
    (internal/controller/authorization/restrictedroledefinition_controller.go). */
module RoleGeneration {
  import opened Options
  import opened Strings
  import opened Rbac
  import opened Matcher
  import opened RoleEvaluator
  import opened Discovery

  // ---------------------------------------------------------------- restrictions of a group version

  predicate Applies(api: RestrictedAPI, gv: GroupVersion) {
    MatchesWildcard(api.name, gv.group) && (api.versions == [] || gv.version in api.versions)
  }

  predicate Blocked(apis: seq<RestrictedAPI>, gv: GroupVersion) {
    exists i :: 0 <= i < |apis| && Applies(apis[i], gv) && apis[i].verbs == []
  }

  predicate VerbRemoved(apis: seq<RestrictedAPI>, gv: GroupVersion, verb: string) {
    exists i :: 0 <= i < |apis| && Applies(apis[i], gv) && ContainsOrStar(apis[i].verbs, verb)
  }

  /** rrdCheckAPIRestriction: restricted without verbs means fully blocked. */
  method CheckAPI(apis: seq<RestrictedAPI>, gv: GroupVersion) returns (restricted: bool, verbs: seq<string>)
    ensures restricted && verbs == [] <==> Blocked(apis, gv)
    ensures !Blocked(apis, gv) ==> forall v :: ContainsOrStar(verbs, v) <==> VerbRemoved(apis, gv, v)
  {
    var verbSet: set<string> := {};
    restricted := false;
    for i := 0 to |apis|
      invariant forall k :: 0 <= k < i && Applies(apis[k], gv) ==> apis[k].verbs != []
      invariant if restricted then verbSet != {} else forall k :: 0 <= k < i ==> !Applies(apis[k], gv)
      invariant forall v :: v in verbSet <==> exists k :: 0 <= k < i && Applies(apis[k], gv) && v in apis[k].verbs
    {
      if !Applies(apis[i], gv) {
        continue;
      }
      restricted := true;
      if |apis[i].verbs| == 0 {
        return true, [];
      }
      assert apis[i].verbs[0] in Elements(apis[i].verbs);
      verbSet := verbSet + Elements(apis[i].verbs);
    }
    if !restricted {
      return false, [];
    }
    verbs := SortedKeys(verbSet);
    assert verbs == [] ==> Elements(verbs) == {};
    assert forall v :: v in verbs <==> v in Elements(verbs);
  }

  // ---------------------------------------------------------------- the verbs kept of a resource

  /** Unlike in the policy evaluation, the group is that of a discovered resource. */
  predicate ResourceRestricted(rd: RoleDefinition, name: string, group: string) {
    exists i :: 0 <= i < |rd.restrictedResources| &&
      MatchesResourceName(rd.restrictedResources[i].name, name) &&
      (MatchesWildcard(rd.restrictedResources[i].group, group) || rd.restrictedResources[i].group == "")
  }

  predicate Removed(rd: RoleDefinition, gv: GroupVersion, verb: string) {
    ContainsOrStar(rd.restrictedVerbs, verb) || VerbRemoved(rd.restrictedAPIs, gv, verb)
  }

  function Remaining(rd: RoleDefinition, gv: GroupVersion, verbs: seq<string>): seq<string> {
    if verbs == [] then []
    else Remaining(rd, gv, verbs[..|verbs| - 1]) + (if Removed(rd, gv, verbs[|verbs| - 1]) then [] else [verbs[|verbs| - 1]])
  }

  predicate Open(rd: RoleDefinition, gv: GroupVersion, res: Resource) {
    res.namespaced == rd.scopeNamespaced && !Blocked(rd.restrictedAPIs, gv) && !ResourceRestricted(rd, res.name, gv.group)
  }

  /** The sorted verbs the generated rules grant on the resource. */
  function Kept(rd: RoleDefinition, gv: GroupVersion, res: Resource): seq<string> {
    if Open(rd, gv, res) then Sort(Remaining(rd, gv, res.verbs)) else []
  }

  lemma {:induction false} RemainingVerbs(rd: RoleDefinition, gv: GroupVersion, verbs: seq<string>, v: string)
    ensures v in Remaining(rd, gv, verbs) <==> v in verbs && !Removed(rd, gv, v)
  {
    if verbs != [] {
      RemainingVerbs(rd, gv, verbs[..|verbs| - 1], v);
      assert verbs == verbs[..|verbs| - 1] + [verbs[|verbs| - 1]];
    }
  }

  lemma KeptVerbs(rd: RoleDefinition, gv: GroupVersion, res: Resource, v: string)
    ensures v in Kept(rd, gv, res) <==> Open(rd, gv, res) && v in res.verbs && !Removed(rd, gv, v)
  {
    var rest := Remaining(rd, gv, res.verbs);
    SortSorts(rest);
    SameMultisetSameElements(Sort(rest), rest);
    RemainingVerbs(rd, gv, res.verbs, v);
  }

  // ---------------------------------------------------------------- what the output is

  /** Some discovered resource of the group keeps exactly these verbs. */
  ghost predicate Entry(rd: RoleDefinition, s: Snapshot, group: string, verbs: seq<string>, name: string) {
    exists text, i :: text in s && 0 <= i < |s[text]| && Yields(rd, text, s[text][i], group, verbs, name)
  }

  predicate Yields(rd: RoleDefinition, text: string, res: Resource, group: string, verbs: seq<string>, name: string) {
    var gv := ParseGroupVersion(text);
    gv.Some? && gv.value.group == group && res.name == name && verbs != [] && Kept(rd, gv.value, res) == verbs
  }

  ghost predicate HasEntry(rd: RoleDefinition, s: Snapshot, group: string, verbs: seq<string>) {
    exists name :: Entry(rd, s, group, verbs, name)
  }

  /** The rule of one group and one list of verbs: all resources that keep exactly these, sorted. */
  ghost predicate GroupRule(rd: RoleDefinition, s: Snapshot, rule: PolicyRule) {
    && |rule.apiGroups| == 1 && rule.resourceNames == [] && rule.nonResourceURLs == []
    && HasEntry(rd, s, rule.apiGroups[0], rule.verbs)
    && StrictlySorted(rule.resources)
    && forall name :: name in rule.resources <==> Entry(rd, s, rule.apiGroups[0], rule.verbs, name)
  }

  /** strings.Compare of the joined groups, then of the joined resources, then of the joined verbs. */
  predicate Before(a: PolicyRule, b: PolicyRule) {
    var ga, gb := Join(a.apiGroups, ','), Join(b.apiGroups, ',');
    var ra, rb := Join(a.resources, ','), Join(b.resources, ',');
    Lt(ga, gb) || (ga == gb && (Lt(ra, rb) || (ra == rb && Lt(Join(a.verbs, ','), Join(b.verbs, ',')))))
  }

  predicate Ordered(rules: seq<PolicyRule>) {
    forall i, j :: 0 <= i < j < |rules| ==> Before(rules[i], rules[j])
  }

  /** One rule for each group and kept list of verbs, in order. */
  ghost predicate Output(rd: RoleDefinition, s: Snapshot, rules: seq<PolicyRule>) {
    Ordered(rules) && forall rule :: rule in rules <==> GroupRule(rd, s, rule)
  }

  lemma BeforeAsymmetric(a: PolicyRule, b: PolicyRule)
    requires Before(a, b)
    ensures !Before(b, a)
  {
    LtAsymmetric(Join(a.apiGroups, ','), Join(b.apiGroups, ','));
    LtAsymmetric(Join(a.resources, ','), Join(b.resources, ','));
    LtAsymmetric(Join(a.verbs, ','), Join(b.verbs, ','));
  }

  lemma LtAsymmetric(a: string, b: string)
    ensures !(Lt(a, b) && Lt(b, a))
  {
    if Le(a, b) && Le(b, a) { LeAntisymmetric(a, b); }
  }

  lemma OrderedHead(rules: seq<PolicyRule>, x: PolicyRule)
    requires Ordered(rules) && x in rules
    ensures x == rules[0] || Before(rules[0], x)
  {
  }

  lemma OrderedTail(rules: seq<PolicyRule>, x: PolicyRule)
    requires Ordered(rules) && rules != []
    ensures x in rules[1..] <==> x in rules && x != rules[0]
  {
    if x in rules[1..] {
      var i :| 0 < i < |rules| && rules[i] == x;
      assert Before(rules[0], rules[i]);
      if x == rules[0] { BeforeAsymmetric(x, x); }
    }
  }

  lemma {:induction false} OrderedUnique(a: seq<PolicyRule>, b: seq<PolicyRule>)
    requires Ordered(a) && Ordered(b) && forall x :: x in a <==> x in b
    ensures a == b
  {
    assert b == [] || b[0] in b;
    if a != [] {
      assert a[0] in b && b[0] in b;
      OrderedHead(a, b[0]);
      OrderedHead(b, a[0]);
      if a[0] != b[0] { BeforeAsymmetric(a[0], b[0]); }
      forall x ensures x in a[1..] <==> x in b[1..] {
        OrderedTail(a, x);
        OrderedTail(b, x);
      }
      OrderedUnique(a[1..], b[1..]);
    }
  }

  /** The output is determined by the snapshot, whatever the order in which maps are iterated. */
  lemma OutputUnique(rd: RoleDefinition, s: Snapshot, a: seq<PolicyRule>, b: seq<PolicyRule>)
    requires Output(rd, s, a) && Output(rd, s, b)
    ensures a == b
  {
    OrderedUnique(a, b);
  }

  /** In the output groups ascend, within a group the joined resources, and for these the joined verbs. */
  lemma OutputAscends(rd: RoleDefinition, s: Snapshot, rules: seq<PolicyRule>, i: nat, j: nat)
    requires Output(rd, s, rules) && i < j < |rules|
    ensures |rules[i].apiGroups| == 1 && |rules[j].apiGroups| == 1
    ensures var g, h := rules[i].apiGroups[0], rules[j].apiGroups[0];
            var r, q := Join(rules[i].resources, ','), Join(rules[j].resources, ',');
            Lt(g, h) || (g == h && Lt(r, q)) || (g == h && r == q && Lt(Join(rules[i].verbs, ','), Join(rules[j].verbs, ',')))
  {
    assert rules[i] in rules && rules[j] in rules;
    assert Before(rules[i], rules[j]);
  }

  // ---------------------------------------------------------------- the keyed rules

  type Keyed = map<string, PolicyRule>

  function Key(group: string, verbs: seq<string>): string {
    group + "|" + Join(verbs, ',')
  }

  /** The resource joins the rule of its group and verbs, once. */
  function WithResource(m: Keyed, group: string, verbs: seq<string>, name: string): Keyed {
    var key := Key(group, verbs);
    var rule := if key in m then m[key] else PolicyRule(verbs, [group], [], [], []);
    m[key := if name in rule.resources then rule else rule.(resources := rule.resources + [name])]
  }

  /** Sorted verbs and a group free of the separators of the key. */
  predicate PlainKey(group: string, verbs: seq<string>) {
    '|' !in group && verbs != [] && AllFree(verbs, ',') && Sorted(verbs)
  }

  predicate Once(xs: seq<string>) {
    forall i, j :: 0 <= i < j < |xs| ==> xs[i] != xs[j]
  }

  predicate KeyedRule(key: string, rule: PolicyRule) {
    && |rule.apiGroups| == 1 && PlainKey(rule.apiGroups[0], rule.verbs) && key == Key(rule.apiGroups[0], rule.verbs)
    && rule.resources != [] && Once(rule.resources) && rule.resourceNames == [] && rule.nonResourceURLs == []
  }

  predicate AllKeyed(m: Keyed) {
    forall key :: key in m ==> KeyedRule(key, m[key])
  }

  predicate Lists(m: Keyed, group: string, verbs: seq<string>, name: string) {
    var key := Key(group, verbs);
    key in m && m[key].apiGroups == [group] && m[key].verbs == verbs && name in m[key].resources
  }

  /** The key determines group and verbs. */
  lemma KeyUnique(g: string, vs: seq<string>, h: string, ws: seq<string>)
    requires PlainKey(g, vs) && PlainKey(h, ws) && Key(g, vs) == Key(h, ws)
    ensures g == h && vs == ws
  {
    CutUnique(g, Join(vs, ','), h, Join(ws, ','), '|');
    SplitJoin(vs, ',');
    SplitJoin(ws, ',');
  }

  lemma FoundRule(m: Keyed, group: string, verbs: seq<string>)
    requires AllKeyed(m) && PlainKey(group, verbs) && Key(group, verbs) in m
    ensures m[Key(group, verbs)].apiGroups == [group] && m[Key(group, verbs)].verbs == verbs
  {
    var rule := m[Key(group, verbs)];
    KeyUnique(rule.apiGroups[0], rule.verbs, group, verbs);
    assert rule.apiGroups == [rule.apiGroups[0]];
  }

  lemma AddKeepsKeyed(m: Keyed, group: string, verbs: seq<string>, name: string)
    requires AllKeyed(m) && PlainKey(group, verbs)
    ensures AllKeyed(WithResource(m, group, verbs, name))
  {
    if Key(group, verbs) in m { FoundRule(m, group, verbs); }
  }

  lemma AddLists(m: Keyed, group: string, verbs: seq<string>, name: string, g: string, vs: seq<string>, n: string)
    requires AllKeyed(m) && PlainKey(group, verbs)
    ensures Lists(WithResource(m, group, verbs, name), g, vs, n) <==> Lists(m, g, vs, n) || (g == group && vs == verbs && n == name)
  {
    if Key(group, verbs) in m { FoundRule(m, group, verbs); }
  }

  // ---------------------------------------------------------------- the generation

  /** Verbs and groups without the separators of the key. */
  predicate PlainResource(res: Resource) {
    AllFree(res.verbs, ',')
  }

  predicate PlainSnapshot(s: Snapshot) {
    && (forall text :: text in s ==> PlainResources(s[text]))
    && (forall text :: text in s && ParseGroupVersion(text).Some? ==> '|' !in ParseGroupVersion(text).value.group)
  }

  predicate PlainResources(rs: seq<Resource>) {
    forall i :: 0 <= i < |rs| ==> PlainResource(rs[i])
  }

  lemma KeptIsPlain(rd: RoleDefinition, gv: GroupVersion, res: Resource)
    requires PlainResource(res)
    ensures AllFree(Kept(rd, gv, res), ',') && Sorted(Kept(rd, gv, res))
  {
    var kept := Kept(rd, gv, res);
    SortSorts(Remaining(rd, gv, res.verbs));
    forall i | 0 <= i < |kept| ensures ',' !in kept[i] {
      KeptVerbs(rd, gv, res, kept[i]);
      var k :| 0 <= k < |res.verbs| && res.verbs[k] == kept[i];
    }
  }

  method FilterVerbs(rd: RoleDefinition, gv: GroupVersion, removed: seq<string>, all: seq<string>) returns (verbs: seq<string>)
    requires forall v :: ContainsOrStar(removed, v) <==> VerbRemoved(rd.restrictedAPIs, gv, v)
    ensures verbs == Remaining(rd, gv, all)
  {
    verbs := [];
    for i := 0 to |all|
      invariant verbs == Remaining(rd, gv, all[..i])
    {
      assert all[..i + 1][..i] == all[..i];
      if !ContainsOrStar(rd.restrictedVerbs, all[i]) && !ContainsOrStar(removed, all[i]) {
        verbs := verbs + [all[i]];
      }
    }
    assert all[..|all|] == all;
  }

  lemma SortEmpty(xs: seq<string>)
    ensures Sort(xs) == [] <==> xs == []
  {
    SortSorts(xs);
    SameMultisetSameElements(Sort(xs), xs);
  }

  method AddResource(group: string, verbs: seq<string>, name: string, m: Keyed) returns (m': Keyed)
    ensures m' == WithResource(m, group, verbs, name)
  {
    var key := group + "|" + Join(verbs, ',');
    m' := m;
    if key !in m' {
      m' := m'[key := PolicyRule(verbs, [group], [], [], [])];
    }
    var rule := m'[key];
    if name !in rule.resources {
      m' := m'[key := rule.(resources := rule.resources + [name])];
    }
  }

  /** rrdFilterResource: the map with the resource, or unchanged when nothing is kept of it. */
  method FilterResource(rd: RoleDefinition, gv: GroupVersion, res: Resource, removed: seq<string>, m: Keyed) returns (m': Keyed)
    requires !Blocked(rd.restrictedAPIs, gv) && forall v :: ContainsOrStar(removed, v) <==> VerbRemoved(rd.restrictedAPIs, gv, v)
    ensures m' == if Kept(rd, gv, res) == [] then m else WithResource(m, gv.group, Kept(rd, gv, res), res.name)
  {
    if ResourceRestricted(rd, res.name, gv.group) {
      return m;
    }
    if res.namespaced != rd.scopeNamespaced {
      return m;
    }
    var verbs := FilterVerbs(rd, gv, removed, res.verbs);
    SortEmpty(verbs);
    if |verbs| == 0 {
      return m;
    }
    m' := AddResource(gv.group, Sort(verbs), res.name, m);
  }

  /** The map lists exactly the entries of what has been looked at. */
  ghost predicate Holds(rd: RoleDefinition, s: Snapshot, m: Keyed) {
    AllKeyed(m) && forall g, vs, n :: Lists(m, g, vs, n) <==> Entry(rd, s, g, vs, n)
  }

  lemma EntryNext(rd: RoleDefinition, s: Snapshot, text: string, rs: seq<Resource>, res: Resource, g: string, vs: seq<string>, n: string)
    requires text !in s
    ensures Entry(rd, s[text := rs + [res]], g, vs, n) <==> Entry(rd, s[text := rs], g, vs, n) || Yields(rd, text, res, g, vs, n)
  {
    var s1, s2 := s[text := rs], s[text := rs + [res]];
    if t, i :| t in s1 && 0 <= i < |s1[t]| && Yields(rd, t, s1[t][i], g, vs, n) {
      assert s2[t][i] == s1[t][i];
    }
    if Yields(rd, text, res, g, vs, n) {
      assert s2[text][|rs|] == res;
    }
    if t, i :| t in s2 && 0 <= i < |s2[t]| && Yields(rd, t, s2[t][i], g, vs, n) {
      if t != text || i < |rs| { assert s1[t][i] == s2[t][i]; }
    }
  }

  lemma EntryNone(rd: RoleDefinition, s: Snapshot, text: string, g: string, vs: seq<string>, n: string)
    requires text !in s
    ensures Entry(rd, s[text := []], g, vs, n) <==> Entry(rd, s, g, vs, n)
  {
    var s1 := s[text := []];
    if t, i :| t in s1 && 0 <= i < |s1[t]| && Yields(rd, t, s1[t][i], g, vs, n) {
      assert s[t][i] == s1[t][i];
    }
    if t, i :| t in s && 0 <= i < |s[t]| && Yields(rd, t, s[t][i], g, vs, n) {
      assert s1[t][i] == s[t][i];
    }
  }

  /** One resource more. */
  lemma HoldsNext(rd: RoleDefinition, s: Snapshot, text: string, rs: seq<Resource>, res: Resource, m: Keyed, m': Keyed)
    requires text !in s && Holds(rd, s[text := rs], m) && PlainResource(res)
    requires ParseGroupVersion(text).Some? && '|' !in ParseGroupVersion(text).value.group
    requires var gv := ParseGroupVersion(text).value;
             m' == if Kept(rd, gv, res) == [] then m else WithResource(m, gv.group, Kept(rd, gv, res), res.name)
    ensures Holds(rd, s[text := rs + [res]], m')
  {
    var gv := ParseGroupVersion(text).value;
    var kept := Kept(rd, gv, res);
    KeptIsPlain(rd, gv, res);
    if kept != [] { AddKeepsKeyed(m, gv.group, kept, res.name); }
    forall g, vs, n ensures Lists(m', g, vs, n) <==> Entry(rd, s[text := rs + [res]], g, vs, n) {
      EntryNext(rd, s, text, rs, res, g, vs, n);
      if kept != [] { AddLists(m, gv.group, kept, res.name, g, vs, n); }
    }
  }

  lemma HoldsStart(rd: RoleDefinition, s: Snapshot, text: string, m: Keyed)
    requires text !in s && Holds(rd, s, m)
    ensures Holds(rd, s[text := []], m)
  {
    forall g, vs, n ensures Entry(rd, s[text := []], g, vs, n) <==> Entry(rd, s, g, vs, n) {
      EntryNone(rd, s, text, g, vs, n);
    }
  }

  /** A blocked group version has no entries. */
  lemma HoldsBlocked(rd: RoleDefinition, s: Snapshot, text: string, rs: seq<Resource>, m: Keyed)
    requires text !in s && Holds(rd, s, m)
    requires ParseGroupVersion(text).Some? && Blocked(rd.restrictedAPIs, ParseGroupVersion(text).value)
    ensures Holds(rd, s[text := rs], m)
  {
    forall g, vs, n ensures Entry(rd, s[text := rs], g, vs, n) <==> Entry(rd, s, g, vs, n) {
      if t, i :| t in s && 0 <= i < |s[t]| && Yields(rd, t, s[t][i], g, vs, n) {
        assert s[text := rs][t][i] == s[t][i];
      }
    }
  }

  /** The body of the loop over the discovered group versions. */
  method FilterGroup(rd: RoleDefinition, text: string, gv: GroupVersion, rs: seq<Resource>, m: Keyed, ghost done: Snapshot) returns (m': Keyed)
    requires text !in done && ParseGroupVersion(text) == Some(gv)
    ensures PlainResources(rs) && '|' !in gv.group && Holds(rd, done, m) ==> Holds(rd, done[text := rs], m')
  {
    ghost var plain := PlainResources(rs) && '|' !in gv.group && Holds(rd, done, m);
    m' := m;
    var restricted, removed := CheckAPI(rd.restrictedAPIs, gv);
    if restricted && |removed| == 0 {
      if plain { HoldsBlocked(rd, done, text, rs, m); }
      return;
    }
    if plain { HoldsStart(rd, done, text, m); }
    for i := 0 to |rs|
      invariant plain ==> Holds(rd, done[text := rs[..i]], m')
    {
      var next := FilterResource(rd, gv, rs[i], removed, m');
      if plain { HoldsNext(rd, done, text, rs[..i], rs[i], m', next); }
      assert rs[..i + 1] == rs[..i] + [rs[i]];
      m' := next;
    }
    assert rs[..|rs|] == rs;
  }

  // ---------------------------------------------------------------- sorting the rules

  function Normalized(rule: PolicyRule): PolicyRule {
    rule.(apiGroups := Sort(rule.apiGroups), resources := Sort(rule.resources), verbs := Sort(rule.verbs))
  }

  function InsertRule(x: PolicyRule, rules: seq<PolicyRule>): seq<PolicyRule> {
    if rules == [] || Before(x, rules[0]) then [x] + rules else [rules[0]] + InsertRule(x, rules[1..])
  }

  /** slices.SortFunc. */
  function SortRules(rules: seq<PolicyRule>): seq<PolicyRule> {
    if rules == [] then [] else InsertRule(rules[0], SortRules(rules[1..]))
  }

  predicate Comparable(a: PolicyRule, b: PolicyRule) {
    Before(a, b) || Before(b, a)
  }

  predicate PairsComparable(rules: seq<PolicyRule>) {
    forall i, j :: 0 <= i < j < |rules| ==> Comparable(rules[i], rules[j])
  }

  lemma LtTransitive(a: string, b: string, c: string)
    requires Lt(a, b) && Lt(b, c)
    ensures Lt(a, c)
  {
    LeTransitive(a, b, c);
    if a == c { LeAntisymmetric(a, b); }
  }

  lemma BeforeTransitive(a: PolicyRule, b: PolicyRule, c: PolicyRule)
    requires Before(a, b) && Before(b, c)
    ensures Before(a, c)
  {
    var ga, gb, gc := Join(a.apiGroups, ','), Join(b.apiGroups, ','), Join(c.apiGroups, ',');
    var ra, rb, rc := Join(a.resources, ','), Join(b.resources, ','), Join(c.resources, ',');
    var va, vb, vc := Join(a.verbs, ','), Join(b.verbs, ','), Join(c.verbs, ',');
    if Lt(ga, gb) && Lt(gb, gc) { LtTransitive(ga, gb, gc); }
    if Lt(ra, rb) && Lt(rb, rc) { LtTransitive(ra, rb, rc); }
    if Lt(va, vb) && Lt(vb, vc) { LtTransitive(va, vb, vc); }
  }

  lemma {:induction false} InsertRuleElements(x: PolicyRule, rules: seq<PolicyRule>, y: PolicyRule)
    ensures y in InsertRule(x, rules) <==> y == x || y in rules
  {
    if rules != [] && !Before(x, rules[0]) {
      InsertRuleElements(x, rules[1..], y);
      assert rules == [rules[0]] + rules[1..];
    }
  }

  lemma {:induction false} SortRulesElements(rules: seq<PolicyRule>, y: PolicyRule)
    ensures y in SortRules(rules) <==> y in rules
  {
    if rules != [] {
      SortRulesElements(rules[1..], y);
      InsertRuleElements(rules[0], SortRules(rules[1..]), y);
      assert rules == [rules[0]] + rules[1..];
    }
  }

  lemma OrderedCons(x: PolicyRule, rules: seq<PolicyRule>)
    requires Ordered(rules) && forall y :: y in rules ==> Before(x, y)
    ensures Ordered([x] + rules)
  {
  }

  lemma {:induction false} InsertRuleOrdered(x: PolicyRule, rules: seq<PolicyRule>)
    requires Ordered(rules) && forall y :: y in rules ==> Comparable(x, y)
    ensures Ordered(InsertRule(x, rules))
  {
    if rules == [] {
    } else if Before(x, rules[0]) {
      forall y | y in rules ensures Before(x, y) {
        OrderedHead(rules, y);
        if y != rules[0] { BeforeTransitive(x, rules[0], y); }
      }
      OrderedCons(x, rules);
    } else {
      InsertRuleOrdered(x, rules[1..]);
      var t := InsertRule(x, rules[1..]);
      assert rules[0] in rules;
      forall y | y in t ensures Before(rules[0], y) {
        InsertRuleElements(x, rules[1..], y);
      }
      OrderedCons(rules[0], t);
    }
  }

  lemma {:induction false} SortRulesOrdered(rules: seq<PolicyRule>)
    requires PairsComparable(rules)
    ensures Ordered(SortRules(rules))
  {
    if rules != [] {
      SortRulesOrdered(rules[1..]);
      forall y | y in SortRules(rules[1..]) ensures Comparable(rules[0], y) {
        SortRulesElements(rules[1..], y);
        var j :| 0 < j < |rules| && rules[j] == y;
        assert Comparable(rules[0], rules[j]);
      }
      InsertRuleOrdered(rules[0], SortRules(rules[1..]));
    }
  }

  lemma SortOfSorted(xs: seq<string>)
    requires Sorted(xs)
    ensures Sort(xs) == xs
  {
    SortSorts(xs);
    SortedUnique(Sort(xs), xs);
  }

  lemma NormalizedKeyed(key: string, rule: PolicyRule)
    requires KeyedRule(key, rule)
    ensures Normalized(rule).apiGroups == rule.apiGroups && Normalized(rule).verbs == rule.verbs
    ensures StrictlySorted(Normalized(rule).resources) && forall n :: n in Normalized(rule).resources <==> n in rule.resources
  {
    SortOfSorted(rule.apiGroups);
    SortOfSorted(rule.verbs);
    SortSorts(rule.resources);
    SameMultisetSameElements(Sort(rule.resources), rule.resources);
    OnceSorted(rule.resources);
  }

  lemma {:induction false} OnceCounts(xs: seq<string>, x: string)
    requires Once(xs)
    ensures multiset(xs)[x] <= 1
  {
    if xs != [] {
      OnceCounts(xs[1..], x);
      assert xs == [xs[0]] + xs[1..];
      assert x == xs[0] ==> x !in xs[1..];
    }
  }

  lemma OnceSorted(xs: seq<string>)
    requires Once(xs)
    ensures StrictlySorted(Sort(xs))
  {
    SortSorts(xs);
    var s := Sort(xs);
    forall i, j | 0 <= i < j < |s| ensures Lt(s[i], s[j]) {
      if s[i] == s[j] {
        OnceCounts(xs, s[i]);
        TwiceCounted(s, i, j);
      }
    }
  }

  lemma TwiceCounted(s: seq<string>, i: nat, j: nat)
    requires i < j < |s| && s[i] == s[j]
    ensures multiset(s)[s[i]] >= 2
  {
    assert s == s[..j] + [s[j]] + s[j + 1..];
    assert s[..j][i] in s[..j];
  }

  /** Different keys give rules that the comparison tells apart. */
  lemma KeysComparable(k: string, a: PolicyRule, l: string, b: PolicyRule)
    requires KeyedRule(k, a) && KeyedRule(l, b) && k != l
    ensures Comparable(Normalized(a), Normalized(b))
  {
    NormalizedKeyed(k, a);
    NormalizedKeyed(l, b);
    var x, y := Normalized(a), Normalized(b);
    LeTotal(Join(x.apiGroups, ','), Join(y.apiGroups, ','));
    LeTotal(Join(x.resources, ','), Join(y.resources, ','));
    LeTotal(Join(x.verbs, ','), Join(y.verbs, ','));
  }

  /** The normalized rules in whatever order the map is iterated. */
  method ListRules(m: Keyed) returns (list: seq<PolicyRule>, ghost keys: seq<string>)
    ensures |keys| == |list| && Once(keys) && forall k :: k in keys <==> k in m
    ensures forall i :: 0 <= i < |list| ==> keys[i] in m && list[i] == Normalized(m[keys[i]])
    ensures forall rule :: rule in list <==> exists k :: k in m && rule == Normalized(m[k])
  {
    list, keys := [], [];
    var rest := m.Keys;
    while rest != {}
      invariant rest <= m.Keys && |keys| == |list| && Once(keys)
      invariant forall k :: k in keys <==> k in m && k !in rest
      invariant forall i :: 0 <= i < |list| ==> keys[i] in m && list[i] == Normalized(m[keys[i]])
      decreases rest
    {
      var k :| k in rest;
      rest := rest - {k};
      list := list + [Normalized(m[k])];
      keys := keys + [k];
    }
    forall k | k in m ensures Normalized(m[k]) in list {
      var i :| 0 <= i < |keys| && keys[i] == k;
      assert list[i] == Normalized(m[k]);
    }
  }

  /** One normalized rule per key, sorted. */
  method SortedRules(m: Keyed) returns (rules: seq<PolicyRule>)
    ensures forall rule :: rule in rules <==> exists k :: k in m && rule == Normalized(m[k])
    ensures AllKeyed(m) ==> Ordered(rules)
  {
    var list, keys := ListRules(m);
    rules := SortRules(list);
    forall rule ensures rule in rules <==> exists k :: k in m && rule == Normalized(m[k]) {
      SortRulesElements(list, rule);
    }
    if AllKeyed(m) {
      forall i, j | 0 <= i < j < |list| ensures Comparable(list[i], list[j]) {
        KeysComparable(keys[i], m[keys[i]], keys[j], m[keys[j]]);
      }
      SortRulesOrdered(list);
    }
  }

  lemma KeyedIsGroupRule(rd: RoleDefinition, s: Snapshot, m: Keyed, k: string)
    requires Holds(rd, s, m) && k in m
    ensures GroupRule(rd, s, Normalized(m[k]))
  {
    var rule := m[k];
    NormalizedKeyed(k, rule);
    assert rule.apiGroups == [rule.apiGroups[0]];
    forall n ensures n in rule.resources <==> Entry(rd, s, rule.apiGroups[0], rule.verbs, n) {
      assert n in rule.resources <==> Lists(m, rule.apiGroups[0], rule.verbs, n);
    }
    assert rule.resources[0] in rule.resources;
  }

  lemma GroupRuleIsKeyed(rd: RoleDefinition, s: Snapshot, m: Keyed, rule: PolicyRule) returns (k: string)
    requires Holds(rd, s, m) && GroupRule(rd, s, rule)
    ensures k in m && rule == Normalized(m[k])
  {
    var g, vs := rule.apiGroups[0], rule.verbs;
    var n :| Entry(rd, s, g, vs, n);
    k := Key(g, vs);
    assert Lists(m, g, vs, n);
    KeyedIsGroupRule(rd, s, m, k);
    NormalizedKeyed(k, m[k]);
    forall x ensures x in Elements(rule.resources) <==> x in Elements(Normalized(m[k]).resources) {
    }
    StrictlySortedUnique(rule.resources, Normalized(m[k]).resources);
    assert rule.apiGroups == [g];
  }

  /** rrdDiscoverAndFilter on discovered resources: an error for a group version that does not parse, otherwise
      one rule for each group and kept list of verbs. */
  method Generate(rd: RoleDefinition, s: Snapshot) returns (rules: Option<seq<PolicyRule>>)
    ensures rules.None? <==> exists text :: text in s && ParseGroupVersion(text).None?
    ensures rules.Some? && PlainSnapshot(s) ==> Output(rd, s, rules.value)
  {
    var m: Keyed := map[];
    var rest := s.Keys;
    ghost var done: Snapshot := map[];
    while rest != {}
      invariant rest <= s.Keys && done == map text | text in s && text !in rest :: s[text]
      invariant forall text :: text in done ==> ParseGroupVersion(text).Some?
      invariant PlainSnapshot(s) ==> Holds(rd, done, m)
      decreases rest
    {
      var text :| text in rest;
      var gv := ParseGroupVersion(text);
      if gv.None? {
        return None;
      }
      m := FilterGroup(rd, text, gv.value, s[text], m, done);
      rest := rest - {text};
      done := done[text := s[text]];
    }
    assert done == s;
    var list := SortedRules(m);
    if PlainSnapshot(s) {
      forall rule ensures rule in list <==> GroupRule(rd, s, rule) {
        if k :| k in m && rule == Normalized(m[k]) { KeyedIsGroupRule(rd, s, m, k); }
        if GroupRule(rd, s, rule) { var k := GroupRuleIsKeyed(rd, s, m, rule); }
      }
    }
    return Some(list);
  }
}
