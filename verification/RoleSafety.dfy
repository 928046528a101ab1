/** What the generated rules grant, and what a policy without violations guarantees of them
    (internal/controller/authorization/restrictedroledefinition_controller.go, pkg/policy/role_evaluator.go). */
module RoleSafety {
  import opened Options
  import opened Strings
  import opened Rbac
  import opened RuleLists
  import opened Matcher
  import opened Coverage
  import opened Discovery
  import opened RoleEvaluator
  import opened RoleGeneration
  import opened ImpersonationPolicy
  import Impersonation

  // ---------------------------------------------------------------- the meaning of the output

  /** Some discovered resource of the group keeps the verb. */
  ghost predicate Keeps(rd: RoleDefinition, s: Snapshot, group: string, name: string, verb: string) {
    exists text, i :: text in s && 0 <= i < |s[text]| && KeepsVerb(rd, text, s[text][i], group, name, verb)
  }

  predicate KeepsVerb(rd: RoleDefinition, text: string, res: Resource, group: string, name: string, verb: string) {
    var gv := ParseGroupVersion(text);
    && gv.Some? && gv.value.group == group && res.name == name && verb in res.verbs
    && Open(rd, gv.value, res) && !Removed(rd, gv.value, verb)
  }

  /** No discovered name, verb or group is a wildcard. */
  predicate Concrete(s: Snapshot) {
    && (forall text, i :: text in s && 0 <= i < |s[text]| ==> Literal(s[text][i].name) && "*" !in s[text][i].verbs)
    && (forall text :: text in s && ParseGroupVersion(text).Some? ==> ParseGroupVersion(text).value.group != "*")
  }

  lemma EntryKeeps(rd: RoleDefinition, s: Snapshot, g: string, vs: seq<string>, n: string, v: string)
    requires Entry(rd, s, g, vs, n) && v in vs
    ensures Keeps(rd, s, g, n, v) && (Concrete(s) ==> g != "*" && v != "*" && Literal(n))
  {
    var text, i :| text in s && 0 <= i < |s[text]| && Yields(rd, text, s[text][i], g, vs, n);
    KeptVerbs(rd, ParseGroupVersion(text).value, s[text][i], v);
    assert KeepsVerb(rd, text, s[text][i], g, n, v);
  }

  lemma KeptEntry(rd: RoleDefinition, s: Snapshot, g: string, n: string, v: string) returns (vs: seq<string>)
    requires Keeps(rd, s, g, n, v)
    ensures Entry(rd, s, g, vs, n) && v in vs
  {
    var text, i :| text in s && 0 <= i < |s[text]| && KeepsVerb(rd, text, s[text][i], g, n, v);
    KeptVerbs(rd, ParseGroupVersion(text).value, s[text][i], v);
    vs := Kept(rd, ParseGroupVersion(text).value, s[text][i]);
    assert Yields(rd, text, s[text][i], g, vs, n);
  }

  lemma {:induction false} Listed(names: set<string>) returns (xs: seq<string>)
    ensures Elements(xs) == names
    decreases names
  {
    if names == {} {
      xs := [];
    } else {
      var x :| x in names;
      xs := Listed(names - {x});
      ElementsCons(x, xs);
      xs := [x] + xs;
    }
  }

  /** Every entry is in the rule of its group and verbs. */
  lemma RuleOfEntry(rd: RoleDefinition, s: Snapshot, g: string, vs: seq<string>, n: string) returns (rule: PolicyRule)
    requires Entry(rd, s, g, vs, n)
    ensures GroupRule(rd, s, rule) && rule.apiGroups == [g] && rule.verbs == vs && n in rule.resources
  {
    var names := set text, i | text in s && 0 <= i < |s[text]| && Yields(rd, text, s[text][i], g, vs, s[text][i].name) :: s[text][i].name;
    forall x ensures x in names <==> Entry(rd, s, g, vs, x) {
    }
    var xs := Listed(names);
    var sorted := SortUnique(xs);
    SortUniqueListing(xs, sorted);
    rule := PolicyRule(vs, [g], sorted, [], []);
    forall x ensures x in sorted <==> Entry(rd, s, g, vs, x) { InElements(sorted, x); }
  }

  lemma GroupRuleMeans(rd: RoleDefinition, s: Snapshot, rule: PolicyRule, r: Request)
    requires GroupRule(rd, s, rule) && Concrete(s)
    ensures RuleAllows(rule, r) <==> r.ResourceRequest? && rule.apiGroups == [r.group] && r.verb in rule.verbs && Combined(r) in rule.resources
  {
    var g, vs := rule.apiGroups[0], rule.verbs;
    var n :| Entry(rd, s, g, vs, n);
    EntryIsSome(rd, s, g, vs, n);
    assert rule.apiGroups == [g];
    forall v | v in vs ensures v != "*" && g != "*" { EntryKeeps(rd, s, g, vs, n, v); }
    forall x | x in rule.resources ensures Literal(x) { EntryKeeps(rd, s, g, vs, x, vs[0]); }
    assert vs[0] in vs;
    if r.PathRequest? {
      assert !PathMatches([], r.path);
    } else if r.subresource != "" {
      assert !Literal("*/" + r.subresource);
    }
  }

  lemma EntryIsSome(rd: RoleDefinition, s: Snapshot, g: string, vs: seq<string>, n: string)
    requires Entry(rd, s, g, vs, n)
    ensures vs != []
  {
  }

  /** The output grants a request exactly when a discovered resource of the group keeps the verb. */
  lemma OutputMeans(rd: RoleDefinition, s: Snapshot, rules: seq<PolicyRule>, r: Request)
    requires Output(rd, s, rules) && Concrete(s)
    ensures Allows(rules, r) <==> r.ResourceRequest? && Keeps(rd, s, r.group, Combined(r), r.verb)
  {
    if i :| 0 <= i < |rules| && RuleAllows(rules[i], r) {
      assert rules[i] in rules;
      GroupRuleMeans(rd, s, rules[i], r);
      EntryKeeps(rd, s, r.group, rules[i].verbs, Combined(r), r.verb);
    }
    if r.ResourceRequest? && Keeps(rd, s, r.group, Combined(r), r.verb) {
      var vs := KeptEntry(rd, s, r.group, Combined(r), r.verb);
      var rule := RuleOfEntry(rd, s, r.group, vs, Combined(r));
      GroupRuleMeans(rd, s, rule, r);
      assert rule in rules;
      var i :| 0 <= i < |rules| && rules[i] == rule;
    }
  }

  /** The entry for API groups speaks of the group and, unless it names no version, of the version. */
  predicate Concerns(api: RestrictedAPI, gv: GroupVersion) {
    MatchesWildcard(api.name, gv.group) && (api.versions == [] || gv.version in api.versions)
  }

  /** A resource of the group version that the definition leaves to the generated rules, with the verb. */
  ghost predicate LeftOver(rd: RoleDefinition, gv: GroupVersion, res: Resource, verb: string) {
    && verb in res.verbs && res.namespaced == rd.scopeNamespaced
    && verb !in rd.restrictedVerbs && "*" !in rd.restrictedVerbs
    && (forall api :: api in rd.restrictedAPIs && Concerns(api, gv) ==> api.verbs != [] && verb !in api.verbs && "*" !in api.verbs)
    && (forall rr :: rr in rd.restrictedResources && (rr.group == "" || MatchesWildcard(rr.group, gv.group)) ==>
          !MatchesWildcard(rr.name, res.name) && (STAR in rr.name || !HasPrefix(res.name, rr.name + "/")))
  }

  lemma LeftOverIsKept(rd: RoleDefinition, gv: GroupVersion, res: Resource, verb: string)
    ensures LeftOver(rd, gv, res, verb) <==> verb in res.verbs && Open(rd, gv, res) && !Removed(rd, gv, verb)
  {
    if LeftOver(rd, gv, res, verb) {
      forall i | 0 <= i < |rd.restrictedAPIs| && Applies(rd.restrictedAPIs[i], gv)
        ensures rd.restrictedAPIs[i].verbs != [] && !ContainsOrStar(rd.restrictedAPIs[i].verbs, verb)
      {
        assert rd.restrictedAPIs[i] in rd.restrictedAPIs && Concerns(rd.restrictedAPIs[i], gv);
      }
      forall i | 0 <= i < |rd.restrictedResources|
        ensures !(MatchesResourceName(rd.restrictedResources[i].name, res.name) &&
                  (MatchesWildcard(rd.restrictedResources[i].group, gv.group) || rd.restrictedResources[i].group == ""))
      {
        assert rd.restrictedResources[i] in rd.restrictedResources;
      }
    }
  }

  /** The generated rules grant a request exactly when some discovered resource of its group is left over with the
      verb: restrictions of single versions count for the version they name. */
  lemma GeneratedExactly(rd: RoleDefinition, s: Snapshot, rules: seq<PolicyRule>, r: Request)
    requires Output(rd, s, rules) && Concrete(s)
    ensures Allows(rules, r) <==> r.ResourceRequest? && exists text, i :: text in s && 0 <= i < |s[text]| && Discovered(rd, text, s[text][i], r)
  {
    OutputMeans(rd, s, rules, r);
    if r.ResourceRequest? {
      forall text, i | text in s && 0 <= i < |s[text]|
        ensures Discovered(rd, text, s[text][i], r) <==> KeepsVerb(rd, text, s[text][i], r.group, Combined(r), r.verb)
      {
        var gv := ParseGroupVersion(text);
        if gv.Some? { LeftOverIsKept(rd, gv.value, s[text][i], r.verb); }
      }
    }
  }

  ghost predicate Discovered(rd: RoleDefinition, text: string, res: Resource, r: Request)
    requires r.ResourceRequest?
  {
    var gv := ParseGroupVersion(text);
    gv.Some? && gv.value.group == r.group && res.name == Combined(r) && LeftOver(rd, gv.value, res, r.verb)
  }

  // ---------------------------------------------------------------- what the policy evaluation promises

  /** What is kept is not cut off in the sense of the policy evaluation. */
  lemma KeptIsNotCut(rd: RoleDefinition, s: Snapshot, g: string, n: string, v: string)
    requires Keeps(rd, s, g, n, v) && g != "*"
    ensures !Cut(rd, n, g, v)
  {
    var text, k :| text in s && 0 <= k < |s[text]| && KeepsVerb(rd, text, s[text][k], g, n, v);
    var gv := ParseGroupVersion(text).value;
    forall i | 0 <= i < |rd.restrictedResources| ensures !ResourceEntryCovers(rd.restrictedResources[i], n, g) {
      ConcreteGroup(rd.restrictedResources[i].group, g);
    }
    forall i | 0 <= i < |rd.restrictedAPIs|
      ensures !FullEntryCovers(rd.restrictedAPIs[i], g) && !VerbEntryCovers(rd.restrictedAPIs[i], g, v)
    {
      assert rd.restrictedAPIs[i].versions == [] && MatchesWildcard(rd.restrictedAPIs[i].name, g) ==> Applies(rd.restrictedAPIs[i], gv);
    }
  }

  function Repeated(n: nat): (s: string)
    ensures |s| == n && '/' !in s
  {
    if n == 0 then "" else "v" + Repeated(n - 1)
  }

  function Longest(names: seq<string>): (n: nat)
    ensures forall i :: 0 <= i < |names| ==> |names[i]| <= n
  {
    if names == [] then 0
    else
      var m := Longest(names[1..]);
      if m > |names[0]| then m else |names[0]|
  }

  /** A version that no restriction mentions. */
  function NewVersion(apis: seq<RestrictedAPI>): (v: string)
    ensures v != "" && '/' !in v && forall i :: 0 <= i < |apis| ==> v !in apis[i].versions
  {
    var lengths := seq(|apis|, i requires 0 <= i < |apis| => Repeated(Longest(apis[i].versions)));
    var v := Repeated(Longest(lengths) + 1);
    assert forall i | 0 <= i < |apis| :: v !in apis[i].versions by {
      forall i | 0 <= i < |apis| ensures v !in apis[i].versions {
        assert |lengths[i]| == Longest(apis[i].versions);
      }
    }
    v
  }

  function GroupText(g: string, version: string): string {
    if g == "" then version else g + "/" + version
  }

  lemma GroupTextParses(g: string, version: string)
    requires '/' !in g && '/' !in version && version != ""
    ensures ParseGroupVersion(GroupText(g, version)) == Some(GroupVersion(g, version))
  {
    SplitNoSep(version, '/');
    if g == "" {
      assert version != "/" by { assert "/"[0] in "/"; }
    } else {
      SplitHead(g, version, '/');
      assert GroupText(g, version) == g + ['/'] + version;
      assert |GroupText(g, version)| > 1;
    }
  }

  /** One resource of one group version. */
  function OneResource(rd: RoleDefinition, g: string, n: string, v: string): Snapshot {
    map[GroupText(g, NewVersion(rd.restrictedAPIs)) := [Resource(n, [v], "", rd.scopeNamespaced)]]
  }

  predicate PlainRequest(g: string, n: string, v: string) {
    && '/' !in g && '|' !in g && g != "*" && Literal(n) && ',' !in v && v != "*"
  }

  /** What is not cut off is kept of some discovered resource. */
  lemma UncutIsKept(rd: RoleDefinition, g: string, n: string, v: string)
    requires PlainRequest(g, n, v) && !Cut(rd, n, g, v)
    ensures var s := OneResource(rd, g, n, v); PlainSnapshot(s) && Concrete(s) && Keeps(rd, s, g, n, v)
  {
    var version := NewVersion(rd.restrictedAPIs);
    var text, res, gv := GroupText(g, version), Resource(n, [v], "", rd.scopeNamespaced), GroupVersion(g, version);
    GroupTextParses(g, version);
    forall i | 0 <= i < |rd.restrictedAPIs| && Applies(rd.restrictedAPIs[i], gv)
      ensures rd.restrictedAPIs[i].verbs != [] && !ContainsOrStar(rd.restrictedAPIs[i].verbs, v)
    {
      assert rd.restrictedAPIs[i].versions == [];
      assert !FullEntryCovers(rd.restrictedAPIs[i], g) && !VerbEntryCovers(rd.restrictedAPIs[i], g, v);
    }
    forall i | 0 <= i < |rd.restrictedResources|
      ensures !(MatchesResourceName(rd.restrictedResources[i].name, n) &&
                (MatchesWildcard(rd.restrictedResources[i].group, g) || rd.restrictedResources[i].group == ""))
    {
      ConcreteGroup(rd.restrictedResources[i].group, g);
      assert !ResourceEntryCovers(rd.restrictedResources[i], n, g);
    }
    var s := OneResource(rd, g, n, v);
    assert KeepsVerb(rd, text, s[text][0], g, n, v);
  }

  /** On some plain discovery the generated rules grant the verb. */
  ghost predicate Grantable(rd: RoleDefinition, g: string, n: string, v: string) {
    exists s :: PlainSnapshot(s) && Concrete(s) && Keeps(rd, s, g, n, v)
  }

  /** Being cut off in the sense of the policy evaluation is exactly that no discovery makes the generator grant it:
      restrictions of single versions do not count, because another version may show the resource. */
  lemma GrantableIff(rd: RoleDefinition, g: string, n: string, v: string)
    requires PlainRequest(g, n, v)
    ensures Grantable(rd, g, n, v) <==> !Cut(rd, n, g, v)
  {
    if s :| PlainSnapshot(s) && Concrete(s) && Keeps(rd, s, g, n, v) { KeptIsNotCut(rd, s, g, n, v); }
    if !Cut(rd, n, g, v) { UncutIsKept(rd, g, n, v); }
  }

  // ---------------------------------------------------------------- rules of a compliant definition

  lemma CutByStar(rd: RoleDefinition, resources: string, groups: string, verb: string)
    requires CutAt(rd, resources, groups, "*")
    ensures CutAt(rd, resources, groups, verb)
  {
    if i :| 0 <= i < |rd.restrictedAPIs| && VerbEntryCovers(rd.restrictedAPIs[i], groups, "*") {
      assert VerbEntryCovers(rd.restrictedAPIs[i], groups, verb);
    }
  }

  /** The verb is forbidden by name or by the wildcard of the rule. */
  lemma ForbiddenIsCut(limits: RoleLimits, rd: RoleDefinition, f: ResourceVerbRule, verb: string)
    requires Compliant(limits, rd) && f in limits.forbiddenResourceVerbs && ContainsOrStar(f.verbs, verb)
    ensures CutAt(rd, f.resource, f.apiGroup, verb)
  {
    if verb in f.verbs {
      CheckedRule(limits, rd, f, verb);
    } else {
      CheckedRule(limits, rd, f, "*");
      CutByStar(rd, f.resource, f.apiGroup, verb);
    }
  }

  /** A compliant definition never gets a rule for a forbidden verb or for a group a forbidden pattern covers. Of what
      a forbidden resource or combination covers it gets at most subresources whose pattern is not cut off. */
  lemma GeneratedIsSafe(limits: RoleLimits, rd: RoleDefinition, s: Snapshot, rules: seq<PolicyRule>, r: Request)
    requires Compliant(limits, rd) && Output(rd, s, rules) && Concrete(s) && Allows(rules, r)
    ensures r.ResourceRequest? && !ContainsOrStar(limits.forbiddenVerbs, r.verb)
    ensures forall p :: p in limits.forbiddenAPIGroups ==> !MatchesWildcard(p, r.group)
    ensures forall q :: q in limits.forbiddenResources && MatchesResourceName(q, Combined(r)) ==>
              STAR !in q && q != Combined(r) && !ExcludedAt(rd, Subresources(q), "*")
    ensures forall f :: f in limits.forbiddenResourceVerbs && ForbidsRequest(f, r) ==>
              STAR !in f.resource && f.resource != Combined(r) && !CutAt(rd, Subresources(f.resource), f.apiGroup, r.verb)
  {
    OutputMeans(rd, s, rules, r);
    var vs := KeptEntry(rd, s, r.group, Combined(r), r.verb);
    EntryKeeps(rd, s, r.group, vs, Combined(r), r.verb);
    KeptIsNotCut(rd, s, r.group, Combined(r), r.verb);
    VerbsChecked(limits, rd, r.verb);
    forall p | p in limits.forbiddenAPIGroups ensures !MatchesWildcard(p, r.group) {
      if MatchesWildcard(p, r.group) { ForbiddenGroupsCovered(limits, rd, p, r.group); }
    }
    forall q | q in limits.forbiddenResources && MatchesResourceName(q, Combined(r))
      ensures STAR !in q && q != Combined(r) && !ExcludedAt(rd, Subresources(q), "*")
    {
      ResourceChecked(limits, rd, q, Combined(r), r.group);
    }
    forall f | f in limits.forbiddenResourceVerbs && ForbidsRequest(f, r)
      ensures STAR !in f.resource && f.resource != Combined(r) && !CutAt(rd, Subresources(f.resource), f.apiGroup, r.verb)
    {
      ForbiddenIsCut(limits, rd, f, r.verb);
      CutCovers(rd, f.resource, f.apiGroup, r.verb, Combined(r), r.group);
    }
  }

  /** The rule names the verb and covers group and resource of the request. */
  predicate ForbidsRequest(f: ResourceVerbRule, r: Request)
    requires r.ResourceRequest?
  {
    ContainsOrStar(f.verbs, r.verb) && MatchesWildcard(f.apiGroup, r.group) && MatchesResourceName(f.resource, Combined(r))
  }

  lemma CutCovers(rd: RoleDefinition, q: string, groups: string, verb: string, n: string, g: string)
    requires CutAt(rd, q, groups, verb) && MatchesWildcard(groups, g) && g != "*" && MatchesResourceName(q, n)
    ensures STAR in q || n == q || CutAt(rd, Subresources(q), groups, verb) ==> Cut(rd, n, g, verb)
  {
    if STAR in q || n == q {
      CutAtCovers(rd, q, groups, verb, n, g);
    } else if CutAt(rd, Subresources(q), groups, verb) {
      SubresourcePattern(q, n);
      CutAtCovers(rd, Subresources(q), groups, verb, n, g);
    }
  }

  lemma VerbsChecked(limits: RoleLimits, rd: RoleDefinition, verb: string)
    requires Compliant(limits, rd) && !ContainsOrStar(rd.restrictedVerbs, verb)
    ensures !ContainsOrStar(limits.forbiddenVerbs, verb)
  {
    forall i | 0 <= i < |limits.forbiddenVerbs| ensures limits.forbiddenVerbs[i] != verb && limits.forbiddenVerbs[i] != "*" {
      assert ContainsOrStar(rd.restrictedVerbs, limits.forbiddenVerbs[i]);
    }
  }

  lemma ExcludedCovers(rd: RoleDefinition, resources: string, n: string, g: string)
    requires ExcludedAt(rd, resources, "*") && g != "*"
    requires n == resources || (STAR in resources && MatchesResourceName(resources, n))
    ensures ResourceExcluded(rd, n, g)
  {
    var i :| 0 <= i < |rd.restrictedResources| && EntryCoversAt(rd.restrictedResources[i], resources, "*");
    LoneStar(g);
    MatchesWildcardIsGlob("*", g);
    EntryCoversInstances(rd.restrictedResources[i], resources, "*", n, g);
  }

  lemma ResourceChecked(limits: RoleLimits, rd: RoleDefinition, q: string, n: string, g: string)
    requires Compliant(limits, rd) && q in limits.forbiddenResources && MatchesResourceName(q, n) && g != "*"
    ensures STAR in q || n == q || ExcludedAt(rd, Subresources(q), "*") ==> ResourceExcluded(rd, n, g)
  {
    CheckedAtPattern(rd, q, "*");
    if STAR in q || n == q {
      ExcludedCovers(rd, q, n, g);
    } else if ExcludedAt(rd, Subresources(q), "*") {
      SubresourcePattern(q, n);
      ExcludedCovers(rd, Subresources(q), n, g);
    }
  }

  /** No discovery makes the generator grant the verb on anything the rule covers. */
  ghost predicate NeverGranted(rd: RoleDefinition, f: ResourceVerbRule, verb: string) {
    forall g, n :: g != "*" && MatchesWildcard(f.apiGroup, g) && MatchesResourceName(f.resource, n) ==> !Grantable(rd, g, n, verb)
  }

  /** For a compliant definition, a forbidden combination is never generated, whatever is discovered and with all the
      rule covers, if and only if its resource has a star or the pattern of its subresources is cut off too. */
  lemma NeverGrantedIff(limits: RoleLimits, rd: RoleDefinition, f: ResourceVerbRule, verb: string, c: char)
    requires Compliant(limits, rd) && f in limits.forbiddenResourceVerbs && ContainsOrStar(f.verbs, verb)
    requires Unused(rd, c) && c != '|' && '/' !in f.apiGroup && '|' !in f.apiGroup && ',' !in verb && verb != "*"
    ensures NeverGranted(rd, f, verb) <==> STAR in f.resource || CutAt(rd, Subresources(f.resource), f.apiGroup, verb)
  {
    ForbiddenIsCut(limits, rd, f, verb);
    if STAR in f.resource || CutAt(rd, Subresources(f.resource), f.apiGroup, verb) {
      PatternsSuffice(rd, f.resource, f.apiGroup, verb);
      forall g, n | g != "*" && MatchesWildcard(f.apiGroup, g) && MatchesResourceName(f.resource, n) ensures !Grantable(rd, g, n, verb) {
        if s :| PlainSnapshot(s) && Concrete(s) && Keeps(rd, s, g, n, verb) { KeptIsNotCut(rd, s, g, n, verb); }
      }
    } else {
      SubresourceGranted(rd, f, verb, c);
    }
  }

  /** The failing input: some subresource of the forbidden resource is granted. */
  lemma SubresourceGranted(rd: RoleDefinition, f: ResourceVerbRule, verb: string, c: char)
    requires STAR !in f.resource && !CutAt(rd, Subresources(f.resource), f.apiGroup, verb)
    requires Unused(rd, c) && c != '|' && '/' !in f.apiGroup && '|' !in f.apiGroup && ',' !in verb && verb != "*"
    ensures !NeverGranted(rd, f, verb)
  {
    var n, g := Instance(Subresources(f.resource), c), Instance(f.apiGroup, c);
    InstanceIsUncut(rd, f, verb, c);
    InstanceIsPlain(f, verb, c);
    GrantableIff(rd, g, n, verb);
    InstanceIsConcrete(f.apiGroup, c);
    InstanceIsMatched(f.apiGroup, c);
    InstanceIsMatched(Subresources(f.resource), c);
    SubresourcePattern(f.resource, n);
    assert MatchesWildcard(f.apiGroup, g) && MatchesResourceName(f.resource, n) && Grantable(rd, g, n, verb);
  }

  lemma InstanceIsUncut(rd: RoleDefinition, f: ResourceVerbRule, verb: string, c: char)
    requires Unused(rd, c) && !CutAt(rd, Subresources(f.resource), f.apiGroup, verb)
    ensures !Cut(rd, Instance(Subresources(f.resource), c), Instance(f.apiGroup, c), verb)
  {
    ExcludedAtInstance(rd, Subresources(f.resource), f.apiGroup, c);
    GroupsAtInstance(rd, f.apiGroup, verb, c);
  }

  lemma InstanceIsPlain(f: ResourceVerbRule, verb: string, c: char)
    requires STAR !in f.resource && c != STAR && c != '/' && c != '|'
    requires '/' !in f.apiGroup && '|' !in f.apiGroup && ',' !in verb && verb != "*"
    ensures PlainRequest(Instance(f.apiGroup, c), Instance(Subresources(f.resource), c), verb)
  {
    var n := Instance(Subresources(f.resource), c);
    InstanceIsConcrete(f.apiGroup, c);
    assert n != "" && n[0] != STAR;
  }

  // ---------------------------------------------------------------- the whole role

  /** The pattern marker on restricted verbs: no wildcard but the lone star. */
  predicate VerbMarker(rd: RoleDefinition) {
    forall i :: 0 <= i < |rd.restrictedVerbs| ==> STAR !in rd.restrictedVerbs[i] || rd.restrictedVerbs[i] == "*"
  }

  /** appendConstrainedImpersonationRules. */
  function RoleRules(rd: RoleDefinition, generated: seq<PolicyRule>): seq<PolicyRule> {
    if rd.impersonation.None? then generated else generated + Impersonation.Compile(rd.impersonation.value)
  }

  /** Forbidden verb patterns are documented for impersonation verbs, but compliance compares them literally with the
      restricted verbs: a policy with one is only met by definitions that generate nothing. */
  lemma PatternVerbShutsOut(limits: RoleLimits, rd: RoleDefinition, p: string, s: Snapshot, g: string, n: string, v: string)
    requires Compliant(limits, rd) && VerbMarker(rd) && p in limits.forbiddenVerbs && STAR in p
    ensures "*" in rd.restrictedVerbs && !Keeps(rd, s, g, n, v)
  {
    var i :| 0 <= i < |limits.forbiddenVerbs| && limits.forbiddenVerbs[i] == p;
    assert ContainsOrStar(rd.restrictedVerbs, limits.forbiddenVerbs[i]);
  }

  /** No request the whole role grants, generated or by impersonation, uses a verb a forbidden verb pattern matches. */
  lemma RoleVerbsAllowed(limits: RoleLimits, rd: RoleDefinition, s: Snapshot, rules: seq<PolicyRule>, validKey: string -> bool, r: Request)
    requires Compliant(limits, rd) && VerbMarker(rd) && Output(rd, s, rules) && Concrete(s)
    requires rd.impersonation.Some? ==>
               Impersonation.Accepted(rd.impersonation.value, rd.targetIsClusterRole, validKey) && Impersonation.MarkersHold(rd.impersonation.value)
    requires Allows(RoleRules(rd, rules), r)
    ensures !MatchesAnyWildcard(limits.forbiddenVerbs, r.verb)
  {
    if rd.impersonation.Some? {
      Impersonation.AllowsConcat(rules, Impersonation.Compile(rd.impersonation.value), r);
    }
    if Allows(rules, r) {
      GeneratedVerbs(limits, rd, s, rules, r);
    } else {
      GrantedVerbsAllowed(DenylistOf(limits), rd.impersonation.value, rd.targetIsClusterRole, validKey, r);
    }
  }

  lemma GeneratedVerbs(limits: RoleLimits, rd: RoleDefinition, s: Snapshot, rules: seq<PolicyRule>, r: Request)
    requires Compliant(limits, rd) && VerbMarker(rd) && Output(rd, s, rules) && Concrete(s) && Allows(rules, r)
    ensures !MatchesAnyWildcard(limits.forbiddenVerbs, r.verb)
  {
    OutputMeans(rd, s, rules, r);
    GeneratedIsSafe(limits, rd, s, rules, r);
    forall i | 0 <= i < |limits.forbiddenVerbs| ensures !MatchesWildcard(limits.forbiddenVerbs[i], r.verb) {
      var p := limits.forbiddenVerbs[i];
      if STAR in p {
        PatternVerbShutsOut(limits, rd, p, s, r.group, Combined(r), r.verb);
        assert false;
      }
      MatchesWildcardIsGlob(p, r.verb);
      GlobExact(p, r.verb);
    }
  }
}
