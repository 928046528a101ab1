/** A policy's limits on constrained-impersonation grants (pkg/policy/constrained_impersonation.go): the
    denylists are applied to the compiled rules, the other limits to the typed spec. */
module ImpersonationPolicy {
  import opened Options
  import opened Strings
  import opened Matcher
  import opened Coverage
  import opened Rbac
  import opened RuleLists
  import opened ImpersonationVerbs
  import opened Impersonation
  import BindEvaluator

  datatype ResourceVerbRule = ResourceVerbRule(resource: string, apiGroup: string, verbs: seq<string>)
  datatype GrantLimits = GrantLimits(
    allowed: bool, modes: seq<string>, resources: seq<string>, maxNames: Option<int>,
    names: Option<BindEvaluator.NameLimits>, forbiddenActionVerbs: seq<string>, forbidLegacy: bool)
  datatype Denylist = Denylist(verbs: seq<string>, rules: seq<ResourceVerbRule>)

  datatype GrantViolation =
    | NotAllowed | CannotEvaluate | VerbForbidden(verb: string) | CombinationForbidden(rule: ResourceVerbRule, verb: string)
    | ModeNotAllowed | ResourceNotAllowed(identity: nat) | TooManyNames(count: nat) | NameNotAllowed(name: string)
    | ActionVerbForbidden(verb: string) | LegacyFallback

  // ---------------------------------------------------------------- the denylists

  /** The generated combination is one the policy's rule forbids. */
  predicate Forbids(f: ResourceVerbRule, rule: PolicyRule, verb: string) {
    && MatchesAnyWildcard(f.verbs, verb)
    && (exists i :: 0 <= i < |rule.apiGroups| && GroupReached(f, rule.apiGroups[i]))
    && (exists i :: 0 <= i < |rule.resources| && MatchesResourceName(f.resource, rule.resources[i]))
  }

  predicate GroupReached(f: ResourceVerbRule, group: string) {
    APIGroupRestrictionCovers(f.apiGroup, group) || group == "*"
  }

  /** The field documentation reads the empty group as the core group. */
  predicate DocumentedGroup(f: ResourceVerbRule, group: string) {
    if f.apiGroup == "" then group == "" || group == "*" else GroupReached(f, group)
  }

  predicate DocumentedForbids(f: ResourceVerbRule, rule: PolicyRule, verb: string) {
    && MatchesAnyWildcard(f.verbs, verb)
    && (exists i :: 0 <= i < |rule.apiGroups| && DocumentedGroup(f, rule.apiGroups[i]))
    && (exists i :: 0 <= i < |rule.resources| && MatchesResourceName(f.resource, rule.resources[i]))
  }

  /** A rule of the policy forbids what is documented, on all compiled rules, if and only if it names a group or no
      verb: with the empty group it forbids the combination in every group. */
  lemma DocumentedForbidsIff(f: ResourceVerbRule)
    ensures (forall rule, verb :: Forbids(f, rule, verb) <==> DocumentedForbids(f, rule, verb)) <==> f.apiGroup != "" || f.verbs == []
  {
    if f.apiGroup == "" && f.verbs != [] {
      var verb, rule := f.verbs[0], PolicyRule([f.verbs[0]], ["x"], [f.resource], [], []);
      WildcardPreorder(verb, verb, verb);
      WildcardPreorder(f.resource, f.resource, f.resource);
      assert MatchesResourceName(f.resource, rule.resources[0]) && GroupReached(f, rule.apiGroups[0]);
      assert Forbids(f, rule, verb) && !DocumentedForbids(f, rule, verb);
    }
  }

  predicate VerbClear(deny: Denylist, rule: PolicyRule, verb: string) {
    !MatchesAnyWildcard(deny.verbs, verb) && forall i :: 0 <= i < |deny.rules| ==> !Forbids(deny.rules[i], rule, verb)
  }

  predicate RuleClear(deny: Denylist, rule: PolicyRule) {
    forall i :: 0 <= i < |rule.verbs| ==> VerbClear(deny, rule, rule.verbs[i])
  }

  predicate RulesClear(deny: Denylist, rules: seq<PolicyRule>) {
    forall i :: 0 <= i < |rules| ==> RuleClear(deny, rules[i])
  }

  /** forbiddenResourceVerbViolation: the first forbidden combination. */
  method FirstForbidden(deny: Denylist, rule: PolicyRule, verb: string) returns (v: Option<GrantViolation>)
    ensures v.None? <==> forall i :: 0 <= i < |deny.rules| ==> !Forbids(deny.rules[i], rule, verb)
  {
    for i := 0 to |deny.rules|
      invariant forall k :: 0 <= k < i ==> !Forbids(deny.rules[k], rule, verb)
    {
      var f := deny.rules[i];
      if !MatchesAnyWildcard(f.verbs, verb) {
        continue;
      }
      if !(exists k :: 0 <= k < |rule.apiGroups| && GroupReached(f, rule.apiGroups[k])) {
        continue;
      }
      if !(exists k :: 0 <= k < |rule.resources| && MatchesResourceName(f.resource, rule.resources[k])) {
        continue;
      }
      return Some(CombinationForbidden(f, verb));
    }
    return None;
  }

  method CheckRule(deny: Denylist, rule: PolicyRule) returns (vs: seq<GrantViolation>)
    ensures vs == [] <==> RuleClear(deny, rule)
  {
    vs := [];
    for i := 0 to |rule.verbs|
      invariant vs == [] <==> forall k :: 0 <= k < i ==> VerbClear(deny, rule, rule.verbs[k])
    {
      var verb := rule.verbs[i];
      if MatchesAnyWildcard(deny.verbs, verb) {
        vs := vs + [VerbForbidden(verb)];
        continue;
      }
      var v := FirstForbidden(deny, rule, verb);
      if v.Some? {
        vs := vs + [v.value];
      }
    }
  }

  method CheckRules(deny: Denylist, rules: seq<PolicyRule>) returns (vs: seq<GrantViolation>)
    ensures vs == [] <==> RulesClear(deny, rules)
  {
    vs := [];
    for i := 0 to |rules|
      invariant vs == [] <==> forall k :: 0 <= k < i ==> RuleClear(deny, rules[k])
    {
      var more := CheckRule(deny, rules[i]);
      vs := vs + more;
    }
  }

  method CheckDenylist(deny: Denylist, spec: Spec) returns (vs: seq<GrantViolation>)
    ensures vs == [] <==> KnownMode(spec.mode) && RulesClear(deny, Compile(spec))
  {
    var rules := BuildRules(spec);
    if rules.None? {
      return [CannotEvaluate];
    }
    vs := CheckRules(deny, rules.value);
  }

  // ---------------------------------------------------------------- the limits on the spec

  /** Explicit denials win, and any allow list that is present must name the identity in some way. */
  predicate NameAdmitted(limits: BindEvaluator.NameLimits, name: string) {
    && name !in limits.forbidden
    && !BindEvaluator.HasAnyPrefix(limits.forbiddenPrefixes, name) && !BindEvaluator.HasAnySuffix(limits.forbiddenSuffixes, name)
    && (|| limits.allowed + limits.allowedPrefixes + limits.allowedSuffixes == []
        || name in limits.allowed
        || BindEvaluator.HasAnyPrefix(limits.allowedPrefixes, name) || BindEvaluator.HasAnySuffix(limits.allowedSuffixes, name))
  }

  /** nameMatchViolation: whether the name is rejected. */
  method NameRejected(limits: BindEvaluator.NameLimits, name: string) returns (rejected: bool)
    ensures rejected <==> !NameAdmitted(limits, name)
  {
    if name in limits.forbidden || BindEvaluator.HasAnyPrefix(limits.forbiddenPrefixes, name) || BindEvaluator.HasAnySuffix(limits.forbiddenSuffixes, name) {
      return true;
    }
    if !(|limits.allowed| > 0 || |limits.allowedPrefixes| > 0 || |limits.allowedSuffixes| > 0) {
      return false;
    }
    if name in limits.allowed || BindEvaluator.HasAnyPrefix(limits.allowedPrefixes, name) || BindEvaluator.HasAnySuffix(limits.allowedSuffixes, name) {
      return false;
    }
    return true;
  }

  predicate NamesAdmitted(limits: BindEvaluator.NameLimits, rule: IdentityRule) {
    forall k :: 0 <= k < |rule.names| ==> NameAdmitted(limits, rule.names[k])
  }

  function CountNames(ids: seq<IdentityRule>): nat {
    if ids == [] then 0 else CountNames(ids[..|ids| - 1]) + |ids[|ids| - 1].names|
  }

  predicate ActionAdmitted(limits: GrantLimits, a: ActionRule) {
    forall k :: 0 <= k < |a.verbs| ==> !MatchesAnyWildcard(limits.forbiddenActionVerbs, a.verbs[k])
  }

  predicate WithinLimits(limits: GrantLimits, spec: Spec) {
    && (limits.modes == [] || spec.mode in limits.modes)
    && (limits.resources == [] || forall i :: 0 <= i < |spec.identities| ==> spec.identities[i].resource in limits.resources)
    && (limits.maxNames.Some? ==> CountNames(spec.identities) <= limits.maxNames.value)
    && (limits.names.Some? ==> forall i :: 0 <= i < |spec.identities| ==> NamesAdmitted(limits.names.value, spec.identities[i]))
    && (forall i :: 0 <= i < |spec.actions| ==> ActionAdmitted(limits, spec.actions[i]))
  }

  method CheckModeAndResources(limits: GrantLimits, spec: Spec) returns (vs: seq<GrantViolation>)
    ensures vs == [] <==>
            && (limits.modes == [] || spec.mode in limits.modes)
            && (limits.resources == [] || forall i :: 0 <= i < |spec.identities| ==> spec.identities[i].resource in limits.resources)
  {
    vs := if |limits.modes| > 0 && spec.mode !in limits.modes then [ModeNotAllowed] else [];
    ghost var modeOk := vs == [];
    if |limits.resources| > 0 {
      for i := 0 to |spec.identities|
        invariant vs == [] <==> modeOk && forall k :: 0 <= k < i ==> spec.identities[k].resource in limits.resources
      {
        if spec.identities[i].resource !in limits.resources {
          vs := vs + [ResourceNotAllowed(i)];
        }
      }
    }
  }

  method CheckRuleNames(limits: BindEvaluator.NameLimits, rule: IdentityRule) returns (vs: seq<GrantViolation>)
    ensures vs == [] <==> NamesAdmitted(limits, rule)
  {
    vs := [];
    for k := 0 to |rule.names|
      invariant vs == [] <==> forall j :: 0 <= j < k ==> NameAdmitted(limits, rule.names[j])
    {
      var rejected := NameRejected(limits, rule.names[k]);
      if rejected {
        vs := vs + [NameNotAllowed(rule.names[k])];
      }
    }
  }

  method CheckIdentityNames(limits: GrantLimits, spec: Spec) returns (vs: seq<GrantViolation>)
    ensures vs == [] <==>
            && (limits.maxNames.Some? ==> CountNames(spec.identities) <= limits.maxNames.value)
            && (limits.names.Some? ==> forall i :: 0 <= i < |spec.identities| ==> NamesAdmitted(limits.names.value, spec.identities[i]))
  {
    var total := 0;
    for i := 0 to |spec.identities|
      invariant total == CountNames(spec.identities[..i])
    {
      assert spec.identities[..i + 1][..i] == spec.identities[..i];
      total := total + |spec.identities[i].names|;
    }
    assert spec.identities[..|spec.identities|] == spec.identities;
    vs := if limits.maxNames.Some? && total > limits.maxNames.value then [TooManyNames(total)] else [];
    if limits.names.None? {
      return;
    }
    ghost var countOk := vs == [];
    for i := 0 to |spec.identities|
      invariant vs == [] <==> countOk && forall k :: 0 <= k < i ==> NamesAdmitted(limits.names.value, spec.identities[k])
    {
      var more := CheckRuleNames(limits.names.value, spec.identities[i]);
      vs := vs + more;
    }
  }

  method CheckActionVerbs(limits: GrantLimits, a: ActionRule) returns (vs: seq<GrantViolation>)
    ensures vs == [] <==> ActionAdmitted(limits, a)
  {
    vs := [];
    for k := 0 to |a.verbs|
      invariant vs == [] <==> forall j :: 0 <= j < k ==> !MatchesAnyWildcard(limits.forbiddenActionVerbs, a.verbs[j])
    {
      if MatchesAnyWildcard(limits.forbiddenActionVerbs, a.verbs[k]) {
        vs := vs + [ActionVerbForbidden(a.verbs[k])];
      }
    }
  }

  method CheckActions(limits: GrantLimits, spec: Spec) returns (vs: seq<GrantViolation>)
    ensures vs == [] <==> forall i :: 0 <= i < |spec.actions| ==> ActionAdmitted(limits, spec.actions[i])
  {
    vs := [];
    if |limits.forbiddenActionVerbs| == 0 {
      return;
    }
    for i := 0 to |spec.actions|
      invariant vs == [] <==> forall k :: 0 <= k < i ==> ActionAdmitted(limits, spec.actions[k])
    {
      var more := CheckActionVerbs(limits, spec.actions[i]);
      vs := vs + more;
    }
  }

  const LEGACY := "impersonate"

  /** The grant is opted into, its generated rules are clear of the denylists, the spec is within the limits, and
      the legacy verb cannot defeat it where the policy asks for that. */
  predicate GrantCompliant(deny: Denylist, limits: Option<GrantLimits>, spec: Spec, restrictedVerbs: seq<string>) {
    && limits.Some? && limits.value.allowed
    && KnownMode(spec.mode) && RulesClear(deny, Compile(spec))
    && WithinLimits(limits.value, spec)
    && (limits.value.forbidLegacy ==> ContainsOrStar(restrictedVerbs, LEGACY))
  }

  /** evaluateConstrainedImpersonation for a grant that is present. */
  method EvaluateGrant(deny: Denylist, limits: Option<GrantLimits>, spec: Spec, restrictedVerbs: seq<string>) returns (vs: seq<GrantViolation>)
    ensures vs == [] <==> GrantCompliant(deny, limits, spec, restrictedVerbs)
  {
    if limits.None? || !limits.value.allowed {
      return [NotAllowed];
    }
    vs := CheckDenylist(deny, spec);
    var more := CheckModeAndResources(limits.value, spec);
    vs := vs + more;
    more := CheckIdentityNames(limits.value, spec);
    vs := vs + more;
    more := CheckActions(limits.value, spec);
    vs := vs + more;
    if limits.value.forbidLegacy && !ContainsOrStar(restrictedVerbs, LEGACY) {
      vs := vs + [LegacyFallback];
    }
  }

  // ---------------------------------------------------------------- what a compliant grant lets through

  lemma MergedIsCompiled(spec: Spec, i: nat)
    requires i < |spec.identities|
    ensures MergedRule(IdentityVerb(spec.mode), AUTHENTICATION_GROUP, Grants(spec.identities), Rendered(spec.identities[i])) in Compile(spec)
  {
    var grants := Grants(spec.identities);
    var resources := SortUnique(Resources(grants));
    InElements(Resources(grants), Resources(grants)[i]);
    InElements(resources, Rendered(spec.identities[i]));
    var k :| 0 <= k < |resources| && resources[k] == Rendered(spec.identities[i]);
    assert Merged(IdentityVerb(spec.mode), AUTHENTICATION_GROUP, grants)[k] == Compile(spec)[k];
  }

  lemma ActionIsCompiled(spec: Spec, i: nat)
    requires i < |spec.actions|
    ensures ActionPolicy(spec.mode, spec.actions[i]) in Compile(spec)
  {
    var n := |Merged(IdentityVerb(spec.mode), AUTHENTICATION_GROUP, Grants(spec.identities))|;
    assert Compile(spec)[n + i] == ActionPolicies(spec.mode, spec.actions)[i];
  }

  lemma ActionLists(mode: string, a: ActionRule)
    requires "" !in a.resources
    ensures forall g :: g in ActionPolicy(mode, a).apiGroups <==> g in a.apiGroups
    ensures forall r :: r in ActionPolicy(mode, a).resources <==> r in a.resources
    ensures forall k :: 0 <= k < |a.verbs| ==> ActionVerb(mode, a.verbs[k]) in ActionPolicy(mode, a).verbs
  {
    var p := ActionPolicy(mode, a);
    forall g ensures g in p.apiGroups <==> g in a.apiGroups {
      InElements(p.apiGroups, g);
      InElements(a.apiGroups, g);
    }
    forall r ensures r in p.resources <==> r in a.resources {
      InElements(p.resources, r);
      InElements(a.resources, r);
    }
    forall k | 0 <= k < |a.verbs| ensures ActionVerb(mode, a.verbs[k]) in p.verbs {
      VerbsAreNoWildcards(mode, a.verbs[k]);
      InElements(ActionVerbs(mode, a.verbs), ActionVerbs(mode, a.verbs)[k]);
      InElements(p.verbs, ActionVerb(mode, a.verbs[k]));
    }
  }

  lemma ClearOf(deny: Denylist, spec: Spec, rule: PolicyRule, verb: string)
    requires RulesClear(deny, Compile(spec)) && rule in Compile(spec) && verb in rule.verbs
    ensures VerbClear(deny, rule, verb)
  {
    var i :| 0 <= i < |Compile(spec)| && Compile(spec)[i] == rule;
    assert RuleClear(deny, Compile(spec)[i]);
  }

  /** No granted request uses a verb the policy forbids. */
  lemma GrantedVerbsAllowed(deny: Denylist, spec: Spec, clusterRole: bool, validKey: string -> bool, r: Request)
    requires Accepted(spec, clusterRole, validKey) && MarkersHold(spec) && RulesClear(deny, Compile(spec))
    requires Allows(Compile(spec), r)
    ensures !MatchesAnyWildcard(deny.verbs, r.verb)
  {
    CompilePreservesMeaning(spec, clusterRole, validKey, r);
    if i :| 0 <= i < |spec.identities| && IdentityDenotes(spec.mode, spec.identities[i], r) {
      MergedIsCompiled(spec, i);
      ClearOf(deny, spec, MergedRule(IdentityVerb(spec.mode), AUTHENTICATION_GROUP, Grants(spec.identities), Rendered(spec.identities[i])), r.verb);
    } else {
      var i :| 0 <= i < |spec.actions| && ActionDenotes(spec.mode, spec.actions[i], r);
      ActionIsCompiled(spec, i);
      ActionLists(spec.mode, spec.actions[i]);
      ClearOf(deny, spec, ActionPolicy(spec.mode, spec.actions[i]), r.verb);
    }
  }

  /** No granted identity is outside the allowed modes, resources and names. */
  lemma GrantedIdentityAllowed(limits: GrantLimits, spec: Spec, clusterRole: bool, validKey: string -> bool, mode: string, r: Request)
      returns (resource: string)
    requires Accepted(spec, clusterRole, validKey) && MarkersHold(spec) && KnownMode(mode) && WithinLimits(limits, spec)
    requires Allows(Compile(spec), r) && r.verb == IdentityVerb(mode)
    ensures r.ResourceRequest? && (Combined(r) == resource || HasPrefix(Combined(r), resource + "/"))
    ensures limits.modes == [] || mode in limits.modes
    ensures limits.resources == [] || resource in limits.resources
    ensures limits.names.Some? && mode != ASSOCIATED_NODE ==> NameAdmitted(limits.names.value, r.name)
  {
    var i := GrantedIdentity(spec, clusterRole, validKey, mode, r);
    var rule := spec.identities[i];
    resource := rule.resource;
    if rule.resource == USER_EXTRAS {
      assert Rendered(rule) == USER_EXTRAS + "/" + rule.extraKey;
    }
    assert limits.names.Some? ==> NamesAdmitted(limits.names.value, rule);
  }

  /** A request as a client sends it, without stars. */
  predicate Concrete(r: Request) {
    r.ResourceRequest? && STAR !in r.verb && STAR !in r.group && STAR !in Combined(r)
  }

  /** The request is one the policy's rule forbids. */
  predicate Hit(f: ResourceVerbRule, r: Request) {
    && Concrete(r) && MatchesAnyWildcard(f.verbs, r.verb)
    && APIGroupRestrictionCovers(f.apiGroup, r.group) && MatchesResourceName(f.resource, Combined(r))
  }

  ghost predicate LetsThrough(spec: Spec, f: ResourceVerbRule) {
    exists r :: Allows(Compile(spec), r) && Hit(f, r)
  }

  /** The entry of all resources, or of one subresource of all resources that the forbidden pattern can end in;
      a pattern without a star covers every subresource of the resource it names. */
  predicate WildcardReaches(f: ResourceVerbRule, entry: string) {
    || entry == "*"
    || (|entry| > 2 && HasPrefix(entry, "*/") && STAR !in entry[2..] && (STAR !in f.resource || CanEndIn(f.resource, entry[1..])))
  }

  lemma SubresourceEntry(f: ResourceVerbRule, sub: string, resource: string)
    requires sub != "" && STAR !in sub && MatchesResourceName(f.resource, resource + "/" + sub)
    ensures WildcardReaches(f, "*/" + sub)
  {
    var entry := "*/" + sub;
    assert entry[..2] == "*/" && entry[1..] == "/" + sub && entry[2..] == sub;
    if STAR in f.resource {
      assert resource + "/" + sub == resource + entry[1..];
      MatchesWildcardIsGlob(f.resource, resource + entry[1..]);
      EndingFound(f.resource, resource, entry[1..]);
    }
  }

  lemma ReachedResource(f: ResourceVerbRule, entry: string) returns (resource: string, sub: string)
    requires WildcardReaches(f, entry) && entry != "*"
    ensures sub != "" && entry == "*/" + sub && MatchesResourceName(f.resource, resource + "/" + sub)
    ensures STAR !in resource && STAR !in sub
  {
    sub := entry[2..];
    assert entry == entry[..2] + sub && entry[1..] == "/" + sub;
    if STAR !in f.resource {
      resource := f.resource;
      var r := resource + "/" + sub;
      assert r[..|f.resource| + 1] == f.resource + "/";
      ResourceNameWithoutStar(f.resource, r);
    } else {
      resource := EndingExists(f.resource, entry[1..]);
      assert resource + "/" + sub == resource + entry[1..];
      MatchesWildcardIsGlob(f.resource, resource + entry[1..]);
    }
  }

  /** The action's group stands for a forbidden one: the wildcard, or a covered group. */
  predicate OpenGroup(f: ResourceVerbRule, group: string) {
    group == "*" || (STAR !in group && APIGroupRestrictionCovers(f.apiGroup, group))
  }

  predicate OpenVerb(mode: string, f: ResourceVerbRule, verb: string) {
    STAR !in ActionVerb(mode, verb) && MatchesAnyWildcard(f.verbs, ActionVerb(mode, verb))
  }

  /** An action with a forbidden verb in a forbidden group that names its resources by such a wildcard. */
  predicate OpenAction(mode: string, a: ActionRule, f: ResourceVerbRule) {
    && (exists k :: 0 <= k < |a.verbs| && OpenVerb(mode, f, a.verbs[k]))
    && (exists k :: 0 <= k < |a.apiGroups| && OpenGroup(f, a.apiGroups[k]))
    && (exists k :: 0 <= k < |a.resources| && WildcardReaches(f, a.resources[k]))
  }

  /** A forbidden request that an identity rule grants is seen in the compiled rules. */
  lemma HitIdentityIsSeen(deny: Denylist, spec: Spec, f: ResourceVerbRule, r: Request, i: nat)
    requires f in deny.rules && Hit(f, r) && i < |spec.identities| && IdentityDenotes(spec.mode, spec.identities[i], r)
    ensures !RulesClear(deny, Compile(spec))
  {
    var rule := MergedRule(IdentityVerb(spec.mode), AUTHENTICATION_GROUP, Grants(spec.identities), Rendered(spec.identities[i]));
    MergedIsCompiled(spec, i);
    assert GroupReached(f, rule.apiGroups[0]) && MatchesResourceName(f.resource, rule.resources[0]);
    assert Forbids(f, rule, r.verb);
    var k :| 0 <= k < |deny.rules| && deny.rules[k] == f;
    assert !VerbClear(deny, rule, rule.verbs[0]);
  }

  lemma ReachingGroup(a: ActionRule, f: ResourceVerbRule, r: Request) returns (g: string)
    requires Hit(f, r) && GroupMatches(a.apiGroups, r.group)
    ensures g in a.apiGroups && OpenGroup(f, g) && GroupReached(f, g)
  {
    g := if "*" in a.apiGroups then "*" else r.group;
  }

  /** A forbidden combination that the compiled rule shows is refused. */
  lemma ShownIsRefused(deny: Denylist, spec: Spec, f: ResourceVerbRule, r: Request, i: nat, g: string)
    requires RulesClear(deny, Compile(spec)) && MarkersHold(spec) && f in deny.rules && Hit(f, r)
    requires i < |spec.actions| && ActionDenotes(spec.mode, spec.actions[i], r)
    requires g in spec.actions[i].apiGroups && GroupReached(f, g)
    ensures Combined(r) !in spec.actions[i].resources
  {
    var a := spec.actions[i];
    var rule := ActionPolicy(spec.mode, a);
    ActionIsCompiled(spec, i);
    ActionLists(spec.mode, a);
    ClearOf(deny, spec, rule, r.verb);
    var k :| 0 <= k < |rule.apiGroups| && rule.apiGroups[k] == g;
    if Combined(r) in a.resources {
      var n :| 0 <= n < |rule.resources| && rule.resources[n] == Combined(r);
      assert Forbids(f, rule, r.verb);
    }
  }

  lemma HitActionIsOpen(deny: Denylist, spec: Spec, f: ResourceVerbRule, r: Request, i: nat)
    requires RulesClear(deny, Compile(spec)) && MarkersHold(spec) && f in deny.rules && Hit(f, r)
    requires i < |spec.actions| && ActionDenotes(spec.mode, spec.actions[i], r)
    ensures OpenAction(spec.mode, spec.actions[i], f)
  {
    var a := spec.actions[i];
    var g := ReachingGroup(a, f, r);
    ShownIsRefused(deny, spec, f, r, i, g);
    var j :| 0 <= j < |a.apiGroups| && a.apiGroups[j] == g;
    var entry := if "*" in a.resources then "*" else "*/" + r.subresource;
    if "*" !in a.resources { SubresourceEntry(f, r.subresource, r.resource); }
    assert entry in a.resources && WildcardReaches(f, entry);
    var n :| 0 <= n < |a.resources| && a.resources[n] == entry;
    var k :| 0 <= k < |a.verbs| && r.verb == ActionVerb(spec.mode, a.verbs[k]);
    assert OpenVerb(spec.mode, f, a.verbs[k]);
  }

  lemma InstanceIsCovered(f: ResourceVerbRule)
    ensures STAR !in Instance(f.apiGroup, 'x') && APIGroupRestrictionCovers(f.apiGroup, Instance(f.apiGroup, 'x'))
    ensures STAR !in Instance(f.resource, 'x') && MatchesResourceName(f.resource, Instance(f.resource, 'x'))
  {
    InstanceIsMatched(f.apiGroup, 'x');
    InstanceIsMatched(f.resource, 'x');
  }

  /** A concrete group an open group stands for. */
  lemma ConcreteOpenGroup(a: ActionRule, f: ResourceVerbRule, g: string) returns (group: string)
    requires g in a.apiGroups && OpenGroup(f, g)
    ensures GroupMatches(a.apiGroups, group) && STAR !in group && APIGroupRestrictionCovers(f.apiGroup, group)
  {
    InstanceIsCovered(f);
    group := if g == "*" then Instance(f.apiGroup, 'x') else g;
  }

  /** A concrete resource a wildcard entry stands for. */
  lemma OpenResource(a: ActionRule, f: ResourceVerbRule, entry: string) returns (resource: string, sub: string)
    requires entry in a.resources && WildcardReaches(f, entry)
    ensures var r := ResourceRequest("", "", resource, sub, "");
            ResourceMatches(a.resources, r) && STAR !in Combined(r) && MatchesResourceName(f.resource, Combined(r))
  {
    if entry == "*" {
      InstanceIsCovered(f);
      resource, sub := Instance(f.resource, 'x'), "";
    } else {
      resource, sub := ReachedResource(f, entry);
    }
  }

  /** A request an open action grants although the policy forbids it. */
  lemma OpenActionGrants(spec: Spec, clusterRole: bool, validKey: string -> bool, f: ResourceVerbRule, i: nat) returns (r: Request)
    requires Accepted(spec, clusterRole, validKey) && MarkersHold(spec)
    requires i < |spec.actions| && OpenAction(spec.mode, spec.actions[i], f)
    ensures Allows(Compile(spec), r) && Hit(f, r)
  {
    var a := spec.actions[i];
    var v :| 0 <= v < |a.verbs| && OpenVerb(spec.mode, f, a.verbs[v]);
    var g :| 0 <= g < |a.apiGroups| && OpenGroup(f, a.apiGroups[g]);
    var e :| 0 <= e < |a.resources| && WildcardReaches(f, a.resources[e]);
    var group := ConcreteOpenGroup(a, f, a.apiGroups[g]);
    var name := if a.resourceNames == [] then "" else a.resourceNames[0];
    var resource, sub := OpenResource(a, f, a.resources[e]);
    r := ResourceRequest(ActionVerb(spec.mode, a.verbs[v]), group, resource, sub, name);
    assert ActionDenotes(spec.mode, a, r);
    CompilePreservesMeaning(spec, clusterRole, validKey, r);
  }

  lemma LetThroughIsOpen(deny: Denylist, spec: Spec, clusterRole: bool, validKey: string -> bool, f: ResourceVerbRule, r: Request)
    requires Accepted(spec, clusterRole, validKey) && MarkersHold(spec) && RulesClear(deny, Compile(spec)) && f in deny.rules
    requires Allows(Compile(spec), r) && Hit(f, r)
    ensures exists i :: 0 <= i < |spec.actions| && OpenAction(spec.mode, spec.actions[i], f)
  {
    CompilePreservesMeaning(spec, clusterRole, validKey, r);
    forall i | 0 <= i < |spec.identities| ensures !IdentityDenotes(spec.mode, spec.identities[i], r) {
      if IdentityDenotes(spec.mode, spec.identities[i], r) { HitIdentityIsSeen(deny, spec, f, r, i); }
    }
    var i :| 0 <= i < |spec.actions| && ActionDenotes(spec.mode, spec.actions[i], r);
    HitActionIsOpen(deny, spec, f, r, i);
  }

  /** A compliant grant lets a request through that a rule of the policy forbids if and only if some action names
      its resources by a wildcard that stands for a forbidden one: patterns are matched against entries as they
      are written, and only the group wildcard is expanded. */
  lemma LetsThroughIffOpen(deny: Denylist, spec: Spec, clusterRole: bool, validKey: string -> bool, f: ResourceVerbRule)
    requires Accepted(spec, clusterRole, validKey) && MarkersHold(spec) && RulesClear(deny, Compile(spec)) && f in deny.rules
    ensures LetsThrough(spec, f) <==> exists i :: 0 <= i < |spec.actions| && OpenAction(spec.mode, spec.actions[i], f)
  {
    if r :| Allows(Compile(spec), r) && Hit(f, r) {
      LetThroughIsOpen(deny, spec, clusterRole, validKey, f, r);
    }
    if i :| 0 <= i < |spec.actions| && OpenAction(spec.mode, spec.actions[i], f) {
      var r := OpenActionGrants(spec, clusterRole, validKey, f, i);
    }
  }

  // ---------------------------------------------------------------- a clear grant with an open action

  predicate MatchesNone(pattern: string, resources: seq<string>) {
    forall k :: 0 <= k < |resources| ==> !MatchesResourceName(pattern, resources[k])
  }

  /** Compiled rules that show no forbidden resource are clear of a list of combinations. */
  lemma ClearByResources(f: ResourceVerbRule, spec: Spec)
    requires MarkersHold(spec)
    requires forall i :: 0 <= i < |spec.identities| ==> !MatchesResourceName(f.resource, Rendered(spec.identities[i]))
    requires forall i :: 0 <= i < |spec.actions| ==> MatchesNone(f.resource, spec.actions[i].resources)
    ensures RulesClear(Denylist([], [f]), Compile(spec))
  {
    var grants := Grants(spec.identities);
    var resources := SortUnique(Resources(grants));
    forall k | 0 <= k < |Compile(spec)| ensures RuleClear(Denylist([], [f]), Compile(spec)[k]) {
      if k < |resources| {
        InElements(resources, resources[k]);
        var i :| 0 <= i < |grants| && Resources(grants)[i] == resources[k];
        assert MatchesNone(f.resource, Compile(spec)[k].resources);
      } else {
        var a := spec.actions[k - |resources|];
        ActionLists(spec.mode, a);
        ListedNone(f.resource, a.resources, Compile(spec)[k].resources);
      }
    }
  }

  lemma ListedNone(pattern: string, a: seq<string>, b: seq<string>)
    requires MatchesNone(pattern, a) && forall x :: x in b ==> x in a
    ensures MatchesNone(pattern, b)
  {
    forall k | 0 <= k < |b| ensures !MatchesResourceName(pattern, b[k]) {
      assert b[k] in a;
      var i :| 0 <= i < |a| && a[i] == b[k];
    }
  }

  function AllResources(names: seq<string>): Spec {
    Spec(USER_INFO, [IdentityRule(USERS, "", names)], [ActionRule([""], ["*"], [], ["get"])])
  }

  lemma AllResourcesAccepted(names: seq<string>, clusterRole: bool, validKey: string -> bool)
    requires clusterRole && names != [] && forall name :: name in names ==> !Unnameable(USERS, name)
    ensures Accepted(AllResources(names), clusterRole, validKey) && MarkersHold(AllResources(names))
  {
    ResourcesDiffer();
    ModesDiffer();
    var spec := AllResources(names);
    assert NamesOk(spec.identities[0], USER_INFO) && ExtraKeyOk(spec.identities[0], validKey);
    assert VerbOk(spec.actions[0].verbs[0]);
  }

  /** The failing input: a policy forbids a resource with every verb, the grant of all resources is accepted and
      clear of the denylist, and grants a request for the forbidden resource. */
  lemma AllResourcesPass(q: string, names: seq<string>, clusterRole: bool, validKey: string -> bool) returns (r: Request)
    requires clusterRole && names != [] && forall name :: name in names ==> !Unnameable(USERS, name)
    requires STAR !in q && q != USERS
    ensures Accepted(AllResources(names), clusterRole, validKey) && MarkersHold(AllResources(names))
    ensures RulesClear(Denylist([], [ResourceVerbRule(q, "", ["*"])]), Compile(AllResources(names)))
    ensures Allows(Compile(AllResources(names)), r) && Hit(ResourceVerbRule(q, "", ["*"]), r)
  {
    var f, spec := ResourceVerbRule(q, "", ["*"]), AllResources(names);
    AllResourcesAccepted(names, clusterRole, validKey);
    NoSubresource(q, USERS);
    NoSubresource(q, "*");
    assert MatchesNone(q, spec.actions[0].resources);
    ClearByResources(f, spec);
    EveryVerb(f, "get");
    assert OpenVerb(USER_INFO, f, spec.actions[0].verbs[0]);
    assert OpenGroup(f, spec.actions[0].apiGroups[0]);
    assert WildcardReaches(f, spec.actions[0].resources[0]);
    r := OpenActionGrants(spec, clusterRole, validKey, f, 0);
  }

  lemma NoSubresource(q: string, resource: string)
    requires STAR !in q && q != resource && '/' !in resource
    ensures !MatchesResourceName(q, resource)
  {
    ResourceNameWithoutStar(q, resource);
    if |q| < |resource| {
      assert resource[..|q| + 1][|q|] != (q + "/")[|q|];
    }
  }

  lemma EveryVerb(f: ResourceVerbRule, verb: string)
    requires f.verbs == ["*"] && STAR !in verb
    ensures OpenVerb(USER_INFO, f, verb)
  {
    var v := ActionVerb(USER_INFO, verb);
    LoneStar(v);
    MatchesWildcardIsGlob("*", v);
    assert MatchesWildcard(f.verbs[0], v);
  }
}
