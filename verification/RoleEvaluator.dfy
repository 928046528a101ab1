/** Role limits of an RBACPolicy against a RestrictedRoleDefinition (pkg/policy/role_evaluator.go). */
module RoleEvaluator {
  import opened Options
  import opened Matcher
  import opened Coverage
  import opened ImpersonationPolicy
  import Impersonation

  datatype RestrictedAPI = RestrictedAPI(name: string, versions: seq<string>, verbs: seq<string>)
  datatype RestrictedResource = RestrictedResource(name: string, group: string)
  datatype RoleDefinition = RoleDefinition(
    targetIsClusterRole: bool,
    scopeNamespaced: bool,
    restrictedVerbs: seq<string>,
    restrictedAPIs: seq<RestrictedAPI>,
    restrictedResources: seq<RestrictedResource>,
    impersonation: Option<Impersonation.Spec>)
  datatype RoleLimits = RoleLimits(
    allowClusterRoles: bool,
    forbiddenVerbs: seq<string>,
    forbiddenAPIGroups: seq<string>,
    forbiddenResources: seq<string>,
    forbiddenResourceVerbs: seq<ResourceVerbRule>,
    impersonation: Option<GrantLimits>)

  datatype Violation =
    | ClusterRoleNotAllowed
    | VerbNotRestricted(verb: string)
    | APIGroupNotRestricted(group: string)
    | ResourceNotRestricted(resource: string)
    | CombinationNotRestricted(rule: ResourceVerbRule, uncovered: seq<string>)
    | InGrant(what: GrantViolation)

  // ---------------------------------------------------------------- what one entry covers

  /** Restricts the whole group: no version and no verb is left available. */
  predicate FullEntryCovers(api: RestrictedAPI, group: string) {
    MatchesWildcard(api.name, group) && api.versions == [] && api.verbs == []
  }

  predicate VerbEntryCovers(api: RestrictedAPI, group: string, verb: string) {
    MatchesWildcard(api.name, group) && api.versions == [] && api.verbs != [] && ContainsOrStar(api.verbs, verb)
  }

  predicate ResourceEntryCovers(rr: RestrictedResource, resource: string, group: string) {
    MatchesResourceName(rr.name, resource) && APIGroupRestrictionCovers(rr.group, group)
  }

  predicate APIGroupFullyRestricted(rd: RoleDefinition, group: string) {
    exists i :: 0 <= i < |rd.restrictedAPIs| && FullEntryCovers(rd.restrictedAPIs[i], group)
  }

  predicate APIGroupVerbRestricted(rd: RoleDefinition, group: string, verb: string) {
    exists i :: 0 <= i < |rd.restrictedAPIs| && VerbEntryCovers(rd.restrictedAPIs[i], group, verb)
  }

  predicate ResourceExcluded(rd: RoleDefinition, resource: string, group: string) {
    exists i :: 0 <= i < |rd.restrictedResources| && ResourceEntryCovers(rd.restrictedResources[i], resource, group)
  }

  predicate VerbCovered(rd: RoleDefinition, rule: ResourceVerbRule, verb: string) {
    ContainsOrStar(rd.restrictedVerbs, verb) || APIGroupVerbRestricted(rd, rule.apiGroup, verb)
  }

  predicate CombinationRestricted(rd: RoleDefinition, rule: ResourceVerbRule) {
    || ResourceExcluded(rd, rule.resource, rule.apiGroup)
    || APIGroupFullyRestricted(rd, rule.apiGroup)
    || forall i :: 0 <= i < |rule.verbs| ==> VerbCovered(rd, rule, rule.verbs[i])
  }

  // ---------------------------------------------------------------- the evaluation

  function DenylistOf(limits: RoleLimits): Denylist {
    Denylist(limits.forbiddenVerbs, limits.forbiddenResourceVerbs)
  }

  predicate ImpersonationOk(limits: RoleLimits, rd: RoleDefinition) {
    rd.impersonation.Some? ==> GrantCompliant(DenylistOf(limits), limits.impersonation, rd.impersonation.value, rd.restrictedVerbs)
  }

  /** Every forbidden entry of the policy is restricted by the role definition, and its grant complies. */
  predicate Compliant(limits: RoleLimits, rd: RoleDefinition) {
    && (rd.targetIsClusterRole ==> limits.allowClusterRoles)
    && (forall i :: 0 <= i < |limits.forbiddenVerbs| ==> ContainsOrStar(rd.restrictedVerbs, limits.forbiddenVerbs[i]))
    && (forall i :: 0 <= i < |limits.forbiddenAPIGroups| ==> APIGroupFullyRestricted(rd, limits.forbiddenAPIGroups[i]))
    && (forall i :: 0 <= i < |limits.forbiddenResources| ==> ResourceExcluded(rd, limits.forbiddenResources[i], "*"))
    && (forall i :: 0 <= i < |limits.forbiddenResourceVerbs| ==> CombinationRestricted(rd, limits.forbiddenResourceVerbs[i]))
    && ImpersonationOk(limits, rd)
  }

  method UncoveredVerbs(rd: RoleDefinition, rule: ResourceVerbRule) returns (uncovered: seq<string>)
    ensures forall v :: v in uncovered <==> v in rule.verbs && !VerbCovered(rd, rule, v)
  {
    uncovered := [];
    for i := 0 to |rule.verbs|
      invariant forall v :: v in uncovered <==> v in rule.verbs[..i] && !VerbCovered(rd, rule, v)
    {
      assert rule.verbs[..i + 1] == rule.verbs[..i] + [rule.verbs[i]];
      if !VerbCovered(rd, rule, rule.verbs[i]) {
        uncovered := uncovered + [rule.verbs[i]];
      }
    }
    assert rule.verbs[..|rule.verbs|] == rule.verbs;
  }

  /** An empty answer is full compliance, and only compliance gives an empty answer. */
  method EvaluateRoleLimits(limits: RoleLimits, rd: RoleDefinition) returns (violations: seq<Violation>)
    ensures violations == [] <==> Compliant(limits, rd)
  {
    violations := [];
    if !limits.allowClusterRoles && rd.targetIsClusterRole {
      violations := violations + [ClusterRoleNotAllowed];
    }
    ghost var clean := violations == [];
    for i := 0 to |limits.forbiddenVerbs|
      invariant violations == [] <==> clean && forall j :: 0 <= j < i ==> ContainsOrStar(rd.restrictedVerbs, limits.forbiddenVerbs[j])
    {
      if !ContainsOrStar(rd.restrictedVerbs, limits.forbiddenVerbs[i]) {
        violations := violations + [VerbNotRestricted(limits.forbiddenVerbs[i])];
      }
    }
    clean := violations == [];
    for i := 0 to |limits.forbiddenAPIGroups|
      invariant violations == [] <==> clean && forall j :: 0 <= j < i ==> APIGroupFullyRestricted(rd, limits.forbiddenAPIGroups[j])
    {
      if !APIGroupFullyRestricted(rd, limits.forbiddenAPIGroups[i]) {
        violations := violations + [APIGroupNotRestricted(limits.forbiddenAPIGroups[i])];
      }
    }
    clean := violations == [];
    for i := 0 to |limits.forbiddenResources|
      invariant violations == [] <==> clean && forall j :: 0 <= j < i ==> ResourceExcluded(rd, limits.forbiddenResources[j], "*")
    {
      if !ResourceExcluded(rd, limits.forbiddenResources[i], "*") {
        violations := violations + [ResourceNotRestricted(limits.forbiddenResources[i])];
      }
    }
    clean := violations == [];
    for i := 0 to |limits.forbiddenResourceVerbs|
      invariant violations == [] <==> clean && forall j :: 0 <= j < i ==> CombinationRestricted(rd, limits.forbiddenResourceVerbs[j])
    {
      var rule := limits.forbiddenResourceVerbs[i];
      if !ResourceExcluded(rd, rule.resource, rule.apiGroup) && !APIGroupFullyRestricted(rd, rule.apiGroup) {
        var uncovered := UncoveredVerbs(rd, rule);
        if |uncovered| > 0 {
          assert uncovered[0] in rule.verbs && !VerbCovered(rd, rule, uncovered[0]);
          violations := violations + [CombinationNotRestricted(rule, uncovered)];
        } else {
          assert forall k :: 0 <= k < |rule.verbs| ==> rule.verbs[k] !in uncovered;
        }
      }
    }
    if rd.impersonation.Some? {
      var more := EvaluateGrant(DenylistOf(limits), limits.impersonation, rd.impersonation.value, rd.restrictedVerbs);
      violations := violations + seq(|more|, k requires 0 <= k < |more| => InGrant(more[k]));
    }
  }

  // ---------------------------------------------------------------- what compliance guarantees

  /** A compliant role definition restricts every group that any forbidden pattern covers, not just
      the pattern itself: one of its full-group entries covers the group. */
  lemma ForbiddenGroupsCovered(limits: RoleLimits, rd: RoleDefinition, pattern: string, group: string)
    requires Compliant(limits, rd)
    requires pattern in limits.forbiddenAPIGroups && MatchesWildcard(pattern, group)
    ensures APIGroupFullyRestricted(rd, group)
  {
    var i :| 0 <= i < |rd.restrictedAPIs| && FullEntryCovers(rd.restrictedAPIs[i], pattern);
    WildcardPreorder(rd.restrictedAPIs[i].name, pattern, group);
  }

  // ---------------------------------------------------------------- entries against patterns

  /** The entry covers all resources of one pattern in all groups of another. */
  predicate EntryCoversAt(rr: RestrictedResource, resources: string, groups: string) {
    MatchesResourceName(rr.name, resources) && (rr.group == "" || MatchesWildcard(rr.group, groups))
  }

  predicate ExcludedAt(rd: RoleDefinition, resources: string, groups: string) {
    exists i :: 0 <= i < |rd.restrictedResources| && EntryCoversAt(rd.restrictedResources[i], resources, groups)
  }

  /** The request for the resource is cut off: by resource, by group, by verb or by verb within the group. */
  predicate Cut(rd: RoleDefinition, resource: string, group: string, verb: string) {
    || ResourceExcluded(rd, resource, group)
    || APIGroupFullyRestricted(rd, group)
    || ContainsOrStar(rd.restrictedVerbs, verb)
    || APIGroupVerbRestricted(rd, group, verb)
  }

  predicate CutAt(rd: RoleDefinition, resources: string, groups: string, verb: string) {
    || ExcludedAt(rd, resources, groups)
    || APIGroupFullyRestricted(rd, groups)
    || ContainsOrStar(rd.restrictedVerbs, verb)
    || APIGroupVerbRestricted(rd, groups, verb)
  }

  /** What a forbidden verb of a rule asks for: every covered resource in every concrete group is cut off. */
  ghost predicate CutEverywhere(rd: RoleDefinition, resources: string, groups: string, verb: string) {
    forall r, g :: g != "*" && MatchesResourceName(resources, r) && MatchesWildcard(groups, g) ==> Cut(rd, r, g, verb)
  }

  ghost predicate ExcludedEverywhere(rd: RoleDefinition, resources: string) {
    forall r, g :: g != "*" && MatchesResourceName(resources, r) ==> ResourceExcluded(rd, r, g)
  }

  /** A character the names and groups of the definition do not use. */
  predicate Unused(rd: RoleDefinition, c: char) {
    && c != STAR && c != '/'
    && (forall i :: 0 <= i < |rd.restrictedAPIs| ==> c !in rd.restrictedAPIs[i].name)
    && (forall i :: 0 <= i < |rd.restrictedResources| ==> c !in rd.restrictedResources[i].name && c !in rd.restrictedResources[i].group)
  }

  lemma ConcreteGroup(restricted: string, group: string)
    requires group != "*"
    ensures APIGroupRestrictionCovers(restricted, group) <==> restricted == "" || MatchesWildcard(restricted, group)
  {
  }

  lemma EntryAtInstance(rr: RestrictedResource, resources: string, groups: string, c: char)
    requires c != STAR && c != '/' && c !in rr.name && c !in rr.group
    ensures ResourceEntryCovers(rr, Instance(resources, c), Instance(groups, c)) <==> EntryCoversAt(rr, resources, groups)
  {
    ResourceInstance(rr.name, resources, c);
    WildcardInstance(rr.group, groups, c);
    InstanceIsConcrete(groups, c);
    ConcreteGroup(rr.group, Instance(groups, c));
  }

  lemma InstanceIsConcrete(groups: string, c: char)
    requires c != STAR
    ensures Instance(groups, c) != "*"
  {
    if groups != "" { assert Instance(groups, c)[0] != STAR; }
  }

  lemma EntryCoversInstances(rr: RestrictedResource, resources: string, groups: string, r: string, g: string)
    requires EntryCoversAt(rr, resources, groups) && MatchesWildcard(groups, g) && g != "*"
    requires r == resources || (STAR in resources && MatchesResourceName(resources, r))
    ensures ResourceEntryCovers(rr, r, g)
  {
    ConcreteGroup(rr.group, g);
    WildcardPreorder(rr.group, groups, g);
    if r != resources {
      StarredCoverageChains(rr.name, resources, r);
    }
  }

  lemma ExcludedAtInstance(rd: RoleDefinition, resources: string, groups: string, c: char)
    requires Unused(rd, c)
    ensures ResourceExcluded(rd, Instance(resources, c), Instance(groups, c)) <==> ExcludedAt(rd, resources, groups)
  {
    forall i | 0 <= i < |rd.restrictedResources|
      ensures ResourceEntryCovers(rd.restrictedResources[i], Instance(resources, c), Instance(groups, c)) <==>
              EntryCoversAt(rd.restrictedResources[i], resources, groups)
    {
      EntryAtInstance(rd.restrictedResources[i], resources, groups, c);
    }
  }

  lemma GroupsAtInstance(rd: RoleDefinition, groups: string, verb: string, c: char)
    requires Unused(rd, c)
    ensures APIGroupFullyRestricted(rd, Instance(groups, c)) <==> APIGroupFullyRestricted(rd, groups)
    ensures APIGroupVerbRestricted(rd, Instance(groups, c), verb) <==> APIGroupVerbRestricted(rd, groups, verb)
  {
    forall i | 0 <= i < |rd.restrictedAPIs|
      ensures MatchesWildcard(rd.restrictedAPIs[i].name, Instance(groups, c)) <==> MatchesWildcard(rd.restrictedAPIs[i].name, groups)
    {
      WildcardInstance(rd.restrictedAPIs[i].name, groups, c);
    }
  }

  lemma CutAtCovers(rd: RoleDefinition, resources: string, groups: string, verb: string, r: string, g: string)
    requires CutAt(rd, resources, groups, verb) && MatchesWildcard(groups, g) && g != "*"
    requires r == resources || (STAR in resources && MatchesResourceName(resources, r))
    ensures Cut(rd, r, g, verb)
  {
    if i :| 0 <= i < |rd.restrictedResources| && EntryCoversAt(rd.restrictedResources[i], resources, groups) {
      EntryCoversInstances(rd.restrictedResources[i], resources, groups, r, g);
    } else if i :| 0 <= i < |rd.restrictedAPIs| && FullEntryCovers(rd.restrictedAPIs[i], groups) {
      WildcardPreorder(rd.restrictedAPIs[i].name, groups, g);
    } else if i :| 0 <= i < |rd.restrictedAPIs| && VerbEntryCovers(rd.restrictedAPIs[i], groups, verb) {
      WildcardPreorder(rd.restrictedAPIs[i].name, groups, g);
    }
  }

  /** Everything a pattern covers is cut off when the pattern is, and for a star-free resource when the pattern
      of its subresources is too. */
  lemma PatternsSuffice(rd: RoleDefinition, q: string, groups: string, verb: string)
    requires CutAt(rd, q, groups, verb) && (STAR in q || CutAt(rd, Subresources(q), groups, verb))
    ensures CutEverywhere(rd, q, groups, verb)
  {
    forall r, g | g != "*" && MatchesResourceName(q, r) && MatchesWildcard(groups, g) ensures Cut(rd, r, g, verb) {
      if r == q || STAR in q {
        CutAtCovers(rd, q, groups, verb, r, g);
      } else {
        SubresourcePattern(q, r);
        CutAtCovers(rd, Subresources(q), groups, verb, r, g);
      }
    }
  }

  lemma PatternsNeeded(rd: RoleDefinition, q: string, groups: string, verb: string, part: string, c: char)
    requires Unused(rd, c) && CutEverywhere(rd, q, groups, verb)
    requires part == q || (STAR !in q && part == Subresources(q))
    ensures CutAt(rd, part, groups, verb)
  {
    var r, g := Instance(part, c), Instance(groups, c);
    InstanceIsConcrete(groups, c);
    InstanceIsMatched(groups, c);
    InstanceIsMatched(part, c);
    if part != q {
      SubresourcePattern(q, r);
    }
    assert Cut(rd, r, g, verb);
    ExcludedAtInstance(rd, part, groups, c);
    GroupsAtInstance(rd, groups, verb, c);
  }

  /** A compliant definition is checked at the patterns of the policy only. */
  lemma CheckedAtPattern(rd: RoleDefinition, resources: string, groups: string)
    requires ResourceExcluded(rd, resources, groups)
    ensures ExcludedAt(rd, resources, groups)
  {
    var i :| 0 <= i < |rd.restrictedResources| && ResourceEntryCovers(rd.restrictedResources[i], resources, groups);
    assert EntryCoversAt(rd.restrictedResources[i], resources, groups);
  }

  lemma CheckedRule(limits: RoleLimits, rd: RoleDefinition, rule: ResourceVerbRule, verb: string)
    requires Compliant(limits, rd) && rule in limits.forbiddenResourceVerbs && verb in rule.verbs
    ensures CutAt(rd, rule.resource, rule.apiGroup, verb)
  {
    assert CombinationRestricted(rd, rule);
    if ResourceExcluded(rd, rule.resource, rule.apiGroup) {
      CheckedAtPattern(rd, rule.resource, rule.apiGroup);
    } else if !APIGroupFullyRestricted(rd, rule.apiGroup) {
      var k :| 0 <= k < |rule.verbs| && rule.verbs[k] == verb;
      assert VerbCovered(rd, rule, rule.verbs[k]);
    }
  }

  // ---------------------------------------------------------------- what compliance guarantees for resources

  /** Of a compliant definition, a forbidden resource and verb combination is cut off in every concrete group
      and for every resource its rule covers if and only if the rule's resource has a star or the definition
      also cuts off the pattern of its subresources. */
  lemma ForbiddenCombinationsExact(limits: RoleLimits, rd: RoleDefinition, rule: ResourceVerbRule, verb: string, c: char)
    requires Compliant(limits, rd) && rule in limits.forbiddenResourceVerbs && verb in rule.verbs && Unused(rd, c)
    ensures CutEverywhere(rd, rule.resource, rule.apiGroup, verb) <==>
            STAR in rule.resource || CutAt(rd, Subresources(rule.resource), rule.apiGroup, verb)
  {
    CheckedRule(limits, rd, rule, verb);
    if STAR in rule.resource || CutAt(rd, Subresources(rule.resource), rule.apiGroup, verb) {
      PatternsSuffice(rd, rule.resource, rule.apiGroup, verb);
    }
    if CutEverywhere(rd, rule.resource, rule.apiGroup, verb) && STAR !in rule.resource {
      PatternsNeeded(rd, rule.resource, rule.apiGroup, verb, Subresources(rule.resource), c);
    }
  }

  /** The same for forbidden resources: excluded with all they cover in every concrete group exactly when the
      forbidden resource has a star or the pattern of its subresources is excluded in all groups as well. */
  lemma ForbiddenResourcesExact(limits: RoleLimits, rd: RoleDefinition, q: string, c: char)
    requires Compliant(limits, rd) && q in limits.forbiddenResources && Unused(rd, c)
    ensures ExcludedEverywhere(rd, q) <==> STAR in q || ExcludedAt(rd, Subresources(q), "*")
  {
    var bare := rd.(restrictedAPIs := [], restrictedVerbs := []);
    CheckedAtPattern(rd, q, "*");
    OnlyResources(rd, q);
    assert ExcludedAt(bare, q, "*") && CutAt(bare, q, "*", "");
    assert CutAt(bare, Subresources(q), "*", "") <==> ExcludedAt(rd, Subresources(q), "*");
    if STAR in q || ExcludedAt(rd, Subresources(q), "*") {
      PatternsSuffice(bare, q, "*", "");
    }
    if ExcludedEverywhere(rd, q) && STAR !in q {
      PatternsNeeded(bare, q, "*", "", Subresources(q), c);
    }
  }

  /** Without restricted groups and verbs, being cut off is being excluded. */
  lemma OnlyResources(rd: RoleDefinition, q: string)
    ensures ExcludedEverywhere(rd, q) <==> CutEverywhere(rd.(restrictedAPIs := [], restrictedVerbs := []), q, "*", "")
  {
    var bare := rd.(restrictedAPIs := [], restrictedVerbs := []);
    forall r, g ensures ResourceExcluded(rd, r, g) <==> Cut(bare, r, g, "") {
    }
  }

  /** Some one entry covers the pattern and follows it to its subresources. */
  predicate ChainingEntry(rd: RoleDefinition, resources: string, groups: string) {
    exists i :: 0 <= i < |rd.restrictedResources| &&
      ResourceEntryCovers(rd.restrictedResources[i], resources, groups) && CoversSubresources(rd.restrictedResources[i].name, resources)
  }

  /** Without any assumption on characters: one chaining entry is enough for all covered resources and groups. */
  lemma ForbiddenResourcesCovered(rd: RoleDefinition, q: string, resource: string, group: string)
    requires ChainingEntry(rd, q, "*") && MatchesResourceName(q, resource)
    ensures ResourceExcluded(rd, resource, group)
  {
    var i :| 0 <= i < |rd.restrictedResources| &&
      ResourceEntryCovers(rd.restrictedResources[i], q, "*") && CoversSubresources(rd.restrictedResources[i].name, q);
    ResourceCoverageChainsIff(rd.restrictedResources[i].name, q);
    assert ResourceEntryCovers(rd.restrictedResources[i], resource, group);
  }

  // ---------------------------------------------------------------- failing inputs

  /** A definition that covers a forbidden resource, alone and in a combination, by a name with a star and a literal
      ending is compliant, and leaves every subresource open whose last character differs: p*s covers pods and
      leaves pods/exec open. */
  lemma SubresourceStaysOpen(limits: RoleLimits, rd: RoleDefinition, head: string, tail: string, sub: string, verb: string)
    requires STAR !in head && STAR !in tail && tail != "" && sub != "" && sub[|sub| - 1] != tail[|tail| - 1]
    requires limits == RoleLimits(false, [], [], [head + tail], [ResourceVerbRule(head + tail, "", [verb])], None)
    requires rd == RoleDefinition(false, rd.scopeNamespaced, [], [], [RestrictedResource(head + [STAR] + tail, "")], None)
    ensures Compliant(limits, rd) && MatchesResourceName(head + tail, head + tail + "/" + sub)
    ensures !ResourceExcluded(rd, head + tail + "/" + sub, "") && !Cut(rd, head + tail + "/" + sub, "", verb)
  {
    StarredMatches(head, tail);
    StarredMisses(head, tail, head + tail + "/" + sub);
    CoversItsSubresource(head + tail, sub);
    assert ResourceEntryCovers(rd.restrictedResources[0], head + tail, "*");
    assert ResourceEntryCovers(rd.restrictedResources[0], head + tail, "");
  }

  lemma StarredMatches(head: string, tail: string)
    requires STAR !in head && STAR !in tail
    ensures MatchesWildcard(head + [STAR] + tail, head + tail)
  {
    GlobExact(head, head);
    GlobExact(tail, tail);
    LoneStar("");
    GlobConcat(head, [STAR], head, "");
    assert head + "" == head;
    GlobConcat(head + [STAR], tail, head, tail);
    MatchesWildcardIsGlob(head + [STAR] + tail, head + tail);
  }

  lemma StarredMisses(head: string, tail: string, v: string)
    requires tail != "" && STAR !in tail && v != "" && v[|v| - 1] != tail[|tail| - 1]
    ensures STAR in head + [STAR] + tail && !MatchesWildcard(head + [STAR] + tail, v)
  {
    var p := head + [STAR] + tail;
    assert p[|head|] == STAR && p[|p| - 1] == tail[|tail| - 1];
    MatchesWildcardIsGlob(p, v);
    if Glob(p, v) { GlobLastLiteral(p, v); }
  }

  lemma CoversItsSubresource(q: string, sub: string)
    requires STAR !in q
    ensures MatchesResourceName(q, q + "/" + sub)
  {
    assert (q + "/" + sub)[..|q| + 1] == q + "/";
    ResourceNameWithoutStar(q, q + "/" + sub);
  }
}
