/** What the evaluation of role limits and impersonation grants accepts, spelled out with patterns read as globs
    (pkg/policy/role_evaluator.go, pkg/policy/constrained_impersonation.go). */
module RoleCompliance {
  import opened Options
  import opened Strings
  import opened Rbac
  import opened Matcher
  import BindEvaluator
  import B = BindSafety
  import Impersonation
  import opened ImpersonationPolicy
  import opened RoleEvaluator

  // ---------------------------------------------------------------- patterns

  /** The pattern stands for the resource or, without a star, for its parent. */
  ghost predicate Stands(pattern: string, resource: string) {
    Glob(pattern, resource) || (STAR !in pattern && HasPrefix(resource, pattern + "/"))
  }

  lemma StandsForMatches(pattern: string, resource: string)
    ensures MatchesResourceName(pattern, resource) <==> Stands(pattern, resource)
  {
    MatchesWildcardIsGlob(pattern, resource);
  }

  lemma AnyMatches(patterns: seq<string>, v: string)
    ensures MatchesAnyWildcard(patterns, v) <==> B.AnyGlob(patterns, v)
  {
    B.AnyWildcardIsGlob(patterns, v);
  }

  predicate Lists(xs: seq<string>, v: string) {
    v in xs || "*" in xs
  }

  // ---------------------------------------------------------------- impersonation grants

  ghost predicate IdentitySafe(l: BindEvaluator.NameLimits, n: string) {
    && n !in l.forbidden && !B.BeginsWithOne(l.forbiddenPrefixes, n) && !B.EndsWithOne(l.forbiddenSuffixes, n)
    && (|| (l.allowed == [] && l.allowedPrefixes == [] && l.allowedSuffixes == [])
        || n in l.allowed || B.BeginsWithOne(l.allowedPrefixes, n) || B.EndsWithOne(l.allowedSuffixes, n))
  }

  lemma AdmittedIsSafe(l: BindEvaluator.NameLimits, n: string)
    ensures NameAdmitted(l, n) <==> IdentitySafe(l, n)
  {
    B.AnyPrefixMeans(l.forbiddenPrefixes, n);
    B.AnyPrefixMeans(l.allowedPrefixes, n);
    B.AnySuffixMeans(l.forbiddenSuffixes, n);
    B.AnySuffixMeans(l.allowedSuffixes, n);
  }

  /** All names of all identity rules, one after the other. */
  function AllNames(ids: seq<Impersonation.IdentityRule>): seq<string> {
    if ids == [] then [] else ids[0].names + AllNames(ids[1..])
  }

  lemma {:induction false} NamesCounted(ids: seq<Impersonation.IdentityRule>)
    ensures CountNames(ids) == |AllNames(ids)|
  {
    if ids != [] {
      var init, last := ids[..|ids| - 1], ids[|ids| - 1];
      NamesCounted(init);
      AllNamesAppend(init, last);
      assert ids == init + [last];
    }
  }

  lemma {:induction false} AllNamesAppend(ids: seq<Impersonation.IdentityRule>, last: Impersonation.IdentityRule)
    ensures AllNames(ids + [last]) == AllNames(ids) + last.names
  {
    if ids == [] {
      assert AllNames([last][1..]) == [];
    } else {
      AllNamesAppend(ids[1..], last);
      assert (ids + [last])[1..] == ids[1..] + [last];
    }
  }

  /** The compiled rule shows the combination; an empty group of the policy stands for every group. */
  ghost predicate Shows(rule: PolicyRule, verb: string, f: ResourceVerbRule) {
    && B.AnyGlob(f.verbs, verb)
    && (exists g :: g in rule.apiGroups && (f.apiGroup in {"", "*"} || g == "*" || Glob(f.apiGroup, g)))
    && (exists q :: q in rule.resources && Stands(f.resource, q))
  }

  lemma ForbidsWhatIsShown(f: ResourceVerbRule, rule: PolicyRule, verb: string)
    ensures Forbids(f, rule, verb) <==> Shows(rule, verb, f)
  {
    AnyMatches(f.verbs, verb);
    forall g: string ensures GroupReached(f, g) <==> f.apiGroup in {"", "*"} || g == "*" || Glob(f.apiGroup, g) {
      MatchesWildcardIsGlob(f.apiGroup, g);
    }
    forall q: string { StandsForMatches(f.resource, q); }
    if Forbids(f, rule, verb) {
      var i :| 0 <= i < |rule.apiGroups| && GroupReached(f, rule.apiGroups[i]);
      var k :| 0 <= k < |rule.resources| && MatchesResourceName(f.resource, rule.resources[k]);
      assert rule.apiGroups[i] in rule.apiGroups && rule.resources[k] in rule.resources;
    }
    if Shows(rule, verb, f) {
      var g :| g in rule.apiGroups && (f.apiGroup in {"", "*"} || g == "*" || Glob(f.apiGroup, g));
      var q :| q in rule.resources && Stands(f.resource, q);
      var i :| 0 <= i < |rule.apiGroups| && rule.apiGroups[i] == g;
      var k :| 0 <= k < |rule.resources| && rule.resources[k] == q;
    }
  }

  ghost predicate ShowsNothingDenied(deny: Denylist, rules: seq<PolicyRule>) {
    forall rule, v :: rule in rules && v in rule.verbs ==> !B.AnyGlob(deny.verbs, v) && forall f :: f in deny.rules ==> !Shows(rule, v, f)
  }

  lemma ClearShowsNothing(deny: Denylist, rules: seq<PolicyRule>)
    ensures RulesClear(deny, rules) <==> ShowsNothingDenied(deny, rules)
  {
    forall rule: PolicyRule, v: string ensures VerbClear(deny, rule, v) <==> !B.AnyGlob(deny.verbs, v) && forall f :: f in deny.rules ==> !Shows(rule, v, f) {
      AnyMatches(deny.verbs, v);
      forall f: ResourceVerbRule { ForbidsWhatIsShown(f, rule, v); }
    }
    if RulesClear(deny, rules) {
      forall rule, v | rule in rules && v in rule.verbs ensures VerbClear(deny, rule, v) {
        var i :| 0 <= i < |rules| && rules[i] == rule;
        assert RuleClear(deny, rules[i]);
      }
    }
    if ShowsNothingDenied(deny, rules) {
      forall i | 0 <= i < |rules| ensures RuleClear(deny, rules[i]) {
        assert rules[i] in rules;
      }
    }
  }

  ghost predicate LimitsKept(l: GrantLimits, spec: Impersonation.Spec) {
    && (l.modes == [] || spec.mode in l.modes)
    && (l.resources == [] || forall id :: id in spec.identities ==> id.resource in l.resources)
    && (l.maxNames.Some? ==> |AllNames(spec.identities)| <= l.maxNames.value)
    && (l.names.Some? ==> forall id, n :: id in spec.identities && n in id.names ==> IdentitySafe(l.names.value, n))
    && (forall a, v :: a in spec.actions && v in a.verbs ==> !B.AnyGlob(l.forbiddenActionVerbs, v))
  }

  lemma NamesAreSafe(l: BindEvaluator.NameLimits, ids: seq<Impersonation.IdentityRule>)
    ensures (forall i :: 0 <= i < |ids| ==> NamesAdmitted(l, ids[i])) <==> forall id, n :: id in ids && n in id.names ==> IdentitySafe(l, n)
  {
    forall n: string { AdmittedIsSafe(l, n); }
    if forall i :: 0 <= i < |ids| ==> NamesAdmitted(l, ids[i]) {
      forall id, n | id in ids && n in id.names ensures NameAdmitted(l, n) {
        var i :| 0 <= i < |ids| && ids[i] == id;
        var k :| 0 <= k < |id.names| && id.names[k] == n;
        assert NamesAdmitted(l, ids[i]);
      }
    }
    if forall id, n :: id in ids && n in id.names ==> IdentitySafe(l, n) {
      forall i | 0 <= i < |ids| ensures NamesAdmitted(l, ids[i]) {
        assert ids[i] in ids;
      }
    }
  }

  lemma ActionsAreAdmitted(l: GrantLimits, actions: seq<Impersonation.ActionRule>)
    ensures (forall i :: 0 <= i < |actions| ==> ActionAdmitted(l, actions[i])) <==>
            forall a, v :: a in actions && v in a.verbs ==> !B.AnyGlob(l.forbiddenActionVerbs, v)
  {
    forall v: string { AnyMatches(l.forbiddenActionVerbs, v); }
    if forall i :: 0 <= i < |actions| ==> ActionAdmitted(l, actions[i]) {
      forall a, v | a in actions && v in a.verbs ensures !B.AnyGlob(l.forbiddenActionVerbs, v) {
        var i :| 0 <= i < |actions| && actions[i] == a;
        var k :| 0 <= k < |a.verbs| && a.verbs[k] == v;
        assert ActionAdmitted(l, actions[i]);
      }
    }
    if forall a, v :: a in actions && v in a.verbs ==> !B.AnyGlob(l.forbiddenActionVerbs, v) {
      forall i | 0 <= i < |actions| ensures ActionAdmitted(l, actions[i]) {
        assert actions[i] in actions;
      }
    }
  }

  lemma WithinLimitsIsKept(l: GrantLimits, spec: Impersonation.Spec)
    ensures WithinLimits(l, spec) <==> LimitsKept(l, spec)
  {
    NamesCounted(spec.identities);
    if l.names.Some? { NamesAreSafe(l.names.value, spec.identities); }
    ActionsAreAdmitted(l, spec.actions);
    assert (forall i :: 0 <= i < |spec.identities| ==> spec.identities[i].resource in l.resources) <==>
           forall id :: id in spec.identities ==> id.resource in l.resources;
  }

  /** The grant is opted into, of a known mode, shows nothing denied once compiled, keeps the limits, and where the
      policy asks for it the legacy verb is restricted. */
  ghost predicate GrantSafe(deny: Denylist, limits: Option<GrantLimits>, spec: Impersonation.Spec, restrictedVerbs: seq<string>) {
    && limits.Some? && limits.value.allowed
    && spec.mode in {"associated-node", "arbitrary-node", "serviceaccount", "user-info"}
    && ShowsNothingDenied(deny, Impersonation.Compile(spec)) && LimitsKept(limits.value, spec)
    && (limits.value.forbidLegacy ==> Lists(restrictedVerbs, "impersonate"))
  }

  lemma GrantCompliantIff(deny: Denylist, limits: Option<GrantLimits>, spec: Impersonation.Spec, restrictedVerbs: seq<string>)
    ensures GrantCompliant(deny, limits, spec, restrictedVerbs) <==> GrantSafe(deny, limits, spec, restrictedVerbs)
  {
    ClearShowsNothing(deny, Impersonation.Compile(spec));
    if limits.Some? { WithinLimitsIsKept(limits.value, spec); }
  }

  // ---------------------------------------------------------------- role limits

  /** Some entry takes the whole group away, with all versions and verbs. */
  ghost predicate GroupTaken(rd: RoleDefinition, group: string) {
    exists api :: api in rd.restrictedAPIs && Glob(api.name, group) && api.versions == [] && api.verbs == []
  }

  /** Some entry takes the verb away in all versions of the group. */
  ghost predicate VerbTaken(rd: RoleDefinition, group: string, verb: string) {
    exists api :: api in rd.restrictedAPIs && Glob(api.name, group) && api.versions == [] && api.verbs != [] && Lists(api.verbs, verb)
  }

  /** Some entry takes the resource away in the group; the group "*" asks for all groups. */
  ghost predicate ResourceTaken(rd: RoleDefinition, resource: string, group: string) {
    exists rr :: rr in rd.restrictedResources && Stands(rr.name, resource) &&
                 (rr.group in {"", "*"} || (group != "*" && Glob(rr.group, group)))
  }

  ghost predicate CombinationTaken(rd: RoleDefinition, f: ResourceVerbRule) {
    || ResourceTaken(rd, f.resource, f.apiGroup) || GroupTaken(rd, f.apiGroup)
    || forall v :: v in f.verbs ==> Lists(rd.restrictedVerbs, v) || VerbTaken(rd, f.apiGroup, v)
  }

  ghost predicate RoleSafe(limits: RoleLimits, rd: RoleDefinition) {
    && (rd.targetIsClusterRole ==> limits.allowClusterRoles)
    && (forall v :: v in limits.forbiddenVerbs ==> Lists(rd.restrictedVerbs, v))
    && (forall p :: p in limits.forbiddenAPIGroups ==> GroupTaken(rd, p))
    && (forall q :: q in limits.forbiddenResources ==> ResourceTaken(rd, q, "*"))
    && (forall f :: f in limits.forbiddenResourceVerbs ==> CombinationTaken(rd, f))
    && (rd.impersonation.Some? ==>
          GrantSafe(Denylist(limits.forbiddenVerbs, limits.forbiddenResourceVerbs), limits.impersonation, rd.impersonation.value, rd.restrictedVerbs))
  }

  lemma GroupsTaken(rd: RoleDefinition, group: string, verb: string)
    ensures APIGroupFullyRestricted(rd, group) <==> GroupTaken(rd, group)
    ensures APIGroupVerbRestricted(rd, group, verb) <==> VerbTaken(rd, group, verb)
  {
    forall p: string { MatchesWildcardIsGlob(p, group); }
    assert forall i :: 0 <= i < |rd.restrictedAPIs| ==> rd.restrictedAPIs[i] in rd.restrictedAPIs;
  }

  lemma ResourcesTaken(rd: RoleDefinition, resource: string, group: string)
    ensures ResourceExcluded(rd, resource, group) <==> ResourceTaken(rd, resource, group)
  {
    forall p: string { StandsForMatches(p, resource); }
    forall p: string { MatchesWildcardIsGlob(p, group); }
    assert forall i :: 0 <= i < |rd.restrictedResources| ==> rd.restrictedResources[i] in rd.restrictedResources;
  }

  lemma CombinationsTaken(rd: RoleDefinition, f: ResourceVerbRule)
    ensures CombinationRestricted(rd, f) <==> CombinationTaken(rd, f)
  {
    ResourcesTaken(rd, f.resource, f.apiGroup);
    GroupsTaken(rd, f.apiGroup, "");
    forall v: string ensures VerbCovered(rd, f, v) <==> Lists(rd.restrictedVerbs, v) || VerbTaken(rd, f.apiGroup, v) {
      GroupsTaken(rd, f.apiGroup, v);
    }
    if forall v :: v in f.verbs ==> Lists(rd.restrictedVerbs, v) || VerbTaken(rd, f.apiGroup, v) {
      forall i | 0 <= i < |f.verbs| ensures VerbCovered(rd, f, f.verbs[i]) { assert f.verbs[i] in f.verbs; }
    }
  }

  lemma DenialsTaken(limits: RoleLimits, rd: RoleDefinition)
    ensures (forall i :: 0 <= i < |limits.forbiddenAPIGroups| ==> APIGroupFullyRestricted(rd, limits.forbiddenAPIGroups[i])) <==>
            forall p :: p in limits.forbiddenAPIGroups ==> GroupTaken(rd, p)
    ensures (forall i :: 0 <= i < |limits.forbiddenResources| ==> ResourceExcluded(rd, limits.forbiddenResources[i], "*")) <==>
            forall q :: q in limits.forbiddenResources ==> ResourceTaken(rd, q, "*")
    ensures (forall i :: 0 <= i < |limits.forbiddenResourceVerbs| ==> CombinationRestricted(rd, limits.forbiddenResourceVerbs[i])) <==>
            forall f :: f in limits.forbiddenResourceVerbs ==> CombinationTaken(rd, f)
  {
    forall p: string { GroupsTaken(rd, p, ""); }
    forall q: string { ResourcesTaken(rd, q, "*"); }
    forall f: ResourceVerbRule { CombinationsTaken(rd, f); }
  }

  /** Compliance with the role limits is exactly that every denial of the policy is taken away by the definition. */
  lemma RoleCompliantIff(limits: RoleLimits, rd: RoleDefinition)
    ensures Compliant(limits, rd) <==> RoleSafe(limits, rd)
  {
    DenialsTaken(limits, rd);
    if rd.impersonation.Some? {
      GrantCompliantIff(DenylistOf(limits), limits.impersonation, rd.impersonation.value, rd.restrictedVerbs);
    }
    VerbsTaken(limits.forbiddenVerbs, rd.restrictedVerbs);
  }

  lemma VerbsTaken(verbs: seq<string>, taken: seq<string>)
    ensures (forall i :: 0 <= i < |verbs| ==> ContainsOrStar(taken, verbs[i])) <==> forall v :: v in verbs ==> Lists(taken, v)
  {
    if forall v :: v in verbs ==> Lists(taken, v) {
      forall i | 0 <= i < |verbs| ensures ContainsOrStar(taken, verbs[i]) { assert verbs[i] in verbs; }
    }
  }
}
