/** Building PolicyRules from lists: sorted and compacted entries, and one rule per resource carrying the
    union of its names (api/authorization/v1alpha1/constrained_impersonation_types.go). */
module RuleLists {
  import opened Strings
  import opened Rbac

  // ---------------------------------------------------------------- entry lists

  function NonEmpty(xs: seq<string>): (r: seq<string>)
    ensures Elements(r) == Elements(xs) - {""}
  {
    if xs == [] then []
    else
      assert Elements(xs) == {xs[0]} + Elements(xs[1..]) by { ElementsCons(xs[0], xs[1..]); assert xs == [xs[0]] + xs[1..]; }
      var rest := NonEmpty(xs[1..]);
      if xs[0] == "" then rest
      else
        ElementsCons(xs[0], rest);
        [xs[0]] + rest
  }

  /** Sorted, without duplicates and without empty entries. */
  function DedupeSorted(xs: seq<string>): (r: seq<string>)
    ensures Elements(r) == Elements(xs) - {""}
  {
    SortUnique(NonEmpty(xs))
  }

  /** Sorted, without duplicates; the empty entry names the core API group and stays. */
  function DedupeSortedAllowEmpty(xs: seq<string>): (r: seq<string>)
    ensures Elements(r) == Elements(xs)
  {
    SortUnique(xs)
  }

  lemma InElements(xs: seq<string>, x: string)
    ensures x in xs <==> x in Elements(xs)
  {
  }

  lemma EmptyByElements(xs: seq<string>)
    ensures xs == [] <==> Elements(xs) == {}
  {
    if xs != [] { assert xs[0] in Elements(xs); }
  }

  /** Only the set of entries matters. */
  lemma DedupeByElements(a: seq<string>, b: seq<string>)
    requires Elements(a) == Elements(b)
    ensures DedupeSorted(a) == DedupeSorted(b) && DedupeSortedAllowEmpty(a) == DedupeSortedAllowEmpty(b)
  {
    SortUniqueListing(NonEmpty(a), SortUnique(NonEmpty(a)));
    SortUniqueListing(NonEmpty(b), SortUnique(NonEmpty(a)));
    SortUniqueListing(a, SortUnique(a));
    SortUniqueListing(b, SortUnique(a));
  }

  // ---------------------------------------------------------------- merging by resource

  /** One resource of an identity rule with its names. */
  datatype Grant = Grant(resource: string, names: seq<string>)

  function NamesFor(grants: seq<Grant>, resource: string): seq<string> {
    if grants == [] then []
    else
      var before := NamesFor(grants[..|grants| - 1], resource);
      var last := grants[|grants| - 1];
      if last.resource == resource then before + last.names else before
  }

  function Resources(grants: seq<Grant>): (r: seq<string>)
    ensures |r| == |grants| && forall i :: 0 <= i < |r| ==> r[i] == grants[i].resource
  {
    seq(|grants|, i requires 0 <= i < |grants| => grants[i].resource)
  }

  function MergedRule(verb: string, group: string, grants: seq<Grant>, resource: string): PolicyRule {
    PolicyRule([verb], [group], [resource], DedupeSorted(NamesFor(grants, resource)), [])
  }

  function RulesFor(verb: string, group: string, grants: seq<Grant>, resources: seq<string>): (rules: seq<PolicyRule>)
    ensures |rules| == |resources|
    ensures forall i :: 0 <= i < |rules| ==> rules[i] == MergedRule(verb, group, grants, resources[i])
  {
    if resources == [] then []
    else [MergedRule(verb, group, grants, resources[0])] + RulesFor(verb, group, grants, resources[1..])
  }

  /** One rule per distinct resource, in sorted order. */
  function Merged(verb: string, group: string, grants: seq<Grant>): (rules: seq<PolicyRule>) {
    RulesFor(verb, group, grants, SortUnique(Resources(grants)))
  }

  lemma {:induction false} NamesForContains(grants: seq<Grant>, resource: string, i: nat, x: string)
    requires i < |grants| && grants[i].resource == resource && x in grants[i].names
    ensures x in NamesFor(grants, resource)
  {
    if i < |grants| - 1 {
      NamesForContains(grants[..|grants| - 1], resource, i, x);
    }
  }

  lemma {:induction false} NamesForOrigin(grants: seq<Grant>, resource: string, x: string) returns (i: nat)
    requires x in NamesFor(grants, resource)
    ensures i < |grants| && grants[i].resource == resource && x in grants[i].names
  {
    if x in NamesFor(grants[..|grants| - 1], resource) {
      i := NamesForOrigin(grants[..|grants| - 1], resource, x);
    } else {
      i := |grants| - 1;
    }
  }

  predicate Collected(names: map<string, seq<string>>, grants: seq<Grant>) {
    && names.Keys == Elements(Resources(grants))
    && forall r :: r in names ==> names[r] == NamesFor(grants, r)
  }

  lemma {:induction false} NoNames(grants: seq<Grant>, resource: string)
    requires resource !in Elements(Resources(grants))
    ensures NamesFor(grants, resource) == []
  {
    if grants != [] {
      var init := grants[..|grants| - 1];
      assert Resources(grants) == Resources(init) + [grants[|grants| - 1].resource];
      NoNames(init, resource);
    }
  }

  /** Appending a grant's names to the entry of its resource, absent entries counting as empty. */
  lemma CollectNext(names: map<string, seq<string>>, grants: seq<Grant>, g: Grant)
    requires Collected(names, grants)
    ensures Collected(names[g.resource := (if g.resource in names then names[g.resource] else []) + g.names], grants + [g])
  {
    var all := grants + [g];
    assert all[..|all| - 1] == grants;
    assert Resources(all) == Resources(grants) + [g.resource];
    if g.resource !in names { NoNames(grants, g.resource); }
  }

  method EmitRules(verb: string, group: string, names: map<string, seq<string>>, resources: seq<string>, ghost grants: seq<Grant>)
    returns (rules: seq<PolicyRule>)
    requires forall k :: 0 <= k < |resources| ==> resources[k] in names && names[resources[k]] == NamesFor(grants, resources[k])
    ensures rules == RulesFor(verb, group, grants, resources)
  {
    rules := [];
    for i := 0 to |resources|
      invariant |rules| == i
      invariant forall k :: 0 <= k < i ==> rules[k] == MergedRule(verb, group, grants, resources[k])
    {
      rules := rules + [PolicyRule([verb], [group], [resources[i]], DedupeSorted(names[resources[i]]), [])];
    }
  }

  /** Emitting one rule per sorted map key is merging. */
  method EmitMerged(verb: string, group: string, names: map<string, seq<string>>, ghost grants: seq<Grant>)
    returns (rules: seq<PolicyRule>)
    requires Collected(names, grants)
    ensures rules == Merged(verb, group, grants)
  {
    var resources := SortedKeys(names.Keys);
    assert forall k :: 0 <= k < |resources| ==> resources[k] in Elements(resources);
    rules := EmitRules(verb, group, names, resources, grants);
  }

  // ---------------------------------------------------------------- meaning

  /** What one grant allows before merging. */
  predicate GrantDenotes(verb: string, group: string, g: Grant, r: Request)
    requires r.ResourceRequest?
  {
    r.verb == verb && r.group == group && Combined(r) == g.resource && NameMatches(g.names, r.name)
  }

  predicate Literal(resource: string) {
    resource != "*" && !HasPrefix(resource, "*/")
  }

  /** Merging would widen a restricted grant by an unrestricted one, so all grants are of one kind. */
  predicate Uniform(grants: seq<Grant>) {
    || (forall i :: 0 <= i < |grants| ==> grants[i].names == [])
    || (forall i :: 0 <= i < |grants| ==> grants[i].names != [] && "" !in grants[i].names)
  }

  lemma LiteralMatches(resource: string, r: Request)
    requires r.ResourceRequest? && Literal(resource)
    ensures ResourceMatches([resource], r) <==> Combined(r) == resource
  {
  }

  lemma MergedNames(grants: seq<Grant>, resource: string, name: string)
    requires Uniform(grants) && resource in Elements(Resources(grants))
    ensures NameMatches(DedupeSorted(NamesFor(grants, resource)), name) <==>
            exists i :: 0 <= i < |grants| && grants[i].resource == resource && NameMatches(grants[i].names, name)
  {
    var names := NamesFor(grants, resource);
    var out := DedupeSorted(names);
    InElements(names, name);
    InElements(out, name);
    var j :| 0 <= j < |grants| && Resources(grants)[j] == resource;
    if forall i :: 0 <= i < |grants| ==> grants[i].names == [] {
      if names != [] {
        var i := NamesForOrigin(grants, resource, names[0]);
      }
      EmptyByElements(out);
    } else {
      var x := grants[j].names[0];
      assert x in grants[j].names;
      NamesForContains(grants, resource, j, x);
      assert x in Elements(out);
      if name in names {
        var i := NamesForOrigin(grants, resource, name);
      }
      if i :| 0 <= i < |grants| && grants[i].resource == resource && name in grants[i].names {
        NamesForContains(grants, resource, i, name);
      }
    }
  }

  lemma MergedRuleMeans(verb: string, group: string, grants: seq<Grant>, resource: string, r: Request)
    requires verb != "*" && group != "*" && Uniform(grants)
    requires Literal(resource) && resource in Elements(Resources(grants))
    ensures RuleAllows(MergedRule(verb, group, grants, resource), r) <==>
            r.ResourceRequest? && exists i :: 0 <= i < |grants| && grants[i].resource == resource && GrantDenotes(verb, group, grants[i], r)
  {
    if r.ResourceRequest? {
      LiteralMatches(resource, r);
      MergedNames(grants, resource, r.name);
    } else {
      assert !PathMatches([], r.path);
    }
  }

  predicate SomeGrantDenotes(verb: string, group: string, grants: seq<Grant>, r: Request) {
    r.ResourceRequest? && exists i :: 0 <= i < |grants| && GrantDenotes(verb, group, grants[i], r)
  }

  lemma MergedSound(verb: string, group: string, grants: seq<Grant>, resources: seq<string>, r: Request)
    requires verb != "*" && group != "*" && Uniform(grants)
    requires forall i :: 0 <= i < |grants| ==> Literal(grants[i].resource)
    requires Elements(resources) == Elements(Resources(grants))
    requires Allows(RulesFor(verb, group, grants, resources), r)
    ensures SomeGrantDenotes(verb, group, grants, r)
  {
    var k :| 0 <= k < |resources| && RuleAllows(MergedRule(verb, group, grants, resources[k]), r);
    InElements(resources, resources[k]);
    var j :| 0 <= j < |grants| && Resources(grants)[j] == resources[k];
    MergedRuleMeans(verb, group, grants, resources[k], r);
  }

  lemma MergedComplete(verb: string, group: string, grants: seq<Grant>, resources: seq<string>, r: Request)
    requires verb != "*" && group != "*" && Uniform(grants)
    requires forall i :: 0 <= i < |grants| ==> Literal(grants[i].resource)
    requires Elements(resources) == Elements(Resources(grants))
    requires SomeGrantDenotes(verb, group, grants, r)
    ensures Allows(RulesFor(verb, group, grants, resources), r)
  {
    var i :| 0 <= i < |grants| && GrantDenotes(verb, group, grants[i], r);
    InElements(Resources(grants), Resources(grants)[i]);
    InElements(resources, grants[i].resource);
    var k :| 0 <= k < |resources| && resources[k] == grants[i].resource;
    MergedRuleMeans(verb, group, grants, resources[k], r);
  }

  /** Merging by resource grants what the grants denote, one by one. */
  lemma MergedMeans(verb: string, group: string, grants: seq<Grant>, r: Request)
    requires verb != "*" && group != "*" && Uniform(grants)
    requires forall i :: 0 <= i < |grants| ==> Literal(grants[i].resource)
    ensures Allows(Merged(verb, group, grants), r) <==> SomeGrantDenotes(verb, group, grants, r)
  {
    var resources := SortUnique(Resources(grants));
    if Allows(Merged(verb, group, grants), r) { MergedSound(verb, group, grants, resources, r); }
    if SomeGrantDenotes(verb, group, grants, r) { MergedComplete(verb, group, grants, resources, r); }
  }

  /** Listing the entries sorted and compacted keeps the meaning of a rule without empty entries. */
  lemma DedupedMeans(rule: PolicyRule, r: Request)
    requires "" !in rule.verbs && "" !in rule.resources && "" !in rule.resourceNames
    ensures RuleAllows(rule.(verbs := DedupeSorted(rule.verbs), apiGroups := DedupeSortedAllowEmpty(rule.apiGroups),
                             resources := DedupeSorted(rule.resources), resourceNames := DedupeSorted(rule.resourceNames)), r)
            <==> RuleAllows(rule, r)
  {
    var d := rule.(verbs := DedupeSorted(rule.verbs), apiGroups := DedupeSortedAllowEmpty(rule.apiGroups),
                   resources := DedupeSorted(rule.resources), resourceNames := DedupeSorted(rule.resourceNames));
    InElements(rule.verbs, "");
    InElements(rule.resources, "");
    InElements(rule.resourceNames, "");
    SameEntriesSameGrants(d, rule, r);
  }

  // ---------------------------------------------------------------- order of grants

  predicate HasResource(grants: seq<Grant>, resource: string) {
    exists i :: 0 <= i < |grants| && grants[i].resource == resource
  }

  predicate HasName(grants: seq<Grant>, resource: string, name: string) {
    exists i :: 0 <= i < |grants| && grants[i].resource == resource && name in grants[i].names
  }

  /** The same resources with the same names, however they are ordered, split or repeated. */
  ghost predicate SameGrants(a: seq<Grant>, b: seq<Grant>) {
    && (forall r :: HasResource(a, r) <==> HasResource(b, r))
    && (forall r, x :: HasName(a, r, x) <==> HasName(b, r, x))
  }

  lemma ResourceElements(grants: seq<Grant>, resource: string)
    ensures resource in Elements(Resources(grants)) <==> HasResource(grants, resource)
  {
  }

  lemma NameElements(grants: seq<Grant>, resource: string, x: string)
    ensures x in Elements(NamesFor(grants, resource)) <==> HasName(grants, resource, x)
  {
  }

  lemma MergedRuleIgnoresOrder(verb: string, group: string, a: seq<Grant>, b: seq<Grant>, resource: string)
    requires SameGrants(a, b)
    ensures MergedRule(verb, group, a, resource) == MergedRule(verb, group, b, resource)
  {
    forall x ensures x in Elements(NamesFor(a, resource)) <==> x in Elements(NamesFor(b, resource)) {
      NameElements(a, resource, x);
      NameElements(b, resource, x);
    }
    DedupeByElements(NamesFor(a, resource), NamesFor(b, resource));
  }

  lemma RulesIgnoreOrder(verb: string, group: string, a: seq<Grant>, b: seq<Grant>, resources: seq<string>)
    requires SameGrants(a, b)
    ensures RulesFor(verb, group, a, resources) == RulesFor(verb, group, b, resources)
  {
    forall i | 0 <= i < |resources| ensures MergedRule(verb, group, a, resources[i]) == MergedRule(verb, group, b, resources[i]) {
      MergedRuleIgnoresOrder(verb, group, a, b, resources[i]);
    }
  }

  /** The merged rules depend only on which names each resource is given. */
  lemma MergedIgnoresOrder(verb: string, group: string, a: seq<Grant>, b: seq<Grant>)
    requires SameGrants(a, b)
    ensures Merged(verb, group, a) == Merged(verb, group, b)
  {
    forall r ensures r in Elements(Resources(a)) <==> r in Elements(Resources(b)) {
      ResourceElements(a, r);
      ResourceElements(b, r);
    }
    DedupeByElements(Resources(a), Resources(b));
    RulesIgnoreOrder(verb, group, a, b, SortUnique(Resources(a)));
  }

  lemma PermutedGrants(a: seq<Grant>, b: seq<Grant>)
    requires forall x :: x in a ==> x in b
    ensures forall r :: HasResource(a, r) ==> HasResource(b, r)
    ensures forall r, x :: HasName(a, r, x) ==> HasName(b, r, x)
  {
    forall r | HasResource(a, r) ensures HasResource(b, r) {
      var i :| 0 <= i < |a| && a[i].resource == r;
      assert a[i] in b;
    }
    forall r, x | HasName(a, r, x) ensures HasName(b, r, x) {
      var i :| 0 <= i < |a| && a[i].resource == r && x in a[i].names;
      assert a[i] in b;
    }
  }
}
