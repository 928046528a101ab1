/** Kubernetes RBAC rule evaluation: what a list of PolicyRules grants. */
module Rbac {
  import opened Strings

  datatype PolicyRule = PolicyRule(
    verbs: seq<string>,
    apiGroups: seq<string>,
    resources: seq<string>,
    resourceNames: seq<string>,
    nonResourceURLs: seq<string>)

  datatype Subject = Subject(kind: string, apiGroup: string, name: string, namespace: string)

  /** A request for a resource (with an optional subresource) or for a non-resource path. */
  datatype Request =
    | ResourceRequest(verb: string, group: string, resource: string, subresource: string, name: string)
    | PathRequest(verb: string, path: string)

  function Combined(r: Request): string
    requires r.ResourceRequest?
  {
    if r.subresource == "" then r.resource else r.resource + "/" + r.subresource
  }

  predicate VerbMatches(verbs: seq<string>, verb: string) {
    "*" in verbs || verb in verbs
  }

  predicate GroupMatches(groups: seq<string>, group: string) {
    "*" in groups || group in groups
  }

  predicate ResourceMatches(resources: seq<string>, r: Request)
    requires r.ResourceRequest?
  {
    "*" in resources || Combined(r) in resources || (r.subresource != "" && "*/" + r.subresource in resources)
  }

  predicate NameMatches(names: seq<string>, name: string) {
    names == [] || name in names
  }

  predicate PathMatches(urls: seq<string>, path: string) {
    exists i :: 0 <= i < |urls| &&
      var u := urls[i];
      u == "*" || u == path || (u != "" && u[|u| - 1] == '*' && HasPrefix(path, u[..|u| - 1]))
  }

  predicate RuleAllows(rule: PolicyRule, r: Request) {
    VerbMatches(rule.verbs, r.verb) &&
    match r
    case ResourceRequest(_, group, _, _, name) =>
      GroupMatches(rule.apiGroups, group) && ResourceMatches(rule.resources, r) && NameMatches(rule.resourceNames, name)
    case PathRequest(_, path) => PathMatches(rule.nonResourceURLs, path)
  }

  predicate Allows(rules: seq<PolicyRule>, r: Request) {
    exists i :: 0 <= i < |rules| && RuleAllows(rules[i], r)
  }

  /** Rules with the same entries in each list grant the same. */
  lemma SameEntriesSameGrants(a: PolicyRule, b: PolicyRule, r: Request)
    requires Elements(a.verbs) == Elements(b.verbs) && Elements(a.apiGroups) == Elements(b.apiGroups)
    requires Elements(a.resources) == Elements(b.resources) && Elements(a.resourceNames) == Elements(b.resourceNames)
    requires Elements(a.nonResourceURLs) == Elements(b.nonResourceURLs)
    ensures RuleAllows(a, r) <==> RuleAllows(b, r)
  {
    forall x: string
      ensures (x in a.verbs <==> x in b.verbs) && (x in a.apiGroups <==> x in b.apiGroups)
      ensures (x in a.resources <==> x in b.resources) && (x in a.resourceNames <==> x in b.resourceNames)
      ensures x in a.nonResourceURLs <==> x in b.nonResourceURLs
    {
      assert x in Elements(a.verbs) <==> x in Elements(b.verbs);
      assert x in Elements(a.apiGroups) <==> x in Elements(b.apiGroups);
      assert x in Elements(a.resources) <==> x in Elements(b.resources);
      assert x in Elements(a.resourceNames) <==> x in Elements(b.resourceNames);
      assert x in Elements(a.nonResourceURLs) <==> x in Elements(b.nonResourceURLs);
    }
    if r.ResourceRequest? {
      assert a.resourceNames == [] <==> b.resourceNames == [] by {
        assert a.resourceNames != [] ==> a.resourceNames[0] in b.resourceNames;
        assert b.resourceNames != [] ==> b.resourceNames[0] in a.resourceNames;
      }
    } else {
      PathMatchesByEntries(a.nonResourceURLs, b.nonResourceURLs, r.path);
      PathMatchesByEntries(b.nonResourceURLs, a.nonResourceURLs, r.path);
    }
  }

  lemma PathMatchesByEntries(a: seq<string>, b: seq<string>, path: string)
    requires forall x :: x in a ==> x in b
    ensures PathMatches(a, path) ==> PathMatches(b, path)
  {
    if PathMatches(a, path) {
      var i :| 0 <= i < |a| &&
        var u := a[i];
        u == "*" || u == path || (u != "" && u[|u| - 1] == '*' && HasPrefix(path, u[..|u| - 1]));
      assert a[i] in b;
      var j :| 0 <= j < |b| && b[j] == a[i];
    }
  }
}
