/** Default policy assignment: which requester must use which RBACPolicy
    (default_policy_assignment_webhook.go and the overlap check of rbacpolicy_webhook.go). */
module DefaultPolicy {
  import opened Options
  import opened Strings
  import opened Paging

  datatype ServiceAccountRef = ServiceAccountRef(name: string, namespace: string)
  datatype Assignment = Assignment(groups: seq<string>, serviceAccounts: seq<ServiceAccountRef>)
  datatype Policy = Policy(assignment: Option<Assignment>, deleting: bool, payload: nat)
  datatype Requester = Requester(username: string, groups: seq<string>)

  datatype Principal = Group(name: string) | ServiceAccount(ref: ServiceAccountRef)

  // ---------------------------------------------------------------- matching

  /** system:serviceaccount:<namespace>:<name> with both parts present. */
  function ParseServiceAccount(username: string): Option<ServiceAccountRef> {
    var parts := Split(username, ':');
    if |parts| != 4 || parts[0] != "system" || parts[1] != "serviceaccount" || parts[2] == "" || parts[3] == ""
    then None
    else Some(ServiceAccountRef(parts[3], parts[2]))
  }

  /** Parsing undoes the rendering of a ServiceAccount username, and accepts nothing else: namespace and name are not
      empty and contain no colon. */
  lemma ServiceAccountRoundTrip(ref: ServiceAccountRef, username: string)
    ensures ParseServiceAccount(username) == Some(ref) <==>
            && ref.name != "" && ref.namespace != "" && ':' !in ref.name && ':' !in ref.namespace
            && username == Join(["system", "serviceaccount", ref.namespace, ref.name], ':')
  {
    var rendered := ["system", "serviceaccount", ref.namespace, ref.name];
    SplitFree(username, ':');
    JoinSplit(username, ':');
    if ':' !in ref.name && ':' !in ref.namespace {
      SplitJoin(rendered, ':');
    }
    if ParseServiceAccount(username) == Some(ref) {
      assert Split(username, ':') == rendered;
      assert Split(username, ':')[2] == ref.namespace && Split(username, ':')[3] == ref.name;
    }
  }

  method Matches(da: Assignment, req: Requester) returns (m: bool)
    ensures m <==> Principals(req) * Assigned(da) != {}
  {
    PrincipalsMeet(da, req);
    for i := 0 to |req.groups|
      invariant forall k :: 0 <= k < i ==> req.groups[k] !in da.groups
    {
      for j := 0 to |da.groups|
        invariant req.groups[i] !in da.groups[..j]
      {
        assert da.groups[..j + 1] == da.groups[..j] + [da.groups[j]];
        if req.groups[i] == da.groups[j] {
          return true;
        }
      }
      assert da.groups[..|da.groups|] == da.groups;
    }
    var sa := ParseServiceAccount(req.username);
    if sa.None? {
      return false;
    }
    for i := 0 to |da.serviceAccounts|
      invariant sa.value !in da.serviceAccounts[..i]
    {
      assert da.serviceAccounts[..i + 1] == da.serviceAccounts[..i] + [da.serviceAccounts[i]];
      if da.serviceAccounts[i].name == sa.value.name && da.serviceAccounts[i].namespace == sa.value.namespace {
        return true;
      }
    }
    assert da.serviceAccounts[..|da.serviceAccounts|] == da.serviceAccounts;
    return false;
  }

  function Assigned(da: Assignment): set<Principal> {
    (set g | g in da.groups :: Group(g)) + (set r | r in da.serviceAccounts :: ServiceAccount(r))
  }

  function Principals(req: Requester): set<Principal> {
    (set g | g in req.groups :: Group(g)) +
    (match ParseServiceAccount(req.username)
     case None => {}
     case Some(ref) => {ServiceAccount(ref)})
  }

  predicate MatchesPolicy(p: Policy, req: Requester) {
    p.assignment.Some? && Principals(req) * Assigned(p.assignment.value) != {}
  }

  lemma PrincipalsMeet(da: Assignment, req: Requester)
    ensures Principals(req) * Assigned(da) != {}
       <==> || (exists k :: 0 <= k < |req.groups| && req.groups[k] in da.groups)
            || (ParseServiceAccount(req.username).Some? && ParseServiceAccount(req.username).value in da.serviceAccounts)
  {
    var meet := Principals(req) * Assigned(da);
    if meet != {} {
      var a :| a in meet;
    }
    if k :| 0 <= k < |req.groups| && req.groups[k] in da.groups {
      assert Group(req.groups[k]) in meet;
    }
    var sa := ParseServiceAccount(req.username);
    if sa.Some? && sa.value in da.serviceAccounts {
      assert ServiceAccount(sa.value) in meet;
    }
  }

  // ---------------------------------------------------------------- the decision

  function MatchedPolicies(policies: map<string, Policy>, req: Requester): set<string> {
    set n | n in policies && MatchesPolicy(policies[n], req)
  }

  /** The policies a field-index query for default assignments returns. */
  function Indexed(policies: map<string, Policy>): map<string, Policy> {
    map n | n in policies && policies[n].assignment.Some? :: policies[n]
  }

  ghost predicate ListedBefore(pages: Pages<Policy>, n: string, page: nat, item: nat) {
    exists p, k :: At(pages, p, k) && pages[p][k].name == n && (p < page || (p == page && k < item))
  }

  /** Collects the matched policy names over all pages, each name once. */
  method CollectMatched(pages: Pages<Policy>, req: Requester, ghost policies: map<string, Policy>)
    returns (matched: seq<string>)
    requires Lists(pages, policies)
    ensures forall n :: n in matched <==> n in MatchedPolicies(policies, req)
    ensures forall i, j :: 0 <= i < j < |matched| ==> matched[i] != matched[j]
  {
    matched := [];
    for p := 0 to |pages|
      invariant forall n :: n in matched <==> n in MatchedPolicies(policies, req) && ListedBefore(pages, n, p, 0)
      invariant forall i, j :: 0 <= i < j < |matched| ==> matched[i] != matched[j]
    {
      for k := 0 to |pages[p]|
        invariant forall n :: n in matched <==> n in MatchedPolicies(policies, req) && ListedBefore(pages, n, p, k)
        invariant forall i, j :: 0 <= i < j < |matched| ==> matched[i] != matched[j]
      {
        var item := pages[p][k];
        assert At(pages, p, k);
        assert policies[item.name] == item.obj;
        assert !ListedBefore(pages, item.name, p, k);
        NextItem(pages, p, k);
        var ok := false;
        if item.obj.assignment.Some? {
          ok := Matches(item.obj.assignment.value, req);
        }
        assert ok <==> item.name in MatchedPolicies(policies, req);
        if ok {
          matched := matched + [item.name];
        }
      }
      NextPage(pages, p);
    }
    forall n | n in policies ensures ListedBefore(pages, n, |pages|, 0) {
      assert Listed(pages, n);
    }
  }

  lemma NextItem(pages: Pages<Policy>, p: nat, k: nat)
    requires p < |pages| && k < |pages[p]|
    ensures forall n :: ListedBefore(pages, n, p, k + 1) <==> ListedBefore(pages, n, p, k) || n == pages[p][k].name
  {
  }

  lemma NextPage(pages: Pages<Policy>, p: nat)
    requires p < |pages|
    ensures forall n :: ListedBefore(pages, n, p + 1, 0) <==> ListedBefore(pages, n, p, |pages[p]|)
  {
  }

  /** Admission may use the selected policy: it exists and stays, no other policy claims the requester,
      and a policy with a default assignment is only for the requesters assigned to it. */
  predicate DefaultPolicyOk(policies: map<string, Policy>, selected: string, req: Requester) {
    if selected == "" then MatchedPolicies(policies, req) == {}
    else
      && selected in policies
      && !policies[selected].deleting
      && MatchedPolicies(policies, req) <= {selected}
      && (policies[selected].assignment.Some? ==> selected in MatchedPolicies(policies, req))
  }

  /** The policy is assigned to a group of the requester or to the service account the requester is. */
  predicate Claims(p: Policy, req: Requester) {
    p.assignment.Some? &&
    (|| (exists g :: g in p.assignment.value.groups && g in req.groups)
     || (exists r :: r in p.assignment.value.serviceAccounts && ParseServiceAccount(req.username) == Some(r)))
  }

  /** The requester may use the policy: it exists and is not being deleted, no other policy claims the requester,
      and if it is assigned to anyone it claims the requester itself. */
  ghost predicate MayUse(policies: map<string, Policy>, selected: string, req: Requester) {
    && selected in policies && !policies[selected].deleting
    && (forall n :: n in policies && n != selected ==> !Claims(policies[n], req))
    && (policies[selected].assignment.Some? ==> Claims(policies[selected], req))
  }

  /** With a selected policy the request passes exactly when the requester may use that policy. */
  lemma PolicySelected(policies: map<string, Policy>, selected: string, req: Requester)
    requires selected != ""
    ensures DefaultPolicyOk(policies, selected, req) <==> MayUse(policies, selected, req)
  {
    var matched := MatchedPolicies(policies, req);
    forall n | n in policies ensures n in matched <==> Claims(policies[n], req) {
      ClaimIsMatch(policies[n], req);
    }
    assert matched <= {selected} <==> forall n :: n in policies && n != selected ==> n !in matched;
  }

  /** Without a selected policy the request passes exactly when no policy claims the requester. */
  lemma NothingSelected(policies: map<string, Policy>, req: Requester)
    ensures DefaultPolicyOk(policies, "", req) <==> forall n :: n in policies ==> !Claims(policies[n], req)
  {
    forall n | n in policies ensures n in MatchedPolicies(policies, req) <==> Claims(policies[n], req) {
      ClaimIsMatch(policies[n], req);
    }
    assert DefaultPolicyOk(policies, "", req) <==> forall n :: n !in MatchedPolicies(policies, req);
  }

  lemma ClaimIsMatch(p: Policy, req: Requester)
    ensures MatchesPolicy(p, req) <==> Claims(p, req)
  {
    if p.assignment.Some? {
      PrincipalsMeet(p.assignment.value, req);
      if g :| g in p.assignment.value.groups && g in req.groups {
        var k :| 0 <= k < |req.groups| && req.groups[k] == g;
      }
    }
  }

  /** validateDefaultPolicyForRequester: with or without the field index, it accepts exactly the
      requests DefaultPolicyOk describes; a call without request identity is not enforced. */
  method ValidateDefaultPolicy(
      request: Option<Requester>, selected: string,
      indexedPages: Option<Pages<Policy>>, allPages: Pages<Policy>,
      policies: map<string, Policy>)
    returns (accepted: bool)
    requires "" !in policies
    requires indexedPages.Some? ==> Lists(indexedPages.value, Indexed(policies))
    requires Lists(allPages, policies)
    ensures accepted <==> (request.Some? ==> DefaultPolicyOk(policies, selected, request.value))
  {
    if request.None? {
      return true;
    }
    var req := request.value;
    var selectedMatches, selectedHasAssignment := false, false;
    if selected != "" {
      if selected !in policies {
        return false;
      }
      var policy := policies[selected];
      if policy.deleting {
        return false;
      }
      if policy.assignment.Some? {
        selectedHasAssignment := true;
        selectedMatches := Matches(policy.assignment.value, req);
      }
    }
    var matched;
    if indexedPages.Some? {
      matched := CollectMatched(indexedPages.value, req, Indexed(policies));
    } else {
      matched := CollectMatched(allPages, req, policies);
    }
    ghost var set_ := MatchedPolicies(policies, req);
    assert forall n :: n in matched <==> n in set_;
    if |matched| > 1 {
      assert matched[0] in set_ && matched[1] in set_ && matched[0] != matched[1];
      return false;
    }
    assert |matched| == 1 ==> set_ == {matched[0]};
    assert |matched| == 0 ==> set_ == {};
    if selectedMatches {
      assert selected in set_;
      return true;
    }
    if selectedHasAssignment {
      return false;
    }
    if |matched| == 0 {
      return true;
    }
    return matched[0] == selected;
  }

  // ---------------------------------------------------------------- overlap of assignments

  predicate Disjoint(a: Assignment, b: Assignment) {
    Assigned(a) * Assigned(b) == {}
  }

  ghost predicate AssignmentsDisjoint(policies: map<string, Policy>) {
    forall p, q :: p in policies && q in policies && p != q && policies[p].assignment.Some? && policies[q].assignment.Some? ==>
      Disjoint(policies[p].assignment.value, policies[q].assignment.value)
  }

  /** No other stored policy assigns a principal of da. */
  ghost predicate NoOverlap(policies: map<string, Policy>, name: string, da: Assignment) {
    forall q :: q in policies && q != name && policies[q].assignment.Some? ==> Disjoint(da, policies[q].assignment.value)
  }

  /** defaultAssignmentOverlapErrors: one error per entry of current that existing already assigns. */
  method OverlapErrors(current: Assignment, existing: Assignment) returns (errs: seq<Principal>)
    ensures forall x :: x in errs <==> x in Assigned(current) && x in Assigned(existing)
  {
    errs := [];
    var existingGroups := set g | g in existing.groups;
    for i := 0 to |current.groups|
      invariant forall x :: x in errs <==> x.Group? && x.name in current.groups[..i] && x.name in existing.groups
    {
      assert current.groups[..i + 1] == current.groups[..i] + [current.groups[i]];
      if current.groups[i] in existingGroups {
        errs := errs + [Group(current.groups[i])];
      }
    }
    assert current.groups[..|current.groups|] == current.groups;
    ghost var groupErrs := errs;
    var existingAccounts := set r | r in existing.serviceAccounts;
    for i := 0 to |current.serviceAccounts|
      invariant forall x :: x in errs <==>
                  || x in groupErrs
                  || (x.ServiceAccount? && x.ref in current.serviceAccounts[..i] && x.ref in existing.serviceAccounts)
    {
      assert current.serviceAccounts[..i + 1] == current.serviceAccounts[..i] + [current.serviceAccounts[i]];
      if current.serviceAccounts[i] in existingAccounts {
        errs := errs + [ServiceAccount(current.serviceAccounts[i])];
      }
    }
    assert current.serviceAccounts[..|current.serviceAccounts|] == current.serviceAccounts;
  }

  /** validateDefaultAssignmentDoesNotOverlap over the paged policy list. */
  method ValidateNoOverlap(name: string, assignment: Option<Assignment>, pages: Pages<Policy>, ghost policies: map<string, Policy>)
    returns (accepted: bool)
    requires Lists(pages, policies)
    ensures accepted <==> (assignment.Some? ==> NoOverlap(policies, name, assignment.value))
  {
    if assignment.None? {
      return true;
    }
    var errs: seq<Principal> := [];
    for p := 0 to |pages|
      invariant errs == [] <==> forall i, k :: At(pages, i, k) && i < p ==> ItemClear(pages[i][k], name, assignment.value)
    {
      ghost var before := errs;
      for k := 0 to |pages[p]|
        invariant errs == [] <==> before == [] && forall j :: 0 <= j < k ==> ItemClear(pages[p][j], name, assignment.value)
      {
        var item := pages[p][k];
        assert At(pages, p, k);
        if item.name != name && item.obj.assignment.Some? {
          var more := OverlapErrors(assignment.value, item.obj.assignment.value);
          assert more == [] <==> Disjoint(assignment.value, item.obj.assignment.value) by {
            if more != [] { assert more[0] in Assigned(assignment.value) * Assigned(item.obj.assignment.value); }
          }
          errs := errs + more;
        }
      }
    }
    accepted := errs == [];
    if accepted {
      forall q | q in policies && q != name && policies[q].assignment.Some?
        ensures Disjoint(assignment.value, policies[q].assignment.value)
      {
        var p, k :| At(pages, p, k) && pages[p][k].name == q;
        assert ItemClear(pages[p][k], name, assignment.value);
      }
    } else {
      var p, k :| At(pages, p, k) && !ItemClear(pages[p][k], name, assignment.value);
      assert pages[p][k].name in policies;
    }
  }

  predicate ItemClear(item: Item<Policy>, name: string, da: Assignment) {
    item.name == name || item.obj.assignment.None? || Disjoint(da, item.obj.assignment.value)
  }

  /** With disjoint assignments, a requester that two policies claim holds two distinct assigned principals. */
  lemma TwoPoliciesNeedTwoPrincipals(policies: map<string, Policy>, p: string, q: string, req: Requester)
      returns (a: Principal, b: Principal)
    requires AssignmentsDisjoint(policies) && p != q
    requires p in MatchedPolicies(policies, req) && q in MatchedPolicies(policies, req)
    ensures a != b && a in Principals(req) && b in Principals(req)
    ensures a in Assigned(policies[p].assignment.value) && b in Assigned(policies[q].assignment.value)
  {
    a :| a in Principals(req) * Assigned(policies[p].assignment.value);
    b :| b in Principals(req) * Assigned(policies[q].assignment.value);
    assert Disjoint(policies[p].assignment.value, policies[q].assignment.value);
    assert a !in Assigned(policies[p].assignment.value) * Assigned(policies[q].assignment.value);
  }
}
