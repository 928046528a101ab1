/** What no run of admissions changes, and the exact condition on which each request is admitted
    (the validators of api/authorization/v1alpha1). */
module AdmissionHistory {
  import opened Options
  import opened DefaultPolicy
  import opened Admission

  // ---------------------------------------------------------------- immutable fields

  predicate BindKept(s: Store, t: Store, n: string) {
    n in s.binds ==> n in t.binds && t.binds[n].targetName == s.binds[n].targetName
  }

  predicate RestrictedBindKept(s: Store, t: Store, n: string) {
    n in s.restrictedBinds ==>
      && n in t.restrictedBinds && t.restrictedBinds[n].targetName == s.restrictedBinds[n].targetName
      && t.restrictedBinds[n].policyRef == s.restrictedBinds[n].policyRef
  }

  predicate RoleKept(s: Store, t: Store, n: string) {
    n in s.roles ==> n in t.roles && t.roles[n].target == s.roles[n].target
  }

  predicate RestrictedRoleKept(s: Store, t: Store, n: string) {
    n in s.restrictedRoles ==>
      && n in t.restrictedRoles && t.restrictedRoles[n].target == s.restrictedRoles[n].target
      && t.restrictedRoles[n].policyRef == s.restrictedRoles[n].policyRef
  }

  /** A definition that is not deleted keeps its target and its policy. */
  ghost predicate KeysKept(s: Store, t: Store, r: Request) {
    && (forall n :: r != OnBinds(DeleteBind(n)) ==> BindKept(s, t, n))
    && (forall n :: r != OnBinds(DeleteRestrictedBind(n)) ==> RestrictedBindKept(s, t, n))
    && (forall n :: r != OnRoles(DeleteRole(n)) ==> RoleKept(s, t, n))
    && (forall n :: r != OnRoles(DeleteRestrictedRole(n)) ==> RestrictedRoleKept(s, t, n))
  }

  lemma BindEffectKeepsKeys(s: Store, r: BindRequest, n: string)
    requires WellPosedBind(s, r) && AdmitsBind(s, r)
    ensures r != DeleteBind(n) ==> BindKept(s, EffectBind(s, r), n)
    ensures r != DeleteRestrictedBind(n) ==> RestrictedBindKept(s, EffectBind(s, r), n)
  {
  }

  lemma RoleEffectKeepsKeys(s: Store, r: RoleRequest, n: string)
    requires WellPosedRole(s, r) && AdmitsRole(s, r)
    ensures r != DeleteRole(n) ==> RoleKept(s, EffectRole(s, r), n)
    ensures r != DeleteRestrictedRole(n) ==> RestrictedRoleKept(s, EffectRole(s, r), n)
  {
  }

  /** No admitted request but its deletion changes the target or the policy of a stored definition. */
  lemma EffectKeepsKeys(s: Store, r: Request)
    requires WellPosed(s, r) && Admits(s, r)
    ensures KeysKept(s, Effect(s, r), r)
  {
    EffectIsLocal(s, r);
    if r.OnBinds? {
      forall n: string { BindEffectKeepsKeys(s, r.bind, n); }
    }
    if r.OnRoles? {
      forall n: string { RoleEffectKeepsKeys(s, r.role, n); }
    }
  }

  /** Over every run, a definition that no request deletes keeps its target and its policy. */
  lemma {:induction false} RunKeepsKeys(s: Store, requests: seq<Request>, n: string)
    ensures OnBinds(DeleteBind(n)) !in requests ==> BindKept(s, Run(s, requests), n)
    ensures OnBinds(DeleteRestrictedBind(n)) !in requests ==> RestrictedBindKept(s, Run(s, requests), n)
    ensures OnRoles(DeleteRole(n)) !in requests ==> RoleKept(s, Run(s, requests), n)
    ensures OnRoles(DeleteRestrictedRole(n)) !in requests ==> RestrictedRoleKept(s, Run(s, requests), n)
    decreases |requests|
  {
    if requests != [] {
      var r := requests[0];
      var t := if WellPosed(s, r) && Admits(s, r) then Effect(s, r) else s;
      if WellPosed(s, r) && Admits(s, r) { EffectKeepsKeys(s, r); }
      RunKeepsKeys(t, requests[1..], n);
      assert requests == [r] + requests[1..];
    }
  }

  // ---------------------------------------------------------------- policies on their way out

  /** A policy that is being deleted stays so until it is gone. */
  lemma DeletingStays(s: Store, r: Request, p: string)
    requires WellPosed(s, r) && p in s.policies && s.policies[p].deleting
    ensures p in Effect(s, r).policies ==> Effect(s, r).policies[p].deleting
  {
    EffectIsLocal(s, r);
  }

  /** An admitted deletion takes a policy out of use that nothing refers to. */
  lemma DeletedIsUnused(s: Store, p: string, hasFinalizer: bool)
    requires p in s.policies && Admits(s, OnPolicies(DeletePolicy(p, hasFinalizer)))
    ensures var t := Effect(s, OnPolicies(DeletePolicy(p, hasFinalizer)));
            && (p in t.policies <==> hasFinalizer) && (p in t.policies ==> t.policies[p].deleting)
            && (forall n :: n in t.restrictedBinds ==> t.restrictedBinds[n].policyRef != p)
            && (forall n :: n in t.restrictedRoles ==> t.restrictedRoles[n].policyRef != p)
  {
  }

  // ---------------------------------------------------------------- targets that denote an object

  /** A named ClusterRole without a namespace or a named Role in one. */
  predicate Denotable(t: RoleTarget) {
    t.name != "" && ((t.kind == "ClusterRole" && t.namespace == "") || (t.kind == "Role" && t.namespace != ""))
  }

  predicate AllDenotable(s: Store) {
    && (forall n :: n in s.roles ==> Denotable(s.roles[n].target))
    && (forall n :: n in s.restrictedRoles ==> Denotable(s.restrictedRoles[n].target))
  }

  lemma SupportedIsDenotable(t: RoleTarget)
    ensures SupportedTarget(t) <==> Denotable(t)
  {
    assert |CLUSTER_ROLE| != |NAMESPACED_ROLE|;
  }

  lemma RoleEffectKeepsDenotable(s: Store, r: RoleRequest)
    requires AllDenotable(s) && WellPosedRole(s, r) && AdmitsRole(s, r)
    ensures AllDenotable(EffectRole(s, r))
  {
    forall t: RoleTarget { SupportedIsDenotable(t); }
  }

  lemma EffectKeepsDenotable(s: Store, r: Request)
    requires AllDenotable(s) && WellPosed(s, r) && Admits(s, r)
    ensures AllDenotable(Effect(s, r))
  {
    EffectIsLocal(s, r);
    if r.OnRoles? { RoleEffectKeepsDenotable(s, r.role); }
  }

  lemma {:induction false} RunKeepsDenotable(s: Store, requests: seq<Request>)
    requires AllDenotable(s)
    ensures AllDenotable(Run(s, requests))
    decreases |requests|
  {
    if requests != [] {
      var r := requests[0];
      if WellPosed(s, r) && Admits(s, r) {
        EffectKeepsDenotable(s, r);
        RunKeepsDenotable(Effect(s, r), requests[1..]);
      } else {
        RunKeepsDenotable(s, requests[1..]);
      }
    }
  }

  /** In every reachable store, each role definition names a ClusterRole or a Role in a namespace. */
  lemma ReachableTargets(requests: seq<Request>)
    ensures AllDenotable(Run(EMPTY, requests))
  {
    RunKeepsDenotable(EMPTY, requests);
  }

  // ---------------------------------------------------------------- the exact condition

  /** The validation that reads no other definition passed; deletions have none. */
  predicate Checked(r: Request) {
    match r
    case OnBinds(CreateBind(_, _, checks)) => checks
    case OnBinds(UpdateBind(_, _, checks, _)) => checks
    case OnBinds(CreateRestrictedBind(_, _, checks, _)) => checks
    case OnBinds(UpdateRestrictedBind(_, _, checks, _, _)) => checks
    case OnRoles(CreateRole(_, _, checks)) => checks
    case OnRoles(UpdateRole(_, _, checks)) => checks
    case OnRoles(CreateRestrictedRole(_, _, checks, _)) => checks
    case OnRoles(UpdateRestrictedRole(_, _, checks, _, _, _)) => checks
    case OnPolicies(CreatePolicy(_, _, _, checks)) => checks
    case OnPolicies(UpdatePolicy(_, _, _, checks)) => checks
    case _ => true
  }

  /** An update that leaves the spec as it is needs no validation of it. */
  predicate SpecUnchanged(s: Store, r: Request)
    requires WellPosed(s, r)
  {
    match r
    case OnBinds(UpdateBind(n, b, _, sameAnnotations)) => s.binds[n] == b && sameAnnotations
    case OnBinds(UpdateRestrictedBind(n, b, _, _, _)) => s.restrictedBinds[n] == b
    case OnRoles(UpdateRestrictedRole(n, d, _, _, _, _)) => s.restrictedRoles[n] == d
    case _ => false
  }

  /** Who asks for which policy, when a restricted definition is created, changed or touched in guarded metadata. */
  function Asks(s: Store, r: Request): Option<(string, Requester)>
    requires WellPosed(s, r)
  {
    match r
    case OnBinds(CreateRestrictedBind(_, b, _, Some(q))) => Some((b.policyRef, q))
    case OnBinds(UpdateRestrictedBind(n, b, _, Some(q), guarded)) =>
      if s.restrictedBinds[n] != b || guarded then Some((b.policyRef, q)) else None
    case OnRoles(CreateRestrictedRole(_, d, _, Some(q))) => Some((d.policyRef, q))
    case OnRoles(UpdateRestrictedRole(n, d, _, _, Some(q), guarded)) =>
      if s.restrictedRoles[n] != d || guarded then Some((d.policyRef, q)) else None
    case _ => None
  }

  ghost predicate AskedForAllowed(s: Store, r: Request)
    requires WellPosed(s, r)
  {
    Asks(s, r).Some? ==> MayUse(s.policies, Asks(s, r).value.0, Asks(s, r).value.1)
  }

  predicate LabelsAllowed(r: Request) {
    match r
    case OnRoles(UpdateRestrictedRole(_, d, _, labelsOk, _, _)) => d.target.kind == "ClusterRole" ==> labelsOk
    case _ => true
  }

  ghost predicate Sound(s: Store) {
    Guaranteed(s) && AllDenotable(s)
  }

  lemma OwnTargetsFree(s: Store)
    requires Guaranteed(s)
    ensures forall n :: n in s.binds ==> BindTargetFree(s, n, s.binds[n].targetName)
    ensures forall n :: n in s.restrictedBinds ==> RestrictedBindTargetFree(s, n, s.restrictedBinds[n].targetName)
    ensures forall n :: n in s.roles ==> RoleTargetFree(s, n, s.roles[n].target)
    ensures forall n :: n in s.restrictedRoles ==> RestrictedRoleTargetFree(s, n, s.restrictedRoles[n].target)
  {
    forall n | n in s.binds ensures BindTargetFree(s, n, s.binds[n].targetName) {
      UniquePut(BindKeys(s), RestrictedBindKeys(s), n, s.binds[n].targetName);
    }
    forall n | n in s.restrictedBinds ensures RestrictedBindTargetFree(s, n, s.restrictedBinds[n].targetName) {
      UniquePut(RestrictedBindKeys(s), BindKeys(s), n, s.restrictedBinds[n].targetName);
    }
    forall n | n in s.roles ensures RoleTargetFree(s, n, s.roles[n].target) {
      UniquePut(RoleKeys(s), RestrictedRoleKeys(s), n, Produced(s.roles[n].target));
    }
    forall n | n in s.restrictedRoles ensures RestrictedRoleTargetFree(s, n, s.restrictedRoles[n].target) {
      UniquePut(RestrictedRoleKeys(s), RoleKeys(s), n, Produced(s.restrictedRoles[n].target));
    }
  }

  /** The check of the requester is that the requester may use the policy. */
  lemma RequesterChecked(s: Store, policy: string, req: Requester)
    requires "" !in s.policies
    ensures policy != "" ==> (RequesterOk(s, policy, Some(req)) <==> MayUse(s.policies, policy, req))
    ensures MayUse(s.policies, policy, req) ==> policy != ""
  {
    if policy != "" { PolicySelected(s.policies, policy, req); }
  }

  lemma LivePolicyNamed(s: Store, policy: string)
    requires "" !in s.policies && PolicyLive(s, policy)
    ensures policy != ""
  {
  }

  lemma BindAdmitted(s: Store, r: BindRequest)
    requires Sound(s) && WellPosedBind(s, r) && AdmitsBind(s, r)
    ensures (Checked(OnBinds(r)) || SpecUnchanged(s, OnBinds(r))) && AskedForAllowed(s, OnBinds(r))
  {
    match r
    case CreateRestrictedBind(n, b, _, Some(q)) => RequesterChecked(s, b.policyRef, q);
    case UpdateRestrictedBind(n, b, _, Some(q), _) =>
      LivePolicyNamed(s, s.restrictedBinds[n].policyRef);
      RequesterChecked(s, b.policyRef, q);
    case _ =>
  }

  lemma RoleAdmitted(s: Store, r: RoleRequest)
    requires Sound(s) && WellPosedRole(s, r) && AdmitsRole(s, r)
    ensures (Checked(OnRoles(r)) || SpecUnchanged(s, OnRoles(r))) && AskedForAllowed(s, OnRoles(r)) && LabelsAllowed(OnRoles(r))
  {
    match r
    case CreateRestrictedRole(n, d, _, Some(q)) => RequesterChecked(s, d.policyRef, q);
    case UpdateRestrictedRole(n, d, _, _, Some(q), _) =>
      LivePolicyNamed(s, s.restrictedRoles[n].policyRef);
      RequesterChecked(s, d.policyRef, q);
    case _ =>
  }

  lemma BindAdmissible(s: Store, r: BindRequest)
    requires Sound(s) && WellPosedBind(s, r) && (Checked(OnBinds(r)) || SpecUnchanged(s, OnBinds(r)))
    requires KeysKept(s, EffectBind(s, r), OnBinds(r)) && Sound(EffectBind(s, r)) && AskedForAllowed(s, OnBinds(r))
    ensures AdmitsBind(s, r)
  {
    OwnTargetsFree(s);
    match r
    case CreateBind(n, b, _) => if !BindTargetFree(s, n, b.targetName) { RejectedBind(s, n, b); }
    case UpdateBind(n, b, _, _) => assert BindKept(s, EffectBind(s, r), n);
    case CreateRestrictedBind(n, b, _, req) =>
      if req.Some? { RequesterChecked(s, b.policyRef, req.value); }
      if !RestrictedBindTargetFree(s, n, b.targetName) || !PolicyLive(s, b.policyRef) { RejectedRestrictedBind(s, n, b); }
    case UpdateRestrictedBind(n, b, _, req, _) =>
      assert RestrictedBindKept(s, EffectBind(s, r), n);
      if req.Some? { RequesterChecked(s, b.policyRef, req.value); }
    case _ =>
  }

  lemma RoleAdmissible(s: Store, r: RoleRequest)
    requires Sound(s) && WellPosedRole(s, r) && (Checked(OnRoles(r)) || SpecUnchanged(s, OnRoles(r))) && LabelsAllowed(OnRoles(r))
    requires KeysKept(s, EffectRole(s, r), OnRoles(r)) && Sound(EffectRole(s, r)) && AskedForAllowed(s, OnRoles(r))
    ensures AdmitsRole(s, r)
  {
    OwnTargetsFree(s);
    match r
    case CreateRole(n, d, _) =>
      StoredRole(s, n, d);
      if !RoleTargetFree(s, n, d.target) { RejectedRole(s, n, d); }
    case UpdateRole(n, d, _) =>
      StoredRole(s, n, d);
      assert RoleKept(s, EffectRole(s, r), n);
    case CreateRestrictedRole(n, d, _, req) =>
      StoredRestrictedRole(s, n, d);
      if req.Some? { RequesterChecked(s, d.policyRef, req.value); }
      if !RestrictedRoleTargetFree(s, n, d.target) || !PolicyLive(s, d.policyRef) { RejectedRestrictedRole(s, n, d); }
    case UpdateRestrictedRole(n, d, _, _, req, _) =>
      StoredRestrictedRole(s, n, d);
      assert RestrictedRoleKept(s, EffectRole(s, r), n);
      if req.Some? { RequesterChecked(s, d.policyRef, req.value); }
    case _ =>
  }

  lemma StoredRole(s: Store, n: string, d: RoleDefinition)
    requires AllDenotable(s.(roles := s.roles[n := d]))
    ensures SupportedTarget(d.target)
  {
    assert s.roles[n := d][n] == d;
    SupportedIsDenotable(d.target);
  }

  lemma StoredRestrictedRole(s: Store, n: string, d: RestrictedRole)
    requires AllDenotable(s.(restrictedRoles := s.restrictedRoles[n := d]))
    ensures SupportedTarget(d.target)
  {
    assert s.restrictedRoles[n := d][n] == d;
    SupportedIsDenotable(d.target);
  }

  lemma PolicyAdmissible(s: Store, r: PolicyRequest)
    requires Sound(s) && WellPosedPolicy(s, r) && Checked(OnPolicies(r)) && Sound(EffectPolicy(s, r))
    ensures AdmitsPolicy(s, r)
  {
    if !r.FinalizePolicy? { GuardsAreExact(s, OnPolicies(r)); }
  }

  /** Every request of every kind is admitted on exactly this condition: its own validation passed or its spec is
      unchanged, its labels are allowed, no target or policy of a stored definition changes, the store it leads to
      is sound, and whoever asks for a policy may use it. */
  lemma AdmissionIsExact(s: Store, r: Request)
    requires Sound(s) && WellPosed(s, r)
    ensures Admits(s, r) <==>
            && (Checked(r) || SpecUnchanged(s, r)) && LabelsAllowed(r)
            && KeysKept(s, Effect(s, r), r) && Sound(Effect(s, r)) && AskedForAllowed(s, r)
  {
    if Admits(s, r) {
      EffectKeepsGuarantees(s, r);
      EffectKeepsDenotable(s, r);
      EffectKeepsKeys(s, r);
      match r
      case OnBinds(b) => BindAdmitted(s, b);
      case OnRoles(d) => RoleAdmitted(s, d);
      case OnPolicies(_) =>
    }
    if (Checked(r) || SpecUnchanged(s, r)) && LabelsAllowed(r) && KeysKept(s, Effect(s, r), r) && Sound(Effect(s, r)) && AskedForAllowed(s, r) {
      match r
      case OnBinds(b) => BindAdmissible(s, b);
      case OnRoles(d) => RoleAdmissible(s, d);
      case OnPolicies(p) => PolicyAdmissible(s, p);
    }
  }

  /** The stores the previous lemma speaks of include every reachable one. */
  lemma ReachableIsSound(requests: seq<Request>)
    ensures Sound(Run(EMPTY, requests))
  {
    RunKeepsGuarantees(EMPTY, requests);
    RunKeepsDenotable(EMPTY, requests);
  }

  // ---------------------------------------------------------------- admission on any store, spelled out

  /** No bind definition but the requested one has the target name. */
  predicate NameUnused(s: Store, bind: string, restrictedBind: string, target: string) {
    && (forall m :: m in s.binds && m != bind ==> s.binds[m].targetName != target)
    && (forall m :: m in s.restrictedBinds && m != restrictedBind ==> s.restrictedBinds[m].targetName != target)
  }

  /** Both targets denote one RBAC object. */
  predicate SameObject(a: RoleTarget, b: RoleTarget) {
    a.kind == b.kind && a.name == b.name && (a.kind == "ClusterRole" || a.namespace == b.namespace)
  }

  /** No role definition but the requested one generates the role. */
  predicate RoleUnused(s: Store, role: string, restrictedRole: string, target: RoleTarget) {
    && (forall m :: m in s.roles && m != role ==> !SameObject(s.roles[m].target, target))
    && (forall m :: m in s.restrictedRoles && m != restrictedRole ==> !SameObject(s.restrictedRoles[m].target, target))
  }

  predicate InUse(s: Store, policy: string) {
    policy in s.policies && !s.policies[policy].deleting
  }

  ghost predicate Requested(s: Store, policy: string, req: Option<Requester>) {
    req.Some? ==> MayUse(s.policies, policy, req.value)
  }

  /** A default assignment that shares nothing with the assignments of other policies. */
  predicate Unshared(s: Store, name: string, assignment: Option<Assignment>) {
    assignment.Some? ==>
      forall p :: p in s.policies && p != name && s.policies[p].assignment.Some? ==> !Shared(assignment.value, s.policies[p].assignment.value)
  }

  predicate Shared(a: Assignment, b: Assignment) {
    (exists g :: g in a.groups && g in b.groups) || (exists r :: r in a.serviceAccounts && r in b.serviceAccounts)
  }

  /** What each request needs, on whatever store; "" names no definition. */
  ghost predicate NeedsOfBind(s: Store, r: BindRequest)
    requires WellPosedBind(s, r)
  {
    match r
    case CreateBind(n, b, checks) => checks && NameUnused(s, n, "", b.targetName)
    case UpdateBind(n, b, checks, same) =>
      && s.binds[n].targetName == b.targetName
      && ((s.binds[n] == b && same) || (checks && NameUnused(s, n, "", b.targetName)))
    case DeleteBind(_) => true
    case CreateRestrictedBind(n, b, checks, req) =>
      checks && NameUnused(s, "", n, b.targetName) && InUse(s, b.policyRef) && Requested(s, b.policyRef, req)
    case UpdateRestrictedBind(n, b, checks, req, guarded) =>
      && s.restrictedBinds[n].targetName == b.targetName && s.restrictedBinds[n].policyRef == b.policyRef
      && (s.restrictedBinds[n] != b ==> checks && NameUnused(s, "", n, b.targetName) && InUse(s, b.policyRef))
      && (s.restrictedBinds[n] != b || guarded ==> Requested(s, b.policyRef, req))
    case DeleteRestrictedBind(_) => true
  }

  ghost predicate NeedsOfRole(s: Store, r: RoleRequest)
    requires WellPosedRole(s, r)
  {
    match r
    case CreateRole(n, d, checks) => checks && Denotable(d.target) && RoleUnused(s, n, "", d.target)
    case UpdateRole(n, d, checks) => s.roles[n].target == d.target && checks && Denotable(d.target) && RoleUnused(s, n, "", d.target)
    case DeleteRole(_) => true
    case CreateRestrictedRole(n, d, checks, req) =>
      checks && Denotable(d.target) && RoleUnused(s, "", n, d.target) && InUse(s, d.policyRef) && Requested(s, d.policyRef, req)
    case UpdateRestrictedRole(n, d, checks, labelsOk, req, guarded) =>
      && s.restrictedRoles[n].target == d.target && s.restrictedRoles[n].policyRef == d.policyRef
      && (d.target.kind == "ClusterRole" ==> labelsOk)
      && (s.restrictedRoles[n] != d ==> checks && Denotable(d.target) && RoleUnused(s, "", n, d.target) && InUse(s, d.policyRef))
      && (s.restrictedRoles[n] != d || guarded ==> Requested(s, d.policyRef, req))
    case DeleteRestrictedRole(_) => true
  }

  predicate NeedsOfPolicy(s: Store, r: PolicyRequest) {
    match r
    case CreatePolicy(n, a, _, checks) => checks && Unshared(s, n, a)
    case UpdatePolicy(n, a, _, checks) => checks && Unshared(s, n, a)
    case DeletePolicy(n, _) =>
      && (forall m :: m in s.restrictedBinds ==> s.restrictedBinds[m].policyRef != n)
      && (forall m :: m in s.restrictedRoles ==> s.restrictedRoles[m].policyRef != n)
    case FinalizePolicy(_) => true
  }

  ghost predicate Needs(s: Store, r: Request)
    requires WellPosed(s, r)
  {
    match r
    case OnBinds(b) => NeedsOfBind(s, b)
    case OnRoles(d) => NeedsOfRole(s, d)
    case OnPolicies(p) => NeedsOfPolicy(s, p)
  }

  /** The API server names every object. */
  predicate Named(s: Store) {
    "" !in s.binds && "" !in s.restrictedBinds && "" !in s.roles && "" !in s.restrictedRoles && "" !in s.policies
  }

  lemma NamesFree(s: Store, n: string, target: string)
    requires Named(s)
    ensures BindTargetFree(s, n, target) <==> NameUnused(s, n, "", target)
    ensures RestrictedBindTargetFree(s, n, target) <==> NameUnused(s, "", n, target)
  {
    assert forall m :: m in s.binds ==> BindKeys(s)[m] == s.binds[m].targetName;
    assert forall m :: m in s.restrictedBinds ==> RestrictedBindKeys(s)[m] == s.restrictedBinds[m].targetName;
  }

  lemma SameObjectIsCollision(a: RoleTarget, b: RoleTarget)
    ensures SameObject(a, b) <==> Produced(a) == Produced(b)
  {
  }

  lemma RolesFree(s: Store, n: string, target: RoleTarget)
    requires Named(s)
    ensures RoleTargetFree(s, n, target) <==> RoleUnused(s, n, "", target)
    ensures RestrictedRoleTargetFree(s, n, target) <==> RoleUnused(s, "", n, target)
  {
    forall t: RoleTarget { SameObjectIsCollision(t, target); }
    assert forall m :: m in s.roles ==> RoleKeys(s)[m] == Produced(s.roles[m].target);
    assert forall m :: m in s.restrictedRoles ==> RestrictedRoleKeys(s)[m] == Produced(s.restrictedRoles[m].target);
  }

  lemma RequesterMeans(s: Store, policy: string, req: Option<Requester>)
    requires Named(s) && policy != ""
    ensures RequesterOk(s, policy, req) <==> Requested(s, policy, req)
  {
    if req.Some? { PolicySelected(s.policies, policy, req.value); }
  }

  lemma BindNeedsAreExact(s: Store, r: BindRequest)
    requires Named(s) && WellPosedBind(s, r) && (forall n :: n in s.restrictedBinds ==> s.restrictedBinds[n].policyRef != "")
    ensures AdmitsBind(s, r) <==> NeedsOfBind(s, r)
  {
    match r
    case CreateBind(n, b, _) => NamesFree(s, n, b.targetName);
    case UpdateBind(n, b, _, _) => NamesFree(s, n, b.targetName);
    case CreateRestrictedBind(n, b, _, req) =>
      NamesFree(s, n, b.targetName);
      if b.policyRef != "" { RequesterMeans(s, b.policyRef, req); }
    case UpdateRestrictedBind(n, b, _, req, _) =>
      NamesFree(s, n, b.targetName);
      if b.policyRef != "" { RequesterMeans(s, b.policyRef, req); }
    case _ =>
  }

  lemma RoleNeedsAreExact(s: Store, r: RoleRequest)
    requires Named(s) && WellPosedRole(s, r) && (forall n :: n in s.restrictedRoles ==> s.restrictedRoles[n].policyRef != "")
    ensures AdmitsRole(s, r) <==> NeedsOfRole(s, r)
  {
    match r
    case CreateRole(n, d, _) =>
      SupportedIsDenotable(d.target);
      RolesFree(s, n, d.target);
    case UpdateRole(n, d, _) =>
      SupportedIsDenotable(d.target);
      RolesFree(s, n, d.target);
    case CreateRestrictedRole(n, d, _, req) =>
      SupportedIsDenotable(d.target);
      RolesFree(s, n, d.target);
      if d.policyRef != "" { RequesterMeans(s, d.policyRef, req); }
    case UpdateRestrictedRole(n, d, _, _, req, _) =>
      SupportedIsDenotable(d.target);
      RolesFree(s, n, d.target);
      if d.policyRef != "" { RequesterMeans(s, d.policyRef, req); }
    case _ =>
  }

  lemma PolicyNeedsAreExact(s: Store, r: PolicyRequest)
    requires WellPosedPolicy(s, r)
    ensures AdmitsPolicy(s, r) <==> NeedsOfPolicy(s, r)
  {
    forall a: Assignment, b: Assignment { SharedIsOverlap(a, b); }
  }

  /** On any store of named objects, also one the validators did not build, a request is admitted exactly when its
      needs are met. The policy of a restricted definition has a name. */
  lemma NeedsAreExact(s: Store, r: Request)
    requires Named(s) && WellPosed(s, r)
    requires forall n :: n in s.restrictedBinds ==> s.restrictedBinds[n].policyRef != ""
    requires forall n :: n in s.restrictedRoles ==> s.restrictedRoles[n].policyRef != ""
    ensures Admits(s, r) <==> Needs(s, r)
  {
    match r
    case OnBinds(b) => BindNeedsAreExact(s, b);
    case OnRoles(d) => RoleNeedsAreExact(s, d);
    case OnPolicies(p) => PolicyNeedsAreExact(s, p);
  }

  // ---------------------------------------------------------------- a reachable store, spelled out

  lemma SharedIsOverlap(a: Assignment, b: Assignment)
    ensures Disjoint(a, b) <==> !Shared(a, b)
  {
    if g :| g in a.groups && g in b.groups {
      assert Group(g) in Assigned(a) * Assigned(b);
    }
    if r :| r in a.serviceAccounts && r in b.serviceAccounts {
      assert ServiceAccount(r) in Assigned(a) * Assigned(b);
    }
    if !Disjoint(a, b) {
      var x :| x in Assigned(a) * Assigned(b);
    }
  }

  /** In every reachable store no two bind definitions of either kind share a target name. */
  lemma ReachableTargetNames(requests: seq<Request>)
    ensures var s := Run(EMPTY, requests);
            && (forall n, m :: n in s.binds && m in s.binds && n != m ==> s.binds[n].targetName != s.binds[m].targetName)
            && (forall n, m :: n in s.restrictedBinds && m in s.restrictedBinds && n != m ==>
                  s.restrictedBinds[n].targetName != s.restrictedBinds[m].targetName)
            && (forall n, m :: n in s.binds && m in s.restrictedBinds ==> s.binds[n].targetName != s.restrictedBinds[m].targetName)
  {
    AdmissionSafety(requests);
    var s := Run(EMPTY, requests);
    assert forall n :: n in s.binds ==> BindKeys(s)[n] == s.binds[n].targetName;
    assert forall n :: n in s.restrictedBinds ==> RestrictedBindKeys(s)[n] == s.restrictedBinds[n].targetName;
  }

  lemma UniqueRolesMean(s: Store)
    requires UniqueRoles(s)
    ensures forall n, m :: n in s.roles && m in s.roles && n != m ==> !SameObject(s.roles[n].target, s.roles[m].target)
    ensures forall n, m :: n in s.restrictedRoles && m in s.restrictedRoles && n != m ==>
              !SameObject(s.restrictedRoles[n].target, s.restrictedRoles[m].target)
    ensures forall n, m :: n in s.roles && m in s.restrictedRoles ==> !SameObject(s.roles[n].target, s.restrictedRoles[m].target)
  {
    forall a: RoleTarget, b: RoleTarget { SameObjectIsCollision(a, b); }
    assert forall n :: n in s.roles ==> RoleKeys(s)[n] == Produced(s.roles[n].target);
    assert forall n :: n in s.restrictedRoles ==> RestrictedRoleKeys(s)[n] == Produced(s.restrictedRoles[n].target);
  }

  /** ... no two role definitions of either kind generate the same role ... */
  lemma ReachableRoles(requests: seq<Request>)
    ensures var s := Run(EMPTY, requests);
            && (forall n, m :: n in s.roles && m in s.roles && n != m ==> !SameObject(s.roles[n].target, s.roles[m].target))
            && (forall n, m :: n in s.restrictedRoles && m in s.restrictedRoles && n != m ==>
                  !SameObject(s.restrictedRoles[n].target, s.restrictedRoles[m].target))
            && (forall n, m :: n in s.roles && m in s.restrictedRoles ==> !SameObject(s.roles[n].target, s.restrictedRoles[m].target))
  {
    AdmissionSafety(requests);
    var s := Run(EMPTY, requests);
    UniqueRolesMean(s);
  }

  /** ... every policy a definition refers to exists and stays, and no two policies are assigned a common principal. */
  lemma ReachablePolicies(requests: seq<Request>)
    ensures var s := Run(EMPTY, requests);
            && (forall n :: n in s.restrictedBinds ==>
                  s.restrictedBinds[n].policyRef in s.policies && !s.policies[s.restrictedBinds[n].policyRef].deleting)
            && (forall n :: n in s.restrictedRoles ==>
                  s.restrictedRoles[n].policyRef in s.policies && !s.policies[s.restrictedRoles[n].policyRef].deleting)
            && (forall p, q :: p in s.policies && q in s.policies && p != q && s.policies[p].assignment.Some? && s.policies[q].assignment.Some? ==>
                  !Shared(s.policies[p].assignment.value, s.policies[q].assignment.value))
  {
    AdmissionSafety(requests);
    forall a: Assignment, b: Assignment { SharedIsOverlap(a, b); }
  }
}
