/** The admission validators of the five definition kinds as one store machine. Each validator sees the
    object in hand and paged lists; what the definitions guarantee together only shows over whole runs
    of serial admissions. */
module Admission {
  import opened Options
  import opened Paging
  import opened DefaultPolicy

  const CLUSTER_ROLE := "ClusterRole"
  const NAMESPACED_ROLE := "Role"

  /** The role a RoleDefinition or RestrictedRoleDefinition generates. */
  datatype RoleTarget = RoleTarget(kind: string, name: string, namespace: string)

  /** payload stands for the rest of the spec, which no cross-object check reads. */
  datatype BindDefinition = BindDefinition(targetName: string, payload: nat)
  datatype RestrictedBind = RestrictedBind(targetName: string, policyRef: string, payload: nat)
  datatype RoleDefinition = RoleDefinition(target: RoleTarget, payload: nat)
  datatype RestrictedRole = RestrictedRole(target: RoleTarget, policyRef: string, payload: nat)

  datatype Store = Store(
    binds: map<string, BindDefinition>,
    restrictedBinds: map<string, RestrictedBind>,
    roles: map<string, RoleDefinition>,
    restrictedRoles: map<string, RestrictedRole>,
    policies: map<string, Policy>)

  const EMPTY := Store(map[], map[], map[], map[], map[])

  // ---------------------------------------------------------------- conflicts on the store

  /** roleTargetCollision, for targets whose names already match. */
  predicate RoleTargetCollision(kind: string, namespace: string, otherKind: string, otherNamespace: string) {
    if kind != otherKind then false
    else if kind == CLUSTER_ROLE then true
    else namespace == otherNamespace
  }

  predicate Collides(a: RoleTarget, b: RoleTarget) {
    a.name == b.name && RoleTargetCollision(a.kind, a.namespace, b.kind, b.namespace)
  }

  /** The RBAC object a target denotes; the namespace of a ClusterRole is no part of it. */
  function Produced(t: RoleTarget): RoleTarget {
    if t.kind == CLUSTER_ROLE then t.(namespace := "") else t
  }

  /** Two targets collide exactly when they produce the same RBAC object. */
  lemma CollisionIsSameObject(a: RoleTarget, b: RoleTarget)
    ensures Collides(a, b) <==> Produced(a) == Produced(b)
  {
  }

  /** validateRoleTargetFields without the DNS label syntax. */
  predicate SupportedTarget(t: RoleTarget) {
    && (t.kind == CLUSTER_ROLE || t.kind == NAMESPACED_ROLE)
    && (t.kind == NAMESPACED_ROLE ==> t.namespace != "")
    && (t.kind == CLUSTER_ROLE ==> t.namespace == "")
    && t.name != ""
  }

  /** Target name of every definition, and generated object of every role definition. */
  function BindKeys(s: Store): map<string, string> {
    map n | n in s.binds :: s.binds[n].targetName
  }

  function RestrictedBindKeys(s: Store): map<string, string> {
    map n | n in s.restrictedBinds :: s.restrictedBinds[n].targetName
  }

  function RoleKeys(s: Store): map<string, RoleTarget> {
    map n | n in s.roles :: Produced(s.roles[n].target)
  }

  function RestrictedRoleKeys(s: Store): map<string, RoleTarget> {
    map n | n in s.restrictedRoles :: Produced(s.restrictedRoles[n].target)
  }

  /** No other entry of own and no entry of other carries the key. */
  predicate Free<K(==)>(own: map<string, K>, other: map<string, K>, name: string, key: K) {
    && (forall n :: n in own && n != name ==> own[n] != key)
    && (forall n :: n in other ==> other[n] != key)
  }

  predicate BindTargetFree(s: Store, name: string, target: string) {
    Free(BindKeys(s), RestrictedBindKeys(s), name, target)
  }

  predicate RestrictedBindTargetFree(s: Store, name: string, target: string) {
    Free(RestrictedBindKeys(s), BindKeys(s), name, target)
  }

  predicate RoleTargetFree(s: Store, name: string, target: RoleTarget) {
    Free(RoleKeys(s), RestrictedRoleKeys(s), name, Produced(target))
  }

  predicate RestrictedRoleTargetFree(s: Store, name: string, target: RoleTarget) {
    Free(RestrictedRoleKeys(s), RoleKeys(s), name, Produced(target))
  }

  /** validatePolicyRefExists. */
  predicate PolicyLive(s: Store, policy: string) {
    policy in s.policies && !s.policies[policy].deleting
  }

  predicate Unreferenced(s: Store, policy: string) {
    && (forall n :: n in s.restrictedBinds ==> s.restrictedBinds[n].policyRef != policy)
    && (forall n :: n in s.restrictedRoles ==> s.restrictedRoles[n].policyRef != policy)
  }

  predicate RequesterOk(s: Store, policy: string, req: Option<Requester>) {
    req.Some? ==> DefaultPolicyOk(s.policies, policy, req.value)
  }

  // ---------------------------------------------------------------- admission requests

  /** checks is the outcome of the validation that reads no other definition (subjects, selectors,
      impersonation specs, generated binding names); guarded tells whether a metadata-only update
      changes metadata that needs the default-policy check. */
  datatype BindRequest =
    | CreateBind(name: string, bind: BindDefinition, checks: bool)
    | UpdateBind(name: string, bind: BindDefinition, checks: bool, sameAnnotations: bool)
    | DeleteBind(name: string)
    | CreateRestrictedBind(name: string, rbind: RestrictedBind, checks: bool, req: Option<Requester>)
    | UpdateRestrictedBind(name: string, rbind: RestrictedBind, checks: bool, req: Option<Requester>, guarded: bool)
    | DeleteRestrictedBind(name: string)

  datatype RoleRequest =
    | CreateRole(name: string, role: RoleDefinition, checks: bool)
    | UpdateRole(name: string, role: RoleDefinition, checks: bool)
    | DeleteRole(name: string)
    | CreateRestrictedRole(name: string, rrole: RestrictedRole, checks: bool, req: Option<Requester>)
    | UpdateRestrictedRole(name: string, rrole: RestrictedRole, checks: bool, labelsOk: bool, req: Option<Requester>, guarded: bool)
    | DeleteRestrictedRole(name: string)

  datatype PolicyRequest =
    | CreatePolicy(name: string, assignment: Option<Assignment>, payload: nat, checks: bool)
    | UpdatePolicy(name: string, assignment: Option<Assignment>, payload: nat, checks: bool)
    | DeletePolicy(name: string, hasFinalizer: bool)
    | FinalizePolicy(name: string)

  datatype Request = OnBinds(bind: BindRequest) | OnRoles(role: RoleRequest) | OnPolicies(policy: PolicyRequest)

  /** What the API server itself ensures: creation uses a fresh name, the rest an existing one, and
      only an object that is being deleted disappears when its last finalizer goes. */
  predicate WellPosedBind(s: Store, r: BindRequest) {
    match r
    case CreateBind(n, _, _) => n !in s.binds
    case UpdateBind(n, _, _, _) => n in s.binds
    case DeleteBind(n) => n in s.binds
    case CreateRestrictedBind(n, _, _, _) => n !in s.restrictedBinds
    case UpdateRestrictedBind(n, _, _, _, _) => n in s.restrictedBinds
    case DeleteRestrictedBind(n) => n in s.restrictedBinds
  }

  predicate WellPosedRole(s: Store, r: RoleRequest) {
    match r
    case CreateRole(n, _, _) => n !in s.roles
    case UpdateRole(n, _, _) => n in s.roles
    case DeleteRole(n) => n in s.roles
    case CreateRestrictedRole(n, _, _, _) => n !in s.restrictedRoles
    case UpdateRestrictedRole(n, _, _, _, _, _) => n in s.restrictedRoles
    case DeleteRestrictedRole(n) => n in s.restrictedRoles
  }

  predicate WellPosedPolicy(s: Store, r: PolicyRequest) {
    match r
    case CreatePolicy(n, _, _, _) => n !in s.policies && n != ""
    case UpdatePolicy(n, _, _, _) => n in s.policies
    case DeletePolicy(n, _) => n in s.policies
    case FinalizePolicy(n) => n in s.policies && s.policies[n].deleting
  }

  predicate WellPosed(s: Store, r: Request) {
    match r
    case OnBinds(b) => WellPosedBind(s, b)
    case OnRoles(d) => WellPosedRole(s, d)
    case OnPolicies(p) => WellPosedPolicy(s, p)
  }

  ghost predicate NoOverlapIn(s: Store, name: string, assignment: Option<Assignment>) {
    assignment.Some? ==> NoOverlap(s.policies, name, assignment.value)
  }

  /** The verdict of the validators, read off the store. */
  ghost predicate AdmitsBind(s: Store, r: BindRequest)
    requires WellPosedBind(s, r)
  {
    match r
    case CreateBind(n, b, checks) => checks && BindTargetFree(s, n, b.targetName)
    case UpdateBind(n, b, checks, sameAnnotations) =>
      && s.binds[n].targetName == b.targetName
      && ((s.binds[n] == b && sameAnnotations) || (checks && BindTargetFree(s, n, b.targetName)))
    case CreateRestrictedBind(n, b, checks, req) =>
      checks && RestrictedBindTargetFree(s, n, b.targetName) && PolicyLive(s, b.policyRef) && RequesterOk(s, b.policyRef, req)
    case UpdateRestrictedBind(n, b, checks, req, guarded) =>
      if s.restrictedBinds[n] == b then guarded ==> RequesterOk(s, b.policyRef, req)
      else
        && s.restrictedBinds[n].targetName == b.targetName && s.restrictedBinds[n].policyRef == b.policyRef
        && checks && RestrictedBindTargetFree(s, n, b.targetName)
        && PolicyLive(s, b.policyRef) && RequesterOk(s, b.policyRef, req)
    case DeleteBind(_) => true
    case DeleteRestrictedBind(_) => true
  }

  ghost predicate AdmitsRole(s: Store, r: RoleRequest)
    requires WellPosedRole(s, r)
  {
    match r
    case CreateRole(n, d, checks) => SupportedTarget(d.target) && checks && RoleTargetFree(s, n, d.target)
    case UpdateRole(n, d, checks) =>
      s.roles[n].target == d.target && SupportedTarget(d.target) && checks && RoleTargetFree(s, n, d.target)
    case CreateRestrictedRole(n, d, checks, req) =>
      && SupportedTarget(d.target) && checks && RestrictedRoleTargetFree(s, n, d.target)
      && PolicyLive(s, d.policyRef) && RequesterOk(s, d.policyRef, req)
    case UpdateRestrictedRole(n, d, checks, labelsOk, req, guarded) =>
      && (d.target.kind == CLUSTER_ROLE ==> labelsOk)
      && if s.restrictedRoles[n] == d then guarded ==> RequesterOk(s, d.policyRef, req)
         else
           && s.restrictedRoles[n].target == d.target && s.restrictedRoles[n].policyRef == d.policyRef
           && SupportedTarget(d.target) && checks && RestrictedRoleTargetFree(s, n, d.target)
           && PolicyLive(s, d.policyRef) && RequesterOk(s, d.policyRef, req)
    case DeleteRole(_) => true
    case DeleteRestrictedRole(_) => true
  }

  ghost predicate AdmitsPolicy(s: Store, r: PolicyRequest)
    requires WellPosedPolicy(s, r)
  {
    match r
    case CreatePolicy(n, a, _, checks) => checks && NoOverlapIn(s, n, a)
    case UpdatePolicy(n, a, _, checks) => checks && NoOverlapIn(s, n, a)
    case DeletePolicy(n, _) => Unreferenced(s, n)
    case FinalizePolicy(_) => true
  }

  ghost predicate Admits(s: Store, r: Request)
    requires WellPosed(s, r)
  {
    match r
    case OnBinds(b) => AdmitsBind(s, b)
    case OnRoles(d) => AdmitsRole(s, d)
    case OnPolicies(p) => AdmitsPolicy(s, p)
  }

  /** The effect of an admitted request. A policy with a finalizer is first marked as being deleted. */
  function EffectBind(s: Store, r: BindRequest): Store
    requires WellPosedBind(s, r)
  {
    match r
    case CreateBind(n, b, _) => s.(binds := s.binds[n := b])
    case UpdateBind(n, b, _, _) => s.(binds := s.binds[n := b])
    case DeleteBind(n) => s.(binds := s.binds - {n})
    case CreateRestrictedBind(n, b, _, _) => s.(restrictedBinds := s.restrictedBinds[n := b])
    case UpdateRestrictedBind(n, b, _, _, _) => s.(restrictedBinds := s.restrictedBinds[n := b])
    case DeleteRestrictedBind(n) => s.(restrictedBinds := s.restrictedBinds - {n})
  }

  function EffectRole(s: Store, r: RoleRequest): Store
    requires WellPosedRole(s, r)
  {
    match r
    case CreateRole(n, d, _) => s.(roles := s.roles[n := d])
    case UpdateRole(n, d, _) => s.(roles := s.roles[n := d])
    case DeleteRole(n) => s.(roles := s.roles - {n})
    case CreateRestrictedRole(n, d, _, _) => s.(restrictedRoles := s.restrictedRoles[n := d])
    case UpdateRestrictedRole(n, d, _, _, _, _) => s.(restrictedRoles := s.restrictedRoles[n := d])
    case DeleteRestrictedRole(n) => s.(restrictedRoles := s.restrictedRoles - {n})
  }

  function EffectPolicy(s: Store, r: PolicyRequest): Store
    requires WellPosedPolicy(s, r)
  {
    match r
    case CreatePolicy(n, a, payload, _) => s.(policies := s.policies[n := Policy(a, false, payload)])
    case UpdatePolicy(n, a, payload, _) => s.(policies := s.policies[n := Policy(a, s.policies[n].deleting, payload)])
    case DeletePolicy(n, hasFinalizer) =>
      if hasFinalizer then s.(policies := s.policies[n := s.policies[n].(deleting := true)])
      else s.(policies := s.policies - {n})
    case FinalizePolicy(n) => s.(policies := s.policies - {n})
  }

  function Effect(s: Store, r: Request): Store
    requires WellPosed(s, r)
  {
    match r
    case OnBinds(b) => EffectBind(s, b)
    case OnRoles(d) => EffectRole(s, d)
    case OnPolicies(p) => EffectPolicy(s, p)
  }

  // ---------------------------------------------------------------- the validators over paged lists

  /** A consistent paged read of the store; the field index on policies may be missing. */
  datatype Reader = Reader(
    binds: Pages<BindDefinition>,
    restrictedBinds: Pages<RestrictedBind>,
    roles: Pages<RoleDefinition>,
    restrictedRoles: Pages<RestrictedRole>,
    policies: Pages<Policy>,
    indexedPolicies: Option<Pages<Policy>>)

  ghost predicate Reads(rd: Reader, s: Store) {
    && Lists(rd.binds, s.binds)
    && Lists(rd.restrictedBinds, s.restrictedBinds)
    && Lists(rd.roles, s.roles)
    && Lists(rd.restrictedRoles, s.restrictedRoles)
    && Lists(rd.policies, s.policies)
    && (rd.indexedPolicies.Some? ==> Lists(rd.indexedPolicies.value, Indexed(s.policies)))
    && "" !in s.policies
  }

  /** The two conflict searches of a validator over the lists of both kinds: they find nothing exactly
      when the key is free, for any hit tests that compare keys. */
  method SearchBoth<T, U, K(==)>(
      own: Pages<T>, hit: (string, T) -> bool, other: Pages<U>, hitOther: U -> bool,
      ghost ownStore: map<string, T>, ghost otherStore: map<string, U>,
      ghost ownKeys: map<string, K>, ghost otherKeys: map<string, K>, ghost name: string, ghost key: K)
    returns (free: bool)
    requires Lists(own, ownStore) && Lists(other, otherStore)
    requires ownKeys.Keys == ownStore.Keys && otherKeys.Keys == otherStore.Keys
    requires forall n :: n in ownStore ==> (hit(n, ownStore[n]) <==> n != name && ownKeys[n] == key)
    requires forall n :: n in otherStore ==> (hitOther(otherStore[n]) <==> otherKeys[n] == key)
    ensures free <==> Free(ownKeys, otherKeys, name, key)
  {
    var same := FindFirst(own, hit, ownStore);
    if same.Some? {
      assert ownKeys[same.value.name] == key;
      return false;
    }
    var cross := FindFirst(other, (n: string, o: U) => hitOther(o), otherStore);
    if cross.Some? {
      assert otherKeys[cross.value.name] == key;
      return false;
    }
    return true;
  }

  method ValidateBind(rd: Reader, s: Store, name: string, prior: Option<BindDefinition>, bind: BindDefinition, checks: bool, sameAnnotations: bool)
    returns (accepted: bool)
    requires Reads(rd, s)
    requires if prior.Some? then name in s.binds && s.binds[name] == prior.value else name !in s.binds
    ensures accepted <==> AdmitsBind(s, if prior.Some? then UpdateBind(name, bind, checks, sameAnnotations) else CreateBind(name, bind, checks))
  {
    if prior.Some? {
      if prior.value.targetName != bind.targetName {
        return false;
      }
      if prior.value == bind && sameAnnotations {
        return true;
      }
    }
    if !checks {
      return false;
    }
    accepted := SearchBoth(
      rd.binds, (n: string, o: BindDefinition) => o.targetName == bind.targetName && n != name,
      rd.restrictedBinds, (o: RestrictedBind) => o.targetName == bind.targetName,
      s.binds, s.restrictedBinds, BindKeys(s), RestrictedBindKeys(s), name, bind.targetName);
  }

  method ValidateRestrictedBind(
      rd: Reader, s: Store, name: string, prior: Option<RestrictedBind>, bind: RestrictedBind,
      checks: bool, req: Option<Requester>, guarded: bool)
    returns (accepted: bool)
    requires Reads(rd, s)
    requires if prior.Some? then name in s.restrictedBinds && s.restrictedBinds[name] == prior.value else name !in s.restrictedBinds
    ensures accepted <==> AdmitsBind(s,
        if prior.Some? then UpdateRestrictedBind(name, bind, checks, req, guarded) else CreateRestrictedBind(name, bind, checks, req))
  {
    if prior.Some? {
      if prior.value == bind {
        if !guarded {
          return true;
        }
        accepted := ValidateDefaultPolicy(req, bind.policyRef, rd.indexedPolicies, rd.policies, s.policies);
        return;
      }
      if prior.value.targetName != bind.targetName || prior.value.policyRef != bind.policyRef {
        return false;
      }
    }
    var free := SearchBoth(
      rd.restrictedBinds, (n: string, o: RestrictedBind) => o.targetName == bind.targetName && n != name,
      rd.binds, (o: BindDefinition) => o.targetName == bind.targetName,
      s.restrictedBinds, s.binds, RestrictedBindKeys(s), BindKeys(s), name, bind.targetName);
    if !free || !checks {
      return false;
    }
    if bind.policyRef !in s.policies || s.policies[bind.policyRef].deleting {
      return false;
    }
    accepted := ValidateDefaultPolicy(req, bind.policyRef, rd.indexedPolicies, rd.policies, s.policies);
  }

  method ValidateRole(rd: Reader, s: Store, name: string, prior: Option<RoleDefinition>, role: RoleDefinition, checks: bool)
    returns (accepted: bool)
    requires Reads(rd, s)
    requires if prior.Some? then name in s.roles && s.roles[name] == prior.value else name !in s.roles
    ensures accepted <==> AdmitsRole(s, if prior.Some? then UpdateRole(name, role, checks) else CreateRole(name, role, checks))
  {
    if prior.Some? && prior.value.target != role.target {
      return false;
    }
    if !SupportedTarget(role.target) || !checks {
      return false;
    }
    forall t: RoleTarget { CollisionIsSameObject(role.target, t); }
    accepted := SearchBoth(
      rd.roles, (n: string, o: RoleDefinition) => n != name && Collides(role.target, o.target),
      rd.restrictedRoles, (o: RestrictedRole) => Collides(role.target, o.target),
      s.roles, s.restrictedRoles, RoleKeys(s), RestrictedRoleKeys(s), name, Produced(role.target));
  }

  method SearchRestrictedRoleTarget(rd: Reader, ghost s: Store, name: string, target: RoleTarget) returns (free: bool)
    requires Reads(rd, s)
    ensures free <==> RestrictedRoleTargetFree(s, name, target)
  {
    forall t: RoleTarget { CollisionIsSameObject(target, t); }
    free := SearchBoth(
      rd.restrictedRoles, (n: string, o: RestrictedRole) => n != name && Collides(target, o.target),
      rd.roles, (o: RoleDefinition) => Collides(target, o.target),
      s.restrictedRoles, s.roles, RestrictedRoleKeys(s), RoleKeys(s), name, Produced(target));
  }

  method ValidateRestrictedRole(
      rd: Reader, s: Store, name: string, prior: Option<RestrictedRole>, role: RestrictedRole,
      checks: bool, labelsOk: bool, req: Option<Requester>, guarded: bool)
    returns (accepted: bool)
    requires Reads(rd, s)
    requires if prior.Some? then name in s.restrictedRoles && s.restrictedRoles[name] == prior.value else name !in s.restrictedRoles
    ensures accepted <==> AdmitsRole(s,
        if prior.Some? then UpdateRestrictedRole(name, role, checks, labelsOk, req, guarded)
        else CreateRestrictedRole(name, role, checks, req))
  {
    if prior.Some? {
      if role.target.kind == CLUSTER_ROLE && !labelsOk {
        return false;
      }
      if prior.value == role {
        if !guarded {
          return true;
        }
        accepted := ValidateDefaultPolicy(req, role.policyRef, rd.indexedPolicies, rd.policies, s.policies);
        return;
      }
      if prior.value.target != role.target || prior.value.policyRef != role.policyRef {
        return false;
      }
    }
    if !SupportedTarget(role.target) {
      return false;
    }
    var free := SearchRestrictedRoleTarget(rd, s, name, role.target);
    if !free || !checks {
      return false;
    }
    if role.policyRef !in s.policies || s.policies[role.policyRef].deleting {
      return false;
    }
    accepted := ValidateDefaultPolicy(req, role.policyRef, rd.indexedPolicies, rd.policies, s.policies);
  }

  method ValidatePolicy(rd: Reader, s: Store, name: string, assignment: Option<Assignment>, payload: nat, checks: bool)
    returns (accepted: bool)
    requires Reads(rd, s) && name != ""
    ensures accepted <==> AdmitsPolicy(s,
        if name in s.policies then UpdatePolicy(name, assignment, payload, checks) else CreatePolicy(name, assignment, payload, checks))
  {
    if !checks {
      return false;
    }
    accepted := ValidateNoOverlap(name, assignment, rd.policies, s.policies);
  }

  method ValidatePolicyDelete(rd: Reader, s: Store, name: string, hasFinalizer: bool) returns (accepted: bool)
    requires Reads(rd, s) && name in s.policies
    ensures accepted <==> AdmitsPolicy(s, DeletePolicy(name, hasFinalizer))
  {
    var b := FindFirst(rd.restrictedBinds, (n: string, o: RestrictedBind) => o.policyRef == name, s.restrictedBinds);
    if b.Some? {
      return false;
    }
    var r := FindFirst(rd.restrictedRoles, (n: string, o: RestrictedRole) => o.policyRef == name, s.restrictedRoles);
    return r.None?;
  }

  // ---------------------------------------------------------------- what every store guarantees

  /** Within and across the two kinds, no key is used twice. */
  ghost predicate UniqueKeys<K>(f: map<string, K>, g: map<string, K>) {
    && (forall n, m :: n in f && m in f && n != m ==> f[n] != f[m])
    && (forall n, m :: n in g && m in g && n != m ==> g[n] != g[m])
    && (forall n, m :: n in f && m in g ==> f[n] != g[m])
  }

  lemma UniquePut<K>(f: map<string, K>, g: map<string, K>, n: string, k: K)
    requires UniqueKeys(f, g)
    ensures UniqueKeys(f[n := k], g) <==> Free(f, g, n, k)
    ensures UniqueKeys(g, f[n := k]) <==> Free(f, g, n, k)
    ensures n in f && f[n] == k ==> Free(f, g, n, k)
  {
    var h := f[n := k];
    if UniqueKeys(h, g) || UniqueKeys(g, h) {
      forall m | m in f && m != n ensures f[m] != k { assert h[m] == f[m] && h[n] == k; }
      forall m | m in g ensures g[m] != k { assert h[n] == k; }
    }
  }

  lemma UniqueDrop<K>(f: map<string, K>, g: map<string, K>, n: string)
    requires UniqueKeys(f, g)
    ensures UniqueKeys(f - {n}, g) && UniqueKeys(f, g - {n})
  {
  }

  ghost predicate UniqueBindTargets(s: Store) {
    UniqueKeys(BindKeys(s), RestrictedBindKeys(s))
  }

  ghost predicate UniqueRoles(s: Store) {
    UniqueKeys(RoleKeys(s), RestrictedRoleKeys(s))
  }

  predicate ReferencesLive(s: Store) {
    && (forall n :: n in s.restrictedBinds ==> PolicyLive(s, s.restrictedBinds[n].policyRef))
    && (forall n :: n in s.restrictedRoles ==> PolicyLive(s, s.restrictedRoles[n].policyRef))
  }

  ghost predicate Guaranteed(s: Store) {
    && UniqueBindTargets(s)
    && UniqueRoles(s)
    && ReferencesLive(s)
    && AssignmentsDisjoint(s.policies)
    && "" !in s.policies
  }

  lemma NewAssignmentDisjoint(policies: map<string, Policy>, name: string, p: Policy)
    requires AssignmentsDisjoint(policies)
    ensures AssignmentsDisjoint(policies[name := p]) <==> (p.assignment.Some? ==> NoOverlap(policies, name, p.assignment.value))
  {
    var after := policies[name := p];
    if p.assignment.Some? && NoOverlap(policies, name, p.assignment.value) {
      forall a, b | a in after && b in after && a != b && after[a].assignment.Some? && after[b].assignment.Some?
        ensures Disjoint(after[a].assignment.value, after[b].assignment.value)
      {
        if b == name {
          assert Disjoint(p.assignment.value, policies[a].assignment.value);
        }
      }
    }
    if p.assignment.Some? && AssignmentsDisjoint(after) {
      forall q | q in policies && q != name && policies[q].assignment.Some?
        ensures Disjoint(p.assignment.value, policies[q].assignment.value)
      {
        assert after[q] == policies[q] && after[name] == p;
      }
    }
  }

  lemma DroppedStayDisjoint(policies: map<string, Policy>, n: string)
    requires AssignmentsDisjoint(policies)
    ensures AssignmentsDisjoint(policies - {n})
    ensures n in policies ==> AssignmentsDisjoint(policies[n := policies[n].(deleting := true)])
  {
  }

  lemma PolicyEffectKeepsPolicies(s: Store, r: PolicyRequest)
    requires AssignmentsDisjoint(s.policies) && "" !in s.policies && WellPosedPolicy(s, r) && AdmitsPolicy(s, r)
    ensures AssignmentsDisjoint(EffectPolicy(s, r).policies) && "" !in EffectPolicy(s, r).policies
  {
    match r
    case CreatePolicy(n, a, payload, _) => NewAssignmentDisjoint(s.policies, n, Policy(a, false, payload));
    case UpdatePolicy(n, a, payload, _) => NewAssignmentDisjoint(s.policies, n, Policy(a, s.policies[n].deleting, payload));
    case DeletePolicy(n, _) => DroppedStayDisjoint(s.policies, n);
    case FinalizePolicy(n) => DroppedStayDisjoint(s.policies, n);
  }

  /** Requests touch only the objects of their own kinds. */
  lemma BindIsLocal(s: Store, r: BindRequest)
    requires WellPosedBind(s, r)
    ensures var t := EffectBind(s, r); t.roles == s.roles && t.restrictedRoles == s.restrictedRoles && t.policies == s.policies
  {
  }

  lemma RoleIsLocal(s: Store, r: RoleRequest)
    requires WellPosedRole(s, r)
    ensures var t := EffectRole(s, r); t.binds == s.binds && t.restrictedBinds == s.restrictedBinds && t.policies == s.policies
  {
  }

  lemma PolicyIsLocal(s: Store, r: PolicyRequest)
    requires WellPosedPolicy(s, r)
    ensures var t := EffectPolicy(s, r);
            t.binds == s.binds && t.restrictedBinds == s.restrictedBinds && t.roles == s.roles && t.restrictedRoles == s.restrictedRoles
  {
  }

  lemma EffectIsLocal(s: Store, r: Request)
    requires WellPosed(s, r)
    ensures !r.OnBinds? ==> Effect(s, r).binds == s.binds && Effect(s, r).restrictedBinds == s.restrictedBinds
    ensures !r.OnRoles? ==> Effect(s, r).roles == s.roles && Effect(s, r).restrictedRoles == s.restrictedRoles
    ensures !r.OnPolicies? ==> Effect(s, r).policies == s.policies
  {
    match r
    case OnBinds(b) => BindIsLocal(s, b);
    case OnRoles(d) => RoleIsLocal(s, d);
    case OnPolicies(p) => PolicyIsLocal(s, p);
  }

  lemma EffectKeepsPolicies(s: Store, r: Request)
    requires AssignmentsDisjoint(s.policies) && "" !in s.policies && WellPosed(s, r) && Admits(s, r)
    ensures AssignmentsDisjoint(Effect(s, r).policies) && "" !in Effect(s, r).policies
  {
    EffectIsLocal(s, r);
    if r.OnPolicies? {
      PolicyEffectKeepsPolicies(s, r.policy);
    }
  }

  lemma PutBind(s: Store, n: string, b: BindDefinition)
    requires UniqueBindTargets(s)
    requires BindTargetFree(s, n, b.targetName) || (n in s.binds && s.binds[n].targetName == b.targetName)
    ensures UniqueBindTargets(s.(binds := s.binds[n := b]))
  {
    assert BindKeys(s.(binds := s.binds[n := b])) == BindKeys(s)[n := b.targetName];
    UniquePut(BindKeys(s), RestrictedBindKeys(s), n, b.targetName);
  }

  lemma PutRestrictedBind(s: Store, n: string, b: RestrictedBind)
    requires UniqueBindTargets(s)
    requires RestrictedBindTargetFree(s, n, b.targetName) || (n in s.restrictedBinds && s.restrictedBinds[n].targetName == b.targetName)
    ensures UniqueBindTargets(s.(restrictedBinds := s.restrictedBinds[n := b]))
  {
    assert RestrictedBindKeys(s.(restrictedBinds := s.restrictedBinds[n := b])) == RestrictedBindKeys(s)[n := b.targetName];
    UniquePut(RestrictedBindKeys(s), BindKeys(s), n, b.targetName);
  }

  lemma DropBinds(s: Store, n: string)
    requires UniqueBindTargets(s)
    ensures UniqueBindTargets(s.(binds := s.binds - {n})) && UniqueBindTargets(s.(restrictedBinds := s.restrictedBinds - {n}))
  {
    assert BindKeys(s.(binds := s.binds - {n})) == BindKeys(s) - {n};
    assert RestrictedBindKeys(s.(restrictedBinds := s.restrictedBinds - {n})) == RestrictedBindKeys(s) - {n};
    UniqueDrop(BindKeys(s), RestrictedBindKeys(s), n);
  }

  lemma BindEffectKeepsBinds(s: Store, r: BindRequest)
    requires UniqueBindTargets(s) && WellPosedBind(s, r) && AdmitsBind(s, r)
    ensures UniqueBindTargets(EffectBind(s, r))
  {
    match r
    case CreateBind(n, b, _) => PutBind(s, n, b);
    case UpdateBind(n, b, _, _) => PutBind(s, n, b);
    case DeleteBind(n) => DropBinds(s, n);
    case CreateRestrictedBind(n, b, _, _) => PutRestrictedBind(s, n, b);
    case UpdateRestrictedBind(n, b, _, _, _) => PutRestrictedBind(s, n, b);
    case DeleteRestrictedBind(n) => DropBinds(s, n);
  }

  lemma SameBindTargets(s: Store, t: Store)
    requires s.binds == t.binds && s.restrictedBinds == t.restrictedBinds
    ensures UniqueBindTargets(s) <==> UniqueBindTargets(t)
  {
    assert BindKeys(s) == BindKeys(t) && RestrictedBindKeys(s) == RestrictedBindKeys(t);
  }

  lemma EffectKeepsBinds(s: Store, r: Request)
    requires UniqueBindTargets(s) && WellPosed(s, r) && Admits(s, r)
    ensures UniqueBindTargets(Effect(s, r))
  {
    EffectIsLocal(s, r);
    if r.OnBinds? {
      BindEffectKeepsBinds(s, r.bind);
    } else {
      SameBindTargets(s, Effect(s, r));
    }
  }

  lemma PutRole(s: Store, n: string, d: RoleDefinition)
    requires UniqueRoles(s)
    requires RoleTargetFree(s, n, d.target) || (n in s.roles && s.roles[n].target == d.target)
    ensures UniqueRoles(s.(roles := s.roles[n := d]))
  {
    assert RoleKeys(s.(roles := s.roles[n := d])) == RoleKeys(s)[n := Produced(d.target)];
    UniquePut(RoleKeys(s), RestrictedRoleKeys(s), n, Produced(d.target));
  }

  lemma PutRestrictedRole(s: Store, n: string, d: RestrictedRole)
    requires UniqueRoles(s)
    requires RestrictedRoleTargetFree(s, n, d.target) || (n in s.restrictedRoles && s.restrictedRoles[n].target == d.target)
    ensures UniqueRoles(s.(restrictedRoles := s.restrictedRoles[n := d]))
  {
    assert RestrictedRoleKeys(s.(restrictedRoles := s.restrictedRoles[n := d])) == RestrictedRoleKeys(s)[n := Produced(d.target)];
    UniquePut(RestrictedRoleKeys(s), RoleKeys(s), n, Produced(d.target));
  }

  lemma DropRoles(s: Store, n: string)
    requires UniqueRoles(s)
    ensures UniqueRoles(s.(roles := s.roles - {n})) && UniqueRoles(s.(restrictedRoles := s.restrictedRoles - {n}))
  {
    assert RoleKeys(s.(roles := s.roles - {n})) == RoleKeys(s) - {n};
    assert RestrictedRoleKeys(s.(restrictedRoles := s.restrictedRoles - {n})) == RestrictedRoleKeys(s) - {n};
    UniqueDrop(RoleKeys(s), RestrictedRoleKeys(s), n);
  }

  lemma RoleEffectKeepsRoles(s: Store, r: RoleRequest)
    requires UniqueRoles(s) && WellPosedRole(s, r) && AdmitsRole(s, r)
    ensures UniqueRoles(EffectRole(s, r))
  {
    match r
    case CreateRole(n, d, _) => PutRole(s, n, d);
    case UpdateRole(n, d, _) => PutRole(s, n, d);
    case DeleteRole(n) => DropRoles(s, n);
    case CreateRestrictedRole(n, d, _, _) => PutRestrictedRole(s, n, d);
    case UpdateRestrictedRole(n, d, _, _, _, _) => PutRestrictedRole(s, n, d);
    case DeleteRestrictedRole(n) => DropRoles(s, n);
  }

  lemma SameRoles(s: Store, t: Store)
    requires s.roles == t.roles && s.restrictedRoles == t.restrictedRoles
    ensures UniqueRoles(s) <==> UniqueRoles(t)
  {
    assert RoleKeys(s) == RoleKeys(t) && RestrictedRoleKeys(s) == RestrictedRoleKeys(t);
  }

  lemma EffectKeepsRoles(s: Store, r: Request)
    requires UniqueRoles(s) && WellPosed(s, r) && Admits(s, r)
    ensures UniqueRoles(Effect(s, r))
  {
    EffectIsLocal(s, r);
    if r.OnRoles? {
      RoleEffectKeepsRoles(s, r.role);
    } else {
      SameRoles(s, Effect(s, r));
    }
  }

  /** Policies may only go while nothing refers to them. */
  lemma GoneUnreferenced(s: Store, policies: map<string, Policy>, gone: string)
    requires ReferencesLive(s) && Unreferenced(s, gone)
    requires forall p :: p in s.policies && p != gone ==> p in policies && policies[p] == s.policies[p]
    ensures ReferencesLive(s.(policies := policies))
  {
  }

  lemma LiveReferencesStay(s: Store, after: Store)
    requires ReferencesLive(s) && forall p :: PolicyLive(s, p) ==> PolicyLive(after, p)
    requires forall n :: n in after.restrictedBinds ==>
               (n in s.restrictedBinds && after.restrictedBinds[n] == s.restrictedBinds[n]) || PolicyLive(after, after.restrictedBinds[n].policyRef)
    requires forall n :: n in after.restrictedRoles ==>
               (n in s.restrictedRoles && after.restrictedRoles[n] == s.restrictedRoles[n]) || PolicyLive(after, after.restrictedRoles[n].policyRef)
    ensures ReferencesLive(after)
  {
  }

  lemma BindEffectKeepsReferences(s: Store, r: BindRequest)
    requires ReferencesLive(s) && WellPosedBind(s, r) && AdmitsBind(s, r)
    ensures ReferencesLive(EffectBind(s, r))
  {
    if r.UpdateRestrictedBind? {
      assert PolicyLive(s, s.restrictedBinds[r.name].policyRef);
    }
    LiveReferencesStay(s, EffectBind(s, r));
  }

  lemma RoleEffectKeepsReferences(s: Store, r: RoleRequest)
    requires ReferencesLive(s) && WellPosedRole(s, r) && AdmitsRole(s, r)
    ensures ReferencesLive(EffectRole(s, r))
  {
    if r.UpdateRestrictedRole? {
      assert PolicyLive(s, s.restrictedRoles[r.name].policyRef);
    }
    LiveReferencesStay(s, EffectRole(s, r));
  }

  lemma PolicyEffectKeepsReferences(s: Store, r: PolicyRequest)
    requires ReferencesLive(s) && WellPosedPolicy(s, r) && AdmitsPolicy(s, r)
    ensures ReferencesLive(EffectPolicy(s, r))
  {
    match r
    case DeletePolicy(n, _) => GoneUnreferenced(s, EffectPolicy(s, r).policies, n);
    case FinalizePolicy(n) => GoneUnreferenced(s, EffectPolicy(s, r).policies, n);
    case _ => LiveReferencesStay(s, EffectPolicy(s, r));
  }

  lemma EffectKeepsReferences(s: Store, r: Request)
    requires ReferencesLive(s) && WellPosed(s, r) && Admits(s, r)
    ensures ReferencesLive(Effect(s, r))
  {
    match r
    case OnBinds(b) => BindEffectKeepsReferences(s, b);
    case OnRoles(d) => RoleEffectKeepsReferences(s, d);
    case OnPolicies(p) => PolicyEffectKeepsReferences(s, p);
  }

  lemma EffectKeepsGuarantees(s: Store, r: Request)
    requires Guaranteed(s) && WellPosed(s, r) && Admits(s, r)
    ensures Guaranteed(Effect(s, r))
  {
    EffectKeepsBinds(s, r);
    EffectKeepsRoles(s, r);
    EffectKeepsReferences(s, r);
    EffectKeepsPolicies(s, r);
  }

  /** A rejected or ill-posed request leaves the store alone. */
  ghost function Run(s: Store, requests: seq<Request>): Store
    decreases |requests|
  {
    if requests == [] then s
    else
      var r := requests[0];
      Run(if WellPosed(s, r) && Admits(s, r) then Effect(s, r) else s, requests[1..])
  }

  lemma {:induction false} RunKeepsGuarantees(s: Store, requests: seq<Request>)
    requires Guaranteed(s)
    ensures Guaranteed(Run(s, requests))
    decreases |requests|
  {
    if requests != [] {
      var r := requests[0];
      if WellPosed(s, r) && Admits(s, r) {
        EffectKeepsGuarantees(s, r);
        RunKeepsGuarantees(Effect(s, r), requests[1..]);
      } else {
        RunKeepsGuarantees(s, requests[1..]);
      }
    }
  }

  /** Every reachable store: target names are used once, no role is generated twice, no restricted
      definition points at a missing or disappearing policy, and default assignments are disjoint. */
  lemma AdmissionSafety(requests: seq<Request>)
    ensures UniqueBindTargets(Run(EMPTY, requests))
    ensures UniqueRoles(Run(EMPTY, requests))
    ensures ReferencesLive(Run(EMPTY, requests))
    ensures AssignmentsDisjoint(Run(EMPTY, requests).policies)
  {
    RunKeepsGuarantees(EMPTY, requests);
  }

  /** In every reachable store, a requester that two policies claim holds a principal of each. */
  lemma ReachableClaims(requests: seq<Request>, p: string, q: string, req: Requester) returns (a: Principal, b: Principal)
    requires p != q
    requires p in MatchedPolicies(Run(EMPTY, requests).policies, req)
    requires q in MatchedPolicies(Run(EMPTY, requests).policies, req)
    ensures a != b && {a, b} <= Principals(req)
    ensures a in Assigned(Run(EMPTY, requests).policies[p].assignment.value)
    ensures b in Assigned(Run(EMPTY, requests).policies[q].assignment.value)
  {
    AdmissionSafety(requests);
    a, b := TwoPoliciesNeedTwoPrincipals(Run(EMPTY, requests).policies, p, q, req);
  }

  /** Requests decided by nothing but other definitions. */
  predicate OnlyCrossObjectGuards(r: Request) {
    match r
    case OnBinds(CreateBind(_, _, checks)) => checks
    case OnBinds(CreateRestrictedBind(_, _, checks, req)) => checks && req.None?
    case OnRoles(CreateRole(_, d, checks)) => checks && SupportedTarget(d.target)
    case OnRoles(CreateRestrictedRole(_, d, checks, req)) => checks && req.None? && SupportedTarget(d.target)
    case OnPolicies(CreatePolicy(_, _, _, checks)) => checks
    case OnPolicies(UpdatePolicy(_, _, _, checks)) => checks
    case OnPolicies(DeletePolicy(_, _)) => true
    case _ => false
  }

  /** The cross-object guards reject no more than they must: creating a definition, assigning a policy
      and deleting a policy are admitted exactly when the store they lead to keeps its guarantees. */
  lemma GuardsAreExact(s: Store, r: Request)
    requires Guaranteed(s) && WellPosed(s, r)
    requires OnlyCrossObjectGuards(r)
    ensures Admits(s, r) <==> Guaranteed(Effect(s, r))
  {
    if Admits(s, r) {
      EffectKeepsGuarantees(s, r);
    } else {
      RejectionIsNeeded(s, r);
    }
  }

  lemma RejectionIsNeeded(s: Store, r: Request)
    requires Guaranteed(s) && WellPosed(s, r) && !Admits(s, r) && OnlyCrossObjectGuards(r)
    ensures !Guaranteed(Effect(s, r))
  {
    match r
    case OnBinds(CreateBind(n, b, _)) => RejectedBind(s, n, b);
    case OnBinds(CreateRestrictedBind(n, b, _, _)) => RejectedRestrictedBind(s, n, b);
    case OnRoles(CreateRole(n, d, _)) => RejectedRole(s, n, d);
    case OnRoles(CreateRestrictedRole(n, d, _, _)) => RejectedRestrictedRole(s, n, d);
    case OnPolicies(CreatePolicy(n, a, payload, _)) => NewAssignmentDisjoint(s.policies, n, Policy(a, false, payload));
    case OnPolicies(UpdatePolicy(n, a, payload, _)) => NewAssignmentDisjoint(s.policies, n, Policy(a, s.policies[n].deleting, payload));
    case OnPolicies(DeletePolicy(n, _)) =>
      assert !PolicyLive(Effect(s, r), n);
      assert !Unreferenced(Effect(s, r), n);
  }

  lemma RejectedBind(s: Store, n: string, b: BindDefinition)
    requires UniqueBindTargets(s) && n !in s.binds && !BindTargetFree(s, n, b.targetName)
    ensures !UniqueBindTargets(s.(binds := s.binds[n := b]))
  {
    assert BindKeys(s.(binds := s.binds[n := b])) == BindKeys(s)[n := b.targetName];
    UniquePut(BindKeys(s), RestrictedBindKeys(s), n, b.targetName);
  }

  lemma RejectedRestrictedBind(s: Store, n: string, b: RestrictedBind)
    requires UniqueBindTargets(s) && n !in s.restrictedBinds
    requires !RestrictedBindTargetFree(s, n, b.targetName) || !PolicyLive(s, b.policyRef)
    ensures !UniqueBindTargets(s.(restrictedBinds := s.restrictedBinds[n := b]))
         || !ReferencesLive(s.(restrictedBinds := s.restrictedBinds[n := b]))
  {
    var after := s.(restrictedBinds := s.restrictedBinds[n := b]);
    assert after.restrictedBinds[n] == b && (PolicyLive(after, b.policyRef) ==> PolicyLive(s, b.policyRef));
    assert RestrictedBindKeys(after) == RestrictedBindKeys(s)[n := b.targetName];
    UniquePut(RestrictedBindKeys(s), BindKeys(s), n, b.targetName);
  }

  lemma RejectedRole(s: Store, n: string, d: RoleDefinition)
    requires UniqueRoles(s) && n !in s.roles && !RoleTargetFree(s, n, d.target)
    ensures !UniqueRoles(s.(roles := s.roles[n := d]))
  {
    assert RoleKeys(s.(roles := s.roles[n := d])) == RoleKeys(s)[n := Produced(d.target)];
    UniquePut(RoleKeys(s), RestrictedRoleKeys(s), n, Produced(d.target));
  }

  lemma RejectedRestrictedRole(s: Store, n: string, d: RestrictedRole)
    requires UniqueRoles(s) && n !in s.restrictedRoles
    requires !RestrictedRoleTargetFree(s, n, d.target) || !PolicyLive(s, d.policyRef)
    ensures !UniqueRoles(s.(restrictedRoles := s.restrictedRoles[n := d]))
         || !ReferencesLive(s.(restrictedRoles := s.restrictedRoles[n := d]))
  {
    var after := s.(restrictedRoles := s.restrictedRoles[n := d]);
    assert after.restrictedRoles[n] == d && (PolicyLive(after, d.policyRef) ==> PolicyLive(s, d.policyRef));
    assert RestrictedRoleKeys(after) == RestrictedRoleKeys(s)[n := Produced(d.target)];
    UniquePut(RestrictedRoleKeys(s), RoleKeys(s), n, Produced(d.target));
  }
}
