/** Binding, namespace and subject limits of an RBACPolicy against a RestrictedBindDefinition
    (pkg/policy/evaluator.go, pkg/policy/matcher.go), and what compliance means for the bindings the
    controller then creates (internal/controller/authorization/binddefinition_helpers.go). */
module BindEvaluator {
  import opened Options
  import opened Strings
  import opened Matcher
  import opened LabelSelectors
  import opened Bindings
  import Rbac

  // ---------------------------------------------------------------- policies and definitions

  datatype Scope = Scope(namespaces: seq<string>, selector: Option<Selector>)
  datatype RefLimits = RefLimits(
    allowed: seq<string>, allowedSelector: Option<Selector>, forbidden: seq<string>, forbiddenSelector: Option<Selector>)
  datatype NamespaceLimits = NamespaceLimits(
    allowedSelector: Option<Selector>, forbidden: seq<string>, forbiddenPrefixes: seq<string>, max: Option<int>)
  datatype BindingLimits = BindingLimits(
    allowCluster: bool, clusterRefs: Option<RefLimits>, roleRefs: Option<RefLimits>, targets: Option<NamespaceLimits>)
  datatype NameLimits = NameLimits(
    allowed: seq<string>, allowedPrefixes: seq<string>, allowedSuffixes: seq<string>,
    forbidden: seq<string>, forbiddenPrefixes: seq<string>, forbiddenSuffixes: seq<string>)
  datatype AccountLimits = AccountLimits(allowedSelector: Option<Selector>, forbidden: seq<string>, forbiddenPrefixes: seq<string>)
  datatype SubjectLimits = SubjectLimits(
    allowedKinds: seq<string>, forbiddenKinds: seq<string>,
    users: Option<NameLimits>, groups: Option<NameLimits>, accounts: Option<AccountLimits>)
  datatype Policy = Policy(scope: Scope, bindings: Option<BindingLimits>, subjects: Option<SubjectLimits>)

  datatype Definition = Definition(clusterRoleRefs: seq<string>, bindings: seq<Binding>, subjects: seq<Rbac.Subject>)

  /** A snapshot of what the label getter and the controller read. */
  datatype Cluster = Cluster(namespaces: map<string, Namespace>, clusterRoles: map<string, Labels>, roles: map<(string, string), Labels>)

  function Known(labels: Labels): Option<Labels> {
    if labels == map[] then None else Some(labels)
  }

  /** An absent role and a role without labels both give a nil label map. */
  function ClusterRoleLabels(lg: Option<Cluster>, name: string): Option<Labels> {
    if lg.Some? && name in lg.value.clusterRoles then Known(lg.value.clusterRoles[name]) else None
  }

  function RoleLabels(lg: Option<Cluster>, namespace: string, name: string): Option<Labels> {
    if lg.Some? && (namespace, name) in lg.value.roles then Known(lg.value.roles[(namespace, name)]) else None
  }

  function NamespaceLabels(lg: Option<Cluster>, name: string): Option<Labels> {
    if lg.Some? && name in lg.value.namespaces then Some(lg.value.namespaces[name].labels) else None
  }

  predicate SelectedIn(c: Cluster, s: Selector, n: string) {
    n in c.namespaces && Matches(s, c.namespaces[n].labels)
  }

  /** ListNamespacesBySelector: an error for an invalid selector, otherwise the matching names. */
  ghost predicate Lister(list: Selector -> seq<string>, c: Cluster) {
    forall s, n | Valid(s) :: n in list(s) <==> SelectedIn(c, s, n)
  }

  // ---------------------------------------------------------------- single checks

  /** The source's branches: concrete entries first, then the selector, then a lone star. */
  function NamespaceInScope(scope: Scope, namespace: string, lg: Option<Cluster>): bool {
    if scope.namespaces == [] && scope.selector.None? then false
    else
      var bare := "*" in scope.namespaces && |scope.namespaces| == 1 && scope.selector.None?;
      if namespace in scope.namespaces then true
      else if scope.selector.None? || lg.None? then bare
      else
        match NamespaceLabels(lg, namespace)
        case None => bare
        case Some(l) => if Matches(scope.selector.value, l) then true else bare
  }

  predicate AllowsClusterResources(scope: Scope) {
    "*" in scope.namespaces
  }

  predicate HasAnyPrefix(prefixes: seq<string>, value: string) {
    exists i :: 0 <= i < |prefixes| && HasPrefix(value, prefixes[i])
  }

  predicate HasAnySuffix(suffixes: seq<string>, value: string) {
    exists i :: 0 <= i < |suffixes| && HasSuffix(value, suffixes[i])
  }

  datatype Violation =
    | ClusterScope | OutsideScope(namespace: string) | NoResolver | BadSelector | AccountOutsideScope(subject: nat)
    | NoBindingLimits | NoSubjectLimits | ClusterBindingsForbidden | NoClusterRoleLimits | NoRoleLimits
    | RefForbidden(ref: string) | RefUncheckable(ref: string) | RefForbiddenByLabel(ref: string) | RefNotAllowed(ref: string)
    | NamespaceForbidden(namespace: string) | NamespaceNotAllowed(namespace: string) | TooManyNamespaces(count: nat)
    | KindForbidden(subject: nat) | KindNotAllowed(subject: nat) | NameForbidden(name: string) | NameNotAllowed(name: string)
    | AccountForbidden(namespace: string) | AccountNotAllowed(namespace: string)

  /** Allowed by name or by label, and forbidden by neither; a label rule that cannot be checked forbids. */
  predicate RefOk(limits: RefLimits, ref: string, labels: Option<Labels>, enabled: bool) {
    && !MatchesAnyWildcard(limits.forbidden, ref)
    && (limits.forbiddenSelector.Some? ==> enabled && labels.Some? && !Matches(limits.forbiddenSelector.value, labels.value))
    && (|| MatchesAnyWildcard(limits.allowed, ref)
        || (enabled && limits.allowedSelector.Some? && labels.Some? && Matches(limits.allowedSelector.value, labels.value)))
  }

  method CheckRoleRef(limits: RefLimits, ref: string, labels: Option<Labels>, enabled: bool) returns (vs: seq<Violation>)
    ensures vs == [] <==> RefOk(limits, ref, labels, enabled)
  {
    vs := [];
    if |limits.forbidden| > 0 && MatchesAnyWildcard(limits.forbidden, ref) {
      vs := vs + [RefForbidden(ref)];
    }
    if limits.forbiddenSelector.Some? {
      if !enabled || labels.None? {
        vs := vs + [RefUncheckable(ref)];
      } else if Matches(limits.forbiddenSelector.value, labels.value) {
        vs := vs + [RefForbiddenByLabel(ref)];
      }
    }
    var byName := |limits.allowed| > 0;
    var bySelector := enabled && limits.allowedSelector.Some?;
    if byName || bySelector {
      var nameAllowed := byName && MatchesAnyWildcard(limits.allowed, ref);
      var selectorAllowed := bySelector && labels.Some? && Matches(limits.allowedSelector.value, labels.value);
      if !nameAllowed && !selectorAllowed {
        vs := vs + [RefNotAllowed(ref)];
      }
    } else {
      vs := vs + [RefNotAllowed(ref)];
    }
  }

  predicate SelectorAdmits(selector: Option<Selector>, namespace: string, lg: Option<Cluster>) {
    selector.Some? ==> NamespaceLabels(lg, namespace).Some? && Matches(selector.value, NamespaceLabels(lg, namespace).value)
  }

  predicate NamespaceOk(limits: NamespaceLimits, namespace: string, lg: Option<Cluster>) {
    && namespace !in limits.forbidden && !HasAnyPrefix(limits.forbiddenPrefixes, namespace)
    && SelectorAdmits(limits.allowedSelector, namespace, lg)
  }

  method CheckNamespace(limits: NamespaceLimits, namespace: string, lg: Option<Cluster>) returns (vs: seq<Violation>)
    ensures vs == [] <==> NamespaceOk(limits, namespace, lg)
  {
    vs := [];
    if namespace in limits.forbidden {
      vs := vs + [NamespaceForbidden(namespace)];
    }
    if HasAnyPrefix(limits.forbiddenPrefixes, namespace) {
      vs := vs + [NamespaceForbidden(namespace)];
    }
    if limits.allowedSelector.Some? {
      if lg.None? {
        return vs + [NamespaceNotAllowed(namespace)];
      }
      var l := NamespaceLabels(lg, namespace);
      if l.None? || !Matches(limits.allowedSelector.value, l.value) {
        vs := vs + [NamespaceNotAllowed(namespace)];
      }
    }
  }

  predicate NameOk(limits: NameLimits, name: string) {
    && name !in limits.forbidden && !HasAnyPrefix(limits.forbiddenPrefixes, name) && !HasAnySuffix(limits.forbiddenSuffixes, name)
    && (limits.allowed == [] || name in limits.allowed)
    && (limits.allowedPrefixes == [] || HasAnyPrefix(limits.allowedPrefixes, name))
    && (limits.allowedSuffixes == [] || HasAnySuffix(limits.allowedSuffixes, name))
  }

  method CheckName(limits: NameLimits, name: string) returns (vs: seq<Violation>)
    ensures vs == [] <==> NameOk(limits, name)
  {
    vs := [];
    if name in limits.forbidden { vs := vs + [NameForbidden(name)]; }
    if HasAnyPrefix(limits.forbiddenPrefixes, name) { vs := vs + [NameForbidden(name)]; }
    if HasAnySuffix(limits.forbiddenSuffixes, name) { vs := vs + [NameForbidden(name)]; }
    if |limits.allowed| > 0 && name !in limits.allowed { vs := vs + [NameNotAllowed(name)]; }
    if |limits.allowedPrefixes| > 0 && !HasAnyPrefix(limits.allowedPrefixes, name) { vs := vs + [NameNotAllowed(name)]; }
    if |limits.allowedSuffixes| > 0 && !HasAnySuffix(limits.allowedSuffixes, name) { vs := vs + [NameNotAllowed(name)]; }
  }

  predicate AccountOk(limits: AccountLimits, namespace: string, lg: Option<Cluster>) {
    && namespace !in limits.forbidden && !HasAnyPrefix(limits.forbiddenPrefixes, namespace)
    && (namespace != "" ==> SelectorAdmits(limits.allowedSelector, namespace, lg))
  }

  method CheckAccount(limits: AccountLimits, namespace: string, lg: Option<Cluster>) returns (vs: seq<Violation>)
    ensures vs == [] <==> AccountOk(limits, namespace, lg)
  {
    vs := [];
    if namespace in limits.forbidden { vs := vs + [AccountForbidden(namespace)]; }
    if HasAnyPrefix(limits.forbiddenPrefixes, namespace) { vs := vs + [AccountForbidden(namespace)]; }
    if limits.allowedSelector.Some? && namespace != "" {
      if lg.None? {
        return vs + [AccountNotAllowed(namespace)];
      }
      var l := NamespaceLabels(lg, namespace);
      if l.None? || !Matches(limits.allowedSelector.value, l.value) {
        vs := vs + [AccountNotAllowed(namespace)];
      }
    }
  }

  const USER := "User"
  const GROUP := "Group"
  const SERVICE_ACCOUNT := "ServiceAccount"

  predicate SubjectOk(limits: SubjectLimits, s: Rbac.Subject, lg: Option<Cluster>) {
    && s.kind !in limits.forbiddenKinds && s.kind in limits.allowedKinds
    && (s.kind == USER && limits.users.Some? ==> NameOk(limits.users.value, s.name))
    && (s.kind == GROUP && limits.groups.Some? ==> NameOk(limits.groups.value, s.name))
    && (s.kind == SERVICE_ACCOUNT && limits.accounts.Some? ==> AccountOk(limits.accounts.value, s.namespace, lg))
  }

  method CheckSubject(limits: SubjectLimits, i: nat, s: Rbac.Subject, lg: Option<Cluster>) returns (vs: seq<Violation>)
    ensures vs == [] <==> SubjectOk(limits, s, lg)
  {
    if s.kind in limits.forbiddenKinds {
      return [KindForbidden(i)];
    }
    if s.kind !in limits.allowedKinds {
      return [KindNotAllowed(i)];
    }
    KindsDiffer();
    vs := [];
    if s.kind == USER {
      if limits.users.Some? { vs := CheckName(limits.users.value, s.name); }
    } else if s.kind == GROUP {
      if limits.groups.Some? { vs := CheckName(limits.groups.value, s.name); }
    } else if s.kind == SERVICE_ACCOUNT {
      if limits.accounts.Some? { vs := CheckAccount(limits.accounts.value, s.namespace, lg); }
    }
  }

  lemma KindsDiffer()
    ensures USER != GROUP && USER != SERVICE_ACCOUNT && GROUP != SERVICE_ACCOUNT
  {
  }

  // ---------------------------------------------------------------- scope

  ghost predicate ScopeOk(scope: Scope, b: Binding, lg: Option<Cluster>) {
    && (b.namespace != "" ==> NamespaceInScope(scope, b.namespace, lg))
    && forall j :: 0 <= j < |b.selectors| ==> SelectorInScope(scope, b.selectors[j], lg)
  }

  ghost predicate SelectorInScope(scope: Scope, s: Selector, lg: Option<Cluster>) {
    && lg.Some? && Valid(s)
    && forall n :: SelectedIn(lg.value, s, n) ==> NamespaceInScope(scope, n, lg)
  }

  method CheckSelectorScope(scope: Scope, s: Selector, lg: Option<Cluster>, list: Selector -> seq<string>) returns (vs: seq<Violation>)
    requires lg.Some? ==> Lister(list, lg.value)
    ensures vs == [] <==> SelectorInScope(scope, s, lg)
  {
    if lg.None? {
      return [NoResolver];
    }
    if !Valid(s) {
      return [BadSelector];
    }
    vs := [];
    var names := list(s);
    for k := 0 to |names|
      invariant vs == [] <==> forall m :: 0 <= m < k ==> NamespaceInScope(scope, names[m], lg)
    {
      if !NamespaceInScope(scope, names[k], lg) {
        vs := vs + [OutsideScope(names[k])];
      }
    }
    forall m | 0 <= m < |names| ensures SelectedIn(lg.value, s, names[m]) {
      assert names[m] in names;
    }
  }

  method CheckScope(scope: Scope, b: Binding, lg: Option<Cluster>, list: Selector -> seq<string>) returns (vs: seq<Violation>)
    requires lg.Some? ==> Lister(list, lg.value)
    ensures vs == [] <==> ScopeOk(scope, b, lg)
  {
    vs := if b.namespace != "" && !NamespaceInScope(scope, b.namespace, lg) then [OutsideScope(b.namespace)] else [];
    ghost var explicit := vs == [];
    for j := 0 to |b.selectors|
      invariant vs == [] <==> explicit && forall k :: 0 <= k < j ==> SelectorInScope(scope, b.selectors[k], lg)
    {
      var more := CheckSelectorScope(scope, b.selectors[j], lg, list);
      vs := vs + more;
    }
  }

  predicate AccountScopeOk(scope: Scope, s: Rbac.Subject, lg: Option<Cluster>) {
    s.kind == SERVICE_ACCOUNT && s.namespace != "" ==> NamespaceInScope(scope, s.namespace, lg)
  }

  // ---------------------------------------------------------------- role references

  predicate ClusterRefsOk(limits: RefLimits, refs: seq<string>, lg: Option<Cluster>) {
    forall j :: 0 <= j < |refs| ==> RefOk(limits, refs[j], ClusterRoleLabels(lg, refs[j]), lg.Some?)
  }

  method CheckClusterRefs(limits: RefLimits, refs: seq<string>, lg: Option<Cluster>) returns (vs: seq<Violation>)
    ensures vs == [] <==> ClusterRefsOk(limits, refs, lg)
  {
    vs := [];
    for j := 0 to |refs|
      invariant vs == [] <==> forall k :: 0 <= k < j ==> RefOk(limits, refs[k], ClusterRoleLabels(lg, refs[k]), lg.Some?)
    {
      var more := CheckRoleRef(limits, refs[j], ClusterRoleLabels(lg, refs[j]), lg.Some?);
      vs := vs + more;
    }
  }

  /** A Role reference of one binding: once per namespace the role is looked up in. */
  ghost predicate RoleRefOk(limits: RefLimits, b: Binding, ref: string, lg: Option<Cluster>) {
    if b.namespace != "" then RefOk(limits, ref, RoleLabels(lg, b.namespace, ref), lg.Some?)
    else if b.selectors != [] && lg.Some? then
      forall k :: 0 <= k < |b.selectors| ==> SelectedRefOk(limits, b.selectors[k], ref, lg.value)
    else RefOk(limits, ref, None, lg.Some?)
  }

  ghost predicate SelectedRefOk(limits: RefLimits, s: Selector, ref: string, c: Cluster) {
    Valid(s) && forall n :: SelectedIn(c, s, n) ==> RefOk(limits, ref, RoleLabels(Some(c), n, ref), true)
  }

  method CheckSelectedRef(limits: RefLimits, s: Selector, ref: string, c: Cluster, list: Selector -> seq<string>) returns (vs: seq<Violation>)
    requires Lister(list, c)
    ensures vs == [] <==> SelectedRefOk(limits, s, ref, c)
  {
    if !Valid(s) {
      return [BadSelector];
    }
    vs := [];
    var names := list(s);
    for k := 0 to |names|
      invariant vs == [] <==> forall m :: 0 <= m < k ==> RefOk(limits, ref, RoleLabels(Some(c), names[m], ref), true)
    {
      var more := CheckRoleRef(limits, ref, RoleLabels(Some(c), names[k], ref), true);
      vs := vs + more;
    }
    forall m | 0 <= m < |names| ensures SelectedIn(c, s, names[m]) {
      assert names[m] in names;
    }
  }

  method CheckBoundRef(limits: RefLimits, b: Binding, ref: string, lg: Option<Cluster>, list: Selector -> seq<string>) returns (vs: seq<Violation>)
    requires lg.Some? ==> Lister(list, lg.value)
    ensures vs == [] <==> RoleRefOk(limits, b, ref, lg)
  {
    if b.namespace != "" {
      vs := CheckRoleRef(limits, ref, RoleLabels(lg, b.namespace, ref), lg.Some?);
    } else if |b.selectors| > 0 && lg.Some? {
      vs := [];
      for k := 0 to |b.selectors|
        invariant vs == [] <==> forall m :: 0 <= m < k ==> SelectedRefOk(limits, b.selectors[m], ref, lg.value)
      {
        var more := CheckSelectedRef(limits, b.selectors[k], ref, lg.value, list);
        vs := vs + more;
      }
    } else {
      vs := CheckRoleRef(limits, ref, None, lg.Some?);
    }
  }

  ghost predicate RoleRefsOk(limits: RefLimits, b: Binding, lg: Option<Cluster>) {
    forall j :: 0 <= j < |b.roleRefs| ==> RoleRefOk(limits, b, b.roleRefs[j], lg)
  }

  method CheckRoleRefs(limits: RefLimits, b: Binding, lg: Option<Cluster>, list: Selector -> seq<string>) returns (vs: seq<Violation>)
    requires lg.Some? ==> Lister(list, lg.value)
    ensures vs == [] <==> RoleRefsOk(limits, b, lg)
  {
    vs := [];
    for j := 0 to |b.roleRefs|
      invariant vs == [] <==> forall k :: 0 <= k < j ==> RoleRefOk(limits, b, b.roleRefs[k], lg)
    {
      var more := CheckBoundRef(limits, b, b.roleRefs[j], lg, list);
      vs := vs + more;
    }
  }

  /** References without limits for their kind are refused. */
  ghost predicate BindingRefsOk(limits: BindingLimits, b: Binding, lg: Option<Cluster>) {
    && (b.clusterRoleRefs != [] ==> limits.clusterRefs.Some? && ClusterRefsOk(limits.clusterRefs.value, b.clusterRoleRefs, lg))
    && (b.roleRefs != [] ==> limits.roleRefs.Some? && RoleRefsOk(limits.roleRefs.value, b, lg))
  }

  method CheckBindingRefs(limits: BindingLimits, b: Binding, lg: Option<Cluster>, list: Selector -> seq<string>) returns (vs: seq<Violation>)
    requires lg.Some? ==> Lister(list, lg.value)
    ensures vs == [] <==> BindingRefsOk(limits, b, lg)
  {
    vs := if limits.clusterRefs.None? && |b.clusterRoleRefs| > 0 then [NoClusterRoleLimits] else [];
    if limits.roleRefs.None? && |b.roleRefs| > 0 {
      vs := vs + [NoRoleLimits];
    }
    if limits.clusterRefs.Some? {
      var more := CheckClusterRefs(limits.clusterRefs.value, b.clusterRoleRefs, lg);
      vs := vs + more;
    }
    if limits.roleRefs.Some? {
      var more := CheckRoleRefs(limits.roleRefs.value, b, lg, list);
      vs := vs + more;
    }
  }

  predicate ClusterBindingsOk(limits: BindingLimits, refs: seq<string>, lg: Option<Cluster>) {
    refs != [] ==> limits.allowCluster && limits.clusterRefs.Some? && ClusterRefsOk(limits.clusterRefs.value, refs, lg)
  }

  method CheckClusterBindings(limits: BindingLimits, refs: seq<string>, lg: Option<Cluster>) returns (vs: seq<Violation>)
    ensures vs == [] <==> ClusterBindingsOk(limits, refs, lg)
  {
    vs := if !limits.allowCluster && |refs| > 0 then [ClusterBindingsForbidden] else [];
    if limits.allowCluster && limits.clusterRefs.None? && |refs| > 0 {
      vs := vs + [NoClusterRoleLimits];
    }
    if limits.allowCluster && limits.clusterRefs.Some? {
      var more := CheckClusterRefs(limits.clusterRefs.value, refs, lg);
      vs := vs + more;
    }
  }

  // ---------------------------------------------------------------- target namespaces

  /** A namespace the evaluator counts as a target of the binding. */
  ghost predicate Targets(b: Binding, lg: Option<Cluster>, n: string) {
    if b.namespace != "" then n == b.namespace
    else lg.Some? && exists j :: 0 <= j < |b.selectors| && SelectedIn(lg.value, b.selectors[j], n)
  }

  predicate Resolvable(s: Selector, lg: Option<Cluster>) {
    lg.Some? && Valid(s)
  }

  ghost predicate TargetsOk(limits: NamespaceLimits, b: Binding, lg: Option<Cluster>) {
    && (forall n :: Targets(b, lg, n) ==> NamespaceOk(limits, n, lg))
    && (b.namespace == "" ==> forall j :: 0 <= j < |b.selectors| ==> Resolvable(b.selectors[j], lg))
  }

  /** The set holds the targets of the binding next to what it held before. */
  ghost predicate Collected(before: set<string>, b: Binding, lg: Option<Cluster>, after: set<string>) {
    forall n :: n in after <==> n in before || Targets(b, lg, n)
  }

  method CheckNames(limits: NamespaceLimits, names: seq<string>, lg: Option<Cluster>, resolved: set<string>)
    returns (vs: seq<Violation>, resolved': set<string>)
    ensures vs == [] <==> forall k :: 0 <= k < |names| ==> NamespaceOk(limits, names[k], lg)
    ensures forall n :: n in resolved' <==> n in resolved || n in names
  {
    vs, resolved' := [], resolved;
    for k := 0 to |names|
      invariant vs == [] <==> forall m :: 0 <= m < k ==> NamespaceOk(limits, names[m], lg)
      invariant forall n :: n in resolved' <==> n in resolved || n in names[..k]
    {
      resolved' := resolved' + {names[k]};
      var more := CheckNamespace(limits, names[k], lg);
      vs := vs + more;
    }
  }

  ghost predicate SelectorTargetsOk(limits: NamespaceLimits, s: Selector, lg: Option<Cluster>) {
    lg.Some? && Valid(s) && forall n :: SelectedIn(lg.value, s, n) ==> NamespaceOk(limits, n, lg)
  }

  method CheckSelectorTargets(limits: NamespaceLimits, s: Selector, lg: Option<Cluster>, list: Selector -> seq<string>, resolved: set<string>)
    returns (vs: seq<Violation>, resolved': set<string>)
    requires lg.Some? ==> Lister(list, lg.value)
    ensures vs == [] <==> SelectorTargetsOk(limits, s, lg)
    ensures forall n :: n in resolved' <==> n in resolved || (lg.Some? && SelectedIn(lg.value, s, n))
  {
    if lg.None? {
      return [NoResolver], resolved;
    }
    if !Valid(s) {
      return [BadSelector], resolved;
    }
    vs, resolved' := CheckNames(limits, list(s), lg, resolved);
    forall k | 0 <= k < |list(s)| ensures SelectedIn(lg.value, s, list(s)[k]) {
      assert list(s)[k] in list(s);
    }
  }

  method CheckTargets(limits: NamespaceLimits, b: Binding, lg: Option<Cluster>, list: Selector -> seq<string>, resolved: set<string>)
    returns (vs: seq<Violation>, resolved': set<string>)
    requires lg.Some? ==> Lister(list, lg.value)
    ensures vs == [] <==> TargetsOk(limits, b, lg)
    ensures Collected(resolved, b, lg, resolved')
  {
    if b.namespace != "" {
      vs := CheckNamespace(limits, b.namespace, lg);
      return vs, resolved + {b.namespace};
    }
    vs, resolved' := [], resolved;
    for j := 0 to |b.selectors|
      invariant vs == [] <==> forall k :: 0 <= k < j ==> SelectorTargetsOk(limits, b.selectors[k], lg)
      invariant forall n :: n in resolved' <==> n in resolved || (lg.Some? && exists k :: 0 <= k < j && SelectedIn(lg.value, b.selectors[k], n))
    {
      var more;
      more, resolved' := CheckSelectorTargets(limits, b.selectors[j], lg, list, resolved');
      vs := vs + more;
    }
    SelectorTargets(limits, b, lg);
  }

  lemma SelectorTargets(limits: NamespaceLimits, b: Binding, lg: Option<Cluster>)
    requires b.namespace == ""
    ensures TargetsOk(limits, b, lg) <==> forall k :: 0 <= k < |b.selectors| ==> SelectorTargetsOk(limits, b.selectors[k], lg)
  {
  }

  /** All namespaces targeted by some binding. */
  ghost predicate Targeted(bindings: seq<Binding>, lg: Option<Cluster>, n: string) {
    exists i :: 0 <= i < |bindings| && Targets(bindings[i], lg, n)
  }

  ghost predicate TargetSet(bindings: seq<Binding>, lg: Option<Cluster>, names: set<string>) {
    forall n :: n in names <==> Targeted(bindings, lg, n)
  }

  ghost predicate NamespaceLimitsOk(limits: NamespaceLimits, bindings: seq<Binding>, lg: Option<Cluster>) {
    && (forall i :: 0 <= i < |bindings| ==> TargetsOk(limits, bindings[i], lg))
    && (limits.max.Some? ==> exists names :: TargetSet(bindings, lg, names) && |names| <= limits.max.value)
  }

  lemma TargetedStep(bindings: seq<Binding>, lg: Option<Cluster>, i: nat, names: set<string>, names': set<string>)
    requires i < |bindings| && TargetSet(bindings[..i], lg, names) && Collected(names, bindings[i], lg, names')
    ensures TargetSet(bindings[..i + 1], lg, names')
  {
  }

  method CheckNamespaceLimits(limits: NamespaceLimits, bindings: seq<Binding>, lg: Option<Cluster>, list: Selector -> seq<string>)
    returns (vs: seq<Violation>)
    requires lg.Some? ==> Lister(list, lg.value)
    ensures vs == [] <==> NamespaceLimitsOk(limits, bindings, lg)
  {
    vs := [];
    var resolved: set<string> := {};
    for i := 0 to |bindings|
      invariant vs == [] <==> forall k :: 0 <= k < i ==> TargetsOk(limits, bindings[k], lg)
      invariant TargetSet(bindings[..i], lg, resolved)
    {
      ghost var before := resolved;
      var more;
      more, resolved := CheckTargets(limits, bindings[i], lg, list, resolved);
      TargetedStep(bindings, lg, i, before, resolved);
      vs := vs + more;
    }
    assert bindings[..|bindings|] == bindings;
    if limits.max.Some? {
      OneTargetSet(bindings, lg, resolved);
      if |resolved| > limits.max.value {
        vs := vs + [TooManyNamespaces(|resolved|)];
      }
    }
  }

  lemma OneTargetSet(bindings: seq<Binding>, lg: Option<Cluster>, names: set<string>)
    requires TargetSet(bindings, lg, names)
    ensures forall other :: TargetSet(bindings, lg, other) ==> other == names
  {
  }

  // ---------------------------------------------------------------- the whole evaluation

  predicate HasRoleRefs(d: Definition) {
    d.clusterRoleRefs != [] || exists i :: 0 <= i < |d.bindings| && (d.bindings[i].clusterRoleRefs != [] || d.bindings[i].roleRefs != [])
  }

  ghost predicate BindingsCompliant(limits: BindingLimits, d: Definition, lg: Option<Cluster>) {
    && ClusterBindingsOk(limits, d.clusterRoleRefs, lg)
    && (forall i :: 0 <= i < |d.bindings| ==> BindingRefsOk(limits, d.bindings[i], lg))
    && (limits.targets.Some? ==> NamespaceLimitsOk(limits.targets.value, d.bindings, lg))
  }

  ghost predicate Compliant(p: Policy, d: Definition, lg: Option<Cluster>) {
    && (d.clusterRoleRefs != [] ==> AllowsClusterResources(p.scope))
    && (forall i :: 0 <= i < |d.bindings| ==> ScopeOk(p.scope, d.bindings[i], lg))
    && (forall i :: 0 <= i < |d.subjects| ==> AccountScopeOk(p.scope, d.subjects[i], lg))
    && (if p.bindings.None? then !HasRoleRefs(d) else BindingsCompliant(p.bindings.value, d, lg))
    && (if p.subjects.None? then d.subjects == []
        else forall i :: 0 <= i < |d.subjects| ==> SubjectOk(p.subjects.value, d.subjects[i], lg))
  }

  method EvaluateBindingLimits(limits: BindingLimits, d: Definition, lg: Option<Cluster>, list: Selector -> seq<string>) returns (vs: seq<Violation>)
    requires lg.Some? ==> Lister(list, lg.value)
    ensures vs == [] <==> BindingsCompliant(limits, d, lg)
  {
    vs := CheckClusterBindings(limits, d.clusterRoleRefs, lg);
    ghost var first := vs == [];
    for i := 0 to |d.bindings|
      invariant vs == [] <==> first && forall k :: 0 <= k < i ==> BindingRefsOk(limits, d.bindings[k], lg)
    {
      var more := CheckBindingRefs(limits, d.bindings[i], lg, list);
      vs := vs + more;
    }
    if limits.targets.Some? {
      var more := CheckNamespaceLimits(limits.targets.value, d.bindings, lg, list);
      vs := vs + more;
    }
  }

  method EvaluateSubjects(limits: SubjectLimits, subjects: seq<Rbac.Subject>, lg: Option<Cluster>) returns (vs: seq<Violation>)
    ensures vs == [] <==> forall i :: 0 <= i < |subjects| ==> SubjectOk(limits, subjects[i], lg)
  {
    vs := [];
    for i := 0 to |subjects|
      invariant vs == [] <==> forall k :: 0 <= k < i ==> SubjectOk(limits, subjects[k], lg)
    {
      var more := CheckSubject(limits, i, subjects[i], lg);
      vs := vs + more;
    }
  }

  method EvaluateScope(scope: Scope, d: Definition, lg: Option<Cluster>, list: Selector -> seq<string>) returns (vs: seq<Violation>)
    requires lg.Some? ==> Lister(list, lg.value)
    ensures vs == [] <==>
            && (d.clusterRoleRefs != [] ==> AllowsClusterResources(scope))
            && (forall i :: 0 <= i < |d.bindings| ==> ScopeOk(scope, d.bindings[i], lg))
            && (forall i :: 0 <= i < |d.subjects| ==> AccountScopeOk(scope, d.subjects[i], lg))
  {
    vs := if |d.clusterRoleRefs| > 0 && !AllowsClusterResources(scope) then [ClusterScope] else [];
    ghost var first := vs == [];
    for i := 0 to |d.bindings|
      invariant vs == [] <==> first && forall k :: 0 <= k < i ==> ScopeOk(scope, d.bindings[k], lg)
    {
      var more := CheckScope(scope, d.bindings[i], lg, list);
      vs := vs + more;
    }
    ghost var second := vs == [];
    for i := 0 to |d.subjects|
      invariant vs == [] <==> second && forall k :: 0 <= k < i ==> AccountScopeOk(scope, d.subjects[k], lg)
    {
      if !AccountScopeOk(scope, d.subjects[i], lg) {
        vs := vs + [AccountOutsideScope(i)];
      }
    }
  }

  /** EvaluateBindDefinition: the answer is empty exactly for the compliant definitions. */
  method Evaluate(p: Policy, d: Definition, lg: Option<Cluster>, list: Selector -> seq<string>) returns (vs: seq<Violation>)
    requires lg.Some? ==> Lister(list, lg.value)
    ensures vs == [] <==> Compliant(p, d, lg)
  {
    vs := EvaluateScope(p.scope, d, lg, list);
    if p.bindings.None? {
      if HasRoleRefs(d) {
        vs := vs + [NoBindingLimits];
      }
    } else {
      var more := EvaluateBindingLimits(p.bindings.value, d, lg, list);
      vs := vs + more;
    }
    if p.subjects.None? {
      if |d.subjects| > 0 {
        vs := vs + [NoSubjectLimits];
      }
    } else {
      var more := EvaluateSubjects(p.subjects.value, d.subjects, lg);
      vs := vs + more;
    }
  }
}
