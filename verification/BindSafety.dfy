/** What an empty evaluation means for the bindings the controller creates from the definition
    (pkg/policy/evaluator.go, internal/controller/authorization/binddefinition_helpers.go). */
module BindSafety {
  import opened Options
  import opened Strings
  import opened Matcher
  import opened LabelSelectors
  import opened Bindings
  import opened BindEvaluator
  import Rbac

  // ---------------------------------------------------------------- what the controller resolves

  /** An explicit namespace wins and must exist; otherwise the union over the selectors. */
  ghost predicate Resolves(b: Binding, c: Cluster, n: string) {
    if b.namespace != "" then n == b.namespace && n in c.namespaces
    else exists j :: 0 <= j < |b.selectors| && SelectedIn(c, b.selectors[j], n)
  }

  predicate Distinct(xs: seq<string>) {
    forall i, j :: 0 <= i < j < |xs| ==> xs[i] != xs[j]
  }

  /** resolveRoleBindingNamespaces: parse all selectors, then list, keeping each namespace once. */
  method ResolveNamespaces(b: Binding, c: Cluster, list: Selector -> seq<string>) returns (r: Option<seq<string>>)
    requires Lister(list, c)
    ensures r.None? <==> b.namespace == "" && exists j :: 0 <= j < |b.selectors| && !Valid(b.selectors[j])
    ensures r.Some? ==> Distinct(r.value) && forall n :: n in r.value <==> Resolves(b, c, n)
  {
    if b.namespace != "" {
      return Some(if b.namespace in c.namespaces then [b.namespace] else []);
    }
    for j := 0 to |b.selectors|
      invariant forall k :: 0 <= k < j ==> Valid(b.selectors[k])
    {
      if !Valid(b.selectors[j]) {
        return None;
      }
    }
    var out: seq<string> := [];
    for j := 0 to |b.selectors|
      invariant Distinct(out)
      invariant forall n :: n in out <==> exists k :: 0 <= k < j && SelectedIn(c, b.selectors[k], n)
    {
      out := AppendUnseen(out, list(b.selectors[j]));
    }
    return Some(out);
  }

  method AppendUnseen(out: seq<string>, names: seq<string>) returns (out': seq<string>)
    requires Distinct(out)
    ensures Distinct(out') && forall n :: n in out' <==> n in out || n in names
  {
    out' := out;
    for k := 0 to |names|
      invariant Distinct(out') && forall n :: n in out' <==> n in out || n in names[..k]
    {
      if names[k] !in out' {
        out' := out' + [names[k]];
      }
    }
  }

  // ---------------------------------------------------------------- compliance covers every bound namespace

  ghost predicate AnyGlob(patterns: seq<string>, value: string) {
    exists k :: 0 <= k < |patterns| && Glob(patterns[k], value)
  }

  /** The reference is explicitly allowed and not forbidden, with patterns read as globs. */
  ghost predicate RefSafe(limits: RefLimits, ref: string, labels: Option<Labels>) {
    && !AnyGlob(limits.forbidden, ref)
    && (limits.forbiddenSelector.Some? ==> labels.Some? && !Matches(limits.forbiddenSelector.value, labels.value))
    && (|| AnyGlob(limits.allowed, ref)
        || (limits.allowedSelector.Some? && labels.Some? && Matches(limits.allowedSelector.value, labels.value)))
  }

  lemma AnyWildcardIsGlob(patterns: seq<string>, value: string)
    ensures MatchesAnyWildcard(patterns, value) <==> AnyGlob(patterns, value)
  {
    forall k | 0 <= k < |patterns| ensures MatchesWildcard(patterns[k], value) <==> Glob(patterns[k], value) {
      MatchesWildcardIsGlob(patterns[k], value);
    }
  }

  lemma RefOkIsSafe(limits: RefLimits, ref: string, labels: Option<Labels>)
    ensures RefOk(limits, ref, labels, true) <==> RefSafe(limits, ref, labels)
  {
    AnyWildcardIsGlob(limits.forbidden, ref);
    AnyWildcardIsGlob(limits.allowed, ref);
  }

  /** In scope: listed, selected by the labels it has, or the scope is exactly the lone star. */
  ghost predicate InScope(scope: Scope, n: string, c: Cluster) {
    || n in scope.namespaces
    || (scope.selector.Some? && n in c.namespaces && Matches(scope.selector.value, c.namespaces[n].labels))
    || scope == Scope(["*"], None)
  }

  lemma ScopeMeaning(scope: Scope, n: string, c: Cluster)
    ensures NamespaceInScope(scope, n, Some(c)) <==> InScope(scope, n, c)
  {
  }

  ghost predicate BeginsWithOne(prefixes: seq<string>, name: string) {
    exists q, rest :: q in prefixes && name == q + rest
  }

  ghost predicate EndsWithOne(suffixes: seq<string>, name: string) {
    exists head, q :: q in suffixes && name == head + q
  }

  lemma AnyPrefixMeans(prefixes: seq<string>, name: string)
    ensures HasAnyPrefix(prefixes, name) <==> BeginsWithOne(prefixes, name)
  {
    if i :| 0 <= i < |prefixes| && HasPrefix(name, prefixes[i]) {
      assert name == prefixes[i] + name[|prefixes[i]|..];
    }
    if q, rest :| q in prefixes && name == q + rest {
      var i :| 0 <= i < |prefixes| && prefixes[i] == q;
      assert name[..|q|] == q;
    }
  }

  lemma AnySuffixMeans(suffixes: seq<string>, name: string)
    ensures HasAnySuffix(suffixes, name) <==> EndsWithOne(suffixes, name)
  {
    if i :| 0 <= i < |suffixes| && HasSuffix(name, suffixes[i]) {
      assert name == name[..|name| - |suffixes[i]|] + suffixes[i];
    }
    if head, q :| q in suffixes && name == head + q {
      var i :| 0 <= i < |suffixes| && suffixes[i] == q;
      assert name[|name| - |q|..] == q;
    }
  }

  /** Not forbidden by name or prefix, and selected where only selected namespaces are allowed. */
  ghost predicate NamespaceSafe(limits: NamespaceLimits, n: string, c: Cluster) {
    && n !in limits.forbidden && !BeginsWithOne(limits.forbiddenPrefixes, n)
    && (limits.allowedSelector.Some? ==> SelectedIn(c, limits.allowedSelector.value, n))
  }

  lemma NamespaceOkIsSafe(limits: NamespaceLimits, n: string, c: Cluster)
    ensures NamespaceOk(limits, n, Some(c)) <==> NamespaceSafe(limits, n, c)
  {
    AnyPrefixMeans(limits.forbiddenPrefixes, n);
  }

  lemma ResolvedIsTarget(b: Binding, c: Cluster, n: string)
    requires Resolves(b, c, n)
    ensures Targets(b, Some(c), n)
  {
  }

  /** Every namespace a compliant binding resolves to is in scope and passes the namespace limits. */
  lemma CompliantNamespaces(p: Policy, d: Definition, c: Cluster, i: nat, n: string)
    requires Compliant(p, d, Some(c)) && i < |d.bindings| && Resolves(d.bindings[i], c, n)
    ensures InScope(p.scope, n, c)
    ensures p.bindings.Some? && p.bindings.value.targets.Some? ==> NamespaceSafe(p.bindings.value.targets.value, n, c)
  {
    var b := d.bindings[i];
    ResolvedIsTarget(b, c, n);
    assert ScopeOk(p.scope, b, Some(c));
    if b.namespace == "" {
      var j :| 0 <= j < |b.selectors| && SelectedIn(c, b.selectors[j], n);
      assert SelectorInScope(p.scope, b.selectors[j], Some(c));
    }
    ScopeMeaning(p.scope, n, c);
    if p.bindings.Some? && p.bindings.value.targets.Some? {
      assert TargetsOk(p.bindings.value.targets.value, b, Some(c));
      NamespaceOkIsSafe(p.bindings.value.targets.value, n, c);
    }
  }

  /** Distinct resolved namespaces stay within the maximum. */
  lemma CompliantCount(p: Policy, d: Definition, c: Cluster, names: set<string>)
    requires Compliant(p, d, Some(c))
    requires p.bindings.Some? && p.bindings.value.targets.Some? && p.bindings.value.targets.value.max.Some?
    requires forall n :: n in names ==> exists i :: 0 <= i < |d.bindings| && Resolves(d.bindings[i], c, n)
    ensures |names| <= p.bindings.value.targets.value.max.value
  {
    var max := p.bindings.value.targets.value.max.value;
    assert NamespaceLimitsOk(p.bindings.value.targets.value, d.bindings, Some(c));
    var all :| TargetSet(d.bindings, Some(c), all) && |all| <= max;
    forall n | n in names ensures n in all {
      var i :| 0 <= i < |d.bindings| && Resolves(d.bindings[i], c, n);
      ResolvedIsTarget(d.bindings[i], c, n);
    }
    SubsetSize(names, all);
  }

  lemma SubsetSize(a: set<string>, b: set<string>)
    requires a <= b
    ensures |a| <= |b|
  {
    assert b == a + (b - a);
  }

  ghost predicate RoleRefSafe(p: Policy, n: string, ref: string, c: Cluster) {
    p.bindings.Some? && p.bindings.value.roleRefs.Some? && RefSafe(p.bindings.value.roleRefs.value, ref, RoleLabels(Some(c), n, ref))
  }

  ghost predicate ClusterRefSafe(p: Policy, ref: string, c: Cluster) {
    p.bindings.Some? && p.bindings.value.clusterRefs.Some? && RefSafe(p.bindings.value.clusterRefs.value, ref, ClusterRoleLabels(Some(c), ref))
  }

  /** Every role reference bound in a namespace is allowed there and not forbidden, with the labels it has there. */
  lemma CompliantRefs(p: Policy, d: Definition, c: Cluster, i: nat, n: string, ref: string)
    requires Compliant(p, d, Some(c)) && i < |d.bindings| && Resolves(d.bindings[i], c, n)
    requires ref in d.bindings[i].roleRefs
    ensures RoleRefSafe(p, n, ref, c)
  {
    var b := d.bindings[i];
    assert b.roleRefs != [];
    assert p.bindings.Some? ==> BindingRefsOk(p.bindings.value, b, Some(c));
    BoundRefChecked(p.bindings.value.roleRefs.value, b, ref, c, n);
  }

  /** Every cluster-role reference of a binding is allowed and not forbidden, whatever the binding resolves to. */
  lemma CompliantBindingClusterRefs(p: Policy, d: Definition, c: Cluster, i: nat, ref: string)
    requires Compliant(p, d, Some(c)) && i < |d.bindings| && ref in d.bindings[i].clusterRoleRefs
    ensures ClusterRefSafe(p, ref, c)
  {
    var b := d.bindings[i];
    assert b.clusterRoleRefs != [];
    assert p.bindings.Some? ==> BindingRefsOk(p.bindings.value, b, Some(c));
    RefOkIsSafe(p.bindings.value.clusterRefs.value, ref, ClusterRoleLabels(Some(c), ref));
  }

  lemma BoundRefChecked(limits: RefLimits, b: Binding, ref: string, c: Cluster, n: string)
    requires RoleRefsOk(limits, b, Some(c)) && ref in b.roleRefs && Resolves(b, c, n)
    ensures RefSafe(limits, ref, RoleLabels(Some(c), n, ref))
  {
    var k :| 0 <= k < |b.roleRefs| && b.roleRefs[k] == ref;
    assert RoleRefOk(limits, b, ref, Some(c));
    if b.namespace == "" {
      var j :| 0 <= j < |b.selectors| && SelectedIn(c, b.selectors[j], n);
      assert SelectedRefOk(limits, b.selectors[j], ref, c);
    }
    RefOkIsSafe(limits, ref, RoleLabels(Some(c), n, ref));
  }

  /** Cluster-wide references need the cluster scope, the permission for cluster bindings and a safe name. */
  lemma CompliantClusterRefs(p: Policy, d: Definition, c: Cluster, ref: string)
    requires Compliant(p, d, Some(c)) && ref in d.clusterRoleRefs
    ensures "*" in p.scope.namespaces && ClusterRefSafe(p, ref, c) && p.bindings.value.allowCluster
  {
    assert d.clusterRoleRefs != [];
    var k :| 0 <= k < |d.clusterRoleRefs| && d.clusterRoleRefs[k] == ref;
    RefOkIsSafe(p.bindings.value.clusterRefs.value, ref, ClusterRoleLabels(Some(c), ref));
  }

  /** Not forbidden in any way, and on every allow list that is given. */
  ghost predicate NameSafe(limits: NameLimits, name: string) {
    && name !in limits.forbidden && !BeginsWithOne(limits.forbiddenPrefixes, name) && !EndsWithOne(limits.forbiddenSuffixes, name)
    && (limits.allowed != [] ==> name in limits.allowed)
    && (limits.allowedPrefixes != [] ==> BeginsWithOne(limits.allowedPrefixes, name))
    && (limits.allowedSuffixes != [] ==> EndsWithOne(limits.allowedSuffixes, name))
  }

  /** The account's namespace is not forbidden, and where one is named it exists and is selected. */
  ghost predicate AccountSafe(limits: AccountLimits, namespace: string, c: Cluster) {
    && namespace !in limits.forbidden && !BeginsWithOne(limits.forbiddenPrefixes, namespace)
    && (limits.allowedSelector.Some? && namespace != "" ==> SelectedIn(c, limits.allowedSelector.value, namespace))
  }

  lemma NameOkIsSafe(limits: NameLimits, name: string)
    ensures NameOk(limits, name) <==> NameSafe(limits, name)
  {
    AnyPrefixMeans(limits.forbiddenPrefixes, name);
    AnyPrefixMeans(limits.allowedPrefixes, name);
    AnySuffixMeans(limits.forbiddenSuffixes, name);
    AnySuffixMeans(limits.allowedSuffixes, name);
  }

  lemma AccountOkIsSafe(limits: AccountLimits, namespace: string, c: Cluster)
    ensures AccountOk(limits, namespace, Some(c)) <==> AccountSafe(limits, namespace, c)
  {
    AnyPrefixMeans(limits.forbiddenPrefixes, namespace);
  }

  /** Every subject is of an allowed and not forbidden kind. Users and groups are forbidden in no way and on every
      given allow list; service accounts live in scope and in an admitted namespace. */
  lemma CompliantSubjects(p: Policy, d: Definition, c: Cluster, s: Rbac.Subject)
    requires Compliant(p, d, Some(c)) && s in d.subjects
    ensures p.subjects.Some? && s.kind in p.subjects.value.allowedKinds && s.kind !in p.subjects.value.forbiddenKinds
    ensures s.kind == USER && p.subjects.value.users.Some? ==> NameSafe(p.subjects.value.users.value, s.name)
    ensures s.kind == GROUP && p.subjects.value.groups.Some? ==> NameSafe(p.subjects.value.groups.value, s.name)
    ensures s.kind == SERVICE_ACCOUNT && p.subjects.value.accounts.Some? ==> AccountSafe(p.subjects.value.accounts.value, s.namespace, c)
    ensures s.kind == SERVICE_ACCOUNT && s.namespace != "" ==> InScope(p.scope, s.namespace, c)
  {
    var k :| 0 <= k < |d.subjects| && d.subjects[k] == s;
    assert AccountScopeOk(p.scope, s, Some(c));
    ScopeMeaning(p.scope, s.namespace, c);
    assert SubjectOk(p.subjects.value, d.subjects[k], Some(c));
    SubjectIsSafe(p.subjects.value, s, c);
  }

  lemma SubjectIsSafe(limits: SubjectLimits, s: Rbac.Subject, c: Cluster)
    requires SubjectOk(limits, s, Some(c))
    ensures s.kind == USER && limits.users.Some? ==> NameSafe(limits.users.value, s.name)
    ensures s.kind == GROUP && limits.groups.Some? ==> NameSafe(limits.groups.value, s.name)
    ensures s.kind == SERVICE_ACCOUNT && limits.accounts.Some? ==> AccountSafe(limits.accounts.value, s.namespace, c)
  {
    if limits.users.Some? { NameOkIsSafe(limits.users.value, s.name); }
    if limits.groups.Some? { NameOkIsSafe(limits.groups.value, s.name); }
    if limits.accounts.Some? { AccountOkIsSafe(limits.accounts.value, s.namespace, c); }
  }

  // ---------------------------------------------------------------- failing closed

  lemma RefOkWithoutGetter(limits: RefLimits, ref: string, labels: Option<Labels>)
    requires RefOk(limits, ref, None, false)
    ensures RefOk(limits, ref, labels, true)
  {
  }

  lemma BlindBinding(limits: BindingLimits, b: Binding, c: Cluster)
    requires b.selectors == [] && BindingRefsOk(limits, b, None)
    ensures BindingRefsOk(limits, b, Some(c))
  {
    if b.clusterRoleRefs != [] {
      BlindClusterRefs(limits.clusterRefs.value, b.clusterRoleRefs, c);
    }
    if b.roleRefs != [] {
      forall j | 0 <= j < |b.roleRefs| ensures RoleRefOk(limits.roleRefs.value, b, b.roleRefs[j], Some(c)) {
        assert RoleRefOk(limits.roleRefs.value, b, b.roleRefs[j], None);
        RefOkWithoutGetter(limits.roleRefs.value, b.roleRefs[j], RoleLabels(Some(c), b.namespace, b.roleRefs[j]));
        RefOkWithoutGetter(limits.roleRefs.value, b.roleRefs[j], None);
      }
    }
  }

  lemma BlindClusterRefs(limits: RefLimits, refs: seq<string>, c: Cluster)
    requires ClusterRefsOk(limits, refs, None)
    ensures ClusterRefsOk(limits, refs, Some(c))
  {
  }

  lemma BlindScope(scope: Scope, n: string, c: Cluster)
    requires NamespaceInScope(scope, n, None)
    ensures NamespaceInScope(scope, n, Some(c))
  {
  }

  lemma BlindTargets(limits: NamespaceLimits, bindings: seq<Binding>, c: Cluster)
    requires NamespaceLimitsOk(limits, bindings, None)
    requires forall i :: 0 <= i < |bindings| ==> bindings[i].selectors == []
    ensures NamespaceLimitsOk(limits, bindings, Some(c))
  {
    forall i, n | 0 <= i < |bindings| ensures Targets(bindings[i], Some(c), n) <==> Targets(bindings[i], None, n) {
    }
    forall i | 0 <= i < |bindings| ensures TargetsOk(limits, bindings[i], Some(c)) {
      assert TargetsOk(limits, bindings[i], None);
    }
    forall names | TargetSet(bindings, None, names) ensures TargetSet(bindings, Some(c), names) {
      forall n ensures Targeted(bindings, Some(c), n) <==> Targeted(bindings, None, n) {
      }
    }
  }

  lemma BlindLimits(limits: BindingLimits, d: Definition, c: Cluster)
    requires BindingsCompliant(limits, d, None)
    requires forall i :: 0 <= i < |d.bindings| ==> d.bindings[i].selectors == []
    ensures BindingsCompliant(limits, d, Some(c))
  {
    if d.clusterRoleRefs != [] {
      BlindClusterRefs(limits.clusterRefs.value, d.clusterRoleRefs, c);
    }
    forall i | 0 <= i < |d.bindings| ensures BindingRefsOk(limits, d.bindings[i], Some(c)) {
      BlindBinding(limits, d.bindings[i], c);
    }
    if limits.targets.Some? {
      BlindTargets(limits.targets.value, d.bindings, c);
    }
  }

  lemma BlindSubject(limits: SubjectLimits, s: Rbac.Subject, c: Cluster)
    requires SubjectOk(limits, s, None)
    ensures SubjectOk(limits, s, Some(c))
  {
  }

  /** Without a label getter the evaluator fails closed: what it then accepts, it accepts on every cluster. */
  lemma BlindVerdictHolds(p: Policy, d: Definition, c: Cluster)
    requires Compliant(p, d, None)
    ensures Compliant(p, d, Some(c))
  {
    forall i | 0 <= i < |d.bindings| ensures d.bindings[i].selectors == [] && ScopeOk(p.scope, d.bindings[i], Some(c)) {
      var b := d.bindings[i];
      assert ScopeOk(p.scope, b, None);
      assert b.selectors != [] ==> SelectorInScope(p.scope, b.selectors[0], None);
      if b.namespace != "" { BlindScope(p.scope, b.namespace, c); }
    }
    forall i | 0 <= i < |d.subjects| ensures AccountScopeOk(p.scope, d.subjects[i], Some(c)) {
      assert AccountScopeOk(p.scope, d.subjects[i], None);
      if NamespaceInScope(p.scope, d.subjects[i].namespace, None) { BlindScope(p.scope, d.subjects[i].namespace, c); }
    }
    if p.bindings.Some? {
      BlindLimits(p.bindings.value, d, c);
    }
    if p.subjects.Some? {
      forall i | 0 <= i < |d.subjects| ensures SubjectOk(p.subjects.value, d.subjects[i], Some(c)) {
        BlindSubject(p.subjects.value, d.subjects[i], c);
      }
    }
  }

  /** A cluster without namespaces and roles. */
  const NOTHING := Cluster(map[], map[], map[])

  predicate NoSelectors(d: Definition) {
    forall i :: 0 <= i < |d.bindings| ==> d.bindings[i].selectors == []
  }

  lemma EmptyClusterBinding(limits: BindingLimits, b: Binding)
    requires b.selectors == [] && BindingRefsOk(limits, b, Some(NOTHING))
    ensures BindingRefsOk(limits, b, None)
  {
    if b.roleRefs != [] {
      forall j | 0 <= j < |b.roleRefs| ensures RoleRefOk(limits.roleRefs.value, b, b.roleRefs[j], None) {
        assert RoleRefOk(limits.roleRefs.value, b, b.roleRefs[j], Some(NOTHING));
      }
    }
  }

  lemma EmptyClusterTargets(limits: NamespaceLimits, bindings: seq<Binding>)
    requires NamespaceLimitsOk(limits, bindings, Some(NOTHING))
    requires forall i :: 0 <= i < |bindings| ==> bindings[i].selectors == []
    ensures NamespaceLimitsOk(limits, bindings, None)
  {
    forall i, n | 0 <= i < |bindings| ensures Targets(bindings[i], None, n) <==> Targets(bindings[i], Some(NOTHING), n) {
    }
    forall i | 0 <= i < |bindings| ensures TargetsOk(limits, bindings[i], None) {
      assert TargetsOk(limits, bindings[i], Some(NOTHING));
    }
    forall names | TargetSet(bindings, Some(NOTHING), names) ensures TargetSet(bindings, None, names) {
      forall n ensures Targeted(bindings, None, n) <==> Targeted(bindings, Some(NOTHING), n) {
      }
    }
  }

  lemma EmptyClusterRefs(p: Policy, d: Definition)
    requires Compliant(p, d, Some(NOTHING)) && NoSelectors(d) && p.bindings.Some?
    ensures BindingsCompliant(p.bindings.value, d, None)
  {
    forall i | 0 <= i < |d.bindings| ensures BindingRefsOk(p.bindings.value, d.bindings[i], None) {
      EmptyClusterBinding(p.bindings.value, d.bindings[i]);
    }
    if p.bindings.value.targets.Some? {
      EmptyClusterTargets(p.bindings.value.targets.value, d.bindings);
    }
  }

  lemma NoBlindSelectors(p: Policy, d: Definition)
    requires Compliant(p, d, None)
    ensures NoSelectors(d)
  {
    forall i | 0 <= i < |d.bindings| ensures d.bindings[i].selectors == [] {
      assert ScopeOk(p.scope, d.bindings[i], None);
      assert d.bindings[i].selectors != [] ==> SelectorInScope(p.scope, d.bindings[i].selectors[0], None);
    }
  }

  /** Without a label getter exactly the definitions without selectors are accepted that comply on an empty cluster. */
  lemma BlindIffEmpty(p: Policy, d: Definition)
    ensures Compliant(p, d, None) <==> NoSelectors(d) && Compliant(p, d, Some(NOTHING))
  {
    if Compliant(p, d, None) {
      NoBlindSelectors(p, d);
      BlindVerdictHolds(p, d, NOTHING);
    }
    if NoSelectors(d) && Compliant(p, d, Some(NOTHING)) {
      forall i | 0 <= i < |d.bindings| ensures ScopeOk(p.scope, d.bindings[i], None) {
        assert ScopeOk(p.scope, d.bindings[i], Some(NOTHING));
      }
      forall i | 0 <= i < |d.subjects| ensures AccountScopeOk(p.scope, d.subjects[i], None) {
        assert AccountScopeOk(p.scope, d.subjects[i], Some(NOTHING));
      }
      if p.bindings.Some? { EmptyClusterRefs(p, d); }
    }
  }

  // ---------------------------------------------------------------- references that are never looked at

  /** Role references are looked at unless the binding has only selectors and these select nothing. */
  ghost predicate Examined(b: Binding, c: Cluster) {
    b.namespace != "" || b.selectors == [] || exists n :: Resolves(b, c, n)
  }

  /** An examined reference is safe with every set of labels it is looked up with. */
  lemma ExaminedRefs(limits: RefLimits, b: Binding, ref: string, c: Cluster)
    requires RoleRefsOk(limits, b, Some(c)) && ref in b.roleRefs
    ensures b.namespace != "" ==> RefSafe(limits, ref, RoleLabels(Some(c), b.namespace, ref))
    ensures b.namespace == "" && b.selectors == [] ==> RefSafe(limits, ref, None)
    ensures b.namespace == "" ==> forall n :: Resolves(b, c, n) ==> RefSafe(limits, ref, RoleLabels(Some(c), n, ref))
  {
    var k :| 0 <= k < |b.roleRefs| && b.roleRefs[k] == ref;
    assert RoleRefOk(limits, b, ref, Some(c));
    RefOkIsSafe(limits, ref, RoleLabels(Some(c), b.namespace, ref));
    RefOkIsSafe(limits, ref, None);
    forall n | Resolves(b, c, n) ensures RefSafe(limits, ref, RoleLabels(Some(c), n, ref)) {
      BoundRefChecked(limits, b, ref, c, n);
    }
  }

  lemma UnexaminedRefs(limits: RefLimits, b: Binding, refs: seq<string>, c: Cluster)
    requires !Examined(b, c) && forall j :: 0 <= j < |b.selectors| ==> Valid(b.selectors[j])
    ensures RoleRefsOk(limits, b.(roleRefs := refs), Some(c))
  {
    forall j, n | 0 <= j < |b.selectors| ensures !SelectedIn(c, b.selectors[j], n) {
      assert !Resolves(b, c, n);
    }
  }

  /** No forbidden reference can pass. */
  ghost predicate NoForbiddenPasses(b: Binding, c: Cluster) {
    forall limits, refs, ref :: ref in refs && RoleRefsOk(limits, b.(roleRefs := refs), Some(c)) ==> !AnyGlob(limits.forbidden, ref)
  }

  /** Forbidden names are refused, whatever the limits and references, if and only if the binding is examined. */
  lemma RefusedIffExamined(b: Binding, c: Cluster)
    requires forall j :: 0 <= j < |b.selectors| ==> Valid(b.selectors[j])
    ensures NoForbiddenPasses(b, c) <==> Examined(b, c)
  {
    if Examined(b, c) {
      forall limits, refs, ref | ref in refs && RoleRefsOk(limits, b.(roleRefs := refs), Some(c)) ensures !AnyGlob(limits.forbidden, ref) {
        var b' := b.(roleRefs := refs);
        ExaminedRefs(limits, b', ref, c);
        if b.namespace == "" && b.selectors != [] {
          var n :| Resolves(b, c, n);
          assert Resolves(b', c, n);
        }
      }
    } else {
      var limits := RefLimits([], None, ["*"], None);
      UnexaminedRefs(limits, b, ["admin"], c);
      LoneStar("admin");
      assert AnyGlob(limits.forbidden, "admin") by { assert limits.forbidden[0] == "*"; }
      assert !NoForbiddenPasses(b, c) by { assert "admin" in ["admin"]; }
    }
  }

  /** The failing inputs for the whole evaluation: of a compliant definition, a binding that is not examined may
      carry any other references and the definition stays compliant. */
  lemma UnexaminedStaysCompliant(p: Policy, d: Definition, c: Cluster, i: nat, refs: seq<string>)
    requires Compliant(p, d, Some(c)) && i < |d.bindings| && !Examined(d.bindings[i], c)
    requires p.bindings.Some? && p.bindings.value.roleRefs.Some?
    ensures Compliant(p, d.(bindings := d.bindings[i := d.bindings[i].(roleRefs := refs)]), Some(c))
  {
    var b := d.bindings[i];
    var b' := b.(roleRefs := refs);
    var limits := p.bindings.value;
    var d' := d.(bindings := d.bindings[i := b']);
    assert ScopeOk(p.scope, b, Some(c));
    forall j | 0 <= j < |b.selectors| ensures Valid(b.selectors[j]) {
      assert SelectorInScope(p.scope, b.selectors[j], Some(c));
    }
    UnexaminedRefs(limits.roleRefs.value, b, refs, c);
    forall k | 0 <= k < |d'.bindings| ensures BindingRefsOk(limits, d'.bindings[k], Some(c)) && ScopeOk(p.scope, d'.bindings[k], Some(c)) {
      assert BindingRefsOk(limits, d.bindings[k], Some(c)) && ScopeOk(p.scope, d.bindings[k], Some(c));
    }
    if limits.targets.Some? {
      SameTargets(limits.targets.value, d.bindings, d'.bindings, c);
    }
  }

  /** The namespace limits look at namespaces and selectors only. */
  lemma SameTargets(limits: NamespaceLimits, xs: seq<Binding>, ys: seq<Binding>, c: Cluster)
    requires NamespaceLimitsOk(limits, xs, Some(c)) && |xs| == |ys|
    requires forall k :: 0 <= k < |xs| ==> xs[k].namespace == ys[k].namespace && xs[k].selectors == ys[k].selectors
    ensures NamespaceLimitsOk(limits, ys, Some(c))
  {
    forall k, n | 0 <= k < |xs| ensures Targets(ys[k], Some(c), n) <==> Targets(xs[k], Some(c), n) {
    }
    forall k | 0 <= k < |ys| ensures TargetsOk(limits, ys[k], Some(c)) {
      assert TargetsOk(limits, xs[k], Some(c));
    }
    forall names | TargetSet(xs, Some(c), names) ensures TargetSet(ys, Some(c), names) {
      forall n ensures Targeted(ys, Some(c), n) <==> Targeted(xs, Some(c), n) {
      }
    }
  }

  /** Labels are found exactly for roles that exist and have some. */
  lemma LabelsFound(c: Cluster, n: string, ref: string, l: Labels)
    ensures ClusterRoleLabels(Some(c), ref) == Some(l) <==> l != map[] && (ref, l) in c.clusterRoles.Items
    ensures RoleLabels(Some(c), n, ref) == Some(l) <==> l != map[] && ((n, ref), l) in c.roles.Items
  {
    if ref in c.clusterRoles { assert (ref, c.clusterRoles[ref]) in c.clusterRoles.Items; }
    if (n, ref) in c.roles { assert ((n, ref), c.roles[(n, ref)]) in c.roles.Items; }
  }

  // ---------------------------------------------------------------- compliance, spelled out

  /** A namespace that some part of the binding names or selects. */
  predicate Reached(b: Binding, c: Cluster, n: string) {
    (b.namespace != "" && n == b.namespace) || exists j :: 0 <= j < |b.selectors| && SelectedIn(c, b.selectors[j], n)
  }

  /** The label sets a role reference of the binding is looked up with: in its own namespace, or else in each
      selected one, or without labels when there is neither. */
  ghost predicate LookedUp(b: Binding, c: Cluster, ref: string, labels: Option<Labels>) {
    if b.namespace != "" then labels == RoleLabels(Some(c), b.namespace, ref)
    else if b.selectors == [] then labels == None
    else exists n :: n in c.namespaces && Reached(b, c, n) && labels == RoleLabels(Some(c), n, ref)
  }

  ghost predicate ScopeSafe(scope: Scope, b: Binding, c: Cluster) {
    && (forall j :: 0 <= j < |b.selectors| ==> Valid(b.selectors[j]))
    && (forall n :: Reached(b, c, n) ==> InScope(scope, n, c))
  }

  ghost predicate ClusterRefsSafe(limits: Option<RefLimits>, refs: seq<string>, c: Cluster) {
    refs != [] ==> limits.Some? && forall ref :: ref in refs ==> RefSafe(limits.value, ref, ClusterRoleLabels(Some(c), ref))
  }

  ghost predicate RoleRefsSafe(limits: Option<RefLimits>, b: Binding, c: Cluster) {
    b.roleRefs != [] ==>
      limits.Some? && forall ref, labels :: ref in b.roleRefs && LookedUp(b, c, ref, labels) ==> RefSafe(limits.value, ref, labels)
  }

  /** A namespace the binding is meant for. */
  predicate MeantFor(b: Binding, c: Cluster, n: string) {
    if b.namespace != "" then n == b.namespace else Reached(b, c, n)
  }

  ghost predicate AllMeant(bindings: seq<Binding>, c: Cluster, names: set<string>) {
    forall n :: n in names <==> exists i :: 0 <= i < |bindings| && MeantFor(bindings[i], c, n)
  }

  ghost predicate TargetsSafe(limits: NamespaceLimits, bindings: seq<Binding>, c: Cluster) {
    && (forall i, n :: 0 <= i < |bindings| && MeantFor(bindings[i], c, n) ==> NamespaceSafe(limits, n, c))
    && (limits.max.Some? ==> exists names :: AllMeant(bindings, c, names) && |names| <= limits.max.value)
  }

  ghost predicate SubjectSafe(p: Policy, s: Rbac.Subject, c: Cluster) {
    && p.subjects.Some? && s.kind in p.subjects.value.allowedKinds && s.kind !in p.subjects.value.forbiddenKinds
    && (s.kind == "User" && p.subjects.value.users.Some? ==> NameSafe(p.subjects.value.users.value, s.name))
    && (s.kind == "Group" && p.subjects.value.groups.Some? ==> NameSafe(p.subjects.value.groups.value, s.name))
    && (s.kind == "ServiceAccount" && p.subjects.value.accounts.Some? ==> AccountSafe(p.subjects.value.accounts.value, s.namespace, c))
    && (s.kind == "ServiceAccount" && s.namespace != "" ==> InScope(p.scope, s.namespace, c))
  }

  /** The definition binds cluster-wide only where scope and limits allow it, reaches only namespaces in scope and
      within the limits, refers only to allowed roles, and names only allowed subjects. */
  ghost predicate Safe(p: Policy, d: Definition, c: Cluster) {
    && (d.clusterRoleRefs != [] ==> "*" in p.scope.namespaces && p.bindings.Some? && p.bindings.value.allowCluster)
    && (forall i :: 0 <= i < |d.bindings| ==> ScopeSafe(p.scope, d.bindings[i], c))
    && ClusterRefsSafe(ClusterLimits(p), d.clusterRoleRefs, c)
    && (forall i :: 0 <= i < |d.bindings| ==> ClusterRefsSafe(ClusterLimits(p), d.bindings[i].clusterRoleRefs, c))
    && (forall i :: 0 <= i < |d.bindings| ==> RoleRefsSafe(RoleLimits(p), d.bindings[i], c))
    && (p.bindings.Some? && p.bindings.value.targets.Some? ==> TargetsSafe(p.bindings.value.targets.value, d.bindings, c))
    && (forall i :: 0 <= i < |d.subjects| ==> SubjectSafe(p, d.subjects[i], c))
  }

  function ClusterLimits(p: Policy): Option<RefLimits> {
    if p.bindings.Some? then p.bindings.value.clusterRefs else None
  }

  function RoleLimits(p: Policy): Option<RefLimits> {
    if p.bindings.Some? then p.bindings.value.roleRefs else None
  }

  lemma ScopeOkIsSafe(scope: Scope, b: Binding, c: Cluster)
    ensures ScopeOk(scope, b, Some(c)) <==> ScopeSafe(scope, b, c)
  {
    forall n: string { ScopeMeaning(scope, n, c); }
    if ScopeSafe(scope, b, c) {
      assert b.namespace != "" ==> Reached(b, c, b.namespace);
      forall j | 0 <= j < |b.selectors| ensures SelectorInScope(scope, b.selectors[j], Some(c)) {
        forall n | SelectedIn(c, b.selectors[j], n) ensures NamespaceInScope(scope, n, Some(c)) { assert Reached(b, c, n); }
      }
    }
    if ScopeOk(scope, b, Some(c)) {
      forall n | Reached(b, c, n) ensures InScope(scope, n, c) {
        if j :| 0 <= j < |b.selectors| && SelectedIn(c, b.selectors[j], n) {
          assert SelectorInScope(scope, b.selectors[j], Some(c));
        }
      }
      forall j | 0 <= j < |b.selectors| ensures Valid(b.selectors[j]) { assert SelectorInScope(scope, b.selectors[j], Some(c)); }
    }
  }

  lemma ClusterRefsOkIsSafe(limits: RefLimits, refs: seq<string>, c: Cluster)
    ensures ClusterRefsOk(limits, refs, Some(c)) <==> forall ref :: ref in refs ==> RefSafe(limits, ref, ClusterRoleLabels(Some(c), ref))
  {
    forall ref: string { RefOkIsSafe(limits, ref, ClusterRoleLabels(Some(c), ref)); }
    if ClusterRefsOk(limits, refs, Some(c)) {
      forall ref | ref in refs ensures RefSafe(limits, ref, ClusterRoleLabels(Some(c), ref)) {
        var j :| 0 <= j < |refs| && refs[j] == ref;
      }
    }
  }

  lemma RoleRefOkIsSafe(limits: RefLimits, b: Binding, ref: string, c: Cluster)
    requires forall j :: 0 <= j < |b.selectors| ==> Valid(b.selectors[j])
    ensures RoleRefOk(limits, b, ref, Some(c)) <==> forall labels :: LookedUp(b, c, ref, labels) ==> RefSafe(limits, ref, labels)
  {
    forall labels: Option<Labels> { RefOkIsSafe(limits, ref, labels); }
    if b.namespace != "" {
      assert LookedUp(b, c, ref, RoleLabels(Some(c), b.namespace, ref));
    } else if b.selectors == [] {
      assert LookedUp(b, c, ref, None);
    } else {
      SelectedLookups(limits, b, ref, c);
    }
  }

  lemma SelectedLookups(limits: RefLimits, b: Binding, ref: string, c: Cluster)
    requires b.namespace == "" && b.selectors != [] && forall j :: 0 <= j < |b.selectors| ==> Valid(b.selectors[j])
    ensures RoleRefOk(limits, b, ref, Some(c)) <==> forall labels :: LookedUp(b, c, ref, labels) ==> RefSafe(limits, ref, labels)
  {
    forall labels: Option<Labels> { RefOkIsSafe(limits, ref, labels); }
    if RoleRefOk(limits, b, ref, Some(c)) {
      forall labels | LookedUp(b, c, ref, labels) ensures RefSafe(limits, ref, labels) {
        var n :| n in c.namespaces && Reached(b, c, n) && labels == RoleLabels(Some(c), n, ref);
        var j :| 0 <= j < |b.selectors| && SelectedIn(c, b.selectors[j], n);
        assert SelectedRefOk(limits, b.selectors[j], ref, c);
      }
    }
    if forall labels :: LookedUp(b, c, ref, labels) ==> RefSafe(limits, ref, labels) {
      forall k | 0 <= k < |b.selectors| ensures SelectedRefOk(limits, b.selectors[k], ref, c) {
        forall n | SelectedIn(c, b.selectors[k], n) ensures RefOk(limits, ref, RoleLabels(Some(c), n, ref), true) {
          assert Reached(b, c, n);
          assert LookedUp(b, c, ref, RoleLabels(Some(c), n, ref));
        }
      }
    }
  }

  lemma RoleRefsOkIsSafe(limits: RefLimits, b: Binding, c: Cluster)
    requires forall j :: 0 <= j < |b.selectors| ==> Valid(b.selectors[j])
    ensures RoleRefsOk(limits, b, Some(c)) <==>
            forall ref, labels :: ref in b.roleRefs && LookedUp(b, c, ref, labels) ==> RefSafe(limits, ref, labels)
  {
    forall ref: string { RoleRefOkIsSafe(limits, b, ref, c); }
    if RoleRefsOk(limits, b, Some(c)) {
      forall ref | ref in b.roleRefs ensures RoleRefOk(limits, b, ref, Some(c)) {
        var j :| 0 <= j < |b.roleRefs| && b.roleRefs[j] == ref;
      }
    }
  }

  lemma SameTargetSets(bindings: seq<Binding>, c: Cluster, names: set<string>)
    ensures AllMeant(bindings, c, names) <==> TargetSet(bindings, Some(c), names)
  {
    forall n ensures Targeted(bindings, Some(c), n) <==> exists i :: 0 <= i < |bindings| && MeantFor(bindings[i], c, n) {
    }
  }

  lemma TargetsOkIsSafe(limits: NamespaceLimits, bindings: seq<Binding>, c: Cluster)
    requires forall i, j :: 0 <= i < |bindings| && 0 <= j < |bindings[i].selectors| ==> Valid(bindings[i].selectors[j])
    ensures NamespaceLimitsOk(limits, bindings, Some(c)) <==> TargetsSafe(limits, bindings, c)
  {
    forall n: string { NamespaceOkIsSafe(limits, n, c); }
    forall i, n | 0 <= i < |bindings| ensures MeantFor(bindings[i], c, n) <==> Targets(bindings[i], Some(c), n) {}
    forall names: set<string> ensures AllMeant(bindings, c, names) <==> TargetSet(bindings, Some(c), names) {
      SameTargetSets(bindings, c, names);
    }
    if NamespaceLimitsOk(limits, bindings, Some(c)) {
      forall i | 0 <= i < |bindings| ensures TargetsOk(limits, bindings[i], Some(c)) {}
    }
  }

  lemma SubjectOkIsSafe(p: Policy, s: Rbac.Subject, c: Cluster)
    ensures SubjectSafe(p, s, c) <==> p.subjects.Some? && SubjectOk(p.subjects.value, s, Some(c)) && AccountScopeOk(p.scope, s, Some(c))
  {
    KindsDiffer();
    ScopeMeaning(p.scope, s.namespace, c);
    if p.subjects.Some? {
      if p.subjects.value.users.Some? { NameOkIsSafe(p.subjects.value.users.value, s.name); }
      if p.subjects.value.groups.Some? { NameOkIsSafe(p.subjects.value.groups.value, s.name); }
      if p.subjects.value.accounts.Some? { AccountOkIsSafe(p.subjects.value.accounts.value, s.namespace, c); }
    }
  }

  ghost predicate RefsCompliant(p: Policy, d: Definition, c: Cluster) {
    if p.bindings.None? then !HasRoleRefs(d) else BindingsCompliant(p.bindings.value, d, Some(c))
  }

  ghost predicate RefsSafe(p: Policy, d: Definition, c: Cluster) {
    && (d.clusterRoleRefs != [] ==> p.bindings.Some? && p.bindings.value.allowCluster)
    && ClusterRefsSafe(ClusterLimits(p), d.clusterRoleRefs, c)
    && (forall i :: 0 <= i < |d.bindings| ==> ClusterRefsSafe(ClusterLimits(p), d.bindings[i].clusterRoleRefs, c))
    && (forall i :: 0 <= i < |d.bindings| ==> RoleRefsSafe(RoleLimits(p), d.bindings[i], c))
    && (p.bindings.Some? && p.bindings.value.targets.Some? ==> TargetsSafe(p.bindings.value.targets.value, d.bindings, c))
  }

  lemma BindingRefsAreSafe(limits: BindingLimits, b: Binding, c: Cluster)
    requires forall j :: 0 <= j < |b.selectors| ==> Valid(b.selectors[j])
    ensures BindingRefsOk(limits, b, Some(c)) <==> ClusterRefsSafe(limits.clusterRefs, b.clusterRoleRefs, c) && RoleRefsSafe(limits.roleRefs, b, c)
  {
    if limits.clusterRefs.Some? { ClusterRefsOkIsSafe(limits.clusterRefs.value, b.clusterRoleRefs, c); }
    if limits.roleRefs.Some? { RoleRefsOkIsSafe(limits.roleRefs.value, b, c); }
  }

  lemma RefsCompliantIsSafe(p: Policy, d: Definition, c: Cluster)
    requires forall i, j :: 0 <= i < |d.bindings| && 0 <= j < |d.bindings[i].selectors| ==> Valid(d.bindings[i].selectors[j])
    ensures RefsCompliant(p, d, c) <==> RefsSafe(p, d, c)
  {
    if p.bindings.Some? {
      var limits := p.bindings.value;
      forall i | 0 <= i < |d.bindings|
        ensures BindingRefsOk(limits, d.bindings[i], Some(c)) <==>
                ClusterRefsSafe(limits.clusterRefs, d.bindings[i].clusterRoleRefs, c) && RoleRefsSafe(limits.roleRefs, d.bindings[i], c)
      {
        BindingRefsAreSafe(limits, d.bindings[i], c);
      }
      if limits.clusterRefs.Some? { ClusterRefsOkIsSafe(limits.clusterRefs.value, d.clusterRoleRefs, c); }
      if limits.targets.Some? { TargetsOkIsSafe(limits.targets.value, d.bindings, c); }
    }
  }

  lemma ScopesAreSafe(p: Policy, d: Definition, c: Cluster)
    ensures (forall i :: 0 <= i < |d.bindings| ==> ScopeOk(p.scope, d.bindings[i], Some(c))) <==>
            forall i :: 0 <= i < |d.bindings| ==> ScopeSafe(p.scope, d.bindings[i], c)
  {
    forall i | 0 <= i < |d.bindings| ensures ScopeOk(p.scope, d.bindings[i], Some(c)) <==> ScopeSafe(p.scope, d.bindings[i], c) {
      ScopeOkIsSafe(p.scope, d.bindings[i], c);
    }
  }

  lemma SubjectsAreSafe(p: Policy, d: Definition, c: Cluster)
    ensures (forall i :: 0 <= i < |d.subjects| ==> SubjectSafe(p, d.subjects[i], c)) <==>
            && (forall i :: 0 <= i < |d.subjects| ==> AccountScopeOk(p.scope, d.subjects[i], Some(c)))
            && (if p.subjects.None? then d.subjects == []
                else forall i :: 0 <= i < |d.subjects| ==> SubjectOk(p.subjects.value, d.subjects[i], Some(c)))
  {
    forall i | 0 <= i < |d.subjects|
      ensures SubjectSafe(p, d.subjects[i], c) <==>
              p.subjects.Some? && SubjectOk(p.subjects.value, d.subjects[i], Some(c)) && AccountScopeOk(p.scope, d.subjects[i], Some(c))
    {
      SubjectOkIsSafe(p, d.subjects[i], c);
    }
    assert d.subjects != [] && p.subjects.None? ==> !SubjectSafe(p, d.subjects[0], c);
  }

  /** Compliance is exactly safety: the evaluation refuses no more and no less. */
  lemma CompliantIffSafe(p: Policy, d: Definition, c: Cluster)
    ensures Compliant(p, d, Some(c)) <==> Safe(p, d, c)
  {
    ScopesAreSafe(p, d, c);
    SubjectsAreSafe(p, d, c);
    if forall i :: 0 <= i < |d.bindings| ==> ScopeSafe(p.scope, d.bindings[i], c) {
      RefsCompliantIsSafe(p, d, c);
    }
  }
}
