/** Generated binding names and the admission check that no two role references claim one name
    (pkg/helpers/resource.go, api/authorization/v1alpha1/restrictedbinddefinition_webhook.go). */
module BindingNames {
  import opened Options
  import opened Strings
  import opened LabelSelectors
  import opened Bindings
  import opened Paging

  // ---------------------------------------------------------------- names

  const MAX_NAME: nat := 253
  const HASH_SUFFIX: nat := 8

  type Hash = string -> string

  /** Eight hexadecimal digits of a digest; nothing else is known of the hash. */
  ghost predicate ShortHash(hash: Hash) {
    forall s :: |hash(s)| == HASH_SUFFIX
  }

  function FullName(target: string, ref: string): string {
    target + "-" + ref + "-binding"
  }

  function BuildBindingName(hash: Hash, target: string, ref: string): string {
    var full := FullName(target, ref);
    if |full| <= MAX_NAME then full
    else full[..MAX_NAME - 1 - HASH_SUFFIX] + "-" + hash(full)
  }

  /** Names fit the Kubernetes limit, and without truncation a target's names tell its references apart. */
  lemma BindingNameBounds(hash: Hash, target: string, ref: string, ref': string)
    requires ShortHash(hash)
    ensures |BuildBindingName(hash, target, ref)| <= MAX_NAME
    ensures |FullName(target, ref)| <= MAX_NAME && |FullName(target, ref')| <= MAX_NAME ==>
              (BuildBindingName(hash, target, ref) == BuildBindingName(hash, target, ref') <==> ref == ref')
    ensures BuildBindingName(hash, target, ref) == BuildBindingName(hash, target, ref') && ref != ref' ==>
              |BuildBindingName(hash, target, ref)| == MAX_NAME
  {
    var full, full' := FullName(target, ref), FullName(target, ref');
    if full == full' {
      assert |ref| == |ref'|;
      var n := |target| + 1;
      assert full[n..n + |ref|] == ref && full'[n..n + |ref'|] == ref';
    }
  }

  /** Names that fit are spelled out; longer ones keep their first 244 characters and end in a dash and the hash. */
  lemma BindingNameForm(hash: Hash, target: string, ref: string)
    requires ShortHash(hash)
    ensures var name, full := BuildBindingName(hash, target, ref), target + "-" + ref + "-binding";
            if |target| + |ref| <= 244 then name == full
            else |name| == 253 && name[..244] == full[..244] && name[244] == '-' && name[245..] == hash(full)
  {
    assert |"-binding"| == 8;
  }

  // ---------------------------------------------------------------- claims

  datatype RoleKind = ClusterRole | NamespaceRole
  datatype Ref = Ref(kind: RoleKind, name: string)
  datatype Claim = Claim(namespace: string, ref: Ref)

  /** The name a reference's binding gets, for one object's target name. */
  function BindingName(hash: Hash, target: string, c: Claim): string {
    BuildBindingName(hash, target, c.ref.name)
  }

  function Key(hash: Hash, target: string, c: Claim): string {
    c.namespace + "/" + BindingName(hash, target, c)
  }

  /** Two different references claim one binding name in one namespace. */
  ghost predicate Conflicting(hash: Hash, target: string, claims: set<Claim>) {
    exists a, b :: a in claims && b in claims && Collide(hash, target, a, b)
  }

  predicate Collide(hash: Hash, target: string, a: Claim, b: Claim) {
    a.namespace == b.namespace && BindingName(hash, target, a) == BindingName(hash, target, b) && a.ref != b.ref
  }

  ghost predicate SlashFree(claims: set<Claim>) {
    forall c :: c in claims ==> '/' !in c.namespace
  }

  /** The claims map holds exactly the references recorded so far, under their keys. */
  ghost predicate Recorded(hash: Hash, target: string, m: map<string, Ref>, done: set<Claim>) {
    && (forall c :: c in done ==> Key(hash, target, c) in m && m[Key(hash, target, c)] == c.ref)
    && (forall k :: k in m ==> exists c :: c in done && Key(hash, target, c) == k && m[k] == c.ref)
  }

  lemma KeyUnique(hash: Hash, target: string, a: Claim, b: Claim)
    requires '/' !in a.namespace && '/' !in b.namespace
    ensures Key(hash, target, a) == Key(hash, target, b) <==>
            a.namespace == b.namespace && BindingName(hash, target, a) == BindingName(hash, target, b)
  {
    if Key(hash, target, a) == Key(hash, target, b) {
      CutUnique(a.namespace, BindingName(hash, target, a), b.namespace, BindingName(hash, target, b), '/');
    }
  }

  lemma RecordedIsSingleValued(hash: Hash, target: string, m: map<string, Ref>, done: set<Claim>)
    requires Recorded(hash, target, m, done)
    ensures !Conflicting(hash, target, done)
  {
  }

  /** recordRoleBindingNameClaim. */
  method Record(hash: Hash, target: string, m: map<string, Ref>, c: Claim, ghost done: set<Claim>)
    returns (ok: bool, m': map<string, Ref>)
    requires Recorded(hash, target, m, done) && SlashFree(done + {c})
    ensures ok ==> Recorded(hash, target, m', done + {c})
    ensures !ok ==> Conflicting(hash, target, done + {c})
  {
    var key := Key(hash, target, c);
    if key in m {
      if m[key] == c.ref {
        return true, m;
      }
      ghost var d :| d in done && Key(hash, target, d) == key && m[key] == d.ref;
      KeyUnique(hash, target, c, d);
      assert Collide(hash, target, c, d);
      return false, m;
    }
    m' := m[key := c.ref];
    assert forall d :: d in done ==> Key(hash, target, d) != key;
    forall k | k in m' ensures exists d :: d in done + {c} && Key(hash, target, d) == k && m'[k] == d.ref {
      if k != key {
        var d :| d in done && Key(hash, target, d) == k && m[k] == d.ref;
        assert d in done + {c};
      } else {
        assert c in done + {c};
      }
    }
    return true, m';
  }

  /** The claims of a list of references of one kind in one namespace. */
  ghost function RefClaims(namespace: string, kind: RoleKind, refs: seq<string>): set<Claim> {
    set r | r in refs :: Claim(namespace, Ref(kind, r))
  }

  lemma ConflictGrows(hash: Hash, target: string, a: set<Claim>, b: set<Claim>)
    requires a <= b && Conflicting(hash, target, a)
    ensures Conflicting(hash, target, b)
  {
  }

  method RecordRefs(hash: Hash, target: string, m: map<string, Ref>, namespace: string, kind: RoleKind, refs: seq<string>, ghost done: set<Claim>)
    returns (ok: bool, m': map<string, Ref>)
    requires Recorded(hash, target, m, done) && SlashFree(done) && '/' !in namespace
    ensures ok ==> Recorded(hash, target, m', done + RefClaims(namespace, kind, refs))
    ensures !ok ==> Conflicting(hash, target, done + RefClaims(namespace, kind, refs))
  {
    m' := m;
    assert done + RefClaims(namespace, kind, refs[..0]) == done;
    for j := 0 to |refs|
      invariant Recorded(hash, target, m', done + RefClaims(namespace, kind, refs[..j]))
    {
      var c := Claim(namespace, Ref(kind, refs[j]));
      ghost var before := done + RefClaims(namespace, kind, refs[..j]);
      RefClaimsStep(namespace, kind, refs, j);
      assert before + {c} == done + RefClaims(namespace, kind, refs[..j + 1]);
      ok, m' := Record(hash, target, m', c, before);
      if !ok {
        ConflictGrows(hash, target, before + {c}, done + RefClaims(namespace, kind, refs));
        return;
      }
    }
    assert refs[..|refs|] == refs;
    return true, m';
  }

  lemma RefClaimsStep(namespace: string, kind: RoleKind, refs: seq<string>, j: nat)
    requires j < |refs|
    ensures RefClaims(namespace, kind, refs[..j + 1]) == RefClaims(namespace, kind, refs[..j]) + {Claim(namespace, Ref(kind, refs[j]))}
    ensures RefClaims(namespace, kind, refs[..j + 1]) <= RefClaims(namespace, kind, refs)
  {
  }

  // ---------------------------------------------------------------- bindings

  type Store = map<string, Namespace>

  /** What a list request with a label selector ranges over. */
  ghost function Selected(store: Store, s: Selector): Store {
    map n | n in store && Selects(s, store[n].labels) :: store[n]
  }

  ghost predicate ReadsNamespaces(list: Selector -> Pages<Namespace>, store: Store) {
    forall s :: Valid(s) ==> Lists(list(s), Selected(store, s))
  }

  /** The active namespaces one selector selects. */
  ghost function Active(store: Store, s: Selector): set<string> {
    set n | n in store && Matches(s, store[n].labels) && !store[n].terminating
  }

  ghost function ActiveAny(store: Store, selectors: seq<Selector>): set<string> {
    set n | n in store && (exists i :: 0 <= i < |selectors| && n in Active(store, selectors[i]))
  }

  /** An explicit namespace wins, otherwise the union over the selectors. */
  ghost function Resolved(store: Store, b: Binding): set<string> {
    if b.namespace != "" then {b.namespace} else ActiveAny(store, b.selectors)
  }

  /** collectMatchingNamespacesForValidation: all pages of one selector, without terminating namespaces. */
  method CollectNamespaces(pages: Pages<Namespace>, s: Selector, names: set<string>, ghost store: Store) returns (names': set<string>)
    requires Valid(s) && Lists(pages, Selected(store, s))
    ensures names' == names + Active(store, s)
  {
    names' := names;
    var token := 0;
    while true
      invariant 0 <= token < |pages|
      invariant names <= names' <= names + Active(store, s)
      invariant forall p, k :: 0 <= p < token && 0 <= k < |pages[p]| && !pages[p][k].obj.terminating ==> pages[p][k].name in names'
      decreases |pages| - token
    {
      var items := pages[token];
      for i := 0 to |items|
        invariant names <= names' <= names + Active(store, s)
        invariant forall p, k :: 0 <= p < token && 0 <= k < |pages[p]| && !pages[p][k].obj.terminating ==> pages[p][k].name in names'
        invariant forall k :: 0 <= k < i && !items[k].obj.terminating ==> items[k].name in names'
      {
        assert At(pages, token, i);
        if !items[i].obj.terminating {
          names' := names' + {items[i].name};
        }
      }
      if token + 1 == |pages| {
        forall n | n in Active(store, s) ensures n in names' {
          assert n in Selected(store, s);
          var p, k :| At(pages, p, k) && pages[p][k].name == n;
        }
        return;
      }
      token := token + 1;
    }
  }

  /** resolveRoleBindingNamespacesForValidation: the sorted namespaces, or the first bad selector. */
  method Resolve(list: Selector -> Pages<Namespace>, b: Binding, ghost store: Store) returns (r: Option<seq<string>>)
    requires ReadsNamespaces(list, store)
    ensures r.Some? <==> Resolvable(b)
    ensures r.Some? ==> Elements(r.value) == Resolved(store, b) && StrictlySorted(r.value)
  {
    if b.namespace != "" {
      return Some([b.namespace]);
    }
    var names: set<string> := {};
    for i := 0 to |b.selectors|
      invariant forall k :: 0 <= k < i ==> Valid(b.selectors[k])
      invariant names == ActiveAny(store, b.selectors[..i])
    {
      if !Valid(b.selectors[i]) {
        return None;
      }
      names := CollectNamespaces(list(b.selectors[i]), b.selectors[i], names, store);
      ActiveAnyStep(store, b.selectors, i);
    }
    assert b.selectors[..|b.selectors|] == b.selectors;
    var sorted := SortedKeys(names);
    return Some(sorted);
  }

  predicate Resolvable(b: Binding) {
    b.namespace != "" || forall i :: 0 <= i < |b.selectors| ==> Valid(b.selectors[i])
  }

  lemma ActiveAnyStep(store: Store, selectors: seq<Selector>, i: nat)
    requires i < |selectors|
    ensures ActiveAny(store, selectors[..i + 1]) == ActiveAny(store, selectors[..i]) + Active(store, selectors[i])
  {
  }

  // ---------------------------------------------------------------- the check over all bindings

  ghost function ClaimsIn(b: Binding, namespace: string): set<Claim> {
    RefClaims(namespace, ClusterRole, b.clusterRoleRefs) + RefClaims(namespace, NamespaceRole, b.roleRefs)
  }

  ghost function BindingClaims(b: Binding, namespaces: seq<string>): set<Claim> {
    if namespaces == [] then {}
    else BindingClaims(b, namespaces[..|namespaces| - 1]) + ClaimsIn(b, namespaces[|namespaces| - 1])
  }

  lemma {:induction false} BindingClaimsMembers(b: Binding, namespaces: seq<string>, c: Claim)
    ensures c in BindingClaims(b, namespaces) <==> c.namespace in namespaces && c in ClaimsIn(b, c.namespace)
  {
    if namespaces != [] {
      var init := namespaces[..|namespaces| - 1];
      BindingClaimsMembers(b, init, c);
      assert namespaces == init + [namespaces[|namespaces| - 1]];
    }
  }

  /** Both reference lists of a binding in one namespace. */
  method RecordIn(hash: Hash, target: string, m: map<string, Ref>, b: Binding, namespace: string, ghost done: set<Claim>)
    returns (ok: bool, m': map<string, Ref>)
    requires Recorded(hash, target, m, done) && SlashFree(done) && '/' !in namespace
    ensures ok ==> Recorded(hash, target, m', done + ClaimsIn(b, namespace))
    ensures !ok ==> Conflicting(hash, target, done + ClaimsIn(b, namespace))
  {
    ghost var first := done + RefClaims(namespace, ClusterRole, b.clusterRoleRefs);
    ghost var both := first + RefClaims(namespace, NamespaceRole, b.roleRefs);
    assert both == done + ClaimsIn(b, namespace);
    ok, m' := RecordRefs(hash, target, m, namespace, ClusterRole, b.clusterRoleRefs, done);
    if !ok {
      ConflictGrows(hash, target, first, both);
      return;
    }
    assert SlashFree(first);
    ok, m' := RecordRefs(hash, target, m', namespace, NamespaceRole, b.roleRefs, first);
  }

  lemma BindingClaimsSlashFree(b: Binding, namespaces: seq<string>)
    requires forall k :: 0 <= k < |namespaces| ==> '/' !in namespaces[k]
    ensures SlashFree(BindingClaims(b, namespaces))
  {
    forall c | c in BindingClaims(b, namespaces) ensures '/' !in c.namespace {
      BindingClaimsMembers(b, namespaces, c);
    }
  }

  method RecordBinding(hash: Hash, target: string, m: map<string, Ref>, b: Binding, namespaces: seq<string>, ghost done: set<Claim>)
    returns (ok: bool, m': map<string, Ref>)
    requires Recorded(hash, target, m, done) && SlashFree(done) && forall k :: 0 <= k < |namespaces| ==> '/' !in namespaces[k]
    ensures SlashFree(done + BindingClaims(b, namespaces))
    ensures ok ==> Recorded(hash, target, m', done + BindingClaims(b, namespaces))
    ensures !ok ==> Conflicting(hash, target, done + BindingClaims(b, namespaces))
  {
    BindingClaimsSlashFree(b, namespaces);
    m' := m;
    ghost var sofar := done;
    assert BindingClaims(b, namespaces[..0]) == {};
    for k := 0 to |namespaces|
      invariant sofar == done + BindingClaims(b, namespaces[..k]) && SlashFree(sofar)
      invariant Recorded(hash, target, m', sofar)
    {
      ghost var after := sofar + ClaimsIn(b, namespaces[k]);
      BindingClaimsStep(b, namespaces, k);
      ok, m' := RecordIn(hash, target, m', b, namespaces[k], sofar);
      if !ok {
        ConflictGrows(hash, target, after, done + BindingClaims(b, namespaces));
        return;
      }
      sofar := after;
    }
    assert namespaces[..|namespaces|] == namespaces;
    return true, m';
  }

  lemma BindingClaimsStep(b: Binding, namespaces: seq<string>, k: nat)
    requires k < |namespaces|
    ensures BindingClaims(b, namespaces[..k + 1]) == BindingClaims(b, namespaces[..k]) + ClaimsIn(b, namespaces[k])
    ensures BindingClaims(b, namespaces[..k + 1]) <= BindingClaims(b, namespaces)
  {
    assert namespaces[..k + 1][..k] == namespaces[..k];
    forall c | c in BindingClaims(b, namespaces[..k + 1]) ensures c in BindingClaims(b, namespaces) {
      BindingClaimsMembers(b, namespaces[..k + 1], c);
      BindingClaimsMembers(b, namespaces, c);
    }
  }

  /** Everything the object will bind: cluster-wide references, and each binding's references in each
      namespace it resolves to. */
  ghost predicate Claimed(clusterRoleRefs: seq<string>, bindings: seq<Binding>, store: Store, c: Claim) {
    || c in RefClaims("", ClusterRole, clusterRoleRefs)
    || exists i :: 0 <= i < |bindings| && ClaimedBy(bindings[i], store, c)
  }

  ghost predicate ClaimedBy(b: Binding, store: Store, c: Claim) {
    c.namespace in Resolved(store, b) && c in ClaimsIn(b, c.namespace)
  }

  /** The map from namespace and generated name to role reference is single-valued. */
  ghost predicate SingleValued(hash: Hash, target: string, clusterRoleRefs: seq<string>, bindings: seq<Binding>, store: Store) {
    forall a, b :: Claimed(clusterRoleRefs, bindings, store, a) && Claimed(clusterRoleRefs, bindings, store, b) ==> !Collide(hash, target, a, b)
  }

  /** An active namespace the binding names or selects. */
  predicate Lands(b: Binding, store: Store, n: string) {
    if b.namespace != "" then n == b.namespace
    else n in store && !store[n].terminating && exists j :: 0 <= j < |b.selectors| && Matches(b.selectors[j], store[n].labels)
  }

  predicate RefersTo(b: Binding, ref: Ref) {
    ref.name in (if ref.kind == ClusterRole then b.clusterRoleRefs else b.roleRefs)
  }

  /** The object binds the reference in the namespace; cluster-wide references count for the empty namespace. */
  predicate BindsIn(clusterRoleRefs: seq<string>, bindings: seq<Binding>, store: Store, n: string, ref: Ref) {
    || (n == "" && ref.kind == ClusterRole && ref.name in clusterRoleRefs)
    || exists i :: 0 <= i < |bindings| && Lands(bindings[i], store, n) && RefersTo(bindings[i], ref)
  }

  lemma ClaimedIsBound(clusterRoleRefs: seq<string>, bindings: seq<Binding>, store: Store, c: Claim)
    ensures Claimed(clusterRoleRefs, bindings, store, c) <==> BindsIn(clusterRoleRefs, bindings, store, c.namespace, c.ref)
  {
    forall i | 0 <= i < |bindings|
      ensures ClaimedBy(bindings[i], store, c) <==> Lands(bindings[i], store, c.namespace) && RefersTo(bindings[i], c.ref)
    {
      var b := bindings[i];
      assert c in RefClaims(c.namespace, ClusterRole, b.clusterRoleRefs) <==> c.ref.kind == ClusterRole && c.ref.name in b.clusterRoleRefs by {
        assert c == Claim(c.namespace, Ref(c.ref.kind, c.ref.name));
      }
      assert c in RefClaims(c.namespace, NamespaceRole, b.roleRefs) <==> c.ref.kind == NamespaceRole && c.ref.name in b.roleRefs by {
        assert c == Claim(c.namespace, Ref(c.ref.kind, c.ref.name));
      }
    }
  }

  /** Single-valued claims: in no namespace two different references get one binding name. */
  lemma SingleValuedMeans(hash: Hash, target: string, clusterRoleRefs: seq<string>, bindings: seq<Binding>, store: Store)
    ensures SingleValued(hash, target, clusterRoleRefs, bindings, store) <==>
            forall n, x, y :: BindsIn(clusterRoleRefs, bindings, store, n, x) && BindsIn(clusterRoleRefs, bindings, store, n, y) && x != y ==>
              BuildBindingName(hash, target, x.name) != BuildBindingName(hash, target, y.name)
  {
    forall c: Claim { ClaimedIsBound(clusterRoleRefs, bindings, store, c); }
    if SingleValued(hash, target, clusterRoleRefs, bindings, store) {
      forall n, x, y | BindsIn(clusterRoleRefs, bindings, store, n, x) && BindsIn(clusterRoleRefs, bindings, store, n, y) && x != y
        ensures BuildBindingName(hash, target, x.name) != BuildBindingName(hash, target, y.name)
      {
        ClaimedIsBound(clusterRoleRefs, bindings, store, Claim(n, x));
        ClaimedIsBound(clusterRoleRefs, bindings, store, Claim(n, y));
        assert !Collide(hash, target, Claim(n, x), Claim(n, y));
      }
    }
  }

  datatype Verdict = Accepted | Duplicate | BadSelector

  /** The loops over references and bindings: how far they got and what was recorded. */
  method RecordAll(
    hash: Hash, target: string, clusterRoleRefs: seq<string>, bindings: seq<Binding>, list: Selector -> Pages<Namespace>, ghost store: Store)
    returns (v: Verdict, ghost at: nat, ghost done: set<Claim>)
    requires ReadsNamespaces(list, store)
    requires forall n :: n in store ==> '/' !in n
    requires forall i :: 0 <= i < |bindings| ==> '/' !in bindings[i].namespace
    ensures at <= |bindings| && Covers(done, clusterRoleRefs, bindings[..at], store)
    ensures v == Accepted ==> at == |bindings| && !Conflicting(hash, target, done)
    ensures v == Accepted ==> forall i :: 0 <= i < |bindings| ==> Resolvable(bindings[i])
    ensures v == Duplicate ==> Conflicting(hash, target, done)
    ensures v == BadSelector ==> at < |bindings| && !Resolvable(bindings[at])
  {
    at, done := 0, RefClaims("", ClusterRole, clusterRoleRefs);
    assert done == {} + done && Covers(done, clusterRoleRefs, bindings[..0], store);
    var ok, claims := RecordRefs(hash, target, map[], "", ClusterRole, clusterRoleRefs, {});
    if !ok {
      return Duplicate, at, done;
    }
    for i := 0 to |bindings|
      invariant forall k :: 0 <= k < i ==> Resolvable(bindings[k])
      invariant Recorded(hash, target, claims, done) && SlashFree(done)
      invariant at == i && Covers(done, clusterRoleRefs, bindings[..i], store)
    {
      var namespaces := Resolve(list, bindings[i], store);
      if namespaces.None? {
        return BadSelector, at, done;
      }
      ResolvedSlashFree(bindings[i], store, namespaces.value);
      ClaimedStep(clusterRoleRefs, bindings, store, i, namespaces.value, done);
      ok, claims := RecordBinding(hash, target, claims, bindings[i], namespaces.value, done);
      at, done := i + 1, done + BindingClaims(bindings[i], namespaces.value);
      if !ok {
        return Duplicate, at, done;
      }
    }
    RecordedIsSingleValued(hash, target, claims, done);
    return Accepted, at, done;
  }

  /** validateRoleBindingNameCollisionClaims accepts exactly the objects whose claims are single-valued. */
  method ValidateClaims(
    hash: Hash, target: string, clusterRoleRefs: seq<string>, bindings: seq<Binding>, list: Selector -> Pages<Namespace>, ghost store: Store)
    returns (v: Verdict)
    requires ReadsNamespaces(list, store)
    requires forall n :: n in store ==> '/' !in n
    requires forall i :: 0 <= i < |bindings| ==> '/' !in bindings[i].namespace
    ensures v == Accepted <==>
            && SingleValued(hash, target, clusterRoleRefs, bindings, store)
            && forall i :: 0 <= i < |bindings| ==> bindings[i].namespace != "" || forall s :: s in bindings[i].selectors ==> Valid(s)
    ensures v == Duplicate ==> !SingleValued(hash, target, clusterRoleRefs, bindings, store)
    ensures v == BadSelector ==> exists i :: 0 <= i < |bindings| && !Resolvable(bindings[i])
  {
    ghost var at, done;
    v, at, done := RecordAll(hash, target, clusterRoleRefs, bindings, list, store);
    forall i | 0 <= i < |bindings|
      ensures Resolvable(bindings[i]) <==> bindings[i].namespace != "" || forall s :: s in bindings[i].selectors ==> Valid(s)
    {
      assert forall j :: 0 <= j < |bindings[i].selectors| ==> bindings[i].selectors[j] in bindings[i].selectors;
    }
    if v == Accepted {
      assert bindings[..at] == bindings;
      NoConflictSuffices(hash, target, clusterRoleRefs, bindings, store, done);
    } else if v == Duplicate {
      ConflictRefutes(hash, target, clusterRoleRefs, bindings, store, at, done);
    }
  }

  /** The set holds exactly what the bindings claim. */
  ghost predicate Covers(done: set<Claim>, clusterRoleRefs: seq<string>, bindings: seq<Binding>, store: Store) {
    forall c :: c in done <==> Claimed(clusterRoleRefs, bindings, store, c)
  }

  lemma ResolvedSlashFree(b: Binding, store: Store, namespaces: seq<string>)
    requires Elements(namespaces) == Resolved(store, b) && '/' !in b.namespace && forall n :: n in store ==> '/' !in n
    ensures forall k :: 0 <= k < |namespaces| ==> '/' !in namespaces[k]
  {
    forall k | 0 <= k < |namespaces| ensures '/' !in namespaces[k] {
      assert namespaces[k] in Elements(namespaces);
    }
  }

  lemma NoConflictSuffices(hash: Hash, target: string, clusterRoleRefs: seq<string>, bindings: seq<Binding>, store: Store, done: set<Claim>)
    requires Covers(done, clusterRoleRefs, bindings, store) && !Conflicting(hash, target, done)
    ensures SingleValued(hash, target, clusterRoleRefs, bindings, store)
  {
  }

  lemma ConflictRefutes(
    hash: Hash, target: string, clusterRoleRefs: seq<string>, bindings: seq<Binding>, store: Store, i: nat, claims: set<Claim>)
    requires i <= |bindings| && Conflicting(hash, target, claims) && Covers(claims, clusterRoleRefs, bindings[..i], store)
    ensures !SingleValued(hash, target, clusterRoleRefs, bindings, store)
  {
  }

  lemma ClaimedStep(clusterRoleRefs: seq<string>, bindings: seq<Binding>, store: Store, i: nat, namespaces: seq<string>, done: set<Claim>)
    requires i < |bindings| && Elements(namespaces) == Resolved(store, bindings[i])
    requires Covers(done, clusterRoleRefs, bindings[..i], store)
    ensures Covers(done + BindingClaims(bindings[i], namespaces), clusterRoleRefs, bindings[..i + 1], store)
  {
    var a, b := bindings[..i], bindings[..i + 1];
    assert b == a + [bindings[i]];
    forall c ensures c in done + BindingClaims(bindings[i], namespaces) <==> Claimed(clusterRoleRefs, b, store, c) {
      BindingClaimsMembers(bindings[i], namespaces, c);
      assert c.namespace in namespaces <==> c.namespace in Elements(namespaces);
      assert ClaimedBy(b[i], store, c) <==> c in BindingClaims(bindings[i], namespaces);
      if k :| 0 <= k < |b| && ClaimedBy(b[k], store, c) {
        if k < i { assert ClaimedBy(a[k], store, c); }
      }
      if k :| 0 <= k < |a| && ClaimedBy(a[k], store, c) {
        assert ClaimedBy(b[k], store, c);
      }
    }
  }
}
