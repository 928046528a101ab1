/** Completing discovered API resources with the subresources and verbs RBAC needs (pkg/discovery/tracker.go). */
module Discovery {
  import opened Options
  import opened Strings

  datatype Resource = Resource(name: string, verbs: seq<string>, kind: string, namespaced: bool)
  datatype GroupVersion = GroupVersion(group: string, version: string)
  type Snapshot = map<string, seq<Resource>>

  const FINALIZERS := "/finalizers"
  const STATUS := "/status"

  /** schema.ParseGroupVersion: at most one slash; the core group has none. */
  function ParseGroupVersion(text: string): Option<GroupVersion> {
    var parts := Split(text, '/');
    if text == "" || text == "/" then Some(GroupVersion("", ""))
    else if |parts| == 1 then Some(GroupVersion("", parts[0]))
    else if |parts| == 2 then Some(GroupVersion(parts[0], parts[1]))
    else None
  }

  function WithVerb(verbs: seq<string>, verb: string): seq<string> {
    if verb in verbs then verbs else verbs + [verb]
  }

  predicate IsSubresource(name: string) {
    '/' in name
  }

  predicate NeedsListing(name: string) {
    IsSubresource(name) && (HasSuffix(name, STATUS) || HasSuffix(name, FINALIZERS))
  }

  predicate IsRoleResource(gv: GroupVersion, name: string) {
    gv == GroupVersion("rbac.authorization.k8s.io", "v1") && (name == "clusterroles" || name == "roles")
  }

  predicate IsNodes(gv: GroupVersion, name: string) {
    gv == GroupVersion("", "v1") && name == "nodes"
  }

  /** The resource with the verbs RBAC rules name but discovery does not report. */
  function Enriched(gv: GroupVersion, r: Resource): Resource {
    var listed := if NeedsListing(r.name) then r.(verbs := WithVerb(WithVerb(r.verbs, "list"), "watch")) else r;
    if IsRoleResource(gv, r.name) then listed.(verbs := WithVerb(WithVerb(listed.verbs, "bind"), "escalate")) else listed
  }

  function Finalizers(r: Resource): Resource {
    r.(name := r.name + FINALIZERS, verbs := ["update", "list", "watch"])
  }

  const NODE_METRICS := "nodes/metrics"

  function NodeMetrics(r: Resource): Resource {
    r.(name := NODE_METRICS, verbs := ["get", "list", "watch"])
  }

  /** The entries that replace one resource. */
  function Expanded(gv: GroupVersion, names: set<string>, r: Resource): seq<Resource> {
    var e := Enriched(gv, r);
    if IsSubresource(r.name) then [e]
    else
      [e] + (if r.name + FINALIZERS in names then [] else [Finalizers(e)])
          + (if IsNodes(gv, r.name) && NODE_METRICS !in names then [NodeMetrics(e)] else [])
  }

  function Names(rs: seq<Resource>): set<string> {
    set i | 0 <= i < |rs| :: rs[i].name
  }

  function AllExpanded(gv: GroupVersion, names: set<string>, rs: seq<Resource>): seq<Resource> {
    if rs == [] then [] else AllExpanded(gv, names, rs[..|rs| - 1]) + Expanded(gv, names, rs[|rs| - 1])
  }

  function AugmentGroup(gv: GroupVersion, rs: seq<Resource>): seq<Resource> {
    AllExpanded(gv, Names(rs), rs)
  }

  function Augmented(s: Snapshot): Snapshot {
    map text | text in s :: match ParseGroupVersion(text)
                            case None => s[text]
                            case Some(gv) => AugmentGroup(gv, s[text])
  }

  method AddVerb(verbs: seq<string>, wanted: seq<string>) returns (verbs': seq<string>)
    requires |wanted| == 2
    ensures verbs' == WithVerb(WithVerb(verbs, wanted[0]), wanted[1])
  {
    verbs' := verbs;
    for i := 0 to 2
      invariant verbs' == if i == 0 then verbs else if i == 1 then WithVerb(verbs, wanted[0]) else WithVerb(WithVerb(verbs, wanted[0]), wanted[1])
    {
      if wanted[i] !in verbs' {
        verbs' := verbs' + [wanted[i]];
      }
    }
  }

  method Enrich(gv: GroupVersion, resource: Resource) returns (r: Resource)
    ensures r == Enriched(gv, resource)
  {
    r := resource;
    if NeedsListing(r.name) {
      var verbs := AddVerb(r.verbs, ["list", "watch"]);
      r := r.(verbs := verbs);
    }
    if IsRoleResource(gv, r.name) {
      var verbs := AddVerb(r.verbs, ["bind", "escalate"]);
      r := r.(verbs := verbs);
    }
  }

  /** The body of the loop over the resources of a group version. */
  method Expand(gv: GroupVersion, names: set<string>, resource: Resource) returns (result: seq<Resource>)
    ensures result == Expanded(gv, names, resource)
  {
    var r := Enrich(gv, resource);
    result := [r];
    if IsSubresource(r.name) {
      return;
    }
    if r.name + FINALIZERS !in names {
      result := result + [Finalizers(r)];
    }
    if IsNodes(gv, r.name) && NODE_METRICS !in names {
      result := result + [NodeMetrics(r)];
    }
  }

  method AugmentList(gv: GroupVersion, rs: seq<Resource>) returns (result: seq<Resource>)
    ensures result == AugmentGroup(gv, rs)
  {
    var names: set<string> := {};
    for i := 0 to |rs|
      invariant names == set k | 0 <= k < i :: rs[k].name
    {
      names := names + {rs[i].name};
    }
    result := [];
    for i := 0 to |rs|
      invariant result == AllExpanded(gv, names, rs[..i])
    {
      var more := Expand(gv, names, rs[i]);
      assert rs[..i + 1][..i] == rs[..i];
      result := result + more;
    }
    assert rs[..|rs|] == rs;
  }

  /** augmentRBACResources: every group version in turn, in whatever order the map yields them. */
  method AugmentResources(snapshot: Snapshot) returns (result: Snapshot)
    ensures result == Augmented(snapshot)
  {
    result := snapshot;
    var rest := snapshot.Keys;
    while rest != {}
      invariant rest <= snapshot.Keys == result.Keys
      invariant forall t :: t in rest ==> result[t] == snapshot[t]
      invariant forall t :: t in snapshot.Keys - rest ==> result[t] == Augmented(snapshot)[t]
      decreases rest
    {
      var text :| text in rest;
      rest := rest - {text};
      var gv := ParseGroupVersion(text);
      if gv.Some? {
        var augmented := AugmentList(gv.value, snapshot[text]);
        result := result[text := augmented];
      }
    }
  }

  // ---------------------------------------------------------------- what one group version gains

  lemma {:induction false} ExpandedMembers(gv: GroupVersion, names: set<string>, rs: seq<Resource>, x: Resource)
    ensures x in AllExpanded(gv, names, rs) <==> exists i :: 0 <= i < |rs| && x in Expanded(gv, names, rs[i])
  {
    if rs != [] {
      var init := rs[..|rs| - 1];
      ExpandedMembers(gv, names, init, x);
      assert rs == init + [rs[|rs| - 1]];
      if x in AllExpanded(gv, names, init) {
        var i :| 0 <= i < |init| && x in Expanded(gv, names, init[i]);
        assert rs[i] == init[i];
      }
      if i :| 0 <= i < |rs| && x in Expanded(gv, names, rs[i]) {
        if i < |init| { assert rs[i] == init[i]; }
      }
    }
  }

  /** Every original resource and verb is kept. */
  lemma KeepsPairs(gv: GroupVersion, rs: seq<Resource>, i: nat)
    requires i < |rs|
    ensures Enriched(gv, rs[i]) in AugmentGroup(gv, rs) && Enriched(gv, rs[i]).name == rs[i].name
    ensures forall v :: v in rs[i].verbs ==> v in Enriched(gv, rs[i]).verbs
  {
    ExpandedMembers(gv, Names(rs), rs, Enriched(gv, rs[i]));
  }

  /** Every resource that is no subresource has its finalizers entry in the same group version. */
  lemma HasFinalizers(gv: GroupVersion, rs: seq<Resource>, r: Resource)
    requires r in AugmentGroup(gv, rs) && !IsSubresource(r.name)
    ensures exists f :: f in AugmentGroup(gv, rs) && f.name == r.name + FINALIZERS
  {
    ExpandedMembers(gv, Names(rs), rs, r);
    var i :| 0 <= i < |rs| && r in Expanded(gv, Names(rs), rs[i]);
    AddedAreSubresources(gv, Names(rs), rs[i], r);
    if r.name + FINALIZERS in Names(rs) {
      var k :| 0 <= k < |rs| && rs[k].name == r.name + FINALIZERS;
      KeepsPairs(gv, rs, k);
    } else {
      var f := Finalizers(Enriched(gv, rs[i]));
      ExpandedMembers(gv, Names(rs), rs, f);
    }
  }

  lemma AddedAreSubresources(gv: GroupVersion, names: set<string>, r: Resource, x: Resource)
    requires x in Expanded(gv, names, r)
    ensures x == Enriched(gv, r) || IsSubresource(x.name)
  {
  }

  // ---------------------------------------------------------------- exactly what is gained

  /** The verbs discovery does not report: listing for status and finalizers, binding and escalating for roles. */
  predicate Gains(gv: GroupVersion, name: string, verb: string) {
    || (verb in {"list", "watch"} && '/' in name && (HasSuffix(name, "/status") || HasSuffix(name, "/finalizers")))
    || (verb in {"bind", "escalate"} && gv == GroupVersion("rbac.authorization.k8s.io", "v1") && name in {"clusterroles", "roles"})
  }

  lemma EnrichedVerbs(gv: GroupVersion, r: Resource, v: string)
    ensures v in Enriched(gv, r).verbs <==> v in r.verbs || Gains(gv, r.name, v)
    ensures Enriched(gv, r) == r.(verbs := Enriched(gv, r).verbs) && r.verbs <= Enriched(gv, r).verbs
  {
    NameDecides(gv, r.name);
    var listed := if NeedsListing(r.name) then WithVerb(WithVerb(r.verbs, "list"), "watch") else r.verbs;
    VerbsWith(r.verbs, "list", "watch", v);
    VerbsWith(listed, "bind", "escalate", v);
  }

  lemma NameDecides(gv: GroupVersion, name: string)
    ensures NeedsListing(name) <==> '/' in name && (HasSuffix(name, "/status") || HasSuffix(name, "/finalizers"))
    ensures IsRoleResource(gv, name) <==> gv == GroupVersion("rbac.authorization.k8s.io", "v1") && name in {"clusterroles", "roles"}
  {
  }

  lemma VerbsWith(verbs: seq<string>, a: string, b: string, v: string)
    ensures v in WithVerb(WithVerb(verbs, a), b) <==> v in verbs || v == a || v == b
    ensures verbs <= WithVerb(WithVerb(verbs, a), b)
  {
  }

  /** Subresources that are added to a resource, unless they were reported. */
  predicate AddedTo(gv: GroupVersion, r: Resource, names: set<string>, x: Resource) {
    && '/' !in r.name && x.name !in names && x.kind == r.kind && x.namespaced == r.namespaced
    && (|| (x.name == r.name + "/finalizers" && x.verbs == ["update", "list", "watch"])
        || (gv == GroupVersion("", "v1") && r.name == "nodes" && x.name == "nodes/metrics" && x.verbs == ["get", "list", "watch"]))
  }

  lemma ExpandedExactly(gv: GroupVersion, names: set<string>, r: Resource, x: Resource)
    ensures x in Expanded(gv, names, r) <==> x == Enriched(gv, r) || AddedTo(gv, r, names, x)
  {
    var e := Enriched(gv, r);
    assert x == Finalizers(e) <==> x.name == r.name + "/finalizers" && x.verbs == ["update", "list", "watch"] && x.kind == r.kind && x.namespaced == r.namespaced;
    assert x == NodeMetrics(e) <==> x.name == "nodes/metrics" && x.verbs == ["get", "list", "watch"] && x.kind == r.kind && x.namespaced == r.namespaced;
  }

  /** An augmented group version holds the reported resources with the verbs they gain, and the missing subresources. */
  lemma AugmentedExactly(gv: GroupVersion, rs: seq<Resource>, x: Resource)
    ensures x in AugmentGroup(gv, rs) <==>
            exists i :: 0 <= i < |rs| && (x == Enriched(gv, rs[i]) || AddedTo(gv, rs[i], Names(rs), x))
  {
    ExpandedMembers(gv, Names(rs), rs, x);
    forall i | 0 <= i < |rs| ensures x in Expanded(gv, Names(rs), rs[i]) <==> x == Enriched(gv, rs[i]) || AddedTo(gv, rs[i], Names(rs), x) {
      ExpandedExactly(gv, Names(rs), rs[i], x);
    }
  }

  /** A group version is a version of the core group or a group and a version around the one slash. */
  lemma ParsedExactly(text: string, gv: GroupVersion)
    ensures ParseGroupVersion(text) == Some(gv) <==>
            && '/' !in gv.group && '/' !in gv.version
            && (text == gv.group + "/" + gv.version || (gv.group == "" && text == gv.version))
  {
    var parts := Split(text, '/');
    SplitFree(text, '/');
    JoinSplit(text, '/');
    if '/' !in gv.group && '/' !in gv.version {
      SplitHead(gv.group, gv.version, '/');
      SplitNoSep(gv.version, '/');
      assert gv.group + ['/'] + gv.version == gv.group + "/" + gv.version;
    }
    if |parts| == 2 {
      assert parts[1..] == [parts[1]] && text == parts[0] + "/" + parts[1];
    }
  }

  // ---------------------------------------------------------------- idempotence

  lemma EnrichTwice(gv: GroupVersion, r: Resource)
    ensures Enriched(gv, Enriched(gv, r)) == Enriched(gv, r)
  {
    RolesAreNoSubresources(gv, r.name);
  }

  lemma RolesAreNoSubresources(gv: GroupVersion, name: string)
    ensures IsRoleResource(gv, name) ==> !IsSubresource(name)
  {
  }

  lemma AddedStay(gv: GroupVersion, x: Resource)
    requires IsSubresource(x.name) && "list" in x.verbs && "watch" in x.verbs
    ensures Enriched(gv, x) == x
  {
    RolesAreNoSubresources(gv, x.name);
  }

  lemma HasNodeMetrics(gv: GroupVersion, rs: seq<Resource>, i: nat)
    requires i < |rs| && IsNodes(gv, rs[i].name) && !IsSubresource(rs[i].name)
    ensures exists f :: f in AugmentGroup(gv, rs) && f.name == NODE_METRICS
  {
    if NODE_METRICS in Names(rs) {
      var k :| 0 <= k < |rs| && rs[k].name == NODE_METRICS;
      KeepsPairs(gv, rs, k);
    } else {
      var f := NodeMetrics(Enriched(gv, rs[i]));
      ExpandedMembers(gv, Names(rs), rs, f);
    }
  }

  lemma MemberName(rs: seq<Resource>, r: Resource)
    requires r in rs
    ensures r.name in Names(rs)
  {
  }

  /** An augmented entry is left alone by a second pass. */
  lemma Settled(gv: GroupVersion, rs: seq<Resource>, x: Resource)
    requires x in AugmentGroup(gv, rs)
    ensures Expanded(gv, Names(AugmentGroup(gv, rs)), x) == [x]
  {
    var out := AugmentGroup(gv, rs);
    ExpandedMembers(gv, Names(rs), rs, x);
    var i :| 0 <= i < |rs| && x in Expanded(gv, Names(rs), rs[i]);
    var e := Enriched(gv, rs[i]);
    AddedAreSubresources(gv, Names(rs), rs[i], x);
    if x == e {
      EnrichTwice(gv, rs[i]);
    } else {
      AddedStay(gv, x);
    }
    if !IsSubresource(x.name) {
      HasFinalizers(gv, rs, x);
      var f :| f in out && f.name == x.name + FINALIZERS;
      MemberName(out, f);
      if IsNodes(gv, x.name) {
        HasNodeMetrics(gv, rs, i);
        var m :| m in out && m.name == NODE_METRICS;
        MemberName(out, m);
      }
    }
  }

  lemma {:induction false} AllSettled(gv: GroupVersion, names: set<string>, rs: seq<Resource>)
    requires forall i :: 0 <= i < |rs| ==> Expanded(gv, names, rs[i]) == [rs[i]]
    ensures AllExpanded(gv, names, rs) == rs
  {
    if rs != [] {
      AllSettled(gv, names, rs[..|rs| - 1]);
      assert rs == rs[..|rs| - 1] + [rs[|rs| - 1]];
    }
  }

  lemma GroupIdempotent(gv: GroupVersion, rs: seq<Resource>)
    ensures AugmentGroup(gv, AugmentGroup(gv, rs)) == AugmentGroup(gv, rs)
  {
    var out := AugmentGroup(gv, rs);
    forall i | 0 <= i < |out| ensures Expanded(gv, Names(out), out[i]) == [out[i]] {
      Settled(gv, rs, out[i]);
    }
    AllSettled(gv, Names(out), out);
  }

  /** Augmenting an augmented snapshot changes nothing. */
  lemma AugmentIdempotent(s: Snapshot)
    ensures Augmented(Augmented(s)) == Augmented(s)
  {
    var t := Augmented(s);
    forall text | text in s ensures Augmented(t)[text] == t[text] {
      match ParseGroupVersion(text)
      case None =>
      case Some(gv) => GroupIdempotent(gv, s[text]);
    }
    assert Augmented(t).Keys == t.Keys;
  }

  // ---------------------------------------------------------------- distinct names

  predicate DistinctNames(rs: seq<Resource>) {
    forall i, j :: 0 <= i < j < |rs| ==> rs[i].name != rs[j].name
  }

  /** Where the name of an entry comes from. */
  predicate NamedAfter(gv: GroupVersion, names: set<string>, r: Resource, name: string) {
    || name == r.name
    || (name == r.name + FINALIZERS && name !in names)
    || (name == NODE_METRICS && name !in names && r.name == "nodes")
  }

  lemma ExpandedNames(gv: GroupVersion, names: set<string>, r: Resource)
    requires r.name in names
    ensures forall x :: x in Expanded(gv, names, r) ==> NamedAfter(gv, names, r, x.name)
    ensures DistinctNames(Expanded(gv, names, r))
  {
    assert r.name != r.name + FINALIZERS by { assert |r.name| != |r.name + FINALIZERS|; }
    FinalizersAreNoMetrics(r.name);
  }

  lemma FinalizersAreNoMetrics(name: string)
    ensures name + FINALIZERS != NODE_METRICS
  {
    var f := name + FINALIZERS;
    assert f[|f| - 1] == FINALIZERS[10];
    assert FINALIZERS[9] == 'r' && f[|f| - 2] == 'r';
    assert |NODE_METRICS| == 13 && NODE_METRICS[11] == 'c';
  }

  lemma OriginsDiffer(gv: GroupVersion, names: set<string>, a: Resource, b: Resource, x: string)
    requires a.name in names && b.name in names && a.name != b.name
    requires NamedAfter(gv, names, a, x)
    ensures !NamedAfter(gv, names, b, x)
  {
    FinalizersAreNoMetrics(a.name);
    FinalizersAreNoMetrics(b.name);
    assert (a.name + FINALIZERS)[..|a.name|] == a.name && (b.name + FINALIZERS)[..|b.name|] == b.name;
    assert a.name + FINALIZERS == b.name + FINALIZERS ==> |a.name| == |b.name|;
  }

  lemma DistinctConcat(a: seq<Resource>, b: seq<Resource>)
    requires DistinctNames(a) && DistinctNames(b) && forall x, y :: x in a && y in b ==> x.name != y.name
    ensures DistinctNames(a + b)
  {
  }

  lemma {:induction false} PrefixDistinct(gv: GroupVersion, names: set<string>, rs: seq<Resource>)
    requires DistinctNames(rs) && forall i :: 0 <= i < |rs| ==> rs[i].name in names
    ensures DistinctNames(AllExpanded(gv, names, rs))
  {
    if rs != [] {
      var init, last := rs[..|rs| - 1], rs[|rs| - 1];
      PrefixDistinct(gv, names, init);
      ExpandedNames(gv, names, last);
      forall x, y | x in AllExpanded(gv, names, init) && y in Expanded(gv, names, last) ensures x.name != y.name {
        ExpandedMembers(gv, names, init, x);
        var i :| 0 <= i < |init| && x in Expanded(gv, names, init[i]);
        ExpandedNames(gv, names, init[i]);
        assert init[i] == rs[i];
        OriginsDiffer(gv, names, rs[i], last, x.name);
      }
      DistinctConcat(AllExpanded(gv, names, init), Expanded(gv, names, last));
    }
  }

  /** Distinct resource names stay distinct. */
  lemma KeepsDistinct(gv: GroupVersion, rs: seq<Resource>)
    requires DistinctNames(rs)
    ensures DistinctNames(AugmentGroup(gv, rs))
  {
    PrefixDistinct(gv, Names(rs), rs);
  }
}
