/** The comparison before an apply on the rules compiled from a constrained-impersonation spec: what a role
    that is left alone grants (pkg/ssa/patchhelper.go,
    api/authorization/v1alpha1/constrained_impersonation_types.go). */
module ApplyImpersonation {
  import opened Strings
  import opened Rbac
  import opened RuleLists
  import opened ImpersonationVerbs
  import I = Impersonation
  import opened ApplyDiff

  // ---------------------------------------------------------------- compiled rules are well-formed

  predicate PlainText(s: string) {
    ',' !in s && '|' !in s
  }

  predicate PlainAction(a: I.ActionRule) {
    PlainList(a.apiGroups) && PlainList(a.resources) && PlainList(a.resourceNames) && PlainList(a.verbs)
  }

  predicate PlainIdentity(id: I.IdentityRule) {
    PlainText(id.extraKey) && PlainList(id.names)
  }

  /** No entry of the spec contains a separator of the keys. */
  predicate PlainSpec(spec: I.Spec) {
    && (forall i :: 0 <= i < |spec.identities| ==> PlainIdentity(spec.identities[i]))
    && (forall i :: 0 <= i < |spec.actions| ==> PlainAction(spec.actions[i]))
  }

  lemma PlainByElements(a: seq<string>, b: seq<string>)
    requires PlainList(a) && Elements(b) <= Elements(a)
    ensures PlainList(b)
  {
    forall i | 0 <= i < |b| ensures PlainText(b[i]) {
      assert b[i] in Elements(b);
      var k :| 0 <= k < |a| && a[k] == b[i];
    }
  }

  lemma WordsArePlain(mode: string)
    requires KnownMode(mode)
    ensures PlainText(IdentityVerb(mode)) && PlainText(I.AUTHENTICATION_GROUP) && PlainText(ON_PREFIX + mode + ":")
  {
    assert PlainText(PREFIX) && PlainText(ON_PREFIX) && PlainText(mode);
  }

  lemma RenderedIsPlain(id: I.IdentityRule)
    requires I.KnownResource(id.resource) && PlainText(id.extraKey)
    ensures PlainText(I.Rendered(id)) && I.Rendered(id) != ""
  {
    ResourcesArePlain();
    assert id.resource == I.USERS || id.resource == I.GROUPS || id.resource == I.UIDS || id.resource == I.USER_EXTRAS ||
           id.resource == I.SERVICE_ACCOUNTS || id.resource == I.NODES;
    if id.resource == I.USER_EXTRAS { JoinedIsPlain(I.USER_EXTRAS, id.extraKey); }
  }

  lemma JoinedIsPlain(a: string, b: string)
    requires PlainText(a) && PlainText(b)
    ensures PlainText(a + "/" + b)
  {
  }

  lemma ResourcesArePlain()
    ensures PlainText(I.USERS) && PlainText(I.GROUPS) && PlainText(I.UIDS) && PlainText(I.USER_EXTRAS)
    ensures PlainText(I.SERVICE_ACCOUNTS) && PlainText(I.NODES)
  {
  }

  lemma NamesForPlain(grants: seq<Grant>, resource: string)
    requires forall i :: 0 <= i < |grants| ==> PlainList(grants[i].names)
    ensures PlainList(NamesFor(grants, resource))
  {
    var names := NamesFor(grants, resource);
    forall n | 0 <= n < |names| ensures PlainText(names[n]) {
      var i := NamesForOrigin(grants, resource, names[n]);
      var k :| 0 <= k < |grants[i].names| && grants[i].names[k] == names[n];
    }
  }

  lemma IdentityRuleWellFormed(spec: I.Spec, resource: string)
    requires KnownMode(spec.mode) && PlainSpec(spec) && PlainText(resource) && resource != ""
    ensures WellFormed(MergedRule(IdentityVerb(spec.mode), I.AUTHENTICATION_GROUP, I.Grants(spec.identities), resource))
  {
    var grants := I.Grants(spec.identities);
    var names := NamesFor(grants, resource);
    WordsArePlain(spec.mode);
    assert IdentityVerb(spec.mode) != "";
    forall i | 0 <= i < |grants| ensures PlainList(grants[i].names) { assert PlainIdentity(spec.identities[i]); }
    NamesForPlain(grants, resource);
    PlainByElements(names, DedupeSorted(names));
    InElements(DedupeSorted(names), "");
  }

  lemma ActionVerbsPlain(mode: string, verbs: seq<string>)
    requires KnownMode(mode) && PlainList(verbs)
    ensures PlainList(I.ActionVerbs(mode, verbs))
  {
    WordsArePlain(mode);
    forall k | 0 <= k < |verbs| ensures PlainText(I.ActionVerbs(mode, verbs)[k]) {
      assert PlainText(verbs[k]);
    }
  }

  lemma ActionWellFormed(mode: string, a: I.ActionRule)
    requires KnownMode(mode) && I.ActionOk(a) && "" !in a.resources && PlainAction(a)
    ensures WellFormed(I.ActionPolicy(mode, a))
  {
    var p := I.ActionPolicy(mode, a);
    var verbs := I.ActionVerbs(mode, a.verbs);
    ActionVerbsPlain(mode, a.verbs);
    PlainByElements(verbs, p.verbs);
    PlainByElements(a.apiGroups, p.apiGroups);
    PlainByElements(a.resources, p.resources);
    PlainByElements(a.resourceNames, p.resourceNames);
    StaysNonEmpty(a.apiGroups, p.apiGroups, a.apiGroups[0]);
    StaysNonEmpty(a.resources, p.resources, a.resources[0]);
    NoEmptyEntry(verbs);
    NoEmptyEntry(a.resources);
    NoEmptyEntry(a.resourceNames);
  }

  lemma StaysNonEmpty(a: seq<string>, b: seq<string>, x: string)
    requires x in a && Elements(b) >= Elements(a) - (if x == "" then {} else {""})
    ensures b != []
  {
    assert x in Elements(a);
    assert x in Elements(b);
  }

  lemma NoEmptyEntry(xs: seq<string>)
    ensures DedupeSorted(xs) != [""]
  {
    InElements(DedupeSorted(xs), "");
  }

  /** Every rule compiled from an accepted spec without separators is well-formed. */
  lemma CompiledIsWellFormed(spec: I.Spec, clusterRole: bool, validKey: string -> bool, k: nat)
    requires I.Accepted(spec, clusterRole, validKey) && I.MarkersHold(spec) && PlainSpec(spec) && k < |I.Compile(spec)|
    ensures WellFormed(I.Compile(spec)[k])
  {
    var grants := I.Grants(spec.identities);
    var resources := SortUnique(Resources(grants));
    if k < |resources| {
      InElements(resources, resources[k]);
      var i :| 0 <= i < |grants| && Resources(grants)[i] == resources[k];
      assert I.IdentityOk(spec.identities[i], spec.mode, clusterRole, validKey) && PlainIdentity(spec.identities[i]);
      RenderedIsPlain(spec.identities[i]);
      IdentityRuleWellFormed(spec, resources[k]);
    } else {
      var i := k - |resources|;
      assert I.ActionOk(spec.actions[i]) && PlainAction(spec.actions[i]);
      ActionWellFormed(spec.mode, spec.actions[i]);
    }
  }

  // ---------------------------------------------------------------- what a role that is left alone grants

  /** Left alone and told apart, the live role grants exactly what the spec denotes. */
  lemma UpToDateGrantsTheSpec(existing: Role, desired: RoleConfig, spec: I.Spec, clusterRole: bool, validKey: string -> bool, r: Request)
    requires I.Accepted(spec, clusterRole, validKey) && I.MarkersHold(spec) && desired.rules == I.Compile(spec)
    requires UpToDate(existing, desired) && ToldApart(existing.rules, desired.rules)
    ensures Allows(existing.rules, r) <==> I.Denotes(spec, r)
  {
    UpToDateGrantsTheSame(existing, desired, r);
    I.CompilePreservesMeaning(spec, clusterRole, validKey, r);
  }

  /** It is told apart when neither side has a separator in an entry. */
  lemma PlainUpToDate(existing: Role, desired: RoleConfig, spec: I.Spec, clusterRole: bool, validKey: string -> bool, r: Request)
    requires I.Accepted(spec, clusterRole, validKey) && I.MarkersHold(spec) && PlainSpec(spec) && desired.rules == I.Compile(spec)
    requires UpToDate(existing, desired) && forall i :: 0 <= i < |existing.rules| ==> WellFormed(existing.rules[i])
    ensures Allows(existing.rules, r) <==> I.Denotes(spec, r)
  {
    CompiledRulesWellFormed(spec, clusterRole, validKey);
    WellFormedToldApart(existing.rules, desired.rules);
    UpToDateGrantsTheSpec(existing, desired, spec, clusterRole, validKey, r);
  }

  lemma CompiledRulesWellFormed(spec: I.Spec, clusterRole: bool, validKey: string -> bool)
    requires I.Accepted(spec, clusterRole, validKey) && I.MarkersHold(spec) && PlainSpec(spec)
    ensures forall k :: 0 <= k < |I.Compile(spec)| ==> WellFormed(I.Compile(spec)[k])
  {
    forall k | 0 <= k < |I.Compile(spec)| ensures WellFormed(I.Compile(spec)[k]) {
      CompiledIsWellFormed(spec, clusterRole, validKey, k);
    }
  }

  /** Specs without separators whose rules match denote the same requests. */
  lemma MatchingSpecsMeanTheSame(a: I.Spec, b: I.Spec, clusterRole: bool, validKey: string -> bool, r: Request)
    requires I.Accepted(a, clusterRole, validKey) && I.MarkersHold(a) && PlainSpec(a)
    requires I.Accepted(b, clusterRole, validKey) && I.MarkersHold(b) && PlainSpec(b)
    requires RulesMatch(I.Compile(a), I.Compile(b))
    ensures I.Denotes(a, r) <==> I.Denotes(b, r)
  {
    CompiledRulesWellFormed(a, clusterRole, validKey);
    CompiledRulesWellFormed(b, clusterRole, validKey);
    WellFormedToldApart(I.Compile(a), I.Compile(b));
    MatchingRulesGrantTheSame(I.Compile(a), I.Compile(b), r);
    I.CompilePreservesMeaning(a, clusterRole, validKey, r);
    I.CompilePreservesMeaning(b, clusterRole, validKey, r);
  }

  // ---------------------------------------------------------------- names with commas collide

  function UserSpec(names: seq<string>): I.Spec {
    I.Spec(USER_INFO, [I.IdentityRule(I.USERS, "", names)], [])
  }

  function UserRule(names: seq<string>): PolicyRule {
    PolicyRule([IdentityVerb(USER_INFO)], [I.AUTHENTICATION_GROUP], [I.USERS], names, [])
  }

  lemma CompiledUsers(names: seq<string>)
    requires StrictlySorted(names) && "" !in names
    ensures I.Compile(UserSpec(names)) == [UserRule(names)]
  {
    var spec := UserSpec(names);
    var grants := I.Grants(spec.identities);
    assert grants == [Grant(I.USERS, names)];
    assert Resources(grants) == [I.USERS];
    SortUniqueListing([I.USERS], [I.USERS]);
    OneGrant(Grant(I.USERS, names));
    AllNonEmpty(names);
    SortUniqueListing(names, names);
    assert I.ActionPolicies(spec.mode, spec.actions) == [];
  }

  lemma OneGrant(g: Grant)
    ensures NamesFor([g], g.resource) == g.names
  {
    assert [g][..0] == [];
  }

  lemma {:induction false} AllNonEmpty(xs: seq<string>)
    requires "" !in xs
    ensures NonEmpty(xs) == xs
  {
    if xs != [] { AllNonEmpty(xs[1..]); }
  }

  lemma UsersAccepted(names: seq<string>, clusterRole: bool, validKey: string -> bool)
    requires clusterRole && names != [] && forall name :: name in names ==> name != "" && !I.ReservedUsername(name)
    ensures I.Accepted(UserSpec(names), clusterRole, validKey) && I.MarkersHold(UserSpec(names))
  {
    I.ResourcesDiffer();
    I.ModesDiffer();
    var rule := UserSpec(names).identities[0];
    assert I.NamesOk(rule, USER_INFO);
    assert I.ExtraKeyOk(rule, validKey);
  }

  lemma ReservedHasNoComma(x: string, y: string)
    requires !I.ReservedUsername(x)
    ensures !I.ReservedUsername(x + "," + y)
  {
    PrefixBeforeComma(I.NODE_USER, x, y);
    PrefixBeforeComma(I.SERVICE_ACCOUNT_USER, x, y);
  }

  lemma PrefixBeforeComma(p: string, x: string, y: string)
    requires ',' !in p
    ensures HasPrefix(x + "," + y, p) ==> HasPrefix(x, p)
  {
    var s := x + "," + y;
    assert s[|x|] == ',';
    if HasPrefix(s, p) {
      assert forall i :: 0 <= i < |p| ==> p[i] == s[i] && s[i] in p;
      assert s[..|p|] == x[..|p|];
    }
  }

  /** Two names and the one name that joins them by a comma: both specs are accepted and their compiled rules
      match, but only the first spec grants the single names. */
  lemma CommaCollides(x: string, y: string, clusterRole: bool, validKey: string -> bool, r: Request)
    requires clusterRole && x != "" && !I.ReservedUsername(x) && !I.ReservedUsername(y) && Lt(x, y)
    requires r == ResourceRequest(IdentityVerb(USER_INFO), I.AUTHENTICATION_GROUP, I.USERS, "", x)
    ensures I.Accepted(UserSpec([x, y]), clusterRole, validKey) && I.MarkersHold(UserSpec([x, y]))
    ensures I.Accepted(UserSpec([x + "," + y]), clusterRole, validKey) && I.MarkersHold(UserSpec([x + "," + y]))
    ensures RulesMatch(I.Compile(UserSpec([x + "," + y])), I.Compile(UserSpec([x, y])))
    ensures Allows(I.Compile(UserSpec([x, y])), r) && !Allows(I.Compile(UserSpec([x + "," + y])), r)
  {
    var joined := x + "," + y;
    ReservedHasNoComma(x, y);
    UsersAccepted([x, y], clusterRole, validKey);
    UsersAccepted([joined], clusterRole, validKey);
    CompiledUsers([x, y]);
    CompiledUsers([joined]);
    JoinedKey(x, y);
    OneRuleMatch(UserRule([joined]), UserRule([x, y]));
    UserRuleAllows([x, y], r);
    UserRuleAllows([joined], r);
    assert |joined| > |x|;
  }

  lemma JoinedKey(x: string, y: string)
    requires Le(x, y)
    ensures ListKey([x + "," + y]) == ListKey([x, y])
  {
    SortOne(x + "," + y);
    SortOne(y);
    assert [x, y][1..] == [y];
    assert Sort([x, y]) == [x, y];
    JoinTwo(x, y, ',');
  }

  lemma SortOne(x: string)
    ensures Sort([x]) == [x]
  {
    assert [x][1..] == [];
  }

  lemma OneRuleMatch(a: PolicyRule, b: PolicyRule)
    requires RuleKey(a) == RuleKey(b)
    ensures RulesMatch([a], [b])
  {
    assert Keys([a], RuleKey) == [RuleKey(a)] && Keys([b], RuleKey) == [RuleKey(b)];
  }

  lemma UserRuleAllows(names: seq<string>, r: Request)
    requires names != [] && r.ResourceRequest? && r.verb == IdentityVerb(USER_INFO) && r.group == I.AUTHENTICATION_GROUP
    requires r.resource == I.USERS && r.subresource == ""
    ensures Allows([UserRule(names)], r) <==> r.name in names
  {
    assert RuleAllows([UserRule(names)][0], r) <==> r.name in names;
  }
}
