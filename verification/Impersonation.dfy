/** The compiler from typed constrained-impersonation specs to RBAC PolicyRules, its validator and
    the meaning it preserves (api/authorization/v1alpha1/constrained_impersonation_types.go). */
module Impersonation {
  import opened Options
  import opened Strings
  import opened Rbac
  import opened RuleLists
  import opened ImpersonationVerbs

  const AUTHENTICATION_GROUP := "authentication.k8s.io"
  const USERS := "users"
  const GROUPS := "groups"
  const UIDS := "uids"
  const USER_EXTRAS := "userextras"
  const SERVICE_ACCOUNTS := "serviceaccounts"
  const NODES := "nodes"
  const SYSTEM_MASTERS := "system:masters"
  const NODE_USER := "system:node:"
  const SERVICE_ACCOUNT_USER := "system:serviceaccount:"

  datatype IdentityRule = IdentityRule(resource: string, extraKey: string, names: seq<string>)
  datatype ActionRule = ActionRule(apiGroups: seq<string>, resources: seq<string>, resourceNames: seq<string>, verbs: seq<string>)
  datatype Spec = Spec(mode: string, identities: seq<IdentityRule>, actions: seq<ActionRule>)

  /** The resources entry of an identity rule; an extra key becomes a subresource. */
  function Rendered(rule: IdentityRule): string {
    if rule.resource == USER_EXTRAS then USER_EXTRAS + "/" + rule.extraKey else rule.resource
  }

  // ---------------------------------------------------------------- what a spec means

  /** The identity may be assumed under the name; an associated node is checked by the API server,
      so its rule grants the name the server asks for. */
  predicate IdentityDenotes(mode: string, rule: IdentityRule, r: Request)
    requires r.ResourceRequest?
  {
    && r.verb == IdentityVerb(mode)
    && r.group == AUTHENTICATION_GROUP
    && Combined(r) == Rendered(rule)
    && (mode == ASSOCIATED_NODE || r.name in rule.names)
  }

  predicate ActionDenotes(mode: string, rule: ActionRule, r: Request)
    requires r.ResourceRequest?
  {
    && (exists k :: 0 <= k < |rule.verbs| && r.verb == ActionVerb(mode, rule.verbs[k]))
    && GroupMatches(rule.apiGroups, r.group)
    && ResourceMatches(rule.resources, r)
    && NameMatches(rule.resourceNames, r.name)
  }

  predicate Denotes(spec: Spec, r: Request) {
    r.ResourceRequest? &&
    ((exists i :: 0 <= i < |spec.identities| && IdentityDenotes(spec.mode, spec.identities[i], r)) ||
     (exists i :: 0 <= i < |spec.actions| && ActionDenotes(spec.mode, spec.actions[i], r)))
  }

  // ---------------------------------------------------------------- validation

  datatype Error = UnknownMode | NoIdentities | InIdentity(index: nat, identity: IdentityError) | InAction(index: nat, action: ActionError)
  datatype IdentityError =
    | UnknownResource | NeedsClusterRole | WrongMode | ExtraKeyForbidden | ExtraKeyRequired | ExtraKeyInvalid
    | NamesForbidden | NamesRequired | EmptyName(n: nat) | MastersGroup(n: nat) | ReservedUser(n: nat) | NotBareName(n: nat)
  datatype ActionError = NoGroups | NoResources | NoVerbs | EmptyVerb(n: nat) | WildcardVerb(n: nat) | EncodedVerb(n: nat)

  predicate KnownResource(resource: string) {
    resource in [USERS, GROUPS, UIDS, USER_EXTRAS, SERVICE_ACCOUNTS, NODES]
  }

  function ModeErrors(resource: string, mode: string): seq<IdentityError> {
    if mode == ASSOCIATED_NODE || mode == ARBITRARY_NODE then if resource != NODES then [WrongMode] else []
    else if mode == SERVICE_ACCOUNT then if resource != SERVICE_ACCOUNTS then [WrongMode] else []
    else if mode == USER_INFO then if resource == NODES || resource == SERVICE_ACCOUNTS then [WrongMode] else []
    else []
  }

  function ExtraKeyErrors(rule: IdentityRule, validKey: string -> bool): seq<IdentityError> {
    if rule.resource != USER_EXTRAS then if rule.extraKey != "" then [ExtraKeyForbidden] else []
    else if rule.extraKey == "" then [ExtraKeyRequired]
    else if !validKey(rule.extraKey) then [ExtraKeyInvalid] else []
  }

  predicate ReservedUsername(name: string) {
    HasPrefix(name, NODE_USER) || HasPrefix(name, SERVICE_ACCOUNT_USER)
  }

  function NameErrors(resource: string, name: string, n: nat): seq<IdentityError> {
    if name == "" then [EmptyName(n)]
    else if resource == GROUPS then if name == SYSTEM_MASTERS then [MastersGroup(n)] else []
    else if resource == USERS then if name != "*" && ReservedUsername(name) then [ReservedUser(n)] else []
    else if resource == NODES || resource == SERVICE_ACCOUNTS then if ReservedUsername(name) then [NotBareName(n)] else []
    else []
  }

  method NamesErrors(rule: IdentityRule, mode: string) returns (errs: seq<IdentityError>)
    ensures errs == [] <==> NamesOk(rule, mode)
  {
    if mode == ASSOCIATED_NODE {
      return if |rule.names| > 0 then [NamesForbidden] else [];
    }
    if |rule.names| == 0 {
      return [NamesRequired];
    }
    errs := [];
    for i := 0 to |rule.names|
      invariant errs == [] <==> forall k :: 0 <= k < i ==> !Unnameable(rule.resource, rule.names[k])
    {
      NameRule(rule.resource, rule.names[i], i);
      errs := errs + NameErrors(rule.resource, rule.names[i], i);
    }
  }

  /** The resources a mode may name: the server computes the rest of the identity itself. */
  function ModeResources(mode: string): set<string> {
    if mode == SERVICE_ACCOUNT then {SERVICE_ACCOUNTS}
    else if mode == USER_INFO then {USERS, GROUPS, UIDS, USER_EXTRAS}
    else if mode == ASSOCIATED_NODE || mode == ARBITRARY_NODE then {NODES}
    else {USERS, GROUPS, UIDS, USER_EXTRAS, SERVICE_ACCOUNTS, NODES}
  }

  lemma ResourcesDiffer()
    ensures USERS != GROUPS && USERS != UIDS && USERS != USER_EXTRAS && USERS != SERVICE_ACCOUNTS && USERS != NODES
    ensures GROUPS != UIDS && GROUPS != USER_EXTRAS && GROUPS != SERVICE_ACCOUNTS && GROUPS != NODES
    ensures NODES != UIDS && NODES != USER_EXTRAS && NODES != SERVICE_ACCOUNTS
    ensures SERVICE_ACCOUNTS != UIDS && SERVICE_ACCOUNTS != USER_EXTRAS
  {
    assert |USERS| == 5 && |GROUPS| == 6 && |UIDS| == 4 && |USER_EXTRAS| == 10 && |SERVICE_ACCOUNTS| == 15 && |NODES| == 5;
    assert USERS[0] != NODES[0];
  }

  lemma ModesDiffer()
    ensures ASSOCIATED_NODE != SERVICE_ACCOUNT && ASSOCIATED_NODE != USER_INFO && ARBITRARY_NODE != SERVICE_ACCOUNT
    ensures ARBITRARY_NODE != USER_INFO && SERVICE_ACCOUNT != USER_INFO
  {
    assert |ASSOCIATED_NODE| == 15 && |ARBITRARY_NODE| == 14 && |SERVICE_ACCOUNT| == 14 && |USER_INFO| == 9;
    assert ARBITRARY_NODE[0] != SERVICE_ACCOUNT[0];
  }

  /** The switch on the mode rejects exactly the resources the mode may not name. */
  lemma ModeRule(resource: string, mode: string)
    requires KnownResource(resource)
    ensures ModeErrors(resource, mode) == [] <==> resource in ModeResources(mode)
  {
    ResourcesDiffer();
    ModesDiffer();
  }

  lemma ExtraKeyRule(rule: IdentityRule, validKey: string -> bool)
    ensures ExtraKeyErrors(rule, validKey) == [] <==> ExtraKeyOk(rule, validKey)
  {
  }

  lemma NameRule(resource: string, name: string, n: nat)
    ensures NameErrors(resource, name, n) == [] <==> !Unnameable(resource, name)
  {
    ResourcesDiffer();
    assert |NODE_USER| > 1 && |SERVICE_ACCOUNT_USER| > 1;
    assert !ReservedUsername("*");
  }

  /** An identity that no rule for the resource may name. */
  predicate Unnameable(resource: string, name: string) {
    || name == ""
    || (resource == GROUPS && name == SYSTEM_MASTERS)
    || (resource in {USERS, NODES, SERVICE_ACCOUNTS} && ReservedUsername(name))
  }

  /** Names are given exactly when the server does not check the identity itself. */
  ghost predicate NamesOk(rule: IdentityRule, mode: string) {
    (rule.names == [] <==> mode == ASSOCIATED_NODE) && forall name :: name in rule.names ==> !Unnameable(rule.resource, name)
  }

  /** An extra key belongs to user extras, and only to them. */
  predicate ExtraKeyOk(rule: IdentityRule, validKey: string -> bool) {
    (rule.extraKey != "" <==> rule.resource == USER_EXTRAS) && (rule.extraKey != "" ==> validKey(rule.extraKey))
  }

  ghost predicate IdentityOk(rule: IdentityRule, mode: string, clusterRole: bool, validKey: string -> bool) {
    && rule.resource in ModeResources(mode)
    && (clusterRole || rule.resource == SERVICE_ACCOUNTS)
    && ExtraKeyOk(rule, validKey) && NamesOk(rule, mode)
  }

  predicate VerbOk(verb: string) {
    verb != "" && verb != "*" && !IsImpersonationVerb(verb) && verb != "impersonate"
  }

  predicate ActionOk(rule: ActionRule) {
    && rule.apiGroups != [] && rule.resources != [] && rule.verbs != []
    && forall k :: 0 <= k < |rule.verbs| ==> VerbOk(rule.verbs[k])
  }

  /** The specs ValidateConstrainedImpersonationSpec finds no error in. */
  ghost predicate Accepted(spec: Spec, clusterRole: bool, validKey: string -> bool) {
    && KnownMode(spec.mode)
    && spec.identities != []
    && (forall i :: 0 <= i < |spec.identities| ==> IdentityOk(spec.identities[i], spec.mode, clusterRole, validKey))
    && (forall i :: 0 <= i < |spec.actions| ==> ActionOk(spec.actions[i]))
  }

  method IdentityErrors(rule: IdentityRule, mode: string, clusterRole: bool, validKey: string -> bool)
    returns (errs: seq<IdentityError>)
    ensures errs == [] <==> IdentityOk(rule, mode, clusterRole, validKey)
  {
    if !KnownResource(rule.resource) {
      return [UnknownResource];
    }
    ModeRule(rule.resource, mode);
    ExtraKeyRule(rule, validKey);
    errs := if !clusterRole && rule.resource != SERVICE_ACCOUNTS then [NeedsClusterRole] else [];
    errs := errs + ModeErrors(rule.resource, mode) + ExtraKeyErrors(rule, validKey);
    var names := NamesErrors(rule, mode);
    errs := errs + names;
  }

  method ActionErrors(rule: ActionRule) returns (errs: seq<ActionError>)
    ensures errs == [] <==> ActionOk(rule)
  {
    errs := if rule.apiGroups == [] then [NoGroups] else [];
    if rule.resources == [] {
      errs := errs + [NoResources];
    }
    if rule.verbs == [] {
      errs := errs + [NoVerbs];
    }
    ghost var clean := errs == [];
    for i := 0 to |rule.verbs|
      invariant errs == [] <==> clean && forall k :: 0 <= k < i ==> VerbOk(rule.verbs[k])
    {
      var verb := rule.verbs[i];
      if verb == "" {
        errs := errs + [EmptyVerb(i)];
      } else if verb == "*" {
        errs := errs + [WildcardVerb(i)];
      } else if IsImpersonationVerb(verb) || verb == "impersonate" {
        errs := errs + [EncodedVerb(i)];
      }
    }
  }

  method ValidateSpec(spec: Spec, clusterRole: bool, validKey: string -> bool) returns (errs: seq<Error>)
    ensures errs == [] <==> Accepted(spec, clusterRole, validKey)
  {
    if !KnownMode(spec.mode) {
      return [UnknownMode];
    }
    errs := if |spec.identities| == 0 then [NoIdentities] else [];
    ghost var clean := errs == [];
    for i := 0 to |spec.identities|
      invariant errs == [] <==> clean && forall k :: 0 <= k < i ==> IdentityOk(spec.identities[k], spec.mode, clusterRole, validKey)
    {
      var more := IdentityErrors(spec.identities[i], spec.mode, clusterRole, validKey);
      errs := errs + seq(|more|, k requires 0 <= k < |more| => InIdentity(i, more[k]));
    }
    clean := errs == [];
    for i := 0 to |spec.actions|
      invariant errs == [] <==> clean && forall k :: 0 <= k < i ==> ActionOk(spec.actions[k])
    {
      var more := ActionErrors(spec.actions[i]);
      errs := errs + seq(|more|, k requires 0 <= k < |more| => InAction(i, more[k]));
    }
  }

  /** The item MinLength=1 markers on action resources and resource names. */
  predicate MarkersHold(spec: Spec) {
    forall i :: 0 <= i < |spec.actions| ==> "" !in spec.actions[i].resources && "" !in spec.actions[i].resourceNames
  }

  // ---------------------------------------------------------------- acceptance, spelled out

  /** A verb of ordinary requests: not a wildcard and none of the verbs impersonation is encoded in. */
  ghost predicate OrdinaryVerb(verb: string) {
    verb !in {"", "*", "impersonate"} && forall x: string :: verb != PREFIX + x && verb != ON_PREFIX + x
  }

  lemma VerbOkIsOrdinary(verb: string)
    ensures VerbOk(verb) <==> OrdinaryVerb(verb)
  {
    if HasPrefix(verb, PREFIX) { assert verb == PREFIX + verb[|PREFIX|..]; }
    if HasPrefix(verb, ON_PREFIX) { assert verb == ON_PREFIX + verb[|ON_PREFIX|..]; }
    forall x: string ensures HasPrefix(PREFIX + x, PREFIX) && HasPrefix(ON_PREFIX + x, ON_PREFIX) {}
  }

  /** A name a rule for the resource may give: not empty, not the masters group, and for users, nodes and service
      accounts no username that the server reserves for nodes and service accounts. */
  ghost predicate Nameable(resource: string, name: string) {
    && name != ""
    && (resource == "groups" ==> name != "system:masters")
    && (resource in {"users", "nodes", "serviceaccounts"} ==>
          forall x: string :: name != "system:node:" + x && name != "system:serviceaccount:" + x)
  }

  lemma NameableIsNotUnnameable(resource: string, name: string)
    ensures Nameable(resource, name) <==> !Unnameable(resource, name)
  {
    if HasPrefix(name, NODE_USER) { assert name == NODE_USER + name[|NODE_USER|..]; }
    if HasPrefix(name, SERVICE_ACCOUNT_USER) { assert name == SERVICE_ACCOUNT_USER + name[|SERVICE_ACCOUNT_USER|..]; }
    forall x: string ensures HasPrefix(NODE_USER + x, NODE_USER) && HasPrefix(SERVICE_ACCOUNT_USER + x, SERVICE_ACCOUNT_USER) {}
  }

  /** The resource fits the mode; only service accounts may be named from a namespaced role. */
  predicate Fits(resource: string, mode: string, clusterRole: bool) {
    || (mode == "serviceaccount" && resource == "serviceaccounts")
    || (mode in {"associated-node", "arbitrary-node"} && clusterRole && resource == "nodes")
    || (mode == "user-info" && clusterRole && resource in {"users", "groups", "uids", "userextras"})
  }

  ghost predicate IdentityAllowed(rule: IdentityRule, mode: string, clusterRole: bool, validKey: string -> bool) {
    && Fits(rule.resource, mode, clusterRole)
    && (if rule.resource == "userextras" then rule.extraKey != "" && validKey(rule.extraKey) else rule.extraKey == "")
    && (if mode == "associated-node" then rule.names == []
        else rule.names != [] && forall name :: name in rule.names ==> Nameable(rule.resource, name))
  }

  lemma FitsIsModeResource(resource: string, mode: string, clusterRole: bool)
    requires KnownMode(mode)
    ensures Fits(resource, mode, clusterRole) <==> resource in ModeResources(mode) && (clusterRole || resource == SERVICE_ACCOUNTS)
  {
    ModesDiffer();
    ResourcesDiffer();
    KnownModes(mode);
  }

  lemma KnownModes(mode: string)
    ensures KnownMode(mode) <==> mode == ASSOCIATED_NODE || mode == ARBITRARY_NODE || mode == SERVICE_ACCOUNT || mode == USER_INFO
  {
  }

  lemma IdentityOkIsAllowed(rule: IdentityRule, mode: string, clusterRole: bool, validKey: string -> bool)
    requires KnownMode(mode)
    ensures IdentityOk(rule, mode, clusterRole, validKey) <==> IdentityAllowed(rule, mode, clusterRole, validKey)
  {
    FitsIsModeResource(rule.resource, mode, clusterRole);
    forall name: string { NameableIsNotUnnameable(rule.resource, name); }
  }

  ghost predicate ActionAllowed(rule: ActionRule) {
    rule.apiGroups != [] && rule.resources != [] && rule.verbs != [] && forall verb :: verb in rule.verbs ==> OrdinaryVerb(verb)
  }

  lemma ActionOkIsAllowed(rule: ActionRule)
    ensures ActionOk(rule) <==> ActionAllowed(rule)
  {
    forall verb: string { VerbOkIsOrdinary(verb); }
    if forall verb :: verb in rule.verbs ==> VerbOk(verb) {
      forall k | 0 <= k < |rule.verbs| ensures VerbOk(rule.verbs[k]) { assert rule.verbs[k] in rule.verbs; }
    }
  }

  /** Validation accepts exactly the specs of a known mode with some identity, all of whose identities and actions
      are allowed. */
  lemma AcceptedIffAllowed(spec: Spec, clusterRole: bool, validKey: string -> bool)
    ensures Accepted(spec, clusterRole, validKey) <==>
            && spec.mode in {"associated-node", "arbitrary-node", "serviceaccount", "user-info"} && spec.identities != []
            && (forall id :: id in spec.identities ==> IdentityAllowed(id, spec.mode, clusterRole, validKey))
            && (forall a :: a in spec.actions ==> ActionAllowed(a))
  {
    KnownModes(spec.mode);
    if KnownMode(spec.mode) {
      forall id: IdentityRule { IdentityOkIsAllowed(id, spec.mode, clusterRole, validKey); }
    }
    forall a: ActionRule { ActionOkIsAllowed(a); }
    assert forall i :: 0 <= i < |spec.identities| ==> spec.identities[i] in spec.identities;
    assert forall i :: 0 <= i < |spec.actions| ==> spec.actions[i] in spec.actions;
  }

  // ---------------------------------------------------------------- compilation

  /** Each identity rule with its resource rendered. */
  function Grants(ids: seq<IdentityRule>): (grants: seq<Grant>)
    ensures |grants| == |ids| && forall i :: 0 <= i < |ids| ==> grants[i] == Grant(Rendered(ids[i]), ids[i].names)
  {
    seq(|ids|, i requires 0 <= i < |ids| => Grant(Rendered(ids[i]), ids[i].names))
  }

  function ActionVerbs(mode: string, verbs: seq<string>): (r: seq<string>)
    ensures |r| == |verbs| && forall k :: 0 <= k < |r| ==> r[k] == ActionVerb(mode, verbs[k])
  {
    seq(|verbs|, k requires 0 <= k < |verbs| => ActionVerb(mode, verbs[k]))
  }

  function EncodedAction(mode: string, a: ActionRule): PolicyRule {
    PolicyRule(ActionVerbs(mode, a.verbs), a.apiGroups, a.resources, a.resourceNames, [])
  }

  function ActionPolicy(mode: string, a: ActionRule): PolicyRule {
    var e := EncodedAction(mode, a);
    e.(verbs := DedupeSorted(e.verbs), apiGroups := DedupeSortedAllowEmpty(e.apiGroups),
       resources := DedupeSorted(e.resources), resourceNames := DedupeSorted(e.resourceNames))
  }

  function ActionPolicies(mode: string, actions: seq<ActionRule>): (rules: seq<PolicyRule>)
    ensures |rules| == |actions| && forall i :: 0 <= i < |rules| ==> rules[i] == ActionPolicy(mode, actions[i])
  {
    seq(|actions|, i requires 0 <= i < |actions| => ActionPolicy(mode, actions[i]))
  }

  /** One rule per rendered resource in sorted order, then one rule per action. */
  function Compile(spec: Spec): seq<PolicyRule> {
    Merged(IdentityVerb(spec.mode), AUTHENTICATION_GROUP, Grants(spec.identities)) + ActionPolicies(spec.mode, spec.actions)
  }

  /** The names of each rendered resource, in a map. */
  method CollectNames(ids: seq<IdentityRule>) returns (names: map<string, seq<string>>)
    ensures Collected(names, Grants(ids))
  {
    names := map[];
    for i := 0 to |ids|
      invariant Collected(names, Grants(ids)[..i])
    {
      var resource := Rendered(ids[i]);
      CollectNext(names, Grants(ids)[..i], Grants(ids)[i]);
      assert Grants(ids)[..i + 1] == Grants(ids)[..i] + [Grants(ids)[i]];
      names := names[resource := (if resource in names then names[resource] else []) + ids[i].names];
    }
    assert Grants(ids)[..|ids|] == Grants(ids);
  }

  method EncodeVerbs(mode: string, verbs: seq<string>) returns (r: seq<string>)
    ensures r == ActionVerbs(mode, verbs)
  {
    r := [];
    for j := 0 to |verbs|
      invariant |r| == j && forall k :: 0 <= k < j ==> r[k] == ActionVerb(mode, verbs[k])
    {
      r := r + [ActionVerb(mode, verbs[j])];
    }
  }

  method EmitActions(mode: string, actions: seq<ActionRule>) returns (rules: seq<PolicyRule>)
    ensures rules == ActionPolicies(mode, actions)
  {
    rules := [];
    for i := 0 to |actions|
      invariant |rules| == i && forall k :: 0 <= k < i ==> rules[k] == ActionPolicy(mode, actions[k])
    {
      var a := actions[i];
      var verbs := EncodeVerbs(mode, a.verbs);
      rules := rules + [PolicyRule(DedupeSorted(verbs), DedupeSortedAllowEmpty(a.apiGroups), DedupeSorted(a.resources), DedupeSorted(a.resourceNames), [])];
    }
  }

  /** BuildConstrainedImpersonationRules: an error for an unknown mode, otherwise the compiled rules. */
  method BuildRules(spec: Spec) returns (rules: Option<seq<PolicyRule>>)
    ensures rules == if KnownMode(spec.mode) then Some(Compile(spec)) else None
  {
    if !KnownMode(spec.mode) {
      return None;
    }
    var namesByResource := CollectNames(spec.identities);
    var out := EmitMerged(IdentityVerb(spec.mode), AUTHENTICATION_GROUP, namesByResource, Grants(spec.identities));
    var acts := EmitActions(spec.mode, spec.actions);
    return Some(out + acts);
  }

  // ---------------------------------------------------------------- meaning

  lemma IdentityRuleMeans(mode: string, rule: IdentityRule, r: Request)
    requires NamesOk(rule, mode) && r.ResourceRequest?
    ensures IdentityDenotes(mode, rule, r) <==> GrantDenotes(IdentityVerb(mode), AUTHENTICATION_GROUP, Grant(Rendered(rule), rule.names), r)
  {
  }

  lemma IdentityNamesUniform(ids: seq<IdentityRule>, mode: string)
    requires forall i :: 0 <= i < |ids| ==> NamesOk(ids[i], mode)
    ensures Uniform(Grants(ids))
  {
  }

  lemma RenderedIsLiteral(rule: IdentityRule)
    requires KnownResource(rule.resource)
    ensures Literal(Rendered(rule)) && Rendered(rule) != ""
  {
    assert Rendered(rule)[0] != '*';
  }

  lemma VerbsAreNoWildcards(mode: string, verb: string)
    ensures IdentityVerb(mode) != "*" && ActionVerb(mode, verb) != "*" && ActionVerb(mode, verb) != ""
    ensures AUTHENTICATION_GROUP != "*"
  {
  }

  lemma IdentitiesMean(ids: seq<IdentityRule>, mode: string, r: Request)
    requires forall i :: 0 <= i < |ids| ==> NamesOk(ids[i], mode)
    requires forall i :: 0 <= i < |ids| ==> KnownResource(ids[i].resource)
    ensures Allows(Merged(IdentityVerb(mode), AUTHENTICATION_GROUP, Grants(ids)), r) <==>
            r.ResourceRequest? && exists i :: 0 <= i < |ids| && IdentityDenotes(mode, ids[i], r)
  {
    IdentityNamesUniform(ids, mode);
    VerbsAreNoWildcards(mode, "");
    forall i | 0 <= i < |ids| ensures Literal(Grants(ids)[i].resource) { RenderedIsLiteral(ids[i]); }
    MergedMeans(IdentityVerb(mode), AUTHENTICATION_GROUP, Grants(ids), r);
    if r.ResourceRequest? {
      forall i | 0 <= i < |ids|
        ensures IdentityDenotes(mode, ids[i], r) <==> GrantDenotes(IdentityVerb(mode), AUTHENTICATION_GROUP, Grants(ids)[i], r)
      {
        IdentityRuleMeans(mode, ids[i], r);
      }
    }
  }

  lemma EncodedVerbsMatch(mode: string, verbs: seq<string>, verb: string)
    ensures "" !in ActionVerbs(mode, verbs)
    ensures VerbMatches(ActionVerbs(mode, verbs), verb) <==> exists k :: 0 <= k < |verbs| && verb == ActionVerb(mode, verbs[k])
  {
  }

  lemma ActionPolicyMeans(mode: string, a: ActionRule, r: Request)
    requires "" !in a.resources && "" !in a.resourceNames
    ensures RuleAllows(ActionPolicy(mode, a), r) <==> r.ResourceRequest? && ActionDenotes(mode, a, r)
  {
    EncodedVerbsMatch(mode, a.verbs, r.verb);
    DedupedMeans(EncodedAction(mode, a), r);
    if r.PathRequest? {
      assert !PathMatches([], r.path);
    }
  }

  lemma ActionsMean(mode: string, actions: seq<ActionRule>, r: Request)
    requires forall i :: 0 <= i < |actions| ==> "" !in actions[i].resources && "" !in actions[i].resourceNames
    ensures Allows(ActionPolicies(mode, actions), r) <==>
            r.ResourceRequest? && exists i :: 0 <= i < |actions| && ActionDenotes(mode, actions[i], r)
  {
    forall i | 0 <= i < |actions|
      ensures RuleAllows(ActionPolicies(mode, actions)[i], r) <==> r.ResourceRequest? && ActionDenotes(mode, actions[i], r)
    {
      ActionPolicyMeans(mode, actions[i], r);
    }
  }

  lemma AllowsConcat(a: seq<PolicyRule>, b: seq<PolicyRule>, r: Request)
    ensures Allows(a + b, r) <==> Allows(a, r) || Allows(b, r)
  {
    if i :| 0 <= i < |b| && RuleAllows(b[i], r) {
      assert (a + b)[|a| + i] == b[i];
    }
    if i :| 0 <= i < |a| && RuleAllows(a[i], r) {
      assert (a + b)[i] == a[i];
    }
  }

  /** The generated rules grant exactly what the spec denotes, for every accepted spec and every request. */
  lemma CompilePreservesMeaning(spec: Spec, clusterRole: bool, validKey: string -> bool, r: Request)
    requires Accepted(spec, clusterRole, validKey) && MarkersHold(spec)
    ensures Allows(Compile(spec), r) <==> Denotes(spec, r)
  {
    forall i | 0 <= i < |spec.identities| ensures NamesOk(spec.identities[i], spec.mode) && KnownResource(spec.identities[i].resource) {
      assert IdentityOk(spec.identities[i], spec.mode, clusterRole, validKey);
    }
    IdentitiesMean(spec.identities, spec.mode, r);
    ActionsMean(spec.mode, spec.actions, r);
    AllowsConcat(Merged(IdentityVerb(spec.mode), AUTHENTICATION_GROUP, Grants(spec.identities)), ActionPolicies(spec.mode, spec.actions), r);
  }

  /** A request the action's verbs, groups and resources match, under the given name. */
  function Sample(mode: string, a: ActionRule, name: string): (r: Request)
    requires ActionOk(a)
    ensures r.ResourceRequest? && r.name == name && r.verb == ActionVerb(mode, a.verbs[0])
    ensures GroupMatches(a.apiGroups, r.group) && ResourceMatches(a.resources, r)
  {
    ResourceRequest(ActionVerb(mode, a.verbs[0]), a.apiGroups[0], a.resources[0], "", name)
  }

  lemma SampleDenoted(mode: string, a: ActionRule, name: string)
    requires ActionOk(a)
    ensures ActionDenotes(mode, a, Sample(mode, a, name)) <==> NameMatches(a.resourceNames, name)
  {
  }

  lemma SampleAllowed(mode: string, a: ActionRule, name: string)
    requires ActionOk(a) && "" !in a.resources
    ensures RuleAllows(ActionPolicy(mode, a), Sample(mode, a, name)) <==> NameMatches(DedupeSorted(a.resourceNames), name)
  {
    var r := Sample(mode, a, name);
    ActionPolicyMeans(mode, a.(resourceNames := []), r);
    SampleDenoted(mode, a.(resourceNames := []), name);
    EmptyByElements(DedupeSorted([]));
  }

  /** The marker on resource names is exactly what an accepted action rule needs: with an empty resource
      name the entry is dropped, which loses it or makes the whole rule unrestricted. */
  lemma NameMarkerIsExact(mode: string, a: ActionRule)
    requires ActionOk(a) && "" !in a.resources
    ensures "" !in a.resourceNames <==>
            forall r :: RuleAllows(ActionPolicy(mode, a), r) <==> r.ResourceRequest? && ActionDenotes(mode, a, r)
  {
    if "" !in a.resourceNames {
      forall r ensures RuleAllows(ActionPolicy(mode, a), r) <==> r.ResourceRequest? && ActionDenotes(mode, a, r) {
        ActionPolicyMeans(mode, a, r);
      }
    } else {
      var out := DedupeSorted(a.resourceNames);
      var name := if out == [] then "x" else "";
      SampleDenoted(mode, a, name);
      SampleAllowed(mode, a, name);
      InElements(out, name);
      InElements(a.resourceNames, name);
      var r := Sample(mode, a, name);
      assert !(RuleAllows(ActionPolicy(mode, a), r) <==> r.ResourceRequest? && ActionDenotes(mode, a, r));
    }
  }

  /** What an accepted spec lets anyone assume: only identities one of its rules names for its own mode, never a
      name no rule may give, and from a namespaced role only service accounts. */
  lemma GrantedIdentity(spec: Spec, clusterRole: bool, validKey: string -> bool, mode: string, r: Request) returns (i: nat)
    requires Accepted(spec, clusterRole, validKey) && MarkersHold(spec) && KnownMode(mode)
    requires Allows(Compile(spec), r) && r.verb == IdentityVerb(mode)
    ensures r.ResourceRequest? && mode == spec.mode && i < |spec.identities|
    ensures r.group == AUTHENTICATION_GROUP && Combined(r) == Rendered(spec.identities[i])
    ensures spec.identities[i].resource in ModeResources(mode) && (clusterRole || spec.identities[i].resource == SERVICE_ACCOUNTS)
    ensures mode != ASSOCIATED_NODE ==> r.name in spec.identities[i].names && !Unnameable(spec.identities[i].resource, r.name)
  {
    CompilePreservesMeaning(spec, clusterRole, validKey, r);
    NoActionIsIdentity(spec, mode, r);
    i :| 0 <= i < |spec.identities| && IdentityDenotes(spec.mode, spec.identities[i], r);
    assert IdentityOk(spec.identities[i], spec.mode, clusterRole, validKey);
    PrintThenParse(Identity(mode));
    PrintThenParse(Identity(spec.mode));
  }

  lemma NoActionIsIdentity(spec: Spec, mode: string, r: Request)
    requires KnownMode(spec.mode) && KnownMode(mode) && r.ResourceRequest? && r.verb == IdentityVerb(mode)
    requires forall i :: 0 <= i < |spec.actions| ==> ActionOk(spec.actions[i])
    ensures forall i :: 0 <= i < |spec.actions| ==> !ActionDenotes(spec.mode, spec.actions[i], r)
  {
    forall i | 0 <= i < |spec.actions| ensures !ActionDenotes(spec.mode, spec.actions[i], r) {
      var a := spec.actions[i];
      forall k | 0 <= k < |a.verbs| ensures r.verb != ActionVerb(spec.mode, a.verbs[k]) {
        assert VerbOk(a.verbs[k]);
        VerbsDistinct(mode, a.verbs[k], spec.mode, a.verbs[k]);
      }
    }
  }

  // ---------------------------------------------------------------- the shape of the output

  predicate Tidy(rule: PolicyRule) {
    && StrictlySorted(rule.verbs) && StrictlySorted(rule.apiGroups) && StrictlySorted(rule.resources) && StrictlySorted(rule.resourceNames)
    && "" !in rule.verbs && "" !in rule.resources && "" !in rule.resourceNames && rule.nonResourceURLs == []
  }

  lemma DedupedTidy(xs: seq<string>)
    ensures StrictlySorted(DedupeSorted(xs)) && StrictlySorted(DedupeSortedAllowEmpty(xs)) && "" !in DedupeSorted(xs)
  {
    SortUniqueListing(NonEmpty(xs), DedupeSorted(xs));
    SortUniqueListing(xs, DedupeSortedAllowEmpty(xs));
    InElements(DedupeSorted(xs), "");
  }

  /** The rendered resources, which the first rules are for. */
  function NamedResources(spec: Spec): seq<string> {
    SortUnique(Resources(Grants(spec.identities)))
  }

  predicate KnownResources(spec: Spec) {
    forall i :: 0 <= i < |spec.identities| ==> KnownResource(spec.identities[i].resource)
  }

  lemma IdentityRuleShape(spec: Spec, k: nat)
    requires KnownResources(spec) && k < |NamedResources(spec)|
    ensures k < |Compile(spec)| && Compile(spec)[k].resources == [NamedResources(spec)[k]] && Tidy(Compile(spec)[k])
  {
    var grants := Grants(spec.identities);
    var resource := NamedResources(spec)[k];
    DedupedTidy(NamesFor(grants, resource));
    ResourceNamed(spec, resource);
    assert IdentityVerb(spec.mode) != "";
    assert Compile(spec)[k] == MergedRule(IdentityVerb(spec.mode), AUTHENTICATION_GROUP, grants, resource);
  }

  lemma ActionRuleShape(spec: Spec, i: nat)
    requires i < |spec.actions|
    ensures |Compile(spec)| == |NamedResources(spec)| + |spec.actions|
    ensures Compile(spec)[|NamedResources(spec)| + i] == ActionPolicy(spec.mode, spec.actions[i]) && Tidy(ActionPolicy(spec.mode, spec.actions[i]))
  {
    ActionTidy(spec.mode, spec.actions[i]);
  }

  /** The first rules have one resource each, in ascending order, then comes one rule per action in the given order;
      all lists are sorted, without duplicates and without empty entries but the core group. */
  lemma CompiledShape(spec: Spec) returns (n: nat)
    requires KnownResources(spec)
    ensures |Compile(spec)| == n + |spec.actions|
    ensures forall k :: 0 <= k < n ==> |Compile(spec)[k].resources| == 1 && Tidy(Compile(spec)[k])
    ensures forall j, k :: 0 <= j < k < n ==> Lt(Compile(spec)[j].resources[0], Compile(spec)[k].resources[0])
    ensures forall i :: 0 <= i < |spec.actions| ==> Compile(spec)[n + i] == ActionPolicy(spec.mode, spec.actions[i]) && Tidy(Compile(spec)[n + i])
  {
    var rules, resources := Compile(spec), NamedResources(spec);
    SortUniqueListing(Resources(Grants(spec.identities)), resources);
    n := |resources|;
    forall k | 0 <= k < n ensures rules[k].resources == [resources[k]] && Tidy(rules[k]) { IdentityRuleShape(spec, k); }
    forall i | 0 <= i < |spec.actions| ensures rules[n + i] == ActionPolicy(spec.mode, spec.actions[i]) && Tidy(rules[n + i]) {
      ActionRuleShape(spec, i);
    }
  }

  lemma ResourceNamed(spec: Spec, resource: string)
    requires forall i :: 0 <= i < |spec.identities| ==> KnownResource(spec.identities[i].resource)
    requires resource in SortUnique(Resources(Grants(spec.identities)))
    ensures resource != ""
  {
    InElements(SortUnique(Resources(Grants(spec.identities))), resource);
    var i :| 0 <= i < |spec.identities| && Resources(Grants(spec.identities))[i] == resource;
    RenderedIsLiteral(spec.identities[i]);
  }

  lemma ActionTidy(mode: string, a: ActionRule)
    ensures Tidy(ActionPolicy(mode, a))
  {
    DedupedTidy(ActionVerbs(mode, a.verbs));
    DedupedTidy(a.apiGroups);
    DedupedTidy(a.resources);
    DedupedTidy(a.resourceNames);
  }

  // ---------------------------------------------------------------- the documented star

  /** The field documentation reads the name "*" as every name of the resource. */
  predicate DocumentedIdentity(mode: string, rule: IdentityRule, r: Request)
    requires r.ResourceRequest?
  {
    && r.verb == IdentityVerb(mode)
    && r.group == AUTHENTICATION_GROUP
    && Combined(r) == Rendered(rule)
    && (mode == ASSOCIATED_NODE || "*" in rule.names || r.name in rule.names)
  }

  predicate Documented(spec: Spec, r: Request) {
    r.ResourceRequest? &&
    ((exists i :: 0 <= i < |spec.identities| && DocumentedIdentity(spec.mode, spec.identities[i], r)) ||
     (exists i :: 0 <= i < |spec.actions| && ActionDenotes(spec.mode, spec.actions[i], r)))
  }

  predicate NoStarNames(spec: Spec) {
    forall i :: 0 <= i < |spec.identities| ==> "*" !in spec.identities[i].names
  }

  /** A name longer than all given names. */
  function Longer(names: seq<string>): (s: string)
    ensures forall i :: 0 <= i < |names| ==> |s| > |names[i]|
  {
    if names == [] then "x"
    else
      var t := Longer(names[1..]);
      if |t| > |names[0]| then t else names[0] + "x"
  }

  function AllLonger(ids: seq<IdentityRule>): (s: string)
    ensures forall i :: 0 <= i < |ids| ==> s !in ids[i].names
  {
    var longest := seq(|ids|, i requires 0 <= i < |ids| => Longer(ids[i].names));
    var s := Longer(longest);
    assert forall i | 0 <= i < |ids| :: s !in ids[i].names by {
      forall i | 0 <= i < |ids| ensures s !in ids[i].names {
        assert |s| > |longest[i]| && longest[i] == Longer(ids[i].names);
      }
    }
    s
  }

  /** The failing request: an identity the star is documented to grant and the compiled rule does not. */
  lemma StarIsNotGranted(spec: Spec, clusterRole: bool, validKey: string -> bool, i: nat) returns (r: Request)
    requires Accepted(spec, clusterRole, validKey) && MarkersHold(spec)
    requires i < |spec.identities| && "*" in spec.identities[i].names
    ensures Documented(spec, r) && !Allows(Compile(spec), r)
  {
    r := ResourceRequest(IdentityVerb(spec.mode), AUTHENTICATION_GROUP, Rendered(spec.identities[i]), "", AllLonger(spec.identities));
    assert IdentityOk(spec.identities[i], spec.mode, clusterRole, validKey);
    NoActionIsIdentity(spec, spec.mode, r);
    assert !Denotes(spec, r);
    CompilePreservesMeaning(spec, clusterRole, validKey, r);
    assert DocumentedIdentity(spec.mode, spec.identities[i], r);
  }

  /** The generated rules grant what the documentation says, on all requests, if and only if no name is "*". */
  lemma DocumentedMeaningIff(spec: Spec, clusterRole: bool, validKey: string -> bool)
    requires Accepted(spec, clusterRole, validKey) && MarkersHold(spec)
    ensures (forall r :: Allows(Compile(spec), r) <==> Documented(spec, r)) <==> NoStarNames(spec)
  {
    if NoStarNames(spec) {
      forall r ensures Allows(Compile(spec), r) <==> Documented(spec, r) {
        CompilePreservesMeaning(spec, clusterRole, validKey, r);
        LiteralIsDocumented(spec, r);
      }
    } else {
      var i :| 0 <= i < |spec.identities| && "*" in spec.identities[i].names;
      var r := StarIsNotGranted(spec, clusterRole, validKey, i);
      assert !(Allows(Compile(spec), r) <==> Documented(spec, r));
    }
  }

  lemma LiteralIsDocumented(spec: Spec, r: Request)
    requires NoStarNames(spec)
    ensures Denotes(spec, r) <==> Documented(spec, r)
  {
    if r.ResourceRequest? {
      forall i | 0 <= i < |spec.identities|
        ensures IdentityDenotes(spec.mode, spec.identities[i], r) <==> DocumentedIdentity(spec.mode, spec.identities[i], r)
      {
      }
    }
  }

  // ---------------------------------------------------------------- determinism

  ghost predicate SameEntries(a: ActionRule, b: ActionRule) {
    && Elements(a.apiGroups) == Elements(b.apiGroups) && Elements(a.resources) == Elements(b.resources)
    && Elements(a.resourceNames) == Elements(b.resourceNames) && Elements(a.verbs) == Elements(b.verbs)
  }

  lemma ActionVerbsByElements(mode: string, a: seq<string>, b: seq<string>)
    requires Elements(a) == Elements(b)
    ensures Elements(ActionVerbs(mode, a)) <= Elements(ActionVerbs(mode, b))
  {
    forall x | x in Elements(ActionVerbs(mode, a)) ensures x in Elements(ActionVerbs(mode, b)) {
      var i :| 0 <= i < |a| && ActionVerbs(mode, a)[i] == x;
      assert a[i] in Elements(b);
      var j :| 0 <= j < |b| && b[j] == a[i];
      assert ActionVerbs(mode, b)[j] == x;
    }
  }

  lemma ActionPolicyByEntries(mode: string, a: ActionRule, b: ActionRule)
    requires SameEntries(a, b)
    ensures ActionPolicy(mode, a) == ActionPolicy(mode, b)
  {
    DedupeByElements(a.apiGroups, b.apiGroups);
    DedupeByElements(a.resources, b.resources);
    DedupeByElements(a.resourceNames, b.resourceNames);
    ActionVerbsByElements(mode, a.verbs, b.verbs);
    ActionVerbsByElements(mode, b.verbs, a.verbs);
    DedupeByElements(ActionVerbs(mode, a.verbs), ActionVerbs(mode, b.verbs));
  }

  /** Reordering or splitting identity rules, and reordering or duplicating entries, does not change the output. */
  lemma CompileIgnoresOrder(a: Spec, b: Spec)
    requires a.mode == b.mode
    requires SameGrants(Grants(a.identities), Grants(b.identities))
    requires |a.actions| == |b.actions| && forall i :: 0 <= i < |a.actions| ==> SameEntries(a.actions[i], b.actions[i])
    ensures Compile(a) == Compile(b)
  {
    MergedIgnoresOrder(IdentityVerb(a.mode), AUTHENTICATION_GROUP, Grants(a.identities), Grants(b.identities));
    ActionPoliciesByEntries(a.mode, a.actions, b.actions);
  }

  lemma ActionPoliciesByEntries(mode: string, a: seq<ActionRule>, b: seq<ActionRule>)
    requires |a| == |b| && forall i :: 0 <= i < |a| ==> SameEntries(a[i], b[i])
    ensures ActionPolicies(mode, a) == ActionPolicies(mode, b)
  {
    forall i | 0 <= i < |a| ensures ActionPolicy(mode, a[i]) == ActionPolicy(mode, b[i]) {
      ActionPolicyByEntries(mode, a[i], b[i]);
    }
  }

  /** In particular a permutation of the identity rules gives the same output. */
  lemma PermutedIdentities(a: Spec, b: Spec)
    requires a.mode == b.mode && a.actions == b.actions && multiset(a.identities) == multiset(b.identities)
    ensures Compile(a) == Compile(b)
  {
    SameMultisetSameElements(a.identities, b.identities);
    GrantsSubset(a.identities, b.identities);
    GrantsSubset(b.identities, a.identities);
    PermutedGrants(Grants(a.identities), Grants(b.identities));
    PermutedGrants(Grants(b.identities), Grants(a.identities));
    CompileIgnoresOrder(a, b);
  }

  lemma GrantsSubset(a: seq<IdentityRule>, b: seq<IdentityRule>)
    requires forall x :: x in a ==> x in b
    ensures forall x :: x in Grants(a) ==> x in Grants(b)
  {
    forall x | x in Grants(a) ensures x in Grants(b) {
      var i :| 0 <= i < |a| && Grants(a)[i] == x;
      assert a[i] in b;
      var j :| 0 <= j < |b| && b[j] == a[i];
      assert Grants(b)[j] == x;
    }
  }
}
