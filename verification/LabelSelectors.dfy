/** Kubernetes label selectors, and the check that a namespace selector reaching add-on namespaces is pinned
    to one add-on (api/authorization/v1alpha1/binddefinition_webhook.go). */
module LabelSelectors {

  datatype Operator = In | NotIn | Exists | DoesNotExist | Unknown(text: string)
  datatype Requirement = Requirement(key: string, operator: Operator, values: seq<string>)
  datatype Selector = Selector(matchLabels: map<string, string>, matchExpressions: seq<Requirement>)
  type Labels = map<string, string>

  /** The shape LabelSelectorAsSelector accepts. */
  predicate ValidRequirement(r: Requirement) {
    match r.operator
    case In => r.values != []
    case NotIn => r.values != []
    case Exists => r.values == []
    case DoesNotExist => r.values == []
    case Unknown(_) => false
  }

  predicate Valid(s: Selector) {
    forall i :: 0 <= i < |s.matchExpressions| ==> ValidRequirement(s.matchExpressions[i])
  }

  predicate Satisfies(l: Labels, r: Requirement) {
    match r.operator
    case In => r.key in l && l[r.key] in r.values
    case NotIn => r.key !in l || l[r.key] !in r.values
    case Exists => r.key in l
    case DoesNotExist => r.key !in l
    case Unknown(_) => false
  }

  predicate Selects(s: Selector, l: Labels) {
    && (forall k :: k in s.matchLabels ==> k in l && l[k] == s.matchLabels[k])
    && (forall i :: 0 <= i < |s.matchExpressions| ==> Satisfies(l, s.matchExpressions[i]))
  }

  /** matchesSelector: an invalid selector matches nothing. */
  predicate Matches(s: Selector, l: Labels) {
    Valid(s) && Selects(s, l)
  }

  /** What an expression demands of the labels, seen as pairs of key and value. */
  predicate Demands(r: Requirement, l: Labels) {
    match r.operator
    case In => exists v :: v in r.values && (r.key, v) in l.Items
    case NotIn => r.values != [] && forall v :: v in r.values ==> (r.key, v) !in l.Items
    case Exists => r.values == [] && r.key in l.Keys
    case DoesNotExist => r.values == [] && r.key !in l.Keys
    case Unknown(_) => false
  }

  lemma DemandsExactly(r: Requirement, l: Labels)
    ensures ValidRequirement(r) && Satisfies(l, r) <==> Demands(r, l)
  {
    if r.key in l { assert (r.key, l[r.key]) in l.Items; }
    forall v | (r.key, v) in l.Items ensures r.key in l && l[r.key] == v {}
    if r.operator == In && Satisfies(l, r) { assert l[r.key] in r.values; }
  }

  /** A selector matches exactly the labels that contain its match labels and meet what every expression demands. */
  lemma MatchesExactly(s: Selector, l: Labels)
    ensures Matches(s, l) <==> s.matchLabels.Items <= l.Items && forall r :: r in s.matchExpressions ==> Demands(r, l)
  {
    forall r: Requirement { DemandsExactly(r, l); }
    if Selects(s, l) {
      forall p | p in s.matchLabels.Items ensures p in l.Items { assert p.0 in s.matchLabels && s.matchLabels[p.0] == p.1; }
    }
    if s.matchLabels.Items <= l.Items {
      forall k | k in s.matchLabels ensures k in l && l[k] == s.matchLabels[k] { assert (k, s.matchLabels[k]) in s.matchLabels.Items; }
    }
    assert forall i :: 0 <= i < |s.matchExpressions| ==> s.matchExpressions[i] in s.matchExpressions;
  }

  // ---------------------------------------------------------------- add-on scoping

  const OWNER := "t-caas.telekom.com/owner"
  const ADDON := "t-caas.telekom.com/addon"
  const OWNER_ADDON := "addon"

  lemma KeysDiffer()
    ensures OWNER != ADDON
  {
  }

  predicate OnOwner(s: Selector, p: Requirement -> bool) {
    exists i :: 0 <= i < |s.matchExpressions| && s.matchExpressions[i].key == OWNER && p(s.matchExpressions[i])
  }

  /** The owner requirement lists add-ons. */
  predicate Names(r: Requirement) {
    r.operator == In && OWNER_ADDON in r.values
  }

  /** The owner requirement admits add-ons. */
  predicate Reaches(r: Requirement) {
    Names(r) || (r.operator == NotIn && OWNER_ADDON !in r.values) || r.operator == Exists
  }

  /** The owner requirement shuts add-ons out. */
  predicate ShutsOut(r: Requirement) {
    || (r.operator == In && OWNER_ADDON !in r.values)
    || (r.operator == NotIn && OWNER_ADDON in r.values)
    || r.operator == DoesNotExist
  }

  predicate ExplicitAddon(s: Selector) {
    (OWNER in s.matchLabels && s.matchLabels[OWNER] == OWNER_ADDON) || OnOwner(s, Names)
  }

  predicate TargetsAddon(s: Selector) {
    (OWNER in s.matchLabels && s.matchLabels[OWNER] == OWNER_ADDON) || OnOwner(s, Reaches)
  }

  predicate ExcludesAddon(s: Selector) {
    (OWNER in s.matchLabels && s.matchLabels[OWNER] != OWNER_ADDON) || OnOwner(s, ShutsOut)
  }

  function AddonRequirements(rs: seq<Requirement>): seq<Requirement> {
    if rs == [] then []
    else
      var init := AddonRequirements(rs[..|rs| - 1]);
      if rs[|rs| - 1].key == ADDON then init + [rs[|rs| - 1]] else init
  }

  predicate Pins(r: Requirement) {
    r.operator == In && |r.values| == 1 && r.values[0] != ""
  }

  /** The selectors accepted: no add-on requirement and no add-on owner, or add-ons shut out, or the
      add-on label required absent, or exactly one identity required. */
  predicate Scoped(s: Selector) {
    var rs := AddonRequirements(s.matchExpressions);
    if ADDON !in s.matchLabels && rs == [] then !ExplicitAddon(s) && (!TargetsAddon(s) || ExcludesAddon(s))
    else if ADDON !in s.matchLabels && |rs| == 1 && rs[0].operator == DoesNotExist then !ExplicitAddon(s)
    else
      && |rs| <= 1
      && (ADDON in s.matchLabels ==> s.matchLabels[ADDON] != "")
      && (|rs| == 1 ==> Pins(rs[0]) && (ADDON in s.matchLabels ==> rs[0].values[0] == s.matchLabels[ADDON]))
  }

  function Prefix(s: Selector, i: nat): Selector
    requires i <= |s.matchExpressions|
  {
    s.(matchExpressions := s.matchExpressions[..i])
  }

  /** The variables the loop over the expressions keeps up to date. */
  datatype Flags = Flags(
    targets: bool, explicit: bool, excludes: bool, hasPin: bool, pin: string, count: nat, validPin: bool, absent: bool)

  ghost predicate OwnerFlags(s: Selector, f: Flags) {
    && (f.targets <==> TargetsAddon(s))
    && (f.explicit <==> ExplicitAddon(s))
    && (AddonRequirements(s.matchExpressions) == [] ==> (f.excludes <==> ExcludesAddon(s)))
  }

  /** What the loop knows of the pin while at most one add-on requirement has been seen. */
  ghost predicate PinFlags(labels: Labels, rs: seq<Requirement>, f: Flags) {
    && f.count == |rs|
    && (rs == [] ==> f.hasPin == (ADDON in labels) && (f.hasPin ==> f.pin == labels[ADDON])
                     && (f.validPin <==> (ADDON in labels ==> labels[ADDON] != "")) && !f.absent)
    && (|rs| == 1 ==> f.hasPin == (ADDON in labels || Pins(rs[0])) && f.absent == (rs[0].operator == DoesNotExist)
                      && (f.validPin <==> (ADDON in labels ==> labels[ADDON] != "") && Pins(rs[0])
                                          && (ADDON in labels ==> rs[0].values[0] == labels[ADDON])))
  }

  ghost predicate FlagsOk(s: Selector, f: Flags) {
    OwnerFlags(s, f) && PinFlags(s.matchLabels, AddonRequirements(s.matchExpressions), f)
  }

  lemma OnOwnerStep(s: Selector, i: nat, p: Requirement -> bool)
    requires i < |s.matchExpressions|
    ensures OnOwner(Prefix(s, i + 1), p) <==>
            OnOwner(Prefix(s, i), p) || (s.matchExpressions[i].key == OWNER && p(s.matchExpressions[i]))
  {
    var a, b := Prefix(s, i).matchExpressions, Prefix(s, i + 1).matchExpressions;
    assert b[i] == s.matchExpressions[i];
    forall k | 0 <= k < i ensures a[k] == b[k] == s.matchExpressions[k] {
    }
  }

  lemma PrefixStep(s: Selector, i: nat)
    requires i < |s.matchExpressions|
    ensures var r, a, b := s.matchExpressions[i], Prefix(s, i), Prefix(s, i + 1);
            && (TargetsAddon(b) <==> TargetsAddon(a) || (r.key == OWNER && Reaches(r)))
            && (ExplicitAddon(b) <==> ExplicitAddon(a) || (r.key == OWNER && Names(r)))
            && (ExcludesAddon(b) <==> ExcludesAddon(a) || (r.key == OWNER && ShutsOut(r)))
            && AddonRequirements(b.matchExpressions) == AddonRequirements(a.matchExpressions) + if r.key == ADDON then [r] else []
  {
    OnOwnerStep(s, i, Reaches);
    OnOwnerStep(s, i, Names);
    OnOwnerStep(s, i, ShutsOut);
    assert s.matchExpressions[..i + 1][..i] == s.matchExpressions[..i];
  }

  /** The switch on the operator of an owner expression. */
  method NoteOwner(expr: Requirement, f: Flags) returns (f': Flags)
    ensures f' == f.(targets := f.targets || Reaches(expr), explicit := f.explicit || Names(expr), excludes := f.excludes || ShutsOut(expr))
  {
    f' := f;
    match expr.operator
    case In =>
      if OWNER_ADDON in expr.values {
        f' := f'.(targets := true, explicit := true);
      } else {
        f' := f'.(excludes := true);
      }
    case NotIn =>
      if OWNER_ADDON in expr.values {
        f' := f'.(excludes := true);
      } else {
        f' := f'.(targets := true);
      }
    case Exists => f' := f'.(targets := true);
    case DoesNotExist => f' := f'.(excludes := true);
    case Unknown(_) =>
  }

  /** The bookkeeping for an add-on expression: only a single non-empty value pins. */
  method NotePin(ghost labels: Labels, ghost rs: seq<Requirement>, expr: Requirement, f: Flags) returns (f': Flags)
    requires PinFlags(labels, rs, f)
    ensures PinFlags(labels, rs + [expr], f') && f'.targets == f.targets && f'.explicit == f.explicit
  {
    f' := f.(count := f.count + 1);
    if expr.operator == DoesNotExist {
      f' := f'.(excludes := true, absent := true);
    }
    assert rs == [] ==> (rs + [expr])[0] == expr;
    if expr.operator != In || |expr.values| != 1 || expr.values[0] == "" {
      f' := f'.(validPin := false);
      return;
    }
    if f.hasPin && f.pin != expr.values[0] {
      f' := f'.(validPin := false);
    }
    f' := f'.(pin := expr.values[0], hasPin := true);
  }

  /** The body of the loop over the match expressions. */
  method Note(s: Selector, i: nat, f: Flags) returns (f': Flags)
    requires i < |s.matchExpressions| && FlagsOk(Prefix(s, i), f)
    ensures FlagsOk(Prefix(s, i + 1), f')
  {
    var expr := s.matchExpressions[i];
    ghost var rs := AddonRequirements(Prefix(s, i).matchExpressions);
    PrefixStep(s, i);
    KeysDiffer();
    f' := f;
    if expr.key == OWNER {
      f' := NoteOwner(expr, f);
    } else if expr.key == ADDON {
      f' := NotePin(s.matchLabels, rs, expr, f);
    }
  }

  lemma FlagsDecide(s: Selector, f: Flags)
    requires FlagsOk(s, f)
    ensures Scoped(s) <==>
            if f.hasPin || f.count > 0 then (!f.hasPin && f.count == 1 && f.absent && !f.explicit) || (f.hasPin && f.validPin && f.count <= 1)
            else !f.explicit && (!f.targets || f.excludes)
  {
  }

  method AddonNamespaceSelectorIsScoped(s: Selector) returns (scoped: bool)
    ensures scoped <==> Scoped(s)
  {
    var targets := OWNER in s.matchLabels && s.matchLabels[OWNER] == OWNER_ADDON;
    var excludes := OWNER in s.matchLabels && s.matchLabels[OWNER] != OWNER_ADDON;
    var hasPin := ADDON in s.matchLabels;
    var pin := if hasPin then s.matchLabels[ADDON] else "";
    var f := Flags(targets, targets, excludes, hasPin, pin, 0, !hasPin || pin != "", false);
    for i := 0 to |s.matchExpressions|
      invariant FlagsOk(Prefix(s, i), f)
    {
      f := Note(s, i, f);
    }
    assert Prefix(s, |s.matchExpressions|) == s;
    FlagsDecide(s, f);
    if f.hasPin || f.count > 0 {
      if !f.hasPin && f.count == 1 && f.absent && !f.explicit {
        return true;
      }
      return f.hasPin && f.validPin && f.count <= 1;
    }
    return !f.explicit && (!f.targets || f.excludes);
  }

  // ---------------------------------------------------------------- what scoping guarantees

  predicate Mentions(s: Selector, key: string) {
    key in s.matchLabels || exists i :: 0 <= i < |s.matchExpressions| && s.matchExpressions[i].key == key
  }

  /** The labels of an add-on namespace the selector selects. */
  predicate AddonMatch(s: Selector, l: Labels) {
    Matches(s, l) && OWNER in l && l[OWNER] == OWNER_ADDON
  }

  predicate SameAddon(l: Labels, m: Labels) {
    (ADDON in l <==> ADDON in m) && (ADDON in l && ADDON in m ==> l[ADDON] == m[ADDON])
  }

  ghost predicate OneAddon(s: Selector) {
    forall l, m :: AddonMatch(s, l) && AddonMatch(s, m) ==> SameAddon(l, m)
  }

  lemma {:induction false} AddonRequirementsAreThere(rs: seq<Requirement>, k: nat)
    requires k < |AddonRequirements(rs)|
    ensures exists i :: 0 <= i < |rs| && rs[i] == AddonRequirements(rs)[k] && rs[i].key == ADDON
  {
    var init := rs[..|rs| - 1];
    if k < |AddonRequirements(init)| {
      AddonRequirementsAreThere(init, k);
      var i :| 0 <= i < |init| && init[i] == AddonRequirements(init)[k] && init[i].key == ADDON;
      assert rs[i] == init[i];
    } else {
      assert rs[|rs| - 1] == AddonRequirements(rs)[k];
    }
  }

  lemma {:induction false} NoAddonRequirements(rs: seq<Requirement>, i: nat)
    requires AddonRequirements(rs) == [] && i < |rs|
    ensures rs[i].key != ADDON
  {
    if i < |rs| - 1 {
      NoAddonRequirements(rs[..|rs| - 1], i);
    }
  }

  /** An add-on requirement or match label fixes the add-on label of what is selected. */
  lemma PinnedAddon(s: Selector, l: Labels, m: Labels)
    requires Scoped(s) && AddonMatch(s, l) && AddonMatch(s, m)
    requires ADDON in s.matchLabels || AddonRequirements(s.matchExpressions) != []
    ensures SameAddon(l, m)
  {
    if ADDON !in s.matchLabels {
      AddonRequirementsAreThere(s.matchExpressions, 0);
    }
  }

  /** Without add-on requirements an accepted selector that mentions the owner selects no add-on namespace. */
  lemma OwnerShutsOut(s: Selector, l: Labels)
    requires Scoped(s) && Valid(s) && Mentions(s, OWNER)
    requires ADDON !in s.matchLabels && AddonRequirements(s.matchExpressions) == []
    ensures !AddonMatch(s, l)
  {
    if OWNER !in s.matchLabels {
      var i :| 0 <= i < |s.matchExpressions| && s.matchExpressions[i].key == OWNER;
      var r := s.matchExpressions[i];
      assert ValidRequirement(r);
      assert Reaches(r) || ShutsOut(r);
      assert ExcludesAddon(s);
      var k :| 0 <= k < |s.matchExpressions| && s.matchExpressions[k].key == OWNER && ShutsOut(s.matchExpressions[k]);
      assert AddonMatch(s, l) ==> Satisfies(l, s.matchExpressions[k]);
    }
  }

  lemma UnmentionedKeepsMatching(s: Selector, l: Labels, value: string)
    requires AddonMatch(s, l) && !Mentions(s, ADDON)
    ensures AddonMatch(s, l[ADDON := value])
  {
  }

  /** Every accepted selector that mentions the owner or the add-on label reaches at most one add-on. */
  lemma ScopedReachesOneAddon(s: Selector)
    requires Scoped(s) && Valid(s) && (Mentions(s, OWNER) || Mentions(s, ADDON))
    ensures OneAddon(s)
  {
    forall l, m | AddonMatch(s, l) && AddonMatch(s, m) ensures SameAddon(l, m) {
      if ADDON in s.matchLabels || AddonRequirements(s.matchExpressions) != [] {
        PinnedAddon(s, l, m);
      } else {
        if i :| 0 <= i < |s.matchExpressions| && s.matchExpressions[i].key == ADDON {
          NoAddonRequirements(s.matchExpressions, i);
        }
        OwnerShutsOut(s, l);
      }
    }
  }

  /** The mention is exactly what is needed: an accepted selector that selects some add-on namespace
      reaches one add-on only if and only if it mentions the owner or the add-on label. */
  lemma OneAddonIffMentioned(s: Selector, l: Labels)
    requires Scoped(s) && Valid(s) && AddonMatch(s, l)
    ensures OneAddon(s) <==> Mentions(s, OWNER) || Mentions(s, ADDON)
  {
    if Mentions(s, OWNER) || Mentions(s, ADDON) {
      ScopedReachesOneAddon(s);
    } else {
      UnmentionedKeepsMatching(s, l, "a");
      UnmentionedKeepsMatching(s, l, "b");
      assert !SameAddon(l[ADDON := "a"], l[ADDON := "b"]);
    }
  }

  // ---------------------------------------------------------------- what is accepted, spelled out

  /** The only expression on the add-on label. */
  predicate OnlyAddon(s: Selector, i: nat) {
    i < |s.matchExpressions| && s.matchExpressions[i].key == ADDON &&
    forall k :: 0 <= k < |s.matchExpressions| && k != i ==> s.matchExpressions[k].key != ADDON
  }

  predicate NoAddon(s: Selector) {
    forall k :: 0 <= k < |s.matchExpressions| ==> s.matchExpressions[k].key != ADDON
  }

  /** The selector asks for the owner "addon" by name. */
  predicate AsksForAddons(s: Selector) {
    || (OWNER in s.matchLabels && s.matchLabels[OWNER] == "addon")
    || exists r :: r in s.matchExpressions && r.key == OWNER && r.operator == In && "addon" in r.values
  }

  /** Some owner requirement is met by the owner "addon", or some is not. */
  predicate AdmitsAddons(s: Selector) {
    || (OWNER in s.matchLabels && s.matchLabels[OWNER] == "addon")
    || exists r :: r in s.matchExpressions && r.key == OWNER && Satisfies(map[OWNER := "addon"], r)
  }

  predicate RefusesAddons(s: Selector) {
    || (OWNER in s.matchLabels && s.matchLabels[OWNER] != "addon")
    || exists r :: r in s.matchExpressions && r.key == OWNER && !r.operator.Unknown? && !Satisfies(map[OWNER := "addon"], r)
  }

  /** One add-on is required: by the label, by the only expression, or by both alike. */
  predicate RequiresOneAddon(s: Selector) {
    && (ADDON in s.matchLabels ==> s.matchLabels[ADDON] != "")
    && (NoAddon(s) || exists i :: 0 <= i < |s.matchExpressions| && OnlyAddon(s, i) && PinsTo(s, s.matchExpressions[i]))
  }

  predicate PinsTo(s: Selector, r: Requirement) {
    r.operator == In && |r.values| == 1 && r.values[0] != "" && (ADDON in s.matchLabels ==> s.matchLabels[ADDON] == r.values[0])
  }

  /** The only expression requires the add-on label absent, and no match label gives it. */
  predicate RequiresNoAddon(s: Selector) {
    ADDON !in s.matchLabels && exists i :: 0 <= i < |s.matchExpressions| && OnlyAddon(s, i) && s.matchExpressions[i].operator == DoesNotExist
  }

  lemma {:induction false} OneRequirement(rs: seq<Requirement>, i: nat)
    requires i < |rs| && rs[i].key == ADDON && forall k :: 0 <= k < |rs| && k != i ==> rs[k].key != ADDON
    ensures AddonRequirements(rs) == [rs[i]]
  {
    var init := rs[..|rs| - 1];
    if i == |rs| - 1 {
      NoRequirements(init);
    } else {
      OneRequirement(init, i);
    }
  }

  lemma {:induction false} NoRequirements(rs: seq<Requirement>)
    requires forall k :: 0 <= k < |rs| ==> rs[k].key != ADDON
    ensures AddonRequirements(rs) == []
  {
    if rs != [] { NoRequirements(rs[..|rs| - 1]); }
  }

  lemma {:induction false} SomeRequirement(rs: seq<Requirement>, i: nat)
    requires i < |rs| && rs[i].key == ADDON
    ensures AddonRequirements(rs) != []
  {
    if i < |rs| - 1 { SomeRequirement(rs[..|rs| - 1], i); }
  }

  lemma {:induction false} TwoRequirements(rs: seq<Requirement>, i: nat, j: nat)
    requires i < j < |rs| && rs[i].key == ADDON && rs[j].key == ADDON
    ensures |AddonRequirements(rs)| >= 2
  {
    if j == |rs| - 1 {
      SomeRequirement(rs[..|rs| - 1], i);
    } else {
      TwoRequirements(rs[..|rs| - 1], i, j);
    }
  }

  /** How many expressions are on the add-on label. */
  lemma RequirementsCounted(s: Selector)
    ensures AddonRequirements(s.matchExpressions) == [] <==> NoAddon(s)
    ensures |AddonRequirements(s.matchExpressions)| == 1 <==> exists i :: 0 <= i < |s.matchExpressions| && OnlyAddon(s, i)
    ensures forall i :: 0 <= i < |s.matchExpressions| && OnlyAddon(s, i) ==> AddonRequirements(s.matchExpressions) == [s.matchExpressions[i]]
  {
    var rs := s.matchExpressions;
    forall i | 0 <= i < |rs| && OnlyAddon(s, i) ensures AddonRequirements(rs) == [rs[i]] { OneRequirement(rs, i); }
    if NoAddon(s) {
      NoRequirements(rs);
    } else {
      var i :| 0 <= i < |rs| && rs[i].key == ADDON;
      SomeRequirement(rs, i);
      if !OnlyAddon(s, i) {
        var k :| 0 <= k < |rs| && k != i && rs[k].key == ADDON;
        TwoRequirements(rs, if i < k then i else k, if i < k then k else i);
        forall j | 0 <= j < |rs| ensures !OnlyAddon(s, j) {
        }
      }
    }
  }

  lemma OwnerMeans(s: Selector)
    ensures ExplicitAddon(s) <==> AsksForAddons(s)
    ensures TargetsAddon(s) <==> AdmitsAddons(s)
    ensures ExcludesAddon(s) <==> RefusesAddons(s)
  {
    forall r: Requirement | r.key == OWNER
      ensures Reaches(r) <==> Satisfies(map[OWNER := "addon"], r)
      ensures ShutsOut(r) <==> !r.operator.Unknown? && !Satisfies(map[OWNER := "addon"], r)
    {
    }
    assert forall i :: 0 <= i < |s.matchExpressions| ==> s.matchExpressions[i] in s.matchExpressions;
  }

  /** A selector is accepted exactly when it requires one add-on, or requires none and does not ask for add-ons, or
      says nothing of the add-on label, does not ask for add-ons, and admits them only where it also refuses them. */
  lemma ScopedExactly(s: Selector)
    ensures Scoped(s) <==>
            if !Mentions(s, ADDON) then !AsksForAddons(s) && (AdmitsAddons(s) ==> RefusesAddons(s))
            else RequiresOneAddon(s) || (RequiresNoAddon(s) && !AsksForAddons(s))
  {
    OwnerMeans(s);
    RequirementsCounted(s);
    assert Mentions(s, ADDON) <==> ADDON in s.matchLabels || !NoAddon(s);
    if i :| 0 <= i < |s.matchExpressions| && OnlyAddon(s, i) {
      assert forall k :: 0 <= k < |s.matchExpressions| && OnlyAddon(s, k) ==> k == i;
    }
  }
}
