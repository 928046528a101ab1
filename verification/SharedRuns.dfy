/** Runs of the ServiceAccount operations by any number of BindDefinitions, each operation atomic on the fetched
    object (internal/controller/authorization/binddefinition_helpers.go). */
module SharedRuns {
  import opened Options
  import opened Strings
  import opened NameLists
  import opened Owners
  import opened SharedAccounts

  datatype Account = Account(annotations: Annotations, owners: seq<OwnerRef>)

  datatype Op =
    | AddExternal(name: string)
    | RemoveExternal(name: string)
    | AddManaged(name: string)
    | Detach(owner: Owner)
    | Reclassify(owner: Owner, managers: seq<string>)

  function By(op: Op): string {
    match op
    case Detach(owner) => owner.name
    case Reclassify(owner, _) => owner.name
    case _ => op.name
  }

  /** The state each method of ServiceAccount establishes. */
  function Apply(s: Account, op: Op): Account {
    match op
    case AddExternal(n) => s.(annotations := WithReference(s.annotations, n))
    case RemoveExternal(n) => s.(annotations := WithoutReference(s.annotations, n))
    case AddManaged(n) => s.(annotations := WithSource(s.annotations, n))
    case Detach(o) => Account(WithoutSource(s.annotations, o.name), WithoutOwner(s.owners, o))
    case Reclassify(o, m) => Account(Reclassified(s.annotations, o.name, m), WithoutOwner(s.owners, o))
  }

  function Run(s: Account, ops: seq<Op>): Account {
    if ops == [] then s else Apply(Run(s, ops[..|ops| - 1]), ops[|ops| - 1])
  }

  predicate PlainNames(ops: seq<Op>) {
    forall i :: 0 <= i < |ops| ==> Plain(By(ops[i]))
  }

  ghost function Sources(a: Annotations): set<string> {
    Names(Get(a, SOURCES))
  }

  ghost function References(a: Annotations): set<string> {
    Names(Get(a, REFERENCED_BY))
  }

  // ---------------------------------------------------------------- single operations on the sets

  lemma EntriesPlain(text: string)
    ensures TrimmedFree(Entries(text)) && "" !in Entries(text)
  {
    PiecesTrimmed(text);
    DropElements(Pieces(text), "");
    assert forall x :: x in Entries(text) <==> x in Elements(Entries(text));
    SameMembersTrimmed(Pieces(text), Entries(text));
  }

  lemma ReferenceAdded(a: Annotations, name: string)
    requires Plain(name)
    ensures References(WithReference(a, name)) == References(a) + {name}
  {
    var refs := Entries(Get(a, REFERENCED_BY));
    EntriesPlain(Get(a, REFERENCED_BY));
    if name !in refs {
      NamesOfSorted(refs + [name]);
      assert Elements(refs + [name]) == Elements(refs) + {name};
      assert "" !in Elements(refs);
    }
  }

  lemma ReferenceDropped(a: Annotations, name: string)
    ensures References(WithoutReference(a, name)) == References(a) - {name}
  {
    var refs := Entries(Get(a, REFERENCED_BY));
    EmptyHasNoNames();
    if REFERENCED_BY in a && name in refs {
      var rest := Drop(refs, name);
      EntriesPlain(Get(a, REFERENCED_BY));
      DropElements(refs, name);
      assert rest == [] ==> Elements(rest) == {};
      forall x | x in rest ensures x in refs {
        assert x in Elements(rest);
      }
      SameMembersTrimmed(refs, rest);
      NamesOfSorted(rest);
      assert "" !in Elements(refs);
    }
  }

  lemma SourcesRemoved(a: Annotations)
    ensures Get(WithoutSources(a), SOURCES) == "" && SOURCES !in WithoutSources(a)
    ensures forall k :: k != SOURCES && k != KIND ==> (k in WithoutSources(a) <==> k in a) && Get(WithoutSources(a), k) == Get(a, k)
  {
  }

  lemma SourceAdded(a: Annotations, name: string)
    requires Plain(name)
    ensures Sources(WithSource(a, name)) == Sources(a) + {name}
    ensures Get(WithSource(a, name), SOURCES) == Merge(Get(a, SOURCES), name)
  {
    KeysDiffer();
    MergeAdds(Get(a, SOURCES), name);
  }

  lemma SourceDropped(a: Annotations, name: string)
    ensures Sources(WithoutSource(a, name)) == Sources(a) - {name}
    ensures Get(WithoutSource(a, name), SOURCES) == Remove(Get(a, SOURCES), name)
    ensures Sources(SourcesRewritten(a, name)) == Sources(a) - {name}
    ensures Get(SourcesRewritten(a, name), SOURCES) == Remove(Get(a, SOURCES), name)
  {
    SourcesRemoved(a);
    RemoveDrops(Get(a, SOURCES), name);
  }

  /** The managed operations leave the reference annotations alone and the other way round. */
  lemma Untouched(a: Annotations, name: string)
    ensures Get(WithSource(a, name), REFERENCED_BY) == Get(a, REFERENCED_BY)
    ensures Get(WithoutSource(a, name), REFERENCED_BY) == Get(a, REFERENCED_BY)
    ensures Get(SourcesRewritten(a, name), REFERENCED_BY) == Get(a, REFERENCED_BY)
    ensures Get(WithReference(a, name), SOURCES) == Get(a, SOURCES)
    ensures Get(WithoutReference(a, name), SOURCES) == Get(a, SOURCES)
  {
    KeysDiffer();
    SourcesRemoved(a);
  }

  lemma ManagersUntouched(a: Annotations, text: string)
    ensures Get(a[MANAGERS := text], SOURCES) == Get(a, SOURCES)
    ensures Get(a[MANAGERS := text], REFERENCED_BY) == Get(a, REFERENCED_BY)
  {
  }

  /** The set of managing BindDefinitions after one operation. */
  lemma SourcesAfter(s: Account, op: Op)
    requires Plain(By(op))
    ensures Sources(Apply(s, op).annotations) ==
            match op
            case AddManaged(n) => Sources(s.annotations) + {n}
            case Detach(o) => Sources(s.annotations) - {o.name}
            case Reclassify(o, _) => Sources(s.annotations) - {o.name}
            case _ => Sources(s.annotations)
  {
    var a := s.annotations;
    match op
    case AddManaged(n) => SourceAdded(a, n);
    case Detach(o) => SourceDropped(a, o.name);
    case Reclassify(o, m) =>
      SourceDropped(a, o.name);
      var b := SourcesRewritten(a, o.name);
      Untouched(b, o.name);
      ManagersUntouched(WithReference(b, o.name), Join(m, ','));
    case AddExternal(n) => Untouched(a, n);
    case RemoveExternal(n) => Untouched(a, n);
  }

  /** The set of referencing BindDefinitions after one operation. */
  lemma ReferencesAfter(s: Account, op: Op)
    requires Plain(By(op))
    ensures References(Apply(s, op).annotations) ==
            match op
            case AddExternal(n) => References(s.annotations) + {n}
            case Reclassify(o, _) => References(s.annotations) + {o.name}
            case RemoveExternal(n) => References(s.annotations) - {n}
            case _ => References(s.annotations)
  {
    var a := s.annotations;
    match op
    case AddManaged(n) => Untouched(a, n);
    case Detach(o) => Untouched(a, o.name);
    case Reclassify(o, m) =>
      Untouched(a, o.name);
      var b := SourcesRewritten(a, o.name);
      ReferenceAdded(b, o.name);
      ManagersUntouched(WithReference(b, o.name), Join(m, ','));
    case AddExternal(n) => ReferenceAdded(a, n);
    case RemoveExternal(n) => ReferenceDropped(a, n);
  }

  // ---------------------------------------------------------------- whole runs as sets

  /** What an operation says about its own BindDefinition being a source, if anything. */
  function SaysSource(op: Op): Option<bool> {
    match op
    case AddManaged(_) => Some(true)
    case Detach(_) => Some(false)
    case Reclassify(_, _) => Some(false)
    case _ => None
  }

  function SaysReference(op: Op): Option<bool> {
    match op
    case AddExternal(_) => Some(true)
    case Reclassify(_, _) => Some(true)
    case RemoveExternal(_) => Some(false)
    case _ => None
  }

  /** The last word of a BindDefinition's own operations, or what held before. */
  function LastWord(ops: seq<Op>, name: string, says: Op -> Option<bool>, before: bool): bool {
    if ops == [] then before
    else
      var last := ops[|ops| - 1];
      if By(last) == name && says(last).Some? then says(last).value else LastWord(ops[..|ops| - 1], name, says, before)
  }

  /** After every run, who manages the account is decided by each BindDefinition's own last operation alone ... */
  lemma {:induction false} RunSources(s: Account, ops: seq<Op>, name: string)
    requires PlainNames(ops)
    ensures name in Sources(Run(s, ops).annotations) <==> LastWord(ops, name, SaysSource, name in Sources(s.annotations))
  {
    if ops != [] {
      var init, last := ops[..|ops| - 1], ops[|ops| - 1];
      RunSources(s, init, name);
      SourcesAfter(Run(s, init), last);
    }
  }

  /** ... and so is who references it. */
  lemma {:induction false} RunReferences(s: Account, ops: seq<Op>, name: string)
    requires PlainNames(ops)
    ensures name in References(Run(s, ops).annotations) <==> LastWord(ops, name, SaysReference, name in References(s.annotations))
  {
    if ops != [] {
      var init, last := ops[..|ops| - 1], ops[|ops| - 1];
      RunReferences(s, init, name);
      ReferencesAfter(Run(s, init), last);
    }
  }

  predicate Releases(op: Op, r: OwnerRef) {
    && (op.Detach? || op.Reclassify?) && op.owner == r.owner
    && r.owner.uid != "" && r.owner.apiVersion != "" && r.owner.kind != "" && r.owner.name != ""
  }

  lemma OwnersAfter(s: Account, op: Op, r: OwnerRef)
    ensures r in Apply(s, op).owners <==> r in s.owners && !Releases(op, r)
  {
    if op.Detach? || op.Reclassify? {
      OwnerKept(s.owners, op.owner);
    }
  }

  /** An owner reference stays exactly while no operation of its complete identity released it. */
  lemma {:induction false} RunOwners(s: Account, ops: seq<Op>, r: OwnerRef)
    ensures r in Run(s, ops).owners <==> r in s.owners && forall i :: 0 <= i < |ops| ==> !Releases(ops[i], r)
  {
    if ops != [] {
      var init, last := ops[..|ops| - 1], ops[|ops| - 1];
      RunOwners(s, init, r);
      OwnersAfter(Run(s, init), last, r);
      assert ops == init + [last];
      assert forall i :: 0 <= i < |init| ==> init[i] == ops[i];
    }
  }

  // ---------------------------------------------------------------- the field managers

  /** The recorded field managers are meaningful only while somebody references the account. */
  ghost predicate ManagersReferenced(a: Annotations) {
    MANAGERS in a ==> References(a) != {}
  }

  lemma ManagersKept(s: Account, op: Op)
    requires Plain(By(op)) && ManagersReferenced(s.annotations)
    ensures ManagersReferenced(Apply(s, op).annotations)
  {
    KeysDiffer();
    SourcesRemoved(s.annotations);
    ReferencesAfter(s, op);
    if op.RemoveExternal? {
      DropEmptied(s.annotations, op.name);
    }
  }

  lemma DropEmptied(a: Annotations, name: string)
    requires ManagersReferenced(a)
    ensures ManagersReferenced(WithoutReference(a, name))
  {
    ReferenceDropped(a, name);
    var refs := Entries(Get(a, REFERENCED_BY));
    DropElements(refs, name);
    if Drop(refs, name) != [] {
      assert Drop(refs, name)[0] in Elements(Drop(refs, name));
    }
    assert name !in refs ==> name !in Elements(refs);
  }

  lemma {:induction false} RunKeepsManagers(s: Account, ops: seq<Op>)
    requires PlainNames(ops) && ManagersReferenced(s.annotations)
    ensures ManagersReferenced(Run(s, ops).annotations)
  {
    if ops != [] {
      RunKeepsManagers(s, ops[..|ops| - 1]);
      ManagersKept(Run(s, ops[..|ops| - 1]), ops[|ops| - 1]);
    }
  }

  /** The annotation is there with the same text, or in neither. */
  predicate SameAt(a: Annotations, b: Annotations, key: string) {
    (key in a <==> key in b) && (key in a && key in b ==> a[key] == b[key])
  }

  /** The recorded managers after one operation: those of a reclassification, none once the only reference is gone,
      and otherwise what they were. */
  lemma ManagersAfter(s: Account, op: Op)
    requires Plain(By(op))
    ensures var a, b := s.annotations, Apply(s, op).annotations;
            match op
            case Reclassify(_, m) => MANAGERS in b && b[MANAGERS] == Join(m, ',')
            case RemoveExternal(n) => if References(a) == {n} then MANAGERS !in b else SameAt(a, b, MANAGERS)
            case _ => SameAt(a, b, MANAGERS)
  {
    KeysDiffer();
    if op.RemoveExternal? { LastReference(s.annotations, op.name); }
  }

  lemma LastReference(a: Annotations, name: string)
    requires Plain(name)
    ensures if References(a) == {name} then MANAGERS !in WithoutReference(a, name) else SameAt(a, WithoutReference(a, name), MANAGERS)
  {
    KeysDiffer();
    var refs := Entries(Get(a, REFERENCED_BY));
    EntriesPlain(Get(a, REFERENCED_BY));
    EmptyHasNoNames();
    DropElements(refs, name);
    assert name in refs <==> name in References(a);
    assert Drop(refs, name) == [] <==> References(a) - {name} == {} by {
      if Drop(refs, name) != [] { assert Drop(refs, name)[0] in Elements(Drop(refs, name)); }
    }
  }

  /** The source kind after one operation: the operator's own once a source is added, none once the last source of
      the operator's own kind is gone, and otherwise what it was. */
  lemma KindAfter(s: Account, op: Op)
    ensures var a, b := s.annotations, Apply(s, op).annotations;
            match op
            case AddManaged(_) => KIND in b && b[KIND] == "BindDefinition"
            case Detach(o) =>
              if LeavesNoSource(a, o.name) && Remove(Get(a, SOURCES), o.name) != Get(a, SOURCES) then KIND !in b && SOURCES !in b
              else SameAt(a, b, KIND)
            case Reclassify(o, _) => if LeavesNoSource(a, o.name) then KIND !in b && SOURCES !in b else SameAt(a, b, KIND)
            case _ => SameAt(a, b, KIND)
  {
    KeysDiffer();
  }

  /** No name is left of the sources, and the kind is the operator's own. */
  predicate LeavesNoSource(a: Annotations, name: string) {
    Remove(Get(a, SOURCES), name) == "" && Get(a, KIND) == "BindDefinition"
  }

  /** No run touches the annotations of others. */
  lemma {:induction false} RunKeepsForeign(s: Account, ops: seq<Op>, key: string)
    requires key !in {KIND, SOURCES, REFERENCED_BY, MANAGERS}
    ensures SameAt(s.annotations, Run(s, ops).annotations, key)
  {
    if ops != [] {
      RunKeepsForeign(s, ops[..|ops| - 1], key);
      StepKeepsForeign(Run(s, ops[..|ops| - 1]), ops[|ops| - 1], key);
    }
  }

  lemma StepKeepsForeign(s: Account, op: Op, key: string)
    requires key !in {KIND, SOURCES, REFERENCED_BY, MANAGERS}
    ensures SameAt(s.annotations, Apply(s, op).annotations, key)
  {
  }

  // ---------------------------------------------------------------- canonical annotations

  /** The annotations the operator writes itself: canonical texts, absent when empty, and a source kind exactly
      next to source names. */
  ghost predicate Tidy(a: Annotations) {
    TidySources(a) && TidyReferences(a)
  }

  ghost predicate TidySources(a: Annotations) {
    && Canonical(Get(a, SOURCES)) && (SOURCES in a <==> Get(a, SOURCES) != "")
    && (KIND in a <==> SOURCES in a) && (KIND in a ==> a[KIND] == BIND_DEFINITION)
  }

  ghost predicate TidyReferences(a: Annotations) {
    Canonical(Get(a, REFERENCED_BY)) && (REFERENCED_BY in a <==> Get(a, REFERENCED_BY) != "")
  }

  function SetSources(a: Annotations, text: string): Annotations {
    if text == "" then a - {SOURCES, KIND} else a[KIND := BIND_DEFINITION][SOURCES := text]
  }

  lemma SetSourcesTwice(a: Annotations, t: string, u: string)
    ensures SetSources(SetSources(a, t), u) == SetSources(a, u)
    ensures Get(SetSources(a, t), SOURCES) == t
    ensures Canonical(t) ==> TidySources(SetSources(a, t))
    ensures TidyReferences(a) ==> TidyReferences(SetSources(a, t))
  {
  }

  lemma TidyWithSource(a: Annotations, name: string)
    requires TidySources(a) && Plain(name)
    ensures WithSource(a, name) == SetSources(a, Merge(Get(a, SOURCES), name))
  {
    KeysDiffer();
    MergeCanonical(Get(a, SOURCES), name);
  }

  lemma TidyWithoutSource(a: Annotations, name: string)
    requires TidySources(a)
    ensures WithoutSource(a, name) == SetSources(a, Remove(Get(a, SOURCES), name))
    ensures SourcesRewritten(a, name) == SetSources(a, Remove(Get(a, SOURCES), name))
  {
  }

  lemma SourcesStayTidy(a: Annotations, name: string)
    requires TidySources(a) && Plain(name)
    ensures TidySources(WithSource(a, name)) && TidySources(WithoutSource(a, name)) && TidySources(SourcesRewritten(a, name))
  {
    TidyWithSource(a, name);
    TidyWithoutSource(a, name);
    MergeCanonical(Get(a, SOURCES), name);
    RemoveCanonical(Get(a, SOURCES), name);
    SetSourcesTwice(a, Merge(Get(a, SOURCES), name), "");
    SetSourcesTwice(a, Remove(Get(a, SOURCES), name), "");
  }

  lemma SourcesLeaveReferencesTidy(a: Annotations, name: string)
    requires TidyReferences(a)
    ensures TidyReferences(WithSource(a, name)) && TidyReferences(WithoutSource(a, name)) && TidyReferences(SourcesRewritten(a, name))
  {
  }

  /** On canonical text the reference list is kept like the source names. */
  lemma CanonicalReferences(text: string, name: string)
    requires Canonical(text) && Plain(name)
    ensures name !in Entries(text) ==> Join(Sort(Entries(text) + [name]), ',') == Merge(text, name)
    ensures Join(Sort(Drop(Entries(text), name)), ',') == Remove(text, name)
  {
    if text == "" {
      EmptyHasNoNames();
      CanonicalJoin([]);
      assert [] + [name] == [name];
      SortStrict([name]);
      assert Sort(Drop([], name)) == [];
    } else {
      CanonicalPieces(text);
    }
  }

  lemma ReferencesStayTidy(a: Annotations, name: string)
    requires TidyReferences(a) && Plain(name)
    ensures TidyReferences(WithReference(a, name)) && TidyReferences(WithoutReference(a, name))
  {
    var t := Get(a, REFERENCED_BY);
    CanonicalReferences(t, name);
    MergeCanonical(t, name);
    RemoveCanonical(t, name);
    EmptyHasNoNames();
    if Drop(Entries(t), name) != [] {
      RemainderNotEmpty(t, name);
    }
  }

  lemma RemainderNotEmpty(text: string, name: string)
    requires Canonical(text) && Drop(Entries(text), name) != []
    ensures Remove(text, name) != ""
  {
    RemoveDrops(text, name);
    DropElements(Entries(text), name);
    EmptyHasNoNames();
    assert Drop(Entries(text), name)[0] in Names(text) - {name};
  }

  lemma ReferencesLeaveSourcesTidy(a: Annotations, name: string)
    requires TidySources(a)
    ensures TidySources(WithReference(a, name)) && TidySources(WithoutReference(a, name))
  {
  }

  lemma ManagersLeaveTidy(a: Annotations, text: string)
    requires Tidy(a)
    ensures Tidy(a[MANAGERS := text])
  {
  }

  lemma StepStaysTidy(s: Account, op: Op)
    requires Tidy(s.annotations) && Plain(By(op))
    ensures Tidy(Apply(s, op).annotations)
  {
    var a, n := s.annotations, By(op);
    SourcesStayTidy(a, n);
    SourcesLeaveReferencesTidy(a, n);
    ReferencesStayTidy(a, n);
    ReferencesLeaveSourcesTidy(a, n);
    if op.Reclassify? {
      var b := SourcesRewritten(a, n);
      ReferencesStayTidy(b, n);
      ReferencesLeaveSourcesTidy(b, n);
      ManagersLeaveTidy(WithReference(b, n), Join(op.managers, ','));
    }
  }

  /** Starting without annotations of the operator, every run keeps them canonical, with the source kind
      present exactly while there are source names. */
  lemma {:induction false} RunStaysTidy(s: Account, ops: seq<Op>)
    requires Tidy(s.annotations) && PlainNames(ops)
    ensures Tidy(Run(s, ops).annotations)
  {
    if ops != [] {
      RunStaysTidy(s, ops[..|ops| - 1]);
      StepStaysTidy(Run(s, ops[..|ops| - 1]), ops[|ops| - 1]);
    }
  }

  lemma {:induction false} OwnersCommute(refs: seq<OwnerRef>, a: Owner, b: Owner)
    ensures WithoutOwner(WithoutOwner(refs, a), b) == WithoutOwner(WithoutOwner(refs, b), a)
  {
    if refs != [] {
      OwnersCommute(refs[1..], a, b);
      assert ([refs[0]] + WithoutOwner(refs[1..], a))[1..] == WithoutOwner(refs[1..], a);
      assert ([refs[0]] + WithoutOwner(refs[1..], b))[1..] == WithoutOwner(refs[1..], b);
    }
  }

  /** The operations on source names. */
  predicate Managed(op: Op) {
    op.AddManaged? || op.Detach? || op.Reclassify?
  }

  /** The texts a managed operation turns the source names and the references into, and the managers it records. */
  function Rewrite(text: string, op: Op): string
    requires Managed(op)
  {
    if op.AddManaged? then Merge(text, op.name) else Remove(text, op.owner.name)
  }

  function Rereference(text: string, op: Op): string
    requires Managed(op)
  {
    if op.Reclassify? then Merge(text, op.owner.name) else text
  }

  function Records(op: Op): Option<string> {
    if op.Reclassify? then Some(Join(op.managers, ',')) else None
  }

  function SetReferences(a: Annotations, text: string): Annotations {
    if text == "" then a - {REFERENCED_BY} else a[REFERENCED_BY := text]
  }

  function SetManagers(a: Annotations, managers: Option<string>): Annotations {
    if managers.None? then a else a[MANAGERS := managers.value]
  }

  function Written(a: Annotations, sources: string, references: string, managers: Option<string>): Annotations {
    SetManagers(SetReferences(SetSources(a, sources), references), managers)
  }

  function Later(first: Option<string>, second: Option<string>): Option<string> {
    if second.Some? then second else first
  }

  lemma WrittenReads(a: Annotations, t: string, u: string, m: Option<string>)
    ensures Get(Written(a, t, u, m), SOURCES) == t && Get(Written(a, t, u, m), REFERENCED_BY) == u
    ensures m.Some? ==> Get(Written(a, t, u, m), MANAGERS) == m.value
    ensures Canonical(t) && Canonical(u) ==> Tidy(Written(a, t, u, m))
  {
    KeysDiffer();
  }

  /** The order in which the sources, the references and the managers are written does not matter. */
  lemma SourcesAndManagers(a: Annotations, t: string, m: Option<string>)
    ensures SetSources(SetManagers(a, m), t) == SetManagers(SetSources(a, t), m)
  {
    KeysDiffer();
  }

  lemma ReferencesAndManagers(a: Annotations, u: string, m: Option<string>)
    ensures SetReferences(SetManagers(a, m), u) == SetManagers(SetReferences(a, u), m)
  {
    KeysDiffer();
  }

  lemma SourcesAndReferences(a: Annotations, t: string, u: string)
    ensures SetSources(SetReferences(a, u), t) == SetReferences(SetSources(a, t), u)
  {
    KeysDiffer();
  }

  lemma SetTwice(a: Annotations, t: string, u: string, m: Option<string>, t': string, u': string, m': Option<string>)
    ensures SetSources(SetSources(a, t), t') == SetSources(a, t')
    ensures SetReferences(SetReferences(a, u), u') == SetReferences(a, u')
    ensures SetManagers(SetManagers(a, m), m') == SetManagers(a, Later(m, m'))
  {
    KeysDiffer();
  }

  lemma WrittenTwice(a: Annotations, t: string, u: string, m: Option<string>, t': string, u': string, m': Option<string>)
    ensures Written(Written(a, t, u, m), t', u', m') == Written(a, t', u', Later(m, m'))
  {
    var b := SetSources(a, t);
    var c := SetReferences(b, u);
    SourcesAndManagers(c, t', m);
    SourcesAndReferences(b, t', u);
    ReferencesAndManagers(SetSources(c, t'), u', m);
    SetTwice(a, t, u, m, t', u', m');
    SetTwice(SetSources(a, t'), t, u, m, t', u', m');
    SetTwice(SetReferences(SetSources(a, t'), u'), t, u, m, t', u', m');
  }

  lemma TidyReferencesKept(a: Annotations)
    requires TidyReferences(a)
    ensures SetReferences(a, Get(a, REFERENCED_BY)) == a
  {
  }

  lemma TidyWithReference(a: Annotations, name: string)
    requires TidyReferences(a) && Plain(name)
    ensures WithReference(a, name) == SetReferences(a, Merge(Get(a, REFERENCED_BY), name))
  {
    var u := Get(a, REFERENCED_BY);
    CanonicalReferences(u, name);
    MergeCanonical(u, name);
    if name in Entries(u) {
      assert name in Names(u);
      MergeDetermined(u, name, u);
      TidyReferencesKept(a);
    }
  }

  lemma ManagedStep(s: Account, op: Op)
    requires Tidy(s.annotations) && Plain(By(op)) && Managed(op)
    ensures var t, u := Rewrite(Get(s.annotations, SOURCES), op), Rereference(Get(s.annotations, REFERENCED_BY), op);
            Canonical(t) && Canonical(u) && Apply(s, op).annotations == Written(s.annotations, t, u, Records(op))
  {
    var a, n := s.annotations, By(op);
    var t, u := Get(a, SOURCES), Get(a, REFERENCED_BY);
    MergeCanonical(t, n);
    RemoveCanonical(t, n);
    MergeCanonical(u, n);
    TidyWithSource(a, n);
    TidyWithoutSource(a, n);
    var b := SetSources(a, Rewrite(t, op));
    SetSourcesTwice(a, Rewrite(t, op), "");
    SourcesApart(a, Rewrite(t, op));
    if op.Reclassify? {
      TidyWithReference(b, n);
    } else {
      TidyReferencesKept(b);
    }
  }

  lemma SourcesApart(a: Annotations, text: string)
    ensures Get(SetSources(a, text), REFERENCED_BY) == Get(a, REFERENCED_BY)
  {
    KeysDiffer();
  }

  lemma RewritesCommute(text: string, p: Op, q: Op)
    requires Canonical(text) && Plain(By(p)) && Plain(By(q)) && By(p) != By(q) && Managed(p) && Managed(q)
    ensures Rewrite(Rewrite(text, p), q) == Rewrite(Rewrite(text, q), p)
    ensures Rereference(Rereference(text, p), q) == Rereference(Rereference(text, q), p)
  {
    MergesCommute(text, By(p), By(q));
    RemovesCommute(text, By(p), By(q));
    MergeRemoveCommute(text, By(p), By(q));
    MergeRemoveCommute(text, By(q), By(p));
  }

  lemma ManagedTwice(s: Account, p: Op, q: Op)
    requires Tidy(s.annotations) && Plain(By(p)) && Plain(By(q)) && Managed(p) && Managed(q)
    ensures var t, u := Get(s.annotations, SOURCES), Get(s.annotations, REFERENCED_BY);
            Apply(Apply(s, p), q).annotations ==
              Written(s.annotations, Rewrite(Rewrite(t, p), q), Rereference(Rereference(u, p), q), Later(Records(p), Records(q)))
  {
    var a := s.annotations;
    var t, u := Rewrite(Get(a, SOURCES), p), Rereference(Get(a, REFERENCED_BY), p);
    ManagedStep(s, p);
    WrittenReads(a, t, u, Records(p));
    ManagedStep(Apply(s, p), q);
    WrittenTwice(a, t, u, Records(p), Rewrite(t, q), Rereference(u, q), Records(q));
  }

  lemma OwnersAfterTwo(s: Account, p: Op, q: Op)
    requires Managed(p) && Managed(q)
    ensures Apply(Apply(s, p), q).owners == Apply(Apply(s, q), p).owners
  {
    if !p.AddManaged? && !q.AddManaged? {
      OwnersCommute(s.owners, p.owner, q.owner);
    }
  }

  lemma SourceStep(s: Account, op: Op)
    requires TidySources(s.annotations) && Plain(By(op)) && (op.AddManaged? || op.Detach?)
    ensures Apply(s, op).annotations == SetSources(s.annotations, Rewrite(Get(s.annotations, SOURCES), op))
    ensures Canonical(Rewrite(Get(s.annotations, SOURCES), op))
  {
    MergeCanonical(Get(s.annotations, SOURCES), By(op));
    RemoveCanonical(Get(s.annotations, SOURCES), By(op));
    TidyWithSource(s.annotations, By(op));
    TidyWithoutSource(s.annotations, By(op));
  }

  /** Without reclassification the references may be in any shape. */
  lemma SourceOperationsCommute(s: Account, p: Op, q: Op)
    requires TidySources(s.annotations) && Plain(By(p)) && Plain(By(q)) && By(p) != By(q)
    requires (p.AddManaged? || p.Detach?) && (q.AddManaged? || q.Detach?)
    ensures Apply(Apply(s, p), q) == Apply(Apply(s, q), p)
  {
    var a := s.annotations;
    var t := Get(a, SOURCES);
    SourceStep(s, p);
    SourceStep(s, q);
    SetSourcesTwice(a, Rewrite(t, p), Rewrite(Rewrite(t, p), q));
    SetSourcesTwice(a, Rewrite(t, q), Rewrite(Rewrite(t, q), p));
    SourceStep(Apply(s, p), q);
    SourceStep(Apply(s, q), p);
    RewritesCommute(t, p, q);
    OwnersAfterTwo(s, p, q);
  }

  /** Managed-name operations of different BindDefinitions commute to the same account, text for text, if and only
      if they do not both record field managers, or record the same ones: the later record replaces the earlier. */
  lemma ManagedOperationsCommute(s: Account, p: Op, q: Op)
    requires TidySources(s.annotations) && (p.Reclassify? || q.Reclassify? ==> TidyReferences(s.annotations))
    requires Plain(By(p)) && Plain(By(q)) && By(p) != By(q) && Managed(p) && Managed(q)
    ensures Apply(Apply(s, p), q) == Apply(Apply(s, q), p) <==>
            (p.Reclassify? && q.Reclassify? ==> Join(p.managers, ',') == Join(q.managers, ','))
  {
    if p.Reclassify? || q.Reclassify? {
      ReclassifyCommutes(s, p, q);
    } else {
      SourceOperationsCommute(s, p, q);
    }
  }

  lemma ReclassifyCommutes(s: Account, p: Op, q: Op)
    requires Tidy(s.annotations) && Plain(By(p)) && Plain(By(q)) && By(p) != By(q) && Managed(p) && Managed(q)
    ensures Apply(Apply(s, p), q) == Apply(Apply(s, q), p) <==>
            (p.Reclassify? && q.Reclassify? ==> Join(p.managers, ',') == Join(q.managers, ','))
  {
    var a := s.annotations;
    var t, u := Get(a, SOURCES), Get(a, REFERENCED_BY);
    ManagedTwice(s, p, q);
    ManagedTwice(s, q, p);
    RewritesCommute(t, p, q);
    RewritesCommute(u, p, q);
    OwnersAfterTwo(s, p, q);
    var t2, u2 := Rewrite(Rewrite(t, p), q), Rereference(Rereference(u, p), q);
    WrittenReads(a, t2, u2, Later(Records(p), Records(q)));
    WrittenReads(a, t2, u2, Later(Records(q), Records(p)));
  }
}
