/** Status conditions and the kstatus operations on them (pkg/conditions/setter.go, pkg/conditions/kstatus.go).
    The clock is a parameter of each Set. */
module Conditions {
  import opened Options
  import opened Strings

  datatype Status = IsTrue | IsFalse | IsUnknown
  datatype Mark = Mark(status: Status, generation: int, reason: string, message: string)
  datatype Condition = Condition(kind: string, mark: Mark, since: int)

  /** The zero time. */
  const ZERO := 0

  // ---------------------------------------------------------------- the list

  function InsertByKind(c: Condition, xs: seq<Condition>): seq<Condition> {
    if xs == [] || Le(xs[|xs| - 1].kind, c.kind) then xs + [c]
    else InsertByKind(c, xs[..|xs| - 1]) + [xs[|xs| - 1]]
  }

  /** slices.SortFunc by type. */
  function SortByKind(xs: seq<Condition>): seq<Condition> {
    if xs == [] then [] else InsertByKind(xs[|xs| - 1], SortByKind(xs[..|xs| - 1]))
  }

  /** The position of the first condition of a kind, or the length. */
  function Find(xs: seq<Condition>, kind: string): (i: nat)
    ensures i <= |xs| && (i < |xs| ==> xs[i].kind == kind) && forall k :: 0 <= k < i ==> xs[k].kind != kind
  {
    if xs == [] || xs[0].kind == kind then 0 else 1 + Find(xs[1..], kind)
  }

  /** The time is taken on a change of state, and on creation unless the condition brings one. */
  function Updated(xs: seq<Condition>, c: Condition, now: int): seq<Condition> {
    var i := Find(xs, c.kind);
    if i == |xs| then xs + [if c.since == ZERO then c.(since := now) else c]
    else if xs[i].mark != c.mark then xs[i := c.(since := now)]
    else xs
  }

  function SetIn(xs: seq<Condition>, c: Condition, now: int): seq<Condition> {
    SortByKind(Updated(xs, c, now))
  }

  function Removed(xs: seq<Condition>, kind: string): seq<Condition> {
    if xs == [] then []
    else if xs[0].kind == kind then Removed(xs[1..], kind)
    else [xs[0]] + Removed(xs[1..], kind)
  }

  const READY := "Ready"
  const RECONCILING := "Reconciling"
  const STALLED := "Stalled"

  // ---------------------------------------------------------------- the object

  class StatusObject {
    var conditions: seq<Condition>

    constructor ()
      ensures conditions == []
    {
      conditions := [];
    }

    method Set(condition: Condition, now: int)
      modifies this
      ensures conditions == SetIn(old(conditions), condition, now)
    {
      var found := false;
      var xs := conditions;
      var i := 0;
      while i < |xs| && !found
        invariant 0 <= i <= |xs| && conditions == old(conditions)
        invariant !found ==> xs == conditions && forall k :: 0 <= k < i ==> xs[k].kind != condition.kind
        invariant found ==> Find(conditions, condition.kind) < |conditions| && xs == Updated(conditions, condition, now)
        decreases |xs| - i, !found
      {
        var existing := xs[i];
        if existing.kind == condition.kind {
          found := true;
          if existing.mark != condition.mark {
            xs := xs[i := condition.(since := now)];
          }
        } else {
          i := i + 1;
        }
      }
      if !found {
        xs := xs + [if condition.since == ZERO then condition.(since := now) else condition];
      }
      conditions := SortByKind(xs);
    }

    method Delete(kind: string)
      modifies this
      ensures conditions == Removed(old(conditions), kind)
    {
      var kept: seq<Condition> := [];
      for i := 0 to |conditions|
        invariant conditions == old(conditions)
        invariant kept + Removed(conditions[i..], kind) == Removed(conditions, kind)
      {
        assert conditions[i..] == [conditions[i]] + conditions[i + 1..];
        if conditions[i].kind != kind {
          kept := kept + [conditions[i]];
        }
      }
      assert Removed(conditions[|conditions|..], kind) == [];
      conditions := kept;
    }

    method MarkReady(generation: int, reason: string, message: string, now: int)
      modifies this
      ensures conditions == Operate(old(conditions), Ready(generation, reason, message, now))
      ensures Ordered(old(conditions)) ==>
                && Exclusive(conditions) && Reports(conditions, READY, Mark(IsTrue, generation, reason, message))
                && Lookup(conditions, RECONCILING).None? && Lookup(conditions, STALLED).None?
                && OthersKept(old(conditions), conditions)
    {
      Set(Condition(READY, Mark(IsTrue, generation, reason, message), ZERO), now);
      Delete(RECONCILING);
      Delete(STALLED);
      if Ordered(old(conditions)) { ReadyResult(old(conditions), Ready(generation, reason, message, now)); }
    }

    method MarkNotReady(generation: int, reason: string, message: string, now: int)
      modifies this
      ensures conditions == Operate(old(conditions), NotReady(generation, reason, message, now))
      ensures Ordered(old(conditions)) ==>
                && Ordered(conditions) && Reports(conditions, READY, Mark(IsFalse, generation, reason, message))
                && Lookup(conditions, RECONCILING) == Lookup(old(conditions), RECONCILING)
                && Lookup(conditions, STALLED) == Lookup(old(conditions), STALLED)
                && OthersKept(old(conditions), conditions)
      ensures Exclusive(old(conditions)) ==> Exclusive(conditions)
    {
      Set(Condition(READY, Mark(IsFalse, generation, reason, message), ZERO), now);
      if Ordered(old(conditions)) { NotReadyResult(old(conditions), NotReady(generation, reason, message, now)); }
    }

    method MarkReconciling(generation: int, reason: string, message: string, now: int, later: int)
      modifies this
      ensures conditions == Operate(old(conditions), Reconciling(generation, reason, message, now, later))
      ensures Ordered(old(conditions)) ==>
                BecomesAbnormal(old(conditions), conditions, RECONCILING, Mark(IsTrue, generation, reason, message), Mark(IsFalse, generation, reason, message), STALLED)
    {
      ghost var op := Reconciling(generation, reason, message, now, later);
      Set(Condition(RECONCILING, Mark(IsTrue, generation, reason, message), ZERO), now);
      Set(Condition(READY, Mark(IsFalse, generation, reason, message), ZERO), later);
      Delete(STALLED);
      AbnormalOperation(old(conditions), op, RECONCILING, STALLED);
    }

    method MarkStalled(generation: int, reason: string, message: string, now: int, later: int)
      modifies this
      ensures conditions == Operate(old(conditions), Stalled(generation, reason, message, now, later))
      ensures Ordered(old(conditions)) ==>
                BecomesAbnormal(old(conditions), conditions, STALLED, Mark(IsTrue, generation, reason, message), Mark(IsFalse, generation, reason, message), RECONCILING)
    {
      ghost var op := Stalled(generation, reason, message, now, later);
      Set(Condition(STALLED, Mark(IsTrue, generation, reason, message), ZERO), now);
      Set(Condition(READY, Mark(IsFalse, generation, reason, message), ZERO), later);
      Delete(RECONCILING);
      AbnormalOperation(old(conditions), op, STALLED, RECONCILING);
    }
  }

  // ---------------------------------------------------------------- events and runs

  datatype Event = SetEvent(condition: Condition, now: int) | DeleteEvent(kind: string)

  function Apply(xs: seq<Condition>, e: Event): seq<Condition> {
    match e
    case SetEvent(c, now) => SetIn(xs, c, now)
    case DeleteEvent(kind) => Removed(xs, kind)
  }

  function RunEvents(xs: seq<Condition>, es: seq<Event>): seq<Condition> {
    if es == [] then xs else Apply(RunEvents(xs, es[..|es| - 1]), es[|es| - 1])
  }

  datatype Op =
    | Ready(generation: int, reason: string, message: string, now: int)
    | NotReady(generation: int, reason: string, message: string, now: int)
    | Reconciling(generation: int, reason: string, message: string, now: int, later: int)
    | Stalled(generation: int, reason: string, message: string, now: int, later: int)

  function Sets(kind: string, status: Status, op: Op, now: int): Event {
    SetEvent(Condition(kind, Mark(status, op.generation, op.reason, op.message), ZERO), now)
  }

  function Events(op: Op): seq<Event> {
    match op
    case Ready(_, _, _, now) => [Sets(READY, IsTrue, op, now), DeleteEvent(RECONCILING), DeleteEvent(STALLED)]
    case NotReady(_, _, _, now) => [Sets(READY, IsFalse, op, now)]
    case Reconciling(_, _, _, now, later) => [Sets(RECONCILING, IsTrue, op, now), Sets(READY, IsFalse, op, later), DeleteEvent(STALLED)]
    case Stalled(_, _, _, now, later) => [Sets(STALLED, IsTrue, op, now), Sets(READY, IsFalse, op, later), DeleteEvent(RECONCILING)]
  }

  function Thrice(xs: seq<Condition>, a: Event, b: Event, c: Event): seq<Condition> {
    Apply(Apply(Apply(xs, a), b), c)
  }

  /** One kstatus operation. */
  function Operate(xs: seq<Condition>, op: Op): seq<Condition> {
    match op
    case Ready(_, _, _, now) => Thrice(xs, Sets(READY, IsTrue, op, now), DeleteEvent(RECONCILING), DeleteEvent(STALLED))
    case NotReady(_, _, _, now) => Apply(xs, Sets(READY, IsFalse, op, now))
    case Reconciling(_, _, _, now, later) =>
      Thrice(xs, Sets(RECONCILING, IsTrue, op, now), Sets(READY, IsFalse, op, later), DeleteEvent(STALLED))
    case Stalled(_, _, _, now, later) =>
      Thrice(xs, Sets(STALLED, IsTrue, op, now), Sets(READY, IsFalse, op, later), DeleteEvent(RECONCILING))
  }

  function RunOps(xs: seq<Condition>, ops: seq<Op>): seq<Condition> {
    if ops == [] then xs else Operate(RunOps(xs, ops[..|ops| - 1]), ops[|ops| - 1])
  }

  // ---------------------------------------------------------------- sorted with unique types

  ghost predicate Ordered(xs: seq<Condition>) {
    forall i, j :: 0 <= i < j < |xs| ==> Lt(xs[i].kind, xs[j].kind)
  }

  function Lookup(xs: seq<Condition>, kind: string): Option<Condition> {
    var i := Find(xs, kind);
    if i < |xs| then Some(xs[i]) else None
  }

  lemma LookupIsMember(xs: seq<Condition>, c: Condition)
    requires Ordered(xs)
    ensures Lookup(xs, c.kind) == Some(c) <==> c in xs
  {
  }

  lemma {:induction false} SortOrdered(xs: seq<Condition>)
    requires Ordered(xs)
    ensures SortByKind(xs) == xs
  {
    if xs != [] {
      var init := xs[..|xs| - 1];
      SortOrdered(init);
      assert xs == init + [xs[|xs| - 1]];
      assert init != [] ==> Lt(xs[|xs| - 2].kind, xs[|xs| - 1].kind);
    }
  }

  lemma {:induction false} InsertOrdered(c: Condition, xs: seq<Condition>)
    requires Ordered(xs) && forall i :: 0 <= i < |xs| ==> xs[i].kind != c.kind
    ensures Ordered(InsertByKind(c, xs)) && forall d :: d in InsertByKind(c, xs) <==> d in xs || d == c
  {
    if xs != [] {
      var init, last := xs[..|xs| - 1], xs[|xs| - 1];
      assert xs == init + [last];
      LeTotal(last.kind, c.kind);
      if Le(last.kind, c.kind) {
        forall i | 0 <= i < |xs| ensures Lt(xs[i].kind, c.kind) {
          if i < |xs| - 1 { LeTransitive(xs[i].kind, last.kind, c.kind); }
        }
      } else {
        InsertOrdered(c, init);
        var r := InsertByKind(c, init);
        forall i | 0 <= i < |r| ensures Lt(r[i].kind, last.kind) {
          assert r[i] in r;
          if r[i] != c {
            var k :| 0 <= k < |init| && init[k] == r[i];
            assert Lt(xs[k].kind, xs[|xs| - 1].kind);
          }
        }
      }
    }
  }

  /** A new condition with its own or the current time, or the existing one while its state is the same. */
  function Merged(before: Option<Condition>, c: Condition, now: int): Condition {
    match before
    case None => if c.since == ZERO then c.(since := now) else c
    case Some(d) => if d.mark != c.mark then c.(since := now) else d
  }

  lemma SetNew(xs: seq<Condition>, c: Condition, now: int)
    requires Ordered(xs) && Find(xs, c.kind) == |xs|
    ensures Ordered(SetIn(xs, c, now))
    ensures forall k :: k != c.kind ==> Lookup(SetIn(xs, c, now), k) == Lookup(xs, k)
    ensures Lookup(SetIn(xs, c, now), c.kind) == Some(Merged(None, c, now))
  {
    var d := Merged(None, c, now);
    SortOrdered(xs);
    assert (xs + [d])[..|xs|] == xs;
    InsertOrdered(d, xs);
    LookupByMembers(xs, SetIn(xs, c, now), d);
  }

  lemma ReplacedInPlace(xs: seq<Condition>, i: nat, d: Condition)
    requires Ordered(xs) && i < |xs| && d.kind == xs[i].kind
    ensures var ys := xs[i := d];
            Ordered(ys) && Lookup(ys, d.kind) == Some(d) && forall k :: k != d.kind ==> Lookup(ys, k) == Lookup(xs, k)
  {
    var ys := xs[i := d];
    assert forall k :: 0 <= k < |xs| ==> ys[k].kind == xs[k].kind;
    forall k | k != d.kind ensures Lookup(ys, k) == Lookup(xs, k) {
      SameKinds(xs, ys, k);
    }
    assert ys[i] in ys;
    LookupIsMember(ys, d);
  }

  lemma SetExisting(xs: seq<Condition>, c: Condition, now: int)
    requires Ordered(xs) && Find(xs, c.kind) < |xs|
    ensures Ordered(SetIn(xs, c, now))
    ensures forall k :: k != c.kind ==> Lookup(SetIn(xs, c, now), k) == Lookup(xs, k)
    ensures Lookup(SetIn(xs, c, now), c.kind) == Some(Merged(Lookup(xs, c.kind), c, now))
  {
    var i := Find(xs, c.kind);
    var d := Merged(Lookup(xs, c.kind), c, now);
    ReplacedInPlace(xs, i, d);
    assert Updated(xs, c, now) == xs[i := d];
    SortOrdered(xs[i := d]);
  }

  /** Setting keeps the order, and changes the looked-up condition of its kind only. */
  lemma SetOrdered(xs: seq<Condition>, c: Condition, now: int)
    requires Ordered(xs)
    ensures Ordered(SetIn(xs, c, now))
    ensures forall k :: k != c.kind ==> Lookup(SetIn(xs, c, now), k) == Lookup(xs, k)
    ensures Lookup(SetIn(xs, c, now), c.kind) == Some(Merged(Lookup(xs, c.kind), c, now))
  {
    if Find(xs, c.kind) == |xs| {
      SetNew(xs, c, now);
    } else {
      SetExisting(xs, c, now);
    }
  }

  lemma SameKinds(xs: seq<Condition>, ys: seq<Condition>, kind: string)
    requires |xs| == |ys| && forall k :: 0 <= k < |xs| ==> ys[k].kind == xs[k].kind
    ensures Find(ys, kind) == Find(xs, kind)
  {
  }

  lemma LookupByMembers(xs: seq<Condition>, ys: seq<Condition>, d: Condition)
    requires Ordered(xs) && Ordered(ys) && forall c :: c in ys <==> c in xs || c == d
    requires Lookup(xs, d.kind).None?
    ensures Lookup(ys, d.kind) == Some(d)
    ensures forall k :: k != d.kind ==> Lookup(ys, k) == Lookup(xs, k)
  {
    LookupIsMember(ys, d);
    forall k | k != d.kind ensures Lookup(ys, k) == Lookup(xs, k) {
      match Lookup(xs, k)
      case Some(c) =>
        assert c in xs;
        LookupIsMember(ys, c);
      case None =>
        if Lookup(ys, k).Some? {
          var c := Lookup(ys, k).value;
          assert c in ys;
          LookupIsMember(xs, c);
        }
    }
  }

  lemma {:induction false} RemovedMembers(xs: seq<Condition>, kind: string)
    requires Ordered(xs)
    ensures Ordered(Removed(xs, kind)) && forall c :: c in Removed(xs, kind) <==> c in xs && c.kind != kind
  {
    if xs != [] {
      RemovedMembers(xs[1..], kind);
      assert xs == [xs[0]] + xs[1..];
      var r := Removed(xs[1..], kind);
      forall i | 0 <= i < |r| ensures Lt(xs[0].kind, r[i].kind) {
        assert r[i] in r;
        var k :| 0 <= k < |xs[1..]| && xs[1..][k] == r[i];
        assert Lt(xs[0].kind, xs[k + 1].kind);
      }
    }
  }

  /** Deleting keeps the order and removes its kind only. */
  lemma RemovedOrdered(xs: seq<Condition>, kind: string)
    requires Ordered(xs)
    ensures Ordered(Removed(xs, kind)) && Lookup(Removed(xs, kind), kind).None?
    ensures forall k :: k != kind ==> Lookup(Removed(xs, kind), k) == Lookup(xs, k)
  {
    var ys := Removed(xs, kind);
    RemovedMembers(xs, kind);
    forall i | 0 <= i < |ys| ensures ys[i].kind != kind { assert ys[i] in ys; }
    forall k | k != kind ensures Lookup(ys, k) == Lookup(xs, k) {
      match Lookup(xs, k)
      case Some(c) =>
        assert c in xs;
        LookupIsMember(ys, c);
      case None =>
        if Lookup(ys, k).Some? {
          assert Lookup(ys, k).value in ys;
          LookupIsMember(xs, Lookup(ys, k).value);
        }
    }
  }

  // ---------------------------------------------------------------- what a run leaves behind

  function Kind(e: Event): string {
    match e
    case SetEvent(c, _) => c.kind
    case DeleteEvent(kind) => kind
  }

  /** The state of a kind is what the last event about it says. */
  function StateAfter(es: seq<Event>, kind: string): Option<Mark> {
    if es == [] then None
    else
      var last := es[|es| - 1];
      if Kind(last) != kind then StateAfter(es[..|es| - 1], kind)
      else if last.SetEvent? then Some(last.condition.mark)
      else None
  }

  /** The time of the last Set that created the kind or changed its state. */
  function LastChange(es: seq<Event>, kind: string): int {
    if es == [] then ZERO
    else
      var init, last := es[..|es| - 1], es[|es| - 1];
      if Kind(last) == kind && last.SetEvent? && StateAfter(init, kind) != Some(last.condition.mark) then
        if StateAfter(init, kind).None? && last.condition.since != ZERO then last.condition.since else last.now
      else LastChange(init, kind)
  }

  function Expected(es: seq<Event>, kind: string): Option<Condition> {
    match StateAfter(es, kind)
    case None => None
    case Some(mark) => Some(Condition(kind, mark, LastChange(es, kind)))
  }

  /** How one event changes the condition of a kind. */
  function Next(before: Option<Condition>, e: Event, kind: string): Option<Condition> {
    if Kind(e) != kind then before
    else
      match e
      case DeleteEvent(_) => None
      case SetEvent(c, now) => Some(Merged(before, c, now))
  }

  lemma ExpectedStep(init: seq<Event>, last: Event, kind: string)
    ensures Expected(init + [last], kind) == Next(Expected(init, kind), last, kind)
  {
  }

  lemma LookupStep(xs: seq<Condition>, e: Event, kind: string)
    requires Ordered(xs)
    ensures Ordered(Apply(xs, e)) && Lookup(Apply(xs, e), kind) == Next(Lookup(xs, kind), e, kind)
  {
    match e
    case SetEvent(c, now) => SetOrdered(xs, c, now);
    case DeleteEvent(k) => RemovedOrdered(xs, k);
  }

  ghost predicate Leaves(xs: seq<Condition>, es: seq<Event>, kind: string) {
    Ordered(xs) && Lookup(xs, kind) == Expected(es, kind)
  }

  lemma LeavesStep(xs: seq<Condition>, es: seq<Event>, e: Event, kind: string)
    requires Leaves(xs, es, kind)
    ensures Leaves(Apply(xs, e), es + [e], kind)
  {
    ExpectedStep(es, e, kind);
    LookupStep(xs, e, kind);
  }

  /** What holds of the empty run and is kept by every event holds of every run. */
  lemma {:induction false} RunInduction(holds: (seq<Condition>, seq<Event>) -> bool, es: seq<Event>)
    requires holds([], [])
    requires forall xs, fs, e :: holds(xs, fs) ==> holds(Apply(xs, e), fs + [e])
    ensures holds(RunEvents([], es), es)
  {
    if es != [] {
      var init, last := es[..|es| - 1], es[|es| - 1];
      RunInduction(holds, init);
      assert init + [last] == es;
    }
  }

  /** After every run of Set and Delete from an empty list the conditions are sorted with unique types, a kind is
      present exactly when its last event was a Set, with the state of that Set, and its transition time is that
      of the last Set that created it or changed its state. */
  lemma RunLeaves(es: seq<Event>, kind: string)
    ensures Leaves(RunEvents([], es), es, kind)
  {
    var holds := (xs: seq<Condition>, fs: seq<Event>) => Leaves(xs, fs, kind);
    forall xs, fs, e | holds(xs, fs) ensures holds(Apply(xs, e), fs + [e]) {
      LeavesStep(xs, fs, e, kind);
    }
    RunInduction(holds, es);
  }

  // ---------------------------------------------------------------- kstatus

  predicate Holds(xs: seq<Condition>, kind: string) {
    Lookup(xs, kind).Some? && Lookup(xs, kind).value.mark.status == IsTrue
  }

  /** Ready, Reconciling and Stalled exclude each other. */
  ghost predicate Exclusive(xs: seq<Condition>) {
    && Ordered(xs)
    && !(Holds(xs, READY) && Holds(xs, RECONCILING))
    && !(Holds(xs, READY) && Holds(xs, STALLED))
    && !(Holds(xs, RECONCILING) && Holds(xs, STALLED))
  }

  lemma KindsDiffer()
    ensures READY != RECONCILING && READY != STALLED && RECONCILING != STALLED
  {
  }

  /** The kind is present with the given state. */
  predicate Reports(xs: seq<Condition>, kind: string, mark: Mark) {
    Lookup(xs, kind).Some? && Lookup(xs, kind).value.mark == mark
  }

  ghost predicate OthersKept(xs: seq<Condition>, ys: seq<Condition>) {
    forall k :: k != READY && k != RECONCILING && k != STALLED ==> Lookup(ys, k) == Lookup(xs, k)
  }

  /** The conditions ys are what the event makes of xs, kind by kind. */
  ghost predicate Follows(xs: seq<Condition>, e: Event, ys: seq<Condition>) {
    Ordered(ys) && forall kind :: Lookup(ys, kind) == Next(Lookup(xs, kind), e, kind)
  }

  lemma ApplyFollows(xs: seq<Condition>, e: Event)
    requires Ordered(xs)
    ensures Follows(xs, e, Apply(xs, e))
  {
    forall kind ensures Lookup(Apply(xs, e), kind) == Next(Lookup(xs, kind), e, kind) {
      LookupStep(xs, e, kind);
    }
    LookupStep(xs, e, Kind(e));
  }

  /** One kind set and two removed. */
  lemma OneSetTwoRemoved(xs: seq<Condition>, x: seq<Condition>, y: seq<Condition>, ys: seq<Condition>, a: Event, b: string, c: string)
    requires Follows(xs, a, x) && Follows(x, DeleteEvent(b), y) && Follows(y, DeleteEvent(c), ys)
    requires a.SetEvent? && Kind(a) != b && Kind(a) != c && b != c
    ensures Reports(ys, Kind(a), a.condition.mark) && Lookup(ys, b).None? && Lookup(ys, c).None?
    ensures forall k :: k != Kind(a) && k != b && k != c ==> Lookup(ys, k) == Lookup(xs, k)
  {
    assert Lookup(x, Kind(a)).Some? && Lookup(x, Kind(a)).value.mark == a.condition.mark;
  }

  /** Two kinds set and a third removed. */
  lemma TwoSetOneRemoved(xs: seq<Condition>, x: seq<Condition>, y: seq<Condition>, ys: seq<Condition>, a: Event, b: Event, c: string)
    requires Follows(xs, a, x) && Follows(x, b, y) && Follows(y, DeleteEvent(c), ys)
    requires a.SetEvent? && b.SetEvent? && Kind(a) != Kind(b) && Kind(a) != c && Kind(b) != c
    ensures Reports(ys, Kind(a), a.condition.mark) && Reports(ys, Kind(b), b.condition.mark) && Lookup(ys, c).None?
    ensures forall k :: k != Kind(a) && k != Kind(b) && k != c ==> Lookup(ys, k) == Lookup(xs, k)
  {
    assert Lookup(x, Kind(a)).Some? && Lookup(x, Kind(a)).value.mark == a.condition.mark;
    assert Lookup(y, Kind(b)).Some? && Lookup(y, Kind(b)).value.mark == b.condition.mark;
  }

  lemma ReadyResult(xs: seq<Condition>, op: Op)
    requires Ordered(xs) && op.Ready?
    ensures var ys := Operate(xs, op);
            && Exclusive(ys) && Reports(ys, READY, Mark(IsTrue, op.generation, op.reason, op.message))
            && Lookup(ys, RECONCILING).None? && Lookup(ys, STALLED).None? && OthersKept(xs, ys)
  {
    KindsDiffer();
    var a := Sets(READY, IsTrue, op, op.now);
    var x := Apply(xs, a);
    var y := Apply(x, DeleteEvent(RECONCILING));
    ApplyFollows(xs, a);
    ApplyFollows(x, DeleteEvent(RECONCILING));
    ApplyFollows(y, DeleteEvent(STALLED));
    OneSetTwoRemoved(xs, x, y, Operate(xs, op), a, RECONCILING, STALLED);
  }

  lemma NotReadyResult(xs: seq<Condition>, op: Op)
    requires Ordered(xs) && op.NotReady?
    ensures var ys := Operate(xs, op);
            && Ordered(ys) && Reports(ys, READY, Mark(IsFalse, op.generation, op.reason, op.message))
            && Lookup(ys, RECONCILING) == Lookup(xs, RECONCILING) && Lookup(ys, STALLED) == Lookup(xs, STALLED) && OthersKept(xs, ys)
            && (Exclusive(xs) ==> Exclusive(ys))
  {
    KindsDiffer();
    SetOrdered(xs, Sets(READY, IsFalse, op, op.now).condition, op.now);
  }

  /** One abnormal kind on, Ready not true, the other abnormal kind gone, the three exclusive, the rest as before. */
  ghost predicate BecomesAbnormal(xs: seq<Condition>, ys: seq<Condition>, on: string, onMark: Mark, readyMark: Mark, off: string) {
    && Exclusive(ys) && Reports(ys, on, onMark) && Reports(ys, READY, readyMark)
    && Lookup(ys, off).None? && OthersKept(xs, ys)
  }

  lemma ExclusiveWithout(ys: seq<Condition>, off: string)
    requires Ordered(ys) && Lookup(ys, READY).Some? && Lookup(ys, READY).value.mark.status == IsFalse
    requires Lookup(ys, off).None? && (off == RECONCILING || off == STALLED)
    ensures Exclusive(ys)
  {
  }

  /** A True mark of one abnormal kind, Ready set to False and the other abnormal kind removed. */
  lemma AbnormalResult(xs: seq<Condition>, a: Event, b: Event, off: string)
    requires Ordered(xs) && a.SetEvent? && b.SetEvent? && Kind(b) == READY && b.condition.mark.status == IsFalse
    requires (Kind(a) == RECONCILING && off == STALLED) || (Kind(a) == STALLED && off == RECONCILING)
    ensures BecomesAbnormal(xs, Thrice(xs, a, b, DeleteEvent(off)), Kind(a), a.condition.mark, b.condition.mark, off)
  {
    KindsDiffer();
    var x := Apply(xs, a);
    var y := Apply(x, b);
    var ys := Thrice(xs, a, b, DeleteEvent(off));
    ApplyFollows(xs, a);
    ApplyFollows(x, b);
    ApplyFollows(y, DeleteEvent(off));
    TwoSetOneRemoved(xs, x, y, ys, a, b, off);
    ExclusiveWithout(ys, off);
  }

  lemma AbnormalOperation(xs: seq<Condition>, op: Op, on: string, off: string)
    requires (op.Reconciling? && on == RECONCILING && off == STALLED) || (op.Stalled? && on == STALLED && off == RECONCILING)
    ensures Operate(xs, op) == Removed(SetIn(SetIn(xs, Sets(on, IsTrue, op, op.now).condition, op.now), Sets(READY, IsFalse, op, op.later).condition, op.later), off)
    ensures Ordered(xs) ==> BecomesAbnormal(xs, Operate(xs, op), on, Mark(IsTrue, op.generation, op.reason, op.message),
                                            Mark(IsFalse, op.generation, op.reason, op.message), off)
  {
    if Ordered(xs) {
      AbnormalResult(xs, Sets(on, IsTrue, op, op.now), Sets(READY, IsFalse, op, op.later), off);
    }
  }

  lemma OpExclusive(xs: seq<Condition>, op: Op)
    requires Exclusive(xs)
    ensures Exclusive(Operate(xs, op))
  {
    match op
    case Ready(_, _, _, _) => ReadyResult(xs, op);
    case NotReady(_, _, _, _) => NotReadyResult(xs, op);
    case Reconciling(_, _, _, now, later) => AbnormalResult(xs, Sets(RECONCILING, IsTrue, op, now), Sets(READY, IsFalse, op, later), STALLED);
    case Stalled(_, _, _, now, later) => AbnormalResult(xs, Sets(STALLED, IsTrue, op, now), Sets(READY, IsFalse, op, later), RECONCILING);
  }

  /** Over every run of the kstatus operations, Ready, Reconciling and Stalled never hold together. */
  lemma {:induction false} RunExclusive(xs: seq<Condition>, ops: seq<Op>)
    requires Exclusive(xs)
    ensures Exclusive(RunOps(xs, ops))
  {
    if ops != [] {
      RunExclusive(xs, ops[..|ops| - 1]);
      OpExclusive(RunOps(xs, ops[..|ops| - 1]), ops[|ops| - 1]);
    }
  }

  function Flatten(ops: seq<Op>): seq<Event> {
    if ops == [] then [] else Flatten(ops[..|ops| - 1]) + Events(ops[|ops| - 1])
  }

  lemma RunOne(xs: seq<Condition>, es: seq<Event>, e: Event)
    ensures RunEvents(xs, es + [e]) == Apply(RunEvents(xs, es), e)
  {
    assert (es + [e])[..|es|] == es;
  }

  lemma Append3<T>(xs: seq<T>, a: T, b: T, c: T)
    ensures xs + [a, b, c] == xs + [a] + [b] + [c]
  {
  }

  lemma RunThree(xs: seq<Condition>, es: seq<Event>, a: Event, b: Event, c: Event)
    ensures RunEvents(xs, es + [a, b, c]) == Thrice(RunEvents(xs, es), a, b, c)
  {
    Append3(es, a, b, c);
    var one := es + [a];
    var two := one + [b];
    RunOne(xs, es, a);
    RunOne(xs, one, b);
    RunOne(xs, two, c);
  }

  lemma RunOperation(xs: seq<Condition>, es: seq<Event>, op: Op)
    ensures RunEvents(xs, es + Events(op)) == Operate(RunEvents(xs, es), op)
  {
    match op
    case Ready(_, _, _, now) => RunThree(xs, es, Sets(READY, IsTrue, op, now), DeleteEvent(RECONCILING), DeleteEvent(STALLED));
    case NotReady(_, _, _, now) => RunOne(xs, es, Sets(READY, IsFalse, op, now));
    case Reconciling(_, _, _, now, later) =>
      RunThree(xs, es, Sets(RECONCILING, IsTrue, op, now), Sets(READY, IsFalse, op, later), DeleteEvent(STALLED));
    case Stalled(_, _, _, now, later) =>
      RunThree(xs, es, Sets(STALLED, IsTrue, op, now), Sets(READY, IsFalse, op, later), DeleteEvent(RECONCILING));
  }

  /** Runs of operations are runs of their events, so what runs of events leave behind holds for them too. */
  lemma {:induction false} OpsAreEvents(xs: seq<Condition>, ops: seq<Op>)
    ensures RunOps(xs, ops) == RunEvents(xs, Flatten(ops))
  {
    if ops != [] {
      OpsAreEvents(xs, ops[..|ops| - 1]);
      RunOperation(xs, Flatten(ops[..|ops| - 1]), ops[|ops| - 1]);
    }
  }

  /** After every run of kstatus operations the types are sorted and unique, with the last state and its time. */
  lemma OpsLeave(ops: seq<Op>, kind: string)
    ensures Leaves(RunOps([], ops), Flatten(ops), kind)
  {
    OpsAreEvents([], ops);
    RunLeaves(Flatten(ops), kind);
  }
}
