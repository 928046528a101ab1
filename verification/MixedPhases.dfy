/** Mixed sustained benchmark runs (hack/benchmark/phases.go): a total worker budget is shared out over resource
    kinds, and a gate admits kinds so that the workers active at one time stay within the budget. */
module MixedPhases {

  // ---------------------------------------------------------------- shares

  /** An even share, with the remainder going to the first kinds. */
  function Share(workers: nat, kinds: nat, i: nat): nat
    requires kinds > 0
  {
    workers / kinds + if i < workers % kinds then 1 else 0
  }

  lemma DivModStep(n: nat, k: nat)
    requires k > 0
    ensures n % k + 1 < k ==> (n + 1) / k == n / k && (n + 1) % k == n % k + 1
    ensures n % k + 1 == k ==> (n + 1) / k == n / k + 1 && (n + 1) % k == 0
  {
    var q, r := n / k, n % k;
    assert n == k * q + r;
    if r + 1 < k {
      DivModUnique(n + 1, k, q, r + 1);
    } else {
      assert n + 1 == k * (q + 1);
      DivModUnique(n + 1, k, q + 1, 0);
    }
  }

  lemma DivModUnique(n: nat, k: nat, q: nat, r: nat)
    requires k > 0 && n == k * q + r && r < k
    ensures n / k == q && n % k == r
  {
    var q', r' := n / k, n % k;
    assert n == k * q' + r';
    assert q' < q ==> k * (q' + 1) <= k * q;
    assert q < q' ==> k * (q + 1) <= k * q';
  }

  /** One more worker goes to the next kind in turn. */
  lemma ShareStep(n: nat, k: nat, i: nat)
    requires k > 0 && i < k
    ensures Share(n + 1, k, i) == Share(n, k, i) + if i == n % k then 1 else 0
  {
    DivModStep(n, k);
  }

  lemma ShareRound(n: nat, k: nat, i: nat)
    requires k > 0
    ensures Share(n + k, k, i) == Share(n, k, i) + 1
  {
    assert n == k * (n / k) + n % k;
    assert n + k == k * (n / k + 1) + n % k;
    DivModUnique(n + k, k, n / k + 1, n % k);
  }

  lemma ShareSmall(n: nat, k: nat, i: nat)
    requires k > 0 && n < k
    ensures Share(n, k, i) == if i < n then 1 else 0
  {
  }

  /** mixedWorkerCounts: exactly the even shares; without workers every count is zero. */
  method MixedWorkerCounts(workers: int, kinds: nat) returns (counts: array<nat>)
    ensures counts.Length == kinds
    ensures forall i :: 0 <= i < kinds ==> counts[i] == if workers < 1 then 0 else Share(workers, kinds, i)
  {
    counts := new nat[kinds](_ => 0);
    if workers < 1 || kinds < 1 {
      return;
    }
    if workers < kinds {
      for i := 0 to workers
        invariant forall j :: 0 <= j < kinds ==> counts[j] == if j < i then 1 else 0
      {
        counts[i] := 1;
      }
      forall j | 0 <= j < kinds ensures counts[j] == Share(workers, kinds, j) {
        ShareSmall(workers, kinds, j);
      }
      return;
    }
    for i := 0 to kinds
      invariant forall j :: 0 <= j < i ==> counts[j] == 1
    {
      counts[i] := 1;
    }
    forall j | 0 <= j < kinds ensures counts[j] == 1 + Share(0, kinds, j) {
      ShareSmall(0, kinds, j);
    }
    for i := 0 to workers - kinds
      invariant forall j :: 0 <= j < kinds ==> counts[j] == 1 + Share(i, kinds, j)
    {
      forall j | 0 <= j < kinds ensures Share(i + 1, kinds, j) == Share(i, kinds, j) + if j == i % kinds then 1 else 0 {
        ShareStep(i, kinds, j);
      }
      counts[i % kinds] := counts[i % kinds] + 1;
    }
    forall j | 0 <= j < kinds ensures counts[j] == Share(workers, kinds, j) {
      ShareRound(workers - kinds, kinds, j);
    }
  }

  function SumShares(workers: nat, kinds: nat, upTo: nat): nat
    requires kinds > 0
  {
    if upTo == 0 then 0 else SumShares(workers, kinds, upTo - 1) + Share(workers, kinds, upTo - 1)
  }

  lemma Distribute(n: int, q: int)
    ensures (n + 1) * q == n * q + q
  {
  }

  lemma {:induction false} SumOfShares(workers: nat, kinds: nat, upTo: nat)
    requires 0 < kinds && upTo <= kinds
    ensures SumShares(workers, kinds, upTo) == upTo * (workers / kinds) + if upTo < workers % kinds then upTo else workers % kinds
  {
    if upTo > 0 {
      SumOfShares(workers, kinds, upTo - 1);
      Distribute(upTo - 1, workers / kinds);
    }
  }

  lemma SharesAddUp(workers: nat, kinds: nat)
    requires 0 < kinds
    ensures SumShares(workers, kinds, kinds) == workers
  {
    SumOfShares(workers, kinds, kinds);
    assert workers == kinds * (workers / kinds) + workers % kinds;
  }

  /** The shares use up the budget exactly and differ by at most one, earlier kinds never getting less. */
  lemma SharesAreFair(workers: nat, kinds: nat, i: nat, j: nat)
    requires 0 < kinds && i < j < kinds
    ensures SumShares(workers, kinds, kinds) == workers
    ensures Share(workers, kinds, j) <= Share(workers, kinds, i) <= Share(workers, kinds, j) + 1
  {
    SharesAddUp(workers, kinds);
  }

  // ---------------------------------------------------------------- the gate

  datatype Phase = Waiting | Running | Ended

  /** One goroutine per kind; the gate holds one token per running kind. */
  datatype Gate = Gate(phases: seq<Phase>, tokens: nat)

  datatype Move = Enter(kind: nat) | Leave(kind: nat)

  function Init(kinds: nat): Gate {
    Gate(seq(kinds, _ => Waiting), 0)
  }

  /** With a single worker the kinds take turns in plan order. */
  predicate Turn(workers: nat, g: Gate, kind: nat)
    requires kind < |g.phases|
  {
    workers == 1 && |g.phases| > 1 ==> kind == 0 || g.phases[kind - 1] == Ended
  }

  predicate Enabled(workers: nat, g: Gate, m: Move) {
    && m.kind < |g.phases|
    && match m
       case Enter(k) => g.phases[k] == Waiting && Turn(workers, g, k) && g.tokens < workers
       case Leave(k) => g.phases[k] == Running && g.tokens > 0
  }

  function Step(workers: nat, g: Gate, m: Move): Gate
    requires Enabled(workers, g, m)
  {
    match m
    case Enter(k) => Gate(g.phases[k := Running], g.tokens + 1)
    case Leave(k) => Gate(g.phases[k := Ended], g.tokens - 1)
  }

  /** The workers a running kind uses: its share, and one when its share is empty. */
  function KindWorkers(workers: nat, kinds: nat, i: nat): nat
    requires kinds > 0
  {
    if Share(workers, kinds, i) == 0 then 1 else Share(workers, kinds, i)
  }

  function Count(phases: seq<Phase>, upTo: nat): nat
    requires upTo <= |phases|
  {
    if upTo == 0 then 0 else Count(phases, upTo - 1) + if phases[upTo - 1] == Running then 1 else 0
  }

  /** The workers active at one time. */
  function Active(workers: nat, phases: seq<Phase>, upTo: nat): nat
    requires upTo <= |phases|
  {
    if upTo == 0 then 0
    else Active(workers, phases, upTo - 1) + if phases[upTo - 1] == Running then KindWorkers(workers, |phases|, upTo - 1) else 0
  }

  ghost predicate Inv(workers: nat, g: Gate) {
    && g.tokens == Count(g.phases, |g.phases|) <= workers
    && (workers == 1 && |g.phases| > 1 ==> forall i, j :: 0 <= i < j < |g.phases| && g.phases[j] != Waiting ==> g.phases[i] == Ended)
  }

  lemma {:induction false} CountUpdate(phases: seq<Phase>, k: nat, p: Phase, upTo: nat)
    requires k < |phases| && upTo <= |phases|
    ensures k >= upTo ==> Count(phases[k := p], upTo) == Count(phases, upTo)
    ensures k < upTo ==>
              Count(phases[k := p], upTo) + (if phases[k] == Running then 1 else 0) == Count(phases, upTo) + if p == Running then 1 else 0
  {
    if upTo > 0 {
      CountUpdate(phases, k, p, upTo - 1);
    }
  }

  lemma StepKeepsInv(workers: nat, g: Gate, m: Move)
    requires Inv(workers, g) && Enabled(workers, g, m)
    ensures Inv(workers, Step(workers, g, m))
  {
    var t := Step(workers, g, m);
    CountUpdate(g.phases, m.kind, t.phases[m.kind], |g.phases|);
  }

  lemma {:induction false} ActiveIsShared(workers: nat, phases: seq<Phase>, upTo: nat)
    requires 0 < |phases| <= workers && upTo <= |phases|
    ensures Active(workers, phases, upTo) <= SumShares(workers, |phases|, upTo)
  {
    if upTo > 0 {
      ActiveIsShared(workers, phases, upTo - 1);
      ShareAtLeastOne(workers, |phases|, upTo - 1);
    }
  }

  lemma ShareAtLeastOne(workers: nat, kinds: nat, i: nat)
    requires 0 < kinds <= workers
    ensures Share(workers, kinds, i) >= 1
  {
  }

  lemma {:induction false} ActiveIsCounted(workers: nat, phases: seq<Phase>, upTo: nat)
    requires workers < |phases| && upTo <= |phases|
    ensures Active(workers, phases, upTo) == Count(phases, upTo)
  {
    if upTo > 0 {
      ActiveIsCounted(workers, phases, upTo - 1);
      ShareSmall(workers, |phases|, upTo - 1);
    }
  }

  ghost predicate Valid(workers: nat, g: Gate, moves: seq<Move>)
    decreases |moves|
  {
    moves != [] ==> Enabled(workers, g, moves[0]) && Valid(workers, Step(workers, g, moves[0]), moves[1..])
  }

  function Execute(workers: nat, g: Gate, moves: seq<Move>): Gate
    requires Valid(workers, g, moves)
    decreases |moves|
  {
    if moves == [] then g else Execute(workers, Step(workers, g, moves[0]), moves[1..])
  }

  lemma {:induction false} ExecuteKeepsInv(workers: nat, g: Gate, moves: seq<Move>)
    requires Inv(workers, g) && Valid(workers, g, moves)
    ensures Inv(workers, Execute(workers, g, moves)) && |Execute(workers, g, moves).phases| == |g.phases|
    decreases |moves|
  {
    if moves != [] {
      StepKeepsInv(workers, g, moves[0]);
      ExecuteKeepsInv(workers, Step(workers, g, moves[0]), moves[1..]);
    }
  }

  lemma {:induction false} NoneRunning(phases: seq<Phase>, upTo: nat)
    requires upTo <= |phases| && forall i :: 0 <= i < |phases| ==> phases[i] != Running
    ensures Count(phases, upTo) == 0
  {
    if upTo > 0 {
      NoneRunning(phases, upTo - 1);
    }
  }

  /** In every interleaving the active workers stay within the total budget. */
  lemma BudgetKept(workers: nat, kinds: nat, moves: seq<Move>)
    requires workers >= 1 && kinds > 0 && Valid(workers, Init(kinds), moves)
    ensures var g := Execute(workers, Init(kinds), moves);
            Active(workers, g.phases, |g.phases|) <= workers
  {
    NoneRunning(Init(kinds).phases, kinds);
    ExecuteKeepsInv(workers, Init(kinds), moves);
    var phases := Execute(workers, Init(kinds), moves).phases;
    if kinds <= workers {
      ActiveIsShared(workers, phases, kinds);
      SharesAddUp(workers, kinds);
    } else {
      ActiveIsCounted(workers, phases, kinds);
    }
  }

  /** The budget is used up when all kinds run and there is a worker for each. */
  lemma BudgetUsed(workers: nat, phases: seq<Phase>)
    requires 0 < |phases| <= workers && forall i :: 0 <= i < |phases| ==> phases[i] == Running
    ensures Active(workers, phases, |phases|) == workers
  {
    ActiveIsAll(workers, phases, |phases|);
    SharesAddUp(workers, |phases|);
  }

  lemma {:induction false} ActiveIsAll(workers: nat, phases: seq<Phase>, upTo: nat)
    requires 0 < |phases| <= workers && upTo <= |phases| && forall i :: 0 <= i < |phases| ==> phases[i] == Running
    ensures Active(workers, phases, upTo) == SumShares(workers, |phases|, upTo)
  {
    if upTo > 0 {
      ActiveIsAll(workers, phases, upTo - 1);
      ShareAtLeastOne(workers, |phases|, upTo - 1);
    }
  }

  /** With a single worker the kinds take turns: in every interleaving a kind leaves the start only after all kinds
      before it have ended. */
  lemma PlanOrder(kinds: nat, moves: seq<Move>, i: nat, j: nat)
    requires Valid(1, Init(kinds), moves) && i < j < kinds
    ensures var g := Execute(1, Init(kinds), moves);
            |g.phases| == kinds && (g.phases[j] != Waiting ==> g.phases[i] == Ended)
  {
    NoneRunning(Init(kinds).phases, kinds);
    ExecuteKeepsInv(1, Init(kinds), moves);
  }

  /** With more workers a waiting kind need not wait for any other: it can enter while fewer kinds run than there are
      workers. */
  lemma NoNeedlessWaiting(workers: nat, g: Gate, k: nat)
    requires Inv(workers, g) && workers > 1 && k < |g.phases| && g.phases[k] == Waiting && Count(g.phases, |g.phases|) < workers
    ensures Enabled(workers, g, Enter(k))
  {
  }

  lemma {:induction false} SomeRunning(phases: seq<Phase>, upTo: nat) returns (k: nat)
    requires upTo <= |phases| && Count(phases, upTo) > 0
    ensures k < upTo && phases[k] == Running
  {
    if phases[upTo - 1] == Running {
      k := upTo - 1;
    } else {
      k := SomeRunning(phases, upTo - 1);
    }
  }

  /** While some kind has not ended, some kind can move. */
  lemma NoDeadlock(workers: nat, g: Gate, kind: nat) returns (m: Move)
    requires workers >= 1 && Inv(workers, g) && kind < |g.phases| && g.phases[kind] != Ended
    ensures Enabled(workers, g, m)
  {
    if g.tokens > 0 {
      var k := SomeRunning(g.phases, |g.phases|);
      m := Leave(k);
    } else {
      var k := FirstNotEnded(g.phases, kind);
      if g.phases[k] == Running { OneRunning(g.phases, k, |g.phases|); }
      m := Enter(k);
    }
  }

  lemma {:induction false} OneRunning(phases: seq<Phase>, k: nat, upTo: nat)
    requires k < upTo <= |phases| && phases[k] == Running
    ensures Count(phases, upTo) >= 1
  {
    if k < upTo - 1 {
      OneRunning(phases, k, upTo - 1);
    }
  }

  lemma {:induction false} FirstNotEnded(phases: seq<Phase>, kind: nat) returns (k: nat)
    requires kind < |phases| && phases[kind] != Ended
    ensures k <= kind && phases[k] != Ended && forall i :: 0 <= i < k ==> phases[i] == Ended
  {
    if i :| 0 <= i < kind && phases[i] != Ended {
      k := FirstNotEnded(phases, i);
    } else {
      k := kind;
    }
  }

  /** How many moves are left: two for a kind that waits, one for a kind that runs. */
  function MovesLeft(phases: seq<Phase>, upTo: nat): nat
    requires upTo <= |phases|
  {
    if upTo == 0 then 0
    else MovesLeft(phases, upTo - 1) + (match phases[upTo - 1] case Waiting => 2 case Running => 1 case Ended => 0)
  }

  lemma {:induction false} OneMoveLess(phases: seq<Phase>, k: nat, p: Phase, upTo: nat)
    requires k < |phases| && upTo <= |phases|
    requires (phases[k] == Waiting && p == Running) || (phases[k] == Running && p == Ended)
    ensures MovesLeft(phases[k := p], upTo) + (if k < upTo then 1 else 0) == MovesLeft(phases, upTo)
  {
    if upTo > 0 {
      OneMoveLess(phases, k, p, upTo - 1);
    }
  }

  /** Every run uses up its moves, so it ends; with a move left while some kind has not ended, every run that
      cannot go on has served every kind. */
  lemma {:induction false} RunsEnd(workers: nat, g: Gate, moves: seq<Move>)
    requires Valid(workers, g, moves)
    ensures |Execute(workers, g, moves).phases| == |g.phases|
    ensures |moves| + MovesLeft(Execute(workers, g, moves).phases, |g.phases|) == MovesLeft(g.phases, |g.phases|)
    decreases |moves|
  {
    if moves != [] {
      var t := Step(workers, g, moves[0]);
      OneMoveLess(g.phases, moves[0].kind, t.phases[moves[0].kind], |g.phases|);
      RunsEnd(workers, t, moves[1..]);
    }
  }
}
