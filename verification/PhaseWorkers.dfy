/** The workers of one benchmark phase (hack/benchmark/phases.go): a shared counter hands out operation indices,
    finished operations are recorded under a lock, and every hundredth record reports progress under another
    lock. One step is one critical section or one private step of one worker; steps of all workers interleave
    freely. No cancellation and no duration limit. */
module PhaseWorkers {

  datatype PC =
    | Ready                 // about to claim the next index
    | Working(index: int)   // holds an index, operation not recorded yet
    | Reporting(count: nat) // recorded as a multiple of one hundred, progress lock not taken yet
    | Done

  datatype State = State(workers: seq<PC>, next: int, recorded: seq<int>, lastProgress: int, checkpoints: seq<int>)
  datatype Job = Job(offset: int, ops: int)

  const INTERVAL: nat := 100

  function Init(job: Job, count: nat): State {
    State(seq(count, _ => Ready), job.offset, [], job.offset, [])
  }

  predicate Enabled(s: State, w: nat) {
    w < |s.workers| && s.workers[w] != Done
  }

  /** The next step of worker w. */
  function Step(job: Job, s: State, w: nat): State
    requires Enabled(s, w)
  {
    match s.workers[w]
    case Ready => s.(workers := s.workers[w := if s.next >= job.ops then Done else Working(s.next)], next := s.next + 1)
    case Working(i) =>
      var recorded := s.recorded + [i];
      s.(workers := s.workers[w := if |recorded| % INTERVAL == 0 then Reporting(|recorded|) else Ready], recorded := recorded)
    case Reporting(n) =>
      var checkpoint := job.offset + n;
      if checkpoint > s.lastProgress then
        s.(workers := s.workers[w := Ready], lastProgress := checkpoint, checkpoints := s.checkpoints + [checkpoint])
      else s.(workers := s.workers[w := Ready])
  }

  // ---------------------------------------------------------------- every index exactly once

  function One(p: PC, x: int): nat {
    if p == Working(x) then 1 else 0
  }

  /** How many workers hold index x, claimed and not yet recorded. */
  function Held(workers: seq<PC>, x: int): nat {
    if workers == [] then 0 else One(workers[0], x) + Held(workers[1..], x)
  }

  function Claimed(job: Job, s: State, x: int): nat {
    if job.offset <= x < s.next && x < job.ops then 1 else 0
  }

  /** Every claimed index is held by one worker or recorded once, and no other index is either. */
  ghost predicate Accounted(job: Job, s: State) {
    s.next >= job.offset && forall x :: multiset(s.recorded)[x] + Held(s.workers, x) == Claimed(job, s, x)
  }

  lemma {:induction false} HeldUpdate(workers: seq<PC>, w: nat, p: PC, x: int)
    requires w < |workers|
    ensures Held(workers[w := p], x) + One(workers[w], x) == Held(workers, x) + One(p, x)
  {
    if w == 0 {
      assert workers[0 := p][1..] == workers[1..];
    } else {
      HeldUpdate(workers[1..], w - 1, p, x);
      assert workers[w := p][1..] == workers[1..][w - 1 := p];
    }
  }

  lemma StepAccounted(job: Job, s: State, w: nat)
    requires Accounted(job, s) && Enabled(s, w)
    ensures Accounted(job, Step(job, s, w))
  {
    var t := Step(job, s, w);
    forall x ensures multiset(t.recorded)[x] + Held(t.workers, x) == Claimed(job, t, x) {
      HeldUpdate(s.workers, w, t.workers[w], x);
      assert multiset(s.recorded)[x] + Held(s.workers, x) == Claimed(job, s, x);
    }
  }

  // ---------------------------------------------------------------- progress

  ghost predicate Increasing(xs: seq<int>) {
    forall i, j :: 0 <= i < j < |xs| ==> xs[i] < xs[j]
  }

  /** The reports so far: strictly increasing checkpoints, the last one remembered. */
  ghost predicate Reported(job: Job, s: State) {
    && Increasing(s.checkpoints)
    && (forall i :: 0 <= i < |s.checkpoints| ==> job.offset < s.checkpoints[i] <= s.lastProgress)
    && s.lastProgress == if s.checkpoints == [] then job.offset else s.checkpoints[|s.checkpoints| - 1]
  }

  predicate Milestone(s: State, n: int) {
    0 < n <= |s.recorded| && n % INTERVAL == 0
  }

  predicate Pending(s: State, n: int) {
    exists w :: 0 <= w < |s.workers| && s.workers[w].Reporting? && s.workers[w].count == n
  }

  /** Every hundredth record is reported already or by some worker later, and nothing else is. */
  ghost predicate Covered(job: Job, s: State) {
    && (forall n :: Milestone(s, n) ==> s.lastProgress >= job.offset + n || Pending(s, n))
    && (forall w :: 0 <= w < |s.workers| && s.workers[w].Reporting? ==> Milestone(s, s.workers[w].count))
    && (s.lastProgress == job.offset || Milestone(s, s.lastProgress - job.offset))
  }

  ghost predicate Inv(job: Job, s: State) {
    Accounted(job, s) && Reported(job, s) && Covered(job, s)
  }

  lemma StepReported(job: Job, s: State, w: nat)
    requires Reported(job, s) && Enabled(s, w)
    ensures Reported(job, Step(job, s, w))
  {
  }

  lemma PendingElsewhere(s: State, w: nat, p: PC, n: int)
    requires w < |s.workers| && Pending(s, n) && !(s.workers[w].Reporting? && s.workers[w].count == n)
    ensures Pending(s.(workers := s.workers[w := p]), n)
  {
    var v :| 0 <= v < |s.workers| && s.workers[v].Reporting? && s.workers[v].count == n;
    assert s.workers[w := p][v] == s.workers[v];
  }

  lemma StepCovered(job: Job, s: State, w: nat)
    requires Covered(job, s) && Enabled(s, w)
    ensures Covered(job, Step(job, s, w))
  {
    var t := Step(job, s, w);
    forall n | Milestone(t, n) ensures t.lastProgress >= job.offset + n || Pending(t, n) {
      if n > |s.recorded| {
        assert t.workers[w] == Reporting(n);
      } else {
        assert Milestone(s, n);
        if s.lastProgress < job.offset + n {
          if !(s.workers[w].Reporting? && s.workers[w].count == n) {
            PendingElsewhere(s, w, t.workers[w], n);
            var v :| 0 <= v < |t.workers| && t.workers[v].Reporting? && t.workers[v].count == n;
          }
        }
      }
    }
  }

  lemma StepKeepsInv(job: Job, s: State, w: nat)
    requires Inv(job, s) && Enabled(s, w)
    ensures Inv(job, Step(job, s, w))
  {
    StepAccounted(job, s, w);
    StepReported(job, s, w);
    StepCovered(job, s, w);
  }

  // ---------------------------------------------------------------- schedules

  /** The schedule picks a worker that can move at each step. */
  ghost predicate Valid(job: Job, s: State, schedule: seq<nat>)
    decreases |schedule|
  {
    schedule != [] ==> Enabled(s, schedule[0]) && Valid(job, Step(job, s, schedule[0]), schedule[1..])
  }

  function Execute(job: Job, s: State, schedule: seq<nat>): State
    requires Valid(job, s, schedule)
    decreases |schedule|
  {
    if schedule == [] then s else Execute(job, Step(job, s, schedule[0]), schedule[1..])
  }

  lemma {:induction false} ExecuteKeepsInv(job: Job, s: State, schedule: seq<nat>)
    requires Inv(job, s) && Valid(job, s, schedule)
    ensures Inv(job, Execute(job, s, schedule))
    decreases |schedule|
  {
    if schedule != [] {
      StepKeepsInv(job, s, schedule[0]);
      ExecuteKeepsInv(job, Step(job, s, schedule[0]), schedule[1..]);
    }
  }

  lemma {:induction false} NothingHeld(workers: seq<PC>, x: int)
    requires forall w :: 0 <= w < |workers| ==> !workers[w].Working?
    ensures Held(workers, x) == 0
  {
    if workers != [] {
      NothingHeld(workers[1..], x);
    }
  }

  lemma InitInv(job: Job, count: nat)
    ensures Inv(job, Init(job, count))
  {
    forall x ensures Held(Init(job, count).workers, x) == 0 { NothingHeld(Init(job, count).workers, x); }
  }

  /** In every interleaving, no index is claimed twice and none outside the job; the checkpoints increase. */
  lemma ScheduleSafety(job: Job, count: nat, schedule: seq<nat>)
    requires Valid(job, Init(job, count), schedule)
    ensures var s := Execute(job, Init(job, count), schedule);
            Accounted(job, s) && Increasing(s.checkpoints) && forall i :: 0 <= i < |s.checkpoints| ==> s.checkpoints[i] > job.offset
  {
    InitInv(job, count);
    ExecuteKeepsInv(job, Init(job, count), schedule);
  }

  ghost predicate Finished(s: State) {
    forall w :: 0 <= w < |s.workers| ==> s.workers[w] == Done
  }

  function Range(a: int, b: int): multiset<int>
    decreases b - a
  {
    if b <= a then multiset{} else Range(a, b - 1) + multiset{b - 1}
  }

  lemma {:induction false} RangeCounts(a: int, b: int)
    ensures |Range(a, b)| == if b <= a then 0 else b - a
    ensures forall x :: Range(a, b)[x] == if a <= x < b then 1 else 0
    decreases b - a
  {
    if b > a {
      RangeCounts(a, b - 1);
    }
  }

  /** A worker leaves only after the counter has passed the last index. */
  ghost predicate LeftLate(job: Job, s: State) {
    forall w :: 0 <= w < |s.workers| && s.workers[w].Done? ==> s.next > job.ops
  }

  lemma {:induction false} ExecuteLeavesLate(job: Job, s: State, schedule: seq<nat>)
    requires LeftLate(job, s) && Valid(job, s, schedule)
    ensures LeftLate(job, Execute(job, s, schedule))
    ensures |Execute(job, s, schedule).workers| == |s.workers|
    decreases |schedule|
  {
    if schedule != [] {
      ExecuteLeavesLate(job, Step(job, s, schedule[0]), schedule[1..]);
    }
  }

  /** When all workers have left, each index from offset to ops - 1 was recorded exactly once, and the last
      progress report is the greatest multiple of one hundred reached. */
  lemma CompletedRun(job: Job, count: nat, schedule: seq<nat>)
    requires count >= 1
    requires Valid(job, Init(job, count), schedule) && Finished(Execute(job, Init(job, count), schedule))
    ensures var s := Execute(job, Init(job, count), schedule);
            && (forall x :: multiset(s.recorded)[x] == if job.offset <= x < job.ops then 1 else 0)
            && |s.recorded| == (if job.offset <= job.ops then job.ops - job.offset else 0)
            && s.lastProgress == job.offset + (|s.recorded| - |s.recorded| % INTERVAL)
  {
    var s := Execute(job, Init(job, count), schedule);
    InitInv(job, count);
    ExecuteKeepsInv(job, Init(job, count), schedule);
    ExecuteLeavesLate(job, Init(job, count), schedule);
    assert s.workers[0] == Done;
    RangeCounts(job.offset, job.ops);
    forall x ensures multiset(s.recorded)[x] == Range(job.offset, job.ops)[x] {
      NothingHeld(s.workers, x);
      assert multiset(s.recorded)[x] + Held(s.workers, x) == Claimed(job, s, x);
    }
    assert multiset(s.recorded) == Range(job.offset, job.ops);
    assert |multiset(s.recorded)| == |s.recorded|;
    LastCheckpoint(job, s);
  }

  lemma LastCheckpoint(job: Job, s: State)
    requires Covered(job, s) && Finished(s)
    ensures s.lastProgress == job.offset + (|s.recorded| - |s.recorded| % INTERVAL)
  {
    var top := |s.recorded| - |s.recorded| % INTERVAL;
    assert forall n :: !Pending(s, n);
    assert top > 0 ==> Milestone(s, top);
    assert s.lastProgress - job.offset <= top by {
      if s.lastProgress != job.offset {
        var m := s.lastProgress - job.offset;
        assert Milestone(s, m);
        MultipleBelow(m, |s.recorded|);
      }
    }
  }

  lemma MultipleBelow(m: int, n: int)
    requires 0 <= m <= n && m % INTERVAL == 0
    ensures m <= n - n % INTERVAL
  {
  }

  // ---------------------------------------------------------------- termination

  function Weight(p: PC): nat {
    match p
    case Ready => 1
    case Working(_) => 3
    case Reporting(_) => 2
    case Done => 0
  }

  function Weights(workers: seq<PC>): nat {
    if workers == [] then 0 else Weight(workers[0]) + Weights(workers[1..])
  }

  function Rank(job: Job, s: State): nat {
    4 * (if s.next < job.ops then job.ops - s.next else 0) + Weights(s.workers)
  }

  lemma {:induction false} WeightsUpdate(workers: seq<PC>, w: nat, p: PC)
    requires w < |workers|
    ensures Weights(workers[w := p]) + Weight(workers[w]) == Weights(workers) + Weight(p)
  {
    if w == 0 {
      assert workers[0 := p][1..] == workers[1..];
    } else {
      WeightsUpdate(workers[1..], w - 1, p);
      assert workers[w := p][1..] == workers[1..][w - 1 := p];
    }
  }

  /** Every step uses up rank, so every schedule ends, and it can only end with all workers gone. */
  lemma {:induction false} SchedulesEnd(job: Job, s: State, schedule: seq<nat>)
    requires Valid(job, s, schedule)
    ensures |schedule| + Rank(job, Execute(job, s, schedule)) <= Rank(job, s)
    decreases |schedule|
  {
    if schedule != [] {
      var w := schedule[0];
      var t := Step(job, s, w);
      WeightsUpdate(s.workers, w, t.workers[w]);
      SchedulesEnd(job, t, schedule[1..]);
    }
  }

  lemma StuckIsFinished(s: State)
    ensures (forall w: nat :: !Enabled(s, w)) <==> Finished(s)
  {
    if forall w: nat :: !Enabled(s, w) {
      forall w | 0 <= w < |s.workers| ensures s.workers[w] == Done {
        assert !Enabled(s, w);
      }
    }
  }
}
