/** The per-controller gauge of active policy violations and the per-resource counts behind it
    (pkg/metrics/metrics.go). Every operation holds the mutex for its whole body. */
module ViolationGauge {

  type Counts = map<string, int>

  // ---------------------------------------------------------------- sums

  ghost function Sum(m: Counts): int
    decreases |m|
  {
    if m == map[] then 0
    else
      var k :| k in m;
      m[k] + Sum(m - {k})
  }

  /** The sum does not depend on the order of the keys. */
  lemma {:induction false} SumWithout(m: Counts, k: string)
    requires k in m
    ensures Sum(m) == m[k] + Sum(m - {k})
    decreases |m|
  {
    var j :| j in m && Sum(m) == m[j] + Sum(m - {j});
    if j != k {
      SumWithout(m - {j}, k);
      SumWithout(m - {k}, j);
      assert m - {j} - {k} == m - {k} - {j};
    }
  }

  method Total(m: Counts) returns (total: int)
    ensures total == Sum(m)
  {
    total := 0;
    var rest := m;
    while rest != map[]
      invariant rest.Keys <= m.Keys && total + Sum(rest) == Sum(m)
      decreases |rest|
    {
      var k :| k in rest;
      SumWithout(rest, k);
      total := total + rest[k];
      rest := rest - {k};
    }
  }

  // ---------------------------------------------------------------- the registry

  datatype State = State(counts: map<string, Counts>, gauge: map<string, int>)

  function Stored(s: State, controller: string): Counts {
    if controller in s.counts then s.counts[controller] else map[]
  }

  /** The gauge shows the sum of the stored counts; empty controllers are not stored. */
  ghost function Exported(s: State, controller: string, counts: Counts): State {
    State(if counts == map[] then s.counts - {controller} else s.counts[controller := counts], s.gauge[controller := Sum(counts)])
  }

  function WithCount(counts: Counts, name: string, violations: int): Counts {
    if violations <= 0 then counts - {name} else counts[name := violations]
  }

  class Registry {
    var counts: map<string, Counts>
    var gauge: map<string, int>

    ghost function Value(): State reads this {
      State(counts, gauge)
    }

    constructor ()
      ensures counts == map[] && gauge == map[]
    {
      counts, gauge := map[], map[];
    }

    method SetViolations(controller: string, name: string, violations: int)
      modifies this
      ensures Value() == Exported(old(Value()), controller, WithCount(Stored(old(Value()), controller), name, violations))
    {
      var resourceCounts := if controller in counts then counts[controller] else map[];
      if violations <= 0 {
        resourceCounts := resourceCounts - {name};
      } else {
        resourceCounts := resourceCounts[name := violations];
      }
      SetAggregate(controller, resourceCounts);
    }

    method DeleteContribution(controller: string, name: string)
      modifies this
      ensures Value() == if controller in old(counts) then Exported(old(Value()), controller, old(counts)[controller] - {name}) else old(Value())
    {
      if controller !in counts {
        return;
      }
      SetAggregate(controller, counts[controller] - {name});
    }

    /** The shared inner map is written back together with the gauge. */
    method SetAggregate(controller: string, resourceCounts: Counts)
      modifies this
      ensures Value() == Exported(old(Value()), controller, resourceCounts)
    {
      if |resourceCounts| == 0 {
        counts := counts - {controller};
        gauge := gauge[controller := 0];
        return;
      }
      counts := counts[controller := resourceCounts];
      var total := Total(resourceCounts);
      gauge := gauge[controller := total];
    }
  }

  // ---------------------------------------------------------------- runs

  datatype Op = Set(controller: string, name: string, violations: int) | Delete(controller: string, name: string)

  ghost function Apply(s: State, op: Op): State {
    match op
    case Set(c, n, v) => Exported(s, c, WithCount(Stored(s, c), n, v))
    case Delete(c, n) => if c in s.counts then Exported(s, c, s.counts[c] - {n}) else s
  }

  ghost function Run(ops: seq<Op>): State {
    if ops == [] then State(map[], map[]) else Apply(Run(ops[..|ops| - 1]), ops[|ops| - 1])
  }

  /** The live count of a resource: what its last operation left, if positive. */
  function Live(ops: seq<Op>, controller: string, name: string): int {
    if ops == [] then 0
    else
      var last := ops[|ops| - 1];
      if last.controller == controller && last.name == name then
        if last.Set? && last.violations > 0 then last.violations else 0
      else Live(ops[..|ops| - 1], controller, name)
  }

  ghost predicate Consistent(s: State) {
    && (forall c :: c in s.counts ==> s.counts[c] != map[] && forall n :: n in s.counts[c] ==> s.counts[c][n] > 0)
    && (forall c :: c in s.gauge ==> s.gauge[c] == Sum(Stored(s, c)))
    && (forall c :: c in s.counts ==> c in s.gauge)
  }

  lemma ExportedConsistent(s: State, controller: string, counts: Counts)
    requires Consistent(s) && forall n :: n in counts ==> counts[n] > 0
    ensures Consistent(Exported(s, controller, counts))
  {
  }

  /** After every run each exported gauge is the sum of the stored counts, all of them positive, and a controller
      without stored counts has a gauge of zero or none. */
  lemma {:induction false} RunConsistent(ops: seq<Op>)
    ensures Consistent(Run(ops))
    ensures forall c :: c !in Run(ops).counts && c in Run(ops).gauge ==> Run(ops).gauge[c] == 0
  {
    if ops != [] {
      var s, last := Run(ops[..|ops| - 1]), ops[|ops| - 1];
      RunConsistent(ops[..|ops| - 1]);
      match last
      case Set(c, n, v) => ExportedConsistent(s, c, WithCount(Stored(s, c), n, v));
      case Delete(c, n) =>
        if c in s.counts {
          ExportedConsistent(s, c, s.counts[c] - {n});
        }
    }
  }

  /** The stored counts are exactly the live ones. */
  lemma {:induction false} RunStoresLive(ops: seq<Op>, controller: string, name: string)
    ensures name in Stored(Run(ops), controller) <==> Live(ops, controller, name) > 0
    ensures name in Stored(Run(ops), controller) ==> Stored(Run(ops), controller)[name] == Live(ops, controller, name)
  {
    if ops != [] {
      RunStoresLive(ops[..|ops| - 1], controller, name);
    }
  }
}
