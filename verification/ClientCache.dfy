/** The bounded cache of impersonated clients (internal/controller/authorization/impersonation.go).
    First the critical sections on the cache map and the order slice, then the whole getOrCreate
    protocol: any number of callers, interleaved between lock acquisitions, with one singleflight
    call per username. */
module ClientCache {

  import opened Options

  /** A client remembers the username its rest config impersonates. */
  datatype Client = Client(user: string, serial: nat)
  datatype Result = Ok(client: Client) | Failed

  const MAX_ENTRIES: nat := 256

  // ---------------------------------------------------------------- the shared cache

  datatype Cache = Cache(clients: map<string, Client>, order: seq<string>)

  predicate NoDuplicates(xs: seq<string>) {
    forall i, j :: 0 <= i < j < |xs| ==> xs[i] != xs[j]
  }

  /** The order slice lists exactly the cached usernames, once each, within the bound, and
      every entry was built for its username. */
  ghost predicate CacheOk(c: Cache) {
    && NoDuplicates(c.order)
    && (forall u :: u in c.order <==> u in c.clients)
    && |c.order| <= MAX_ENTRIES
    && (forall u :: u in c.clients ==> c.clients[u].user == u)
  }

  function EvictOldest(c: Cache): Cache {
    if |c.order| >= MAX_ENTRIES then Cache(c.clients - {c.order[0]}, c.order[1..]) else c
  }

  /** The locked part after the factory returned: keep an existing entry, otherwise evict and append. */
  function Put(c: Cache, user: string, built: Client): (Cache, Client) {
    if user in c.clients then (c, c.clients[user])
    else
      var e := EvictOldest(c);
      (Cache(e.clients[user := built], e.order + [user]), built)
  }

  lemma EvictKeepsCache(c: Cache)
    requires CacheOk(c)
    ensures CacheOk(EvictOldest(c)) && |EvictOldest(c).order| < MAX_ENTRIES
    ensures EvictOldest(c).clients.Keys <= c.clients.Keys
  {
    if |c.order| >= MAX_ENTRIES {
      var e := EvictOldest(c);
      assert c.order == [c.order[0]] + e.order;
      forall u ensures u in e.order <==> u in e.clients {
        assert u in c.order <==> u in c.clients;
      }
    }
  }

  lemma PutKeepsCache(c: Cache, user: string, built: Client)
    requires CacheOk(c) && built.user == user
    ensures CacheOk(Put(c, user, built).0)
    ensures user in Put(c, user, built).0.clients && Put(c, user, built).1.user == user
    ensures Put(c, user, built).0.clients[user] == Put(c, user, built).1
  {
    if user !in c.clients {
      EvictKeepsCache(c);
      var e := EvictOldest(c);
      var p := Put(c, user, built).0;
      assert user !in e.order;
      forall u ensures u in p.order <==> u in p.clients {
        assert u in e.order <==> u in e.clients;
      }
    }
  }

  /** The mutable object: a map and a slice updated under one lock. */
  class ImpersonatedClientCache {
    var cache: map<string, Client>
    var order: seq<string>

    ghost function View(): Cache
      reads this
    {
      Cache(cache, order)
    }

    ghost predicate Valid()
      reads this
    {
      CacheOk(View())
    }

    constructor ()
      ensures Valid() && View() == Cache(map[], [])
    {
      cache := map[];
      order := [];
    }

    /** Read-locked lookup: the fast path and the recheck inside the singleflight closure. */
    method Lookup(username: string) returns (hit: Option<Client>)
      requires Valid()
      ensures hit.Some? <==> username in order
      ensures hit.Some? ==> hit.value == cache[username] && hit.value.user == username
    {
      if username in cache {
        hit := Some(cache[username]);
      } else {
        hit := None;
      }
    }

    /** Write-locked store of a freshly built client. */
    method StoreBuilt(username: string, built: Client) returns (cl: Client)
      requires Valid() && built.user == username
      modifies this
      ensures Valid() && (View(), cl) == Put(old(View()), username, built)
      ensures username in cache && cl.user == username
    {
      PutKeepsCache(View(), username, built);
      if username in cache {
        return cache[username];
      }
      if |order| >= MAX_ENTRIES {
        var oldest := order[0];
        order := order[1..];
        cache := cache - {oldest};
      }
      cache := cache[username := built];
      order := order + [username];
      cl := built;
    }
  }

  // ---------------------------------------------------------------- the protocol

  type Tid = nat
  type CallId = nat

  /** Where a caller stands. The call identifies the singleflight call it leads or waits for. */
  datatype PC =
    | Start(user: string)
    | Missed(user: string)
    | Waiting(user: string, call: CallId)
    | Rechecking(user: string, call: CallId)
    | Building(user: string, call: CallId)
    | Storing(user: string, call: CallId, built: Client)
    | Finishing(user: string, call: CallId, res: Result)
    | Returned(user: string, res: Result)

  /** log records the usernames in the order their clients were stored. */
  datatype State = State(
    cache: Cache,
    inflight: map<string, CallId>,
    results: map<CallId, Result>,
    nextCall: CallId,
    threads: map<Tid, PC>,
    log: seq<string>)

  const INIT := State(Cache(map[], []), map[], map[], 0, map[], [])

  datatype Step =
    | Invoke(user: string)
    | FastRead
    | EnterGroup
    | Recheck
    | FactoryBuilt(serial: nat)
    | FactoryFailed          // an error, or a nil client
    | Store
    | Finish
    | Wake

  predicate Leads(pc: PC) {
    pc.Rechecking? || pc.Building? || pc.Storing? || pc.Finishing?
  }

  predicate Enabled(s: State, t: Tid, step: Step) {
    match step
    case Invoke(_) => t !in s.threads || s.threads[t].Returned?
    case FastRead => t in s.threads && s.threads[t].Start?
    case EnterGroup => t in s.threads && s.threads[t].Missed?
    case Recheck => t in s.threads && s.threads[t].Rechecking?
    case FactoryBuilt(_) => t in s.threads && s.threads[t].Building?
    case FactoryFailed => t in s.threads && s.threads[t].Building?
    case Store => t in s.threads && s.threads[t].Storing?
    case Finish => t in s.threads && s.threads[t].Finishing?
    case Wake => t in s.threads && s.threads[t].Waiting? && s.threads[t].call in s.results
  }

  function Move(s: State, t: Tid, pc: PC): State {
    s.(threads := s.threads[t := pc])
  }

  /** One atomic step of caller t: what happens between two lock operations. */
  function Apply(s: State, t: Tid, step: Step): State
    requires Enabled(s, t, step)
  {
    match step
    case Invoke(u) => Move(s, t, Start(u))
    case FastRead =>
      var u := s.threads[t].user;
      Move(s, t, if u in s.cache.clients then Returned(u, Ok(s.cache.clients[u])) else Missed(u))
    case EnterGroup =>
      var u := s.threads[t].user;
      if u in s.inflight then Move(s, t, Waiting(u, s.inflight[u]))
      else Move(s, t, Rechecking(u, s.nextCall)).(inflight := s.inflight[u := s.nextCall], nextCall := s.nextCall + 1)
    case Recheck =>
      var u, c := s.threads[t].user, s.threads[t].call;
      Move(s, t, if u in s.cache.clients then Finishing(u, c, Ok(s.cache.clients[u])) else Building(u, c))
    case FactoryBuilt(serial) =>
      var u := s.threads[t].user;
      Move(s, t, Storing(u, s.threads[t].call, Client(u, serial)))
    case FactoryFailed => Move(s, t, Finishing(s.threads[t].user, s.threads[t].call, Failed))
    case Store =>
      var u, built := s.threads[t].user, s.threads[t].built;
      var p := Put(s.cache, u, built);
      Move(s, t, Finishing(u, s.threads[t].call, Ok(p.1)))
        .(cache := p.0, log := if u in s.cache.clients then s.log else s.log + [u])
    case Finish =>
      var u, c, r := s.threads[t].user, s.threads[t].call, s.threads[t].res;
      Move(s, t, Returned(u, r)).(inflight := s.inflight - {u}, results := s.results[c := r])
    case Wake =>
      Move(s, t, Returned(s.threads[t].user, s.results[s.threads[t].call]))
  }

  ghost predicate Next(s: State, s': State) {
    exists t, step :: Enabled(s, t, step) && s' == Apply(s, t, step)
  }

  // ---------------------------------------------------------------- the invariant

  predicate BuiltFor(r: Result, user: string) {
    r.Ok? ==> r.client.user == user
  }

  ghost predicate ThreadOk(s: State, pc: PC) {
    && (Leads(pc) ==> InFlight(s, pc.user, pc.call))
    && (pc.Building? || pc.Storing? ==> pc.user !in s.cache.clients)
    && (pc.Storing? ==> pc.built.user == pc.user)
    && (pc.Finishing? || pc.Returned? ==> BuiltFor(pc.res, pc.user))
    && (pc.Waiting? ==> WaiterOk(s, pc.user, pc.call))
  }

  predicate InFlight(s: State, u: string, c: CallId) {
    u in s.inflight && s.inflight[u] == c
  }

  predicate WaiterOk(s: State, u: string, c: CallId) {
    c < s.nextCall && if c in s.results then BuiltFor(s.results[c], u) else InFlight(s, u, c)
  }

  ghost predicate ThreadsOk(s: State) {
    forall t :: t in s.threads ==> ThreadOk(s, s.threads[t])
  }

  predicate LeadsFor(s: State, t: Tid, u: string) {
    t in s.threads && Leads(s.threads[t]) && s.threads[t].user == u
  }

  ghost predicate OneLeaderEach(s: State) {
    && (forall t, t', u :: LeadsFor(s, t, u) && LeadsFor(s, t', u) ==> t == t')
    && (forall u :: u in s.inflight ==> exists t :: LeadsFor(s, t, u))
  }

  ghost predicate CallsOk(s: State) {
    && (forall u :: u in s.inflight ==> s.inflight[u] < s.nextCall && s.inflight[u] !in s.results)
    && (forall u, u' :: u in s.inflight && u' in s.inflight && s.inflight[u] == s.inflight[u'] ==> u == u')
    && (forall c :: c in s.results ==> c < s.nextCall)
  }

  /** The last MAX_ENTRIES entries of the store log. */
  function Recent(log: seq<string>): seq<string> {
    if |log| > MAX_ENTRIES then log[|log| - MAX_ENTRIES..] else log
  }

  ghost predicate Inv(s: State) {
    && CacheOk(s.cache)
    && ThreadsOk(s)
    && OneLeaderEach(s)
    && CallsOk(s)
    && s.cache.order == Recent(s.log)
  }

  /** Storing a new username drops the oldest entry exactly when the log grows past the bound. */
  lemma StoreIsRecent(c: Cache, log: seq<string>, user: string, built: Client)
    requires CacheOk(c) && c.order == Recent(log) && user !in c.clients
    ensures Put(c, user, built).0.order == Recent(log + [user])
  {
  }

  lemma StepKeepsCache(s: State, t: Tid, step: Step)
    requires CacheOk(s.cache) && ThreadsOk(s) && s.cache.order == Recent(s.log) && Enabled(s, t, step)
    ensures CacheOk(Apply(s, t, step).cache) && Apply(s, t, step).cache.order == Recent(Apply(s, t, step).log)
  {
    if step.Store? {
      var pc := s.threads[t];
      assert ThreadOk(s, pc);
      PutKeepsCache(s.cache, pc.user, pc.built);
      StoreIsRecent(s.cache, s.log, pc.user, pc.built);
    }
  }

  /** The caller that steps. */
  lemma StepKeepsMover(s: State, t: Tid, step: Step)
    requires CacheOk(s.cache) && ThreadsOk(s) && CallsOk(s) && Enabled(s, t, step)
    ensures ThreadOk(Apply(s, t, step), Apply(s, t, step).threads[t])
  {
    assert t in s.threads ==> ThreadOk(s, s.threads[t]);
  }

  /** A caller that does not step: a leader of the same username would have to be the one that does. */
  lemma StepKeepsOther(s: State, t: Tid, step: Step, t': Tid)
    requires ThreadsOk(s) && OneLeaderEach(s) && CallsOk(s) && Enabled(s, t, step)
    requires t' in s.threads && t' != t
    ensures ThreadOk(Apply(s, t, step), s.threads[t'])
  {
    assert ThreadOk(s, s.threads[t']);
    assert t in s.threads ==> ThreadOk(s, s.threads[t]);
    if step.Store? || step.Finish? {
      assert LeadsFor(s, t, s.threads[t].user);
      assert Leads(s.threads[t']) ==> LeadsFor(s, t', s.threads[t'].user);
    }
  }

  lemma StepKeepsThread(s: State, t: Tid, step: Step, t': Tid)
    requires CacheOk(s.cache) && ThreadsOk(s) && OneLeaderEach(s) && CallsOk(s)
    requires Enabled(s, t, step) && t' in Apply(s, t, step).threads
    ensures ThreadOk(Apply(s, t, step), Apply(s, t, step).threads[t'])
  {
    if t' == t {
      StepKeepsMover(s, t, step);
    } else {
      OnlyMoverMoves(s, t, step, t');
      StepKeepsOther(s, t, step, t');
    }
  }

  lemma OnlyMoverMoves(s: State, t: Tid, step: Step, t': Tid)
    requires Enabled(s, t, step) && t' != t
    ensures t' in Apply(s, t, step).threads <==> t' in s.threads
    ensures t' in s.threads ==> Apply(s, t, step).threads[t'] == s.threads[t']
  {
  }

  /** At most one leader per username after the step ... */
  lemma StepKeepsSingleLeaders(s: State, t: Tid, step: Step, a: Tid, b: Tid, u: string)
    requires ThreadsOk(s) && OneLeaderEach(s) && Enabled(s, t, step)
    requires LeadsFor(Apply(s, t, step), a, u) && LeadsFor(Apply(s, t, step), b, u)
    ensures a == b
  {
    assert LeadsFor(s, a, u) || a == t;
    assert LeadsFor(s, b, u) || b == t;
    assert a in s.threads ==> ThreadOk(s, s.threads[a]);
    assert b in s.threads ==> ThreadOk(s, s.threads[b]);
  }

  /** ... and one for each call in flight. */
  lemma StepKeepsSomeLeader(s: State, t: Tid, step: Step, u: string)
    requires OneLeaderEach(s) && Enabled(s, t, step) && u in Apply(s, t, step).inflight
    ensures exists l :: LeadsFor(Apply(s, t, step), l, u)
  {
    if u in s.inflight {
      var l :| LeadsFor(s, l, u);
      assert LeadsFor(Apply(s, t, step), l, u);
    } else {
      assert LeadsFor(Apply(s, t, step), t, u);
    }
  }

  lemma StepKeepsLeaders(s: State, t: Tid, step: Step)
    requires ThreadsOk(s) && OneLeaderEach(s) && Enabled(s, t, step)
    ensures OneLeaderEach(Apply(s, t, step))
  {
    var s' := Apply(s, t, step);
    forall a, b, u | LeadsFor(s', a, u) && LeadsFor(s', b, u) ensures a == b {
      StepKeepsSingleLeaders(s, t, step, a, b, u);
    }
    forall u | u in s'.inflight ensures exists l :: LeadsFor(s', l, u) {
      StepKeepsSomeLeader(s, t, step, u);
    }
  }

  lemma StepKeepsCalls(s: State, t: Tid, step: Step)
    requires ThreadsOk(s) && CallsOk(s) && Enabled(s, t, step)
    ensures CallsOk(Apply(s, t, step))
  {
  }

  lemma StepKeepsInv(s: State, t: Tid, step: Step)
    requires Inv(s) && Enabled(s, t, step)
    ensures Inv(Apply(s, t, step))
  {
    StepKeepsCache(s, t, step);
    StepKeepsLeaders(s, t, step);
    StepKeepsCalls(s, t, step);
    forall t' | t' in Apply(s, t, step).threads ensures ThreadOk(Apply(s, t, step), Apply(s, t, step).threads[t']) {
      StepKeepsThread(s, t, step, t');
    }
  }

  // ---------------------------------------------------------------- every schedule

  ghost predicate Schedule(states: seq<State>) {
    && |states| > 0 && states[0] == INIT
    && forall i :: 0 <= i < |states| - 1 ==> Next(states[i], states[i + 1])
  }

  lemma {:induction false} ReachableInv(states: seq<State>, i: nat)
    requires Schedule(states) && i < |states|
    ensures Inv(states[i])
  {
    if i > 0 {
      ReachableInv(states, i - 1);
      assert Next(states[i - 1], states[i - 1 + 1]);
      var t, step :| Enabled(states[i - 1], t, step) && states[i] == Apply(states[i - 1], t, step);
      StepKeepsInv(states[i - 1], t, step);
    }
  }

  predicate BuildsFor(s: State, t: Tid, u: string) {
    t in s.threads && s.threads[t].Building? && s.threads[t].user == u
  }

  /** Safety of every schedule: a bounded duplicate-free order that matches the cache and lists the
      most recently stored usernames, one factory call per username, clients only for the username
      that asked, and a store that never meets an existing entry. */
  lemma ScheduleSafety(states: seq<State>, i: nat)
    requires Schedule(states) && i < |states|
    ensures CacheOk(states[i].cache)
    ensures states[i].cache.order == Recent(states[i].log)
    ensures forall t, t', u :: BuildsFor(states[i], t, u) && BuildsFor(states[i], t', u) ==> t == t'
    ensures forall t :: t in states[i].threads && states[i].threads[t].Returned?
              ==> BuiltFor(states[i].threads[t].res, states[i].threads[t].user)
    ensures forall t :: t in states[i].threads && states[i].threads[t].Storing?
              ==> states[i].threads[t].user !in states[i].cache.clients
  {
    ReachableInv(states, i);
    var s := states[i];
    forall t, t', u | BuildsFor(s, t, u) && BuildsFor(s, t', u) ensures t == t' {
      assert LeadsFor(s, t, u) && LeadsFor(s, t', u);
    }
    forall t | t in s.threads ensures ThreadOk(s, s.threads[t]) {}
  }

  // ---------------------------------------------------------------- errors come from the factory

  /** Nobody who asks for the username has got an error or can still get one from a finished call. */
  ghost predicate FailFree(s: State, u: string) {
    forall t :: t in s.threads && s.threads[t].user == u ==> NoError(s, s.threads[t])
  }

  predicate NoError(s: State, pc: PC) {
    match pc
    case Finishing(_, _, r) => r.Ok?
    case Returned(_, r) => r.Ok?
    case Waiting(_, c) => c in s.results ==> s.results[c].Ok?
    case _ => true
  }

  predicate FailsFor(s: State, t: Tid, step: Step, u: string) {
    step.FactoryFailed? && t in s.threads && s.threads[t].user == u
  }

  lemma MoverGetsNoError(s: State, t: Tid, step: Step, u: string)
    requires Inv(s) && FailFree(s, u) && Enabled(s, t, step) && !FailsFor(s, t, step, u)
    ensures Apply(s, t, step).threads[t].user == u ==> NoError(Apply(s, t, step), Apply(s, t, step).threads[t])
  {
    assert t in s.threads ==> ThreadOk(s, s.threads[t]) && (s.threads[t].user == u ==> NoError(s, s.threads[t]));
  }

  lemma OtherGetsNoError(s: State, t: Tid, step: Step, w: Tid)
    requires w in s.threads && w != t && Inv(s) && FailFree(s, s.threads[w].user) && Enabled(s, t, step)
    ensures NoError(Apply(s, t, step), s.threads[w])
  {
    assert ThreadOk(s, s.threads[w]) && NoError(s, s.threads[w]);
    if step.Finish? && s.threads[w].Waiting? && s.threads[w].call == s.threads[t].call {
      assert ThreadOk(s, s.threads[t]) && InFlight(s, s.threads[w].user, s.threads[w].call);
      assert NoError(s, s.threads[t]);
    }
  }

  /** Only a failure of the factory brings an error into the calls for a username. */
  lemma StepKeepsFailFree(s: State, t: Tid, step: Step, u: string)
    requires Inv(s) && FailFree(s, u) && Enabled(s, t, step) && !FailsFor(s, t, step, u)
    ensures FailFree(Apply(s, t, step), u)
  {
    var s' := Apply(s, t, step);
    forall w | w in s'.threads && s'.threads[w].user == u ensures NoError(s', s'.threads[w]) {
      if w == t {
        MoverGetsNoError(s, t, step, u);
      } else {
        OnlyMoverMoves(s, t, step, w);
        OtherGetsNoError(s, t, step, w);
      }
    }
  }

  /** The factory fails for the username in step i. */
  ghost predicate FailureAt(states: seq<State>, i: nat, u: string) {
    i + 1 < |states| && exists t :: Enabled(states[i], t, FactoryFailed) && FailsFor(states[i], t, FactoryFailed, u) &&
                              states[i + 1] == Apply(states[i], t, FactoryFailed)
  }

  lemma FailingStep(states: seq<State>, i: nat, t: Tid, step: Step, u: string)
    requires i + 1 < |states| && Enabled(states[i], t, step) && states[i + 1] == Apply(states[i], t, step)
    ensures FailsFor(states[i], t, step, u) ==> FailureAt(states, i, u)
  {
  }

  ghost predicate NoFailureBefore(states: seq<State>, i: nat, u: string) {
    forall j: nat :: j < i ==> !FailureAt(states, j, u)
  }

  lemma {:induction false} FailFreeUntil(states: seq<State>, i: nat, u: string)
    requires Schedule(states) && i < |states| && NoFailureBefore(states, i, u)
    ensures FailFree(states[i], u)
  {
    if i > 0 {
      FailFreeUntil(states, i - 1, u);
      ReachableInv(states, i - 1);
      assert Next(states[i - 1], states[i - 1 + 1]);
      var t, step :| Enabled(states[i - 1], t, step) && states[i] == Apply(states[i - 1], t, step);
      FailingStep(states, i - 1, t, step, u);
      StepKeepsFailFree(states[i - 1], t, step, u);
    }
  }

  lemma GotError(s: State, t: Tid)
    requires t in s.threads && s.threads[t].Returned? && s.threads[t].res.Failed?
    ensures !FailFree(s, s.threads[t].user)
  {
    assert !NoError(s, s.threads[t]);
  }

  /** In every schedule a caller gets an error only after a failure of the factory for its username. */
  lemma ErrorsComeFromTheFactory(states: seq<State>, i: nat, t: Tid) returns (j: nat)
    requires Schedule(states) && i < |states| && t in states[i].threads
    requires states[i].threads[t].Returned? && states[i].threads[t].res.Failed?
    ensures j < i && FailureAt(states, j, states[i].threads[t].user)
  {
    var u := states[i].threads[t].user;
    GotError(states[i], t);
    if NoFailureBefore(states, i, u) {
      FailFreeUntil(states, i, u);
    }
    j :| j < i && FailureAt(states, j, u);
  }

  // ---------------------------------------------------------------- clients come from the factory

  /** Every client in the cache, on its way or handed out is one of these. */
  ghost predicate Sourced(s: State, built: iset<Client>) {
    && (forall u :: u in s.cache.clients ==> s.cache.clients[u] in built)
    && (forall t :: t in s.threads ==> PCSourced(s.threads[t], built))
    && (forall c :: c in s.results && s.results[c].Ok? ==> s.results[c].client in built)
  }

  ghost predicate PCSourced(pc: PC, built: iset<Client>) {
    match pc
    case Storing(_, _, c) => c in built
    case Finishing(_, _, r) => r.Ok? ==> r.client in built
    case Returned(_, r) => r.Ok? ==> r.client in built
    case _ => true
  }

  ghost function Produces(s: State, t: Tid, step: Step): iset<Client>
    requires Enabled(s, t, step)
  {
    if step.FactoryBuilt? then iset{Client(s.threads[t].user, step.serial)} else iset{}
  }

  lemma StepSourced(s: State, t: Tid, step: Step, built: iset<Client>)
    requires Sourced(s, built) && Enabled(s, t, step)
    ensures Sourced(Apply(s, t, step), built + Produces(s, t, step))
  {
    var s', all := Apply(s, t, step), built + Produces(s, t, step);
    assert t in s.threads ==> PCSourced(s.threads[t], built);
    forall w | w in s'.threads ensures PCSourced(s'.threads[w], all) {
      if w != t { assert PCSourced(s.threads[w], built); }
    }
  }

  /** The factory returns the client in step i. */
  ghost predicate BuiltAt(states: seq<State>, i: nat, c: Client) {
    i + 1 < |states| && exists t :: Enabled(states[i], t, FactoryBuilt(c.serial)) && states[i].threads[t].user == c.user &&
                              states[i + 1] == Apply(states[i], t, FactoryBuilt(c.serial))
  }

  ghost predicate BuiltBefore(states: seq<State>, i: nat, c: Client) {
    exists j: nat :: j < i && BuiltAt(states, j, c)
  }

  ghost function Factory(states: seq<State>, i: nat): iset<Client> {
    iset c | BuiltBefore(states, i, c)
  }

  lemma {:induction false} SourcedUntil(states: seq<State>, i: nat)
    requires Schedule(states) && i < |states|
    ensures Sourced(states[i], Factory(states, i))
  {
    if i > 0 {
      SourcedUntil(states, i - 1);
      var before, after := Factory(states, i - 1), Factory(states, i);
      assert Next(states[i - 1], states[i - 1 + 1]);
      var t, step :| Enabled(states[i - 1], t, step) && states[i] == Apply(states[i - 1], t, step);
      StepSourced(states[i - 1], t, step, before);
      FactoryGrows(states, i - 1, t, step);
      SourcedMore(states[i], before + Produces(states[i - 1], t, step), after);
    }
  }

  lemma FactoryGrows(states: seq<State>, i: nat, t: Tid, step: Step)
    requires i + 1 < |states| && Enabled(states[i], t, step) && states[i + 1] == Apply(states[i], t, step)
    ensures Factory(states, i) + Produces(states[i], t, step) <= Factory(states, i + 1)
  {
    forall c | c in Produces(states[i], t, step) ensures c in Factory(states, i + 1) {
      assert BuiltAt(states, i, c);
    }
  }

  lemma SourcedMore(s: State, a: iset<Client>, b: iset<Client>)
    requires Sourced(s, a) && a <= b
    ensures Sourced(s, b)
  {
    forall t | t in s.threads ensures PCSourced(s.threads[t], b) { assert PCSourced(s.threads[t], a); }
  }

  /** In every schedule a client that a caller gets is one the factory returned before, for the same username. */
  lemma ClientsComeFromTheFactory(states: seq<State>, i: nat, t: Tid) returns (j: nat)
    requires Schedule(states) && i < |states| && t in states[i].threads
    requires states[i].threads[t].Returned? && states[i].threads[t].res.Ok?
    ensures j < i && BuiltAt(states, j, states[i].threads[t].res.client)
    ensures states[i].threads[t].res.client.user == states[i].threads[t].user
  {
    SourcedUntil(states, i);
    ReachableInv(states, i);
    assert PCSourced(states[i].threads[t], Factory(states, i)) && ThreadOk(states[i], states[i].threads[t]);
    j :| j < i && BuiltAt(states, j, states[i].threads[t].res.client);
  }

  // ---------------------------------------------------------------- a stored client is served

  /** While a username stays cached its client stays the same. */
  lemma StepKeepsClient(s: State, t: Tid, step: Step, u: string)
    requires Enabled(s, t, step) && u in s.cache.clients && u in Apply(s, t, step).cache.clients
    ensures Apply(s, t, step).cache.clients[u] == s.cache.clients[u]
  {
  }

  lemma {:induction false} ClientStays(states: seq<State>, i: nat, j: nat, u: string)
    requires Schedule(states) && i <= j < |states| && forall k :: i <= k <= j ==> u in states[k].cache.clients
    ensures states[j].cache.clients[u] == states[i].cache.clients[u]
    decreases j
  {
    if i < j {
      ClientStays(states, i, j - 1, u);
      assert Next(states[j - 1], states[j - 1 + 1]);
      var t, step :| Enabled(states[j - 1], t, step) && states[j] == Apply(states[j - 1], t, step);
      StepKeepsClient(states[j - 1], t, step, u);
    }
  }

  /** What one caller stored in step i is what every later caller gets at once, as long as it is not evicted. */
  lemma StoredIsServed(states: seq<State>, i: nat, t: Tid, j: nat, w: Tid)
    requires Schedule(states) && i < j && j + 1 < |states|
    requires Enabled(states[i], t, Store) && states[i + 1] == Apply(states[i], t, Store)
    requires Enabled(states[j], w, FastRead) && states[j + 1] == Apply(states[j], w, FastRead)
    requires states[j].threads[w].user == states[i].threads[t].user
    requires forall k :: i < k <= j ==> states[i].threads[t].user in states[k].cache.clients
    ensures states[i + 1].threads[t].Finishing? && states[i + 1].threads[t].res.Ok?
    ensures states[j + 1].threads[w] == Returned(states[i].threads[t].user, states[i + 1].threads[t].res)
  {
    var u := states[i].threads[t].user;
    ReachableInv(states, i);
    assert ThreadOk(states[i], states[i].threads[t]);
    PutKeepsCache(states[i].cache, u, states[i].threads[t].built);
    ClientStays(states, i + 1, j, u);
  }

  // ---------------------------------------------------------------- progress

  function Rank(pc: PC): nat {
    match pc
    case Start(_) => 7
    case Missed(_) => 6
    case Rechecking(_, _) => 5
    case Building(_, _) => 4
    case Storing(_, _, _) => 3
    case Finishing(_, _, _) => 2
    case Waiting(_, _) => 1
    case Returned(_, _) => 0
  }

  /** The step of a caller that is not blocked. */
  function OwnStep(pc: PC): Step {
    match pc
    case Start(_) => FastRead
    case Missed(_) => EnterGroup
    case Rechecking(_, _) => Recheck
    case Building(_, _) => FactoryFailed
    case Storing(_, _, _) => Store
    case Finishing(_, _, _) => Finish
    case Waiting(_, _) => Wake
    case Returned(u, _) => Invoke(u)
  }

  /** No schedule deadlocks: while some caller has not returned, some caller that has not returned
      can step, and its step brings only itself closer to returning. */
  lemma NoDeadlock(states: seq<State>, i: nat, t: Tid) returns (mover: Tid)
    requires Schedule(states) && i < |states|
    requires t in states[i].threads && !states[i].threads[t].Returned?
    ensures mover in states[i].threads && !states[i].threads[mover].Returned?
    ensures Enabled(states[i], mover, OwnStep(states[i].threads[mover]))
    ensures mover == t || states[i].threads[t].Waiting?
  {
    ReachableInv(states, i);
    var s := states[i];
    assert ThreadOk(s, s.threads[t]);
    if s.threads[t].Waiting? && s.threads[t].call !in s.results {
      mover :| LeadsFor(s, mover, s.threads[t].user);
    } else {
      mover := t;
    }
  }

  /** Every step but a new invocation lowers the rank of the one caller it moves. */
  lemma StepsTerminate(s: State, t: Tid, step: Step)
    requires Enabled(s, t, step) && !step.Invoke?
    ensures Rank(Apply(s, t, step).threads[t]) < Rank(s.threads[t])
    ensures forall t' :: t' in s.threads && t' != t ==> t' in Apply(s, t, step).threads && Apply(s, t, step).threads[t'] == s.threads[t']
  {
  }
}
