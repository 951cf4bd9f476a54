/**
 CacheService.getOrSet as a protocol: any number of calls on one service instance, interleaved
 at every await with each other and with other writers of the store.
 */
module SingleFlight {
  import opened Wrappers
  import opened TtlStore
  import Cache

  datatype Phase<V, E> = Checking | Loading | Storing(value: V) | Settled(outcome: Result<V, E>)

  /** One load: the promise that its callers share. */
  datatype Load<V, E> = Load(key: string, ttl: int, phase: Phase<V, E>)

  datatype Call = Call(key: string, load: nat)

  datatype State<V, E> = State(
    now: int, store: Store<V>, inflight: map<string, nat>, loads: map<nat, Load<V, E>>, calls: map<nat, Call>)
  {
    predicate Running(l: nat) {
      l in loads && !loads[l].phase.Settled?
    }

    function Move(l: nat, p: Phase<V, E>): State<V, E>
      requires l in loads
    {
      this.(loads := loads[l := loads[l].(phase := p)])
    }

    /** The `finally` block and the settling of the promise, in one go. */
    function Settle(l: nat, r: Result<V, E>): State<V, E>
      requires l in loads
    {
      Move(l, Settled(r)).(inflight := inflight - {loads[l].key})
    }
  }

  datatype Label<V, E> =
    | Tick(d: nat)
    | OthersWrite(store: Store<V>)
    | GetOrSet(id: nat, key: string, ttl: int, newLoad: nat)
    | Check(load: nat)
    | CheckFails(load: nat, error: E)
    | FactoryReturns(load: nat, value: V)
    | FactoryThrows(load: nat, error: E)
    | StoreSucceeds(load: nat)
    | StoreFails(load: nat, error: E)

  predicate Enabled<V, E>(s: State<V, E>, l: Label<V, E>) {
    match l
    case Tick(_) => true
    case OthersWrite(_) => true
    case GetOrSet(id, _, _, newLoad) => id !in s.calls && newLoad !in s.loads
    case Check(n) => n in s.loads && s.loads[n].phase.Checking?
    case CheckFails(n, _) => n in s.loads && s.loads[n].phase.Checking?
    case FactoryReturns(n, _) => n in s.loads && s.loads[n].phase.Loading?
    case FactoryThrows(n, _) => n in s.loads && s.loads[n].phase.Loading?
    case StoreSucceeds(n) => n in s.loads && s.loads[n].phase.Storing?
    case StoreFails(n, _) => n in s.loads && s.loads[n].phase.Storing?
  }

  function Next<V, E>(s: State<V, E>, l: Label<V, E>): State<V, E>
    requires Enabled(s, l)
  {
    match l
    case Tick(d) => s.(now := s.now + d)
    case OthersWrite(store) => s.(store := store)
    case GetOrSet(id, key, ttl, newLoad) =>
      var (inflight, load) := Cache.JoinOrStart(s.inflight, key, newLoad);
      s.(inflight := inflight,
         loads := if load == newLoad then s.loads[newLoad := Load(key, ttl, Checking)] else s.loads,
         calls := s.calls[id := Call(key, load)])
    case Check(n) =>
      var v := Get(s.store, s.loads[n].key, s.now);
      if v.Some? then s.Settle(n, Ok(v.value)) else s.Move(n, Loading)
    case CheckFails(n, e) => s.Settle(n, Err(e))
    case FactoryReturns(n, v) => s.Move(n, Storing(v))
    case FactoryThrows(n, e) => s.Settle(n, Err(e))
    case StoreSucceeds(n) =>
      s.(store := Put(s.store, s.loads[n].key, s.loads[n].phase.value, s.loads[n].ttl, s.now))
       .Settle(n, Ok(s.loads[n].phase.value))
    case StoreFails(n, e) => s.Settle(n, Err(e))
  }

  ghost predicate IsRun<V(!new), E(!new)>(states: seq<State<V, E>>, labels: seq<Label<V, E>>) {
    && |states| == |labels| + 1
    && states[0].inflight == map[] && states[0].loads == map[] && states[0].calls == map[]
    && (forall i {:trigger labels[i]} :: 0 <= i < |labels| ==>
          Enabled(states[i], labels[i]) && states[i + 1] == Next(states[i], labels[i]))
  }

  /** The in-flight map holds exactly the running loads, each under its own key. */
  ghost predicate Inv<V, E>(s: State<V, E>) {
    && (forall l :: s.Running(l) ==> s.loads[l].key in s.inflight && s.inflight[s.loads[l].key] == l)
    && (forall k :: k in s.inflight ==> s.Running(s.inflight[k]) && s.loads[s.inflight[k]].key == k)
    && (forall id :: id in s.calls ==> s.calls[id].load in s.loads && s.loads[s.calls[id].load].key == s.calls[id].key)
  }

  lemma CallKeepsInv<V, E>(s: State<V, E>, l: Label<V, E>)
    requires Inv(s) && Enabled(s, l) && l.GetOrSet?
    ensures Inv(Next(s, l))
  {
    var t := Next(s, l);
    forall n | t.Running(n) ensures t.loads[n].key in t.inflight && t.inflight[t.loads[n].key] == n {
      assert s.Running(n) || n == l.newLoad;
    }
  }

  lemma SettleKeepsInv<V, E>(s: State<V, E>, n: nat, r: Result<V, E>)
    requires Inv(s) && s.Running(n)
    ensures Inv(s.Settle(n, r))
  {
    var t := s.Settle(n, r);
    forall m | t.Running(m) ensures t.loads[m].key in t.inflight && t.inflight[t.loads[m].key] == m {
      assert s.Running(m);
    }
  }

  lemma MoveKeepsInv<V, E>(s: State<V, E>, n: nat, p: Phase<V, E>)
    requires Inv(s) && s.Running(n) && !p.Settled?
    ensures Inv(s.Move(n, p))
  {
    var t := s.Move(n, p);
    forall m | t.Running(m) ensures t.loads[m].key in t.inflight && t.inflight[t.loads[m].key] == m {
      assert s.Running(m);
    }
  }

  lemma StepKeepsInv<V, E>(s: State<V, E>, l: Label<V, E>)
    requires Inv(s) && Enabled(s, l)
    ensures Inv(Next(s, l))
  {
    match l
    case Tick(_) =>
    case OthersWrite(_) =>
    case GetOrSet(_, _, _, _) => CallKeepsInv(s, l);
    case Check(n) =>
      var v := Get(s.store, s.loads[n].key, s.now);
      if v.Some? {
        SettleKeepsInv(s, n, Ok(v.value));
      } else {
        MoveKeepsInv(s, n, Loading);
      }
    case CheckFails(n, e) => SettleKeepsInv(s, n, Err(e));
    case FactoryReturns(n, v) => MoveKeepsInv(s, n, Storing(v));
    case FactoryThrows(n, e) => SettleKeepsInv(s, n, Err(e));
    case StoreSucceeds(n) =>
      var v := s.loads[n].phase.value;
      SettleKeepsInv(s.(store := Put(s.store, s.loads[n].key, v, s.loads[n].ttl, s.now)), n, Ok(v));
    case StoreFails(n, e) => SettleKeepsInv(s, n, Err(e));
  }

  lemma {:induction false} RunKeepsInv<V(!new), E(!new)>(states: seq<State<V, E>>, labels: seq<Label<V, E>>, i: nat)
    requires IsRun(states, labels) && i < |states|
    ensures Inv(states[i])
  {
    if i > 0 {
      RunKeepsInv(states, labels, i - 1);
      StepKeepsInv(states[i - 1], labels[i - 1]);
    }
  }

  /** In every interleaving at most one load per key is running, so at most one factory call. */
  lemma AtMostOneLoadPerKey<V(!new), E(!new)>(
    states: seq<State<V, E>>, labels: seq<Label<V, E>>, i: nat, a: nat, b: nat)
    requires IsRun(states, labels) && i < |states|
    requires states[i].Running(a) && states[i].Running(b) && states[i].loads[a].key == states[i].loads[b].key
    ensures a == b
  {
    RunKeepsInv(states, labels, i);
  }

  lemma StepIsStable<V, E>(s: State<V, E>, step: Label<V, E>, id: nat, l: nat)
    requires Enabled(s, step)
    ensures id in s.calls ==> id in Next(s, step).calls && Next(s, step).calls[id] == s.calls[id]
    ensures l in s.loads ==> l in Next(s, step).loads && Next(s, step).loads[l].key == s.loads[l].key
    ensures l in s.loads && s.loads[l].phase.Settled? ==> Next(s, step).loads[l] == s.loads[l]
  {
  }

  /** A call keeps its load for ever; a load keeps its outcome for ever. */
  lemma {:induction false} PromisesAreStable<V(!new), E(!new)>(
    states: seq<State<V, E>>, labels: seq<Label<V, E>>, i: nat, j: nat, id: nat, l: nat)
    requires IsRun(states, labels) && i <= j < |states|
    ensures id in states[i].calls ==> id in states[j].calls && states[j].calls[id] == states[i].calls[id]
    ensures l in states[i].loads ==> l in states[j].loads && states[j].loads[l].key == states[i].loads[l].key
    ensures l in states[i].loads && states[i].loads[l].phase.Settled? ==> states[j].loads[l] == states[i].loads[l]
  {
    if i < j {
      PromisesAreStable(states, labels, i, j - 1, id, l);
      StepIsStable(states[j - 1], labels[j - 1], id, l);
      assert states[j] == Next(states[j - 1], labels[j - 1]);
    }
  }

  /** What a call has received: the value or error of its load, once that has settled. */
  function Received<V, E>(s: State<V, E>, id: nat): Option<Result<V, E>> {
    if id in s.calls && s.calls[id].load in s.loads && s.loads[s.calls[id].load].phase.Settled?
    then Some(s.loads[s.calls[id].load].phase.outcome) else None
  }

  /**
   Every call that arrives while a load of its key is running shares that load: it starts none, receives
   nothing before the load settles, and from then on what it has received is the outcome of that load.
   */
  lemma ArrivingCallSharesOutcome<V(!new), E(!new)>(
    states: seq<State<V, E>>, labels: seq<Label<V, E>>, i: nat, j: nat, n: nat, l: nat)
    requires IsRun(states, labels) && i < |labels| && i < j <= n < |states|
    requires labels[i].GetOrSet? && states[i].Running(l) && states[i].loads[l].key == labels[i].key
    ensures labels[i].id in states[j].calls && states[j].calls[labels[i].id] == Call(labels[i].key, l)
    ensures states[i + 1].loads == states[i].loads && l in states[j].loads
    ensures states[j].Running(l) ==> Received(states[j], labels[i].id) == None
    ensures !states[j].Running(l) ==> Received(states[n], labels[i].id) == Some(states[j].loads[l].phase.outcome)
  {
    RunKeepsInv(states, labels, i);
    assert states[i + 1] == Next(states[i], labels[i]);
    PromisesAreStable(states, labels, i + 1, j, labels[i].id, l);
    PromisesAreStable(states, labels, j, n, labels[i].id, l);
  }

  lemma StepFreesKey<V, E>(s: State<V, E>, step: Label<V, E>, l: nat)
    requires Inv(s) && Enabled(s, step) && s.Running(l) && !Next(s, step).Running(l)
    ensures var t := Next(s, step);
            && s.loads[l].key !in t.inflight && l in t.loads && t.loads[l].phase.Settled?
            && (t.loads[l].phase.outcome.Ok? && step.StoreSucceeds? ==>
                  Get(t.store, s.loads[l].key, s.now)
                  == if s.loads[l].ttl > 0 then Some(t.loads[l].phase.outcome.value) else None)
  {
  }

  /** When a load settles, its key leaves the in-flight map, so the next call starts afresh. */
  lemma SettlingFreesKey<V(!new), E(!new)>(states: seq<State<V, E>>, labels: seq<Label<V, E>>, i: nat, l: nat)
    requires IsRun(states, labels) && i < |labels|
    requires states[i].Running(l) && !states[i + 1].Running(l)
    ensures states[i].loads[l].key !in states[i + 1].inflight
    ensures l in states[i + 1].loads && states[i + 1].loads[l].phase.Settled?
    ensures states[i + 1].loads[l].phase.outcome.Ok? && labels[i].StoreSucceeds? ==>
              Get(states[i + 1].store, states[i].loads[l].key, states[i].now)
              == if states[i].loads[l].ttl > 0 then Some(states[i + 1].loads[l].phase.outcome.value) else None
  {
    RunKeepsInv(states, labels, i);
    assert Enabled(states[i], labels[i]) && states[i + 1] == Next(states[i], labels[i]);
    StepFreesKey(states[i], labels[i], l);
  }

  /** A call starts a load exactly when none is in flight for its key; the load has the call's key and TTL. */
  lemma CallStartsLoadIff<V, E>(s: State<V, E>, l: Label<V, E>)
    requires Inv(s) && Enabled(s, l) && l.GetOrSet?
    ensures l.newLoad in Next(s, l).loads <==> forall n :: s.Running(n) ==> s.loads[n].key != l.key
    ensures l.newLoad in Next(s, l).loads ==>
              && Next(s, l).loads == s.loads[l.newLoad := Load(l.key, l.ttl, Checking)]
              && Next(s, l).calls == s.calls[l.id := Call(l.key, l.newLoad)]
  {
    if l.key in s.inflight {
      assert s.Running(s.inflight[l.key]);
    }
  }

  lemma LoadIsOldOrNew<V, E>(s: State<V, E>, l: Label<V, E>, n: nat)
    requires Enabled(s, l) && n in Next(s, l).loads
    ensures var t := Next(s, l).loads[n];
            || (n in s.loads && s.loads[n].key == t.key && s.loads[n].ttl == t.ttl)
            || (n !in s.loads && l.GetOrSet? && l.newLoad == n && l.key == t.key && l.ttl == t.ttl)
  {
  }

  /** In every run a load was started by a call and keeps the key and the TTL of that call. */
  lemma {:induction false} LoadIsItsCalls<V(!new), E(!new)>(
    states: seq<State<V, E>>, labels: seq<Label<V, E>>, i: nat, n: nat)
    returns (start: nat)
    requires IsRun(states, labels) && i < |states| && n in states[i].loads
    ensures start < i && labels[start].GetOrSet? && labels[start].newLoad == n
    ensures states[i].loads[n].key == labels[start].key && states[i].loads[n].ttl == labels[start].ttl
  {
    assert Enabled(states[i - 1], labels[i - 1]) && states[i] == Next(states[i - 1], labels[i - 1]);
    LoadIsOldOrNew(states[i - 1], labels[i - 1], n);
    if n in states[i - 1].loads {
      start := LoadIsItsCalls(states, labels, i - 1, n);
    } else {
      start := i - 1;
    }
  }

  // ---- What a load settles with -------------------------------------------------------------

  /** A check answers from the cache exactly when a live value is there, and only otherwise calls the factory. */
  lemma CheckCallsFactoryIff<V, E>(s: State<V, E>, n: nat)
    requires n in s.loads && s.loads[n].phase.Checking?
    ensures var t, found := Next(s, Check(n)), Get(s.store, s.loads[n].key, s.now);
            && t.store == s.store && t.loads[n].key == s.loads[n].key
            && (t.loads[n].phase == Loading <==> found == None)
            && (forall v :: t.loads[n].phase == Settled(Ok(v)) <==> found == Some(v))
            && (found.Some? ==> s.loads[n].key !in t.inflight)
  {
  }

  /**
   A running load settles with a cached value, with the value of the factory once that is stored, or with the
   error of what failed.
   */
  lemma SettlesWith<V, E>(s: State<V, E>, l: Label<V, E>, n: nat, r: Result<V, E>)
    requires Enabled(s, l) && s.Running(n)
    ensures n in Next(s, l).loads
    ensures Next(s, l).loads[n].phase == Settled(r)
            <==> || (l == Check(n) && r.Ok? && Get(s.store, s.loads[n].key, s.now) == Some(r.value))
                 || (l == StoreSucceeds(n) && s.loads[n].phase.Storing? && r == Ok(s.loads[n].phase.value))
                 || (r.Err? && l in [CheckFails(n, r.error), FactoryThrows(n, r.error), StoreFails(n, r.error)])
  {
  }

  /** In every run a load that stores a value got it from its factory, after a check that found nothing. */
  lemma {:induction false} StoredValueIsTheFactorys<V(!new), E(!new)>(
    states: seq<State<V, E>>, labels: seq<Label<V, E>>, i: nat, n: nat)
    returns (check: nat, call: nat)
    requires IsRun(states, labels) && i < |states|
    requires n in states[i].loads && states[i].loads[n].phase.Storing?
    ensures check < call < i && labels[check] == Check(n)
    ensures labels[call] == FactoryReturns(n, states[i].loads[n].phase.value)
    ensures n in states[check].loads && !Live(states[check].store, states[check].loads[n].key, states[check].now)
  {
    assert states[i] == Next(states[i - 1], labels[i - 1]);
    if states[i - 1].loads[n].phase.Storing? {
      check, call := StoredValueIsTheFactorys(states, labels, i - 1, n);
    } else {
      call := i - 1;
      check := FactoryRunsAfterMiss(states, labels, i - 1, n);
    }
  }

  lemma {:induction false} FactoryRunsAfterMiss<V(!new), E(!new)>(
    states: seq<State<V, E>>, labels: seq<Label<V, E>>, i: nat, n: nat)
    returns (check: nat)
    requires IsRun(states, labels) && i < |states|
    requires n in states[i].loads && states[i].loads[n].phase.Loading?
    ensures check < i && labels[check] == Check(n) && n in states[check].loads
    ensures !Live(states[check].store, states[check].loads[n].key, states[check].now)
  {
    assert states[i] == Next(states[i - 1], labels[i - 1]);
    if states[i - 1].loads[n].phase.Loading? {
      check := FactoryRunsAfterMiss(states, labels, i - 1, n);
    } else {
      check := i - 1;
    }
  }
}
