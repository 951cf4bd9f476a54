/**
 IdempotencyService: the atomic operations on a key, in both backends, and `process` as a
 protocol of any number of callers that interleave at every await.
 */
module Idempotency {
  import opened Sets
  import opened Wrappers
  import opened TtlStore

  /** The stored envelope: reserved but unfinished, or finished with a (JSON-copied) value. */
  datatype Marker<V> = Pending | Done(value: V)

  type Keys<V> = Store<Marker<V>>

  datatype Backend = RedisBacked | InMemory

  // ---- The atomic operations ------------------------------------------------------------

  /** What `readRaw` leaves behind: the in-memory map drops an expired entry it looks at. */
  function AfterRead<V>(b: Backend, m: Keys<V>, k: string, now: int): Keys<V> {
    if b.InMemory? && !Live(m, k, now) then Delete(m, k) else m
  }

  function CompleteTtl(b: Backend, ttl: int): int {
    if b.RedisBacked? && ttl < 1 then 1 else ttl
  }

  function AfterComplete<V>(b: Backend, m: Keys<V>, k: string, v: V, ttl: int, now: int): Keys<V> {
    Put(m, k, Done(v), CompleteTtl(b, ttl), now)
  }

  /** Redis deletes the key whatever it holds; the in-memory map only drops a pending marker. */
  function AfterRelease<V>(b: Backend, m: Keys<V>, k: string): Keys<V> {
    if b.RedisBacked? || (k in m && m[k].value.Pending?) then Delete(m, k) else m
  }

  class IdempotencyService<V(==)> {
    const redis: Redis?<Marker<V>>
    var localStore: Keys<V>
    var warnedInMemory: bool

    constructor (redis: Redis?<Marker<V>>)
      ensures this.redis == redis && localStore == map[] && !warnedInMemory
    {
      this.redis := redis;
      localStore := map[];
      warnedInMemory := false;
    }

    function Kind(): Backend {
      if redis == null then InMemory else RedisBacked
    }

    ghost function View(): Keys<V>
      reads this, redis
    {
      if redis == null then localStore else redis.entries
    }

    method WarnInMemoryOnce() returns (warned: bool)
      modifies this`warnedInMemory
      ensures warnedInMemory && warned == !old(warnedInMemory)
    {
      warned := !warnedInMemory;
      warnedInMemory := true;
    }

    method ReadRaw(k: string, now: int) returns (r: Option<Marker<V>>)
      modifies this`localStore
      ensures r == Get(old(View()), k, now)
      ensures View() == AfterRead(Kind(), old(View()), k, now)
    {
      if redis == null {
        if k !in localStore {
          r := None;
        } else if localStore[k].expiresAt <= now {
          localStore := localStore - {k};
          r := None;
        } else {
          r := Some(localStore[k].value);
        }
      } else {
        r := redis.Read(k, now);
      }
    }

    method Reserve(k: string, ttl: int, now: int) returns (reserved: bool)
      modifies this`localStore, redis
      ensures reserved == !Live(old(View()), k, now)
      ensures View() == PutIfAbsent(old(View()), k, Pending, ttl, now)
    {
      if redis == null {
        if k in localStore && localStore[k].expiresAt > now {
          return false;
        }
        localStore := localStore[k := Timed(Pending, now + ttl)];
        reserved := true;
      } else {
        reserved := redis.SetPxNx(k, Pending, ttl, now);
      }
    }

    method Complete(k: string, v: V, ttl: int, now: int)
      modifies this`localStore, redis
      ensures View() == AfterComplete(Kind(), old(View()), k, v, ttl, now)
    {
      if redis == null {
        localStore := localStore[k := Timed(Done(v), now + ttl)];
      } else {
        redis.SetPx(k, Done(v), if ttl > 1 then ttl else 1, now);
      }
    }

    method Release(k: string)
      modifies this`localStore, redis
      ensures View() == AfterRelease(Kind(), old(View()), k)
    {
      if redis == null {
        if k in localStore && localStore[k].value == Pending {
          localStore := localStore - {k};
        }
      } else {
        redis.Del(k);
      }
    }
  }

  // ---- `process` as a protocol ----------------------------------------------------------

  /** Where a caller of `process` stands. `until` is the expiry of the reservation it holds. */
  datatype Phase<V> =
    | Reading
    | Reserving
    | Waiting
    | Running(until: int)
    | Completing(until: int, result: V)
    | Releasing(until: int)
    | Returned(value: V)
    | Threw

  datatype Caller<V> = Caller(key: string, ttl: int, deadline: int, phase: Phase<V>)

  datatype State<V> = State(now: int, store: Keys<V>, callers: map<nat, Caller<V>>) {
    predicate Holds(id: nat) {
      id in callers && (callers[id].phase.Running? || callers[id].phase.Completing? || callers[id].phase.Releasing?)
    }

    function Move(id: nat, p: Phase<V>): State<V>
      requires id in callers
    {
      this.(callers := callers[id := callers[id].(phase := p)])
    }
  }

  /** `json` is the copy a value becomes when it is written and read back as JSON. */
  datatype Config<!V> = Config(backend: Backend, waitTimeout: int, json: V -> V)

  /**
   One atomic step. A failing store call may or may not have been applied before the caller
   saw it fail (`applied`); every failure of `fn` or of `complete` leads to `release`.
   */
  datatype Label<V> =
    | Tick(d: nat)
    | Arrive(id: nat, key: string, ttl: int)
    | Read(id: nat)
    | ReadFails(id: nat)
    | Reserve(id: nat)
    | ReserveFails(id: nat, applied: bool)
    | Retry(id: nat)
    | FnReturns(id: nat, result: V)
    | FnThrows(id: nat)
    | Complete(id: nat)
    | CompleteFails(id: nat, applied: bool)
    | Release(id: nat)
    | ReleaseFails(id: nat, applied: bool)

  predicate Enabled<V>(c: Config<V>, s: State<V>, l: Label<V>) {
    match l
    case Tick(_) => true
    case Arrive(id, _, _) => id !in s.callers
    case Read(id) => id in s.callers && s.callers[id].phase.Reading?
    case ReadFails(id) => c.backend.RedisBacked? && id in s.callers && s.callers[id].phase.Reading?
    case Reserve(id) => id in s.callers && s.callers[id].phase.Reserving?
    case ReserveFails(id, _) => c.backend.RedisBacked? && id in s.callers && s.callers[id].phase.Reserving?
    case Retry(id) => id in s.callers && s.callers[id].phase.Waiting?
    case FnReturns(id, _) => id in s.callers && s.callers[id].phase.Running?
    case FnThrows(id) => id in s.callers && s.callers[id].phase.Running?
    case Complete(id) => id in s.callers && s.callers[id].phase.Completing?
    case CompleteFails(id, applied) =>
      (applied ==> c.backend.RedisBacked?) && id in s.callers && s.callers[id].phase.Completing?
    case Release(id) => id in s.callers && s.callers[id].phase.Releasing?
    case ReleaseFails(id, _) => c.backend.RedisBacked? && id in s.callers && s.callers[id].phase.Releasing?
  }

  function Reserved<V>(s: State<V>, id: nat): Keys<V>
    requires id in s.callers
  {
    PutIfAbsent(s.store, s.callers[id].key, Pending, s.callers[id].ttl, s.now)
  }

  function Completed<V>(c: Config<V>, s: State<V>, id: nat): Keys<V>
    requires id in s.callers && s.callers[id].phase.Completing?
  {
    var u := s.callers[id];
    AfterComplete(c.backend, s.store, u.key, c.json(u.phase.result), u.ttl, s.now)
  }

  function Released<V>(c: Config<V>, s: State<V>, id: nat): Keys<V>
    requires id in s.callers
  {
    AfterRelease(c.backend, s.store, s.callers[id].key)
  }

  function Next<V>(c: Config<V>, s: State<V>, l: Label<V>): State<V>
    requires Enabled(c, s, l)
  {
    match l
    case Tick(d) => s.(now := s.now + d)
    case Arrive(id, key, ttl) =>
      s.(callers := s.callers[id := Caller(key, ttl, s.now + c.waitTimeout, Reading)])
    case Read(id) =>
      var k := s.callers[id].key;
      var s' := s.(store := AfterRead(c.backend, s.store, k, s.now));
      var current := Get(s.store, k, s.now);
      s'.Move(id, if current.None? then Reserving
                  else if current.value.Pending? then Waiting
                  else Returned(current.value.value))
    case ReadFails(id) => s.Move(id, Threw)
    case Reserve(id) =>
      if Live(s.store, s.callers[id].key, s.now) then s.Move(id, Waiting)
      else s.(store := Reserved(s, id)).Move(id, Running(s.now + s.callers[id].ttl))
    case ReserveFails(id, applied) =>
      (if applied then s.(store := Reserved(s, id)) else s).Move(id, Threw)
    case Retry(id) => s.Move(id, if s.now >= s.callers[id].deadline then Threw else Reading)
    case FnReturns(id, v) => s.Move(id, Completing(s.callers[id].phase.until, v))
    case FnThrows(id) => s.Move(id, Releasing(s.callers[id].phase.until))
    case Complete(id) => s.(store := Completed(c, s, id)).Move(id, Returned(s.callers[id].phase.result))
    case CompleteFails(id, applied) =>
      (if applied then s.(store := Completed(c, s, id)) else s).Move(id, Releasing(s.callers[id].phase.until))
    case Release(id) => s.(store := Released(c, s, id)).Move(id, Threw)
    case ReleaseFails(id, applied) => (if applied then s.(store := Released(c, s, id)) else s).Move(id, Threw)
  }

  /** `states[i+1]` follows from `states[i]` by `labels[i]`. */
  ghost predicate IsPath<V(!new)>(c: Config<V>, states: seq<State<V>>, labels: seq<Label<V>>) {
    && |states| == |labels| + 1
    && (forall i {:trigger labels[i]} :: 0 <= i < |labels| ==>
          Enabled(c, states[i], labels[i]) && states[i + 1] == Next(c, states[i], labels[i]))
  }

  /** A run starts with no callers; the store and the clock are arbitrary. */
  ghost predicate IsRun<V(!new)>(c: Config<V>, states: seq<State<V>>, labels: seq<Label<V>>) {
    IsPath(c, states, labels) && states[0].callers == map[]
  }

  /** The hypothesis on `fn`: a run and its complete/release step finish before the reservation expires. */
  ghost predicate Timely<V>(s: State<V>) {
    forall id :: s.Holds(id) ==> s.now < s.callers[id].phase.until
  }

  ghost predicate AllTimely<V(!new)>(states: seq<State<V>>) {
    forall i :: 0 <= i < |states| ==> Timely(states[i])
  }

  /** A holder's key carries an entry at least as long as the holder's reservation. */
  ghost predicate Backed<V>(c: Config<V>, s: State<V>, id: nat) {
    s.Holds(id) ==>
      var u := s.callers[id];
      && u.key in s.store
      && u.phase.until <= s.store[u.key].expiresAt
      && ((u.phase.Releasing? && c.backend.RedisBacked?) || s.store[u.key] == Timed(Pending, u.phase.until))
      && u.phase.until <= s.now + u.ttl
  }

  ghost predicate Exclusive<V>(s: State<V>) {
    forall a, b :: s.Holds(a) && s.Holds(b) && s.callers[a].key == s.callers[b].key ==> a == b
  }

  ghost predicate Inv<V>(c: Config<V>, s: State<V>) {
    (forall id :: Backed(c, s, id)) && Exclusive(s)
  }

  /** Every holder still has a live entry under its key: what timeliness is for. */
  ghost predicate Covered<V>(s: State<V>) {
    forall id :: s.Holds(id) ==> Live(s.store, s.callers[id].key, s.now)
  }

  /** A holder that has not failed is covered exactly while its reservation lasts. */
  lemma CoveredIffReserved<V>(c: Config<V>, s: State<V>, id: nat)
    requires Inv(c, s) && s.Holds(id)
    ensures s.now < s.callers[id].phase.until ==> Live(s.store, s.callers[id].key, s.now)
    ensures !s.callers[id].phase.Releasing? ==>
              (Live(s.store, s.callers[id].key, s.now) <==> s.now < s.callers[id].phase.until)
  {
    assert Backed(c, s, id);
  }

  lemma TimelyIsCovered<V>(c: Config<V>, s: State<V>)
    requires Inv(c, s) && Timely(s)
    ensures Covered(s)
  {
    forall id | s.Holds(id) ensures Live(s.store, s.callers[id].key, s.now) {
      CoveredIffReserved(c, s, id);
    }
  }

  lemma StepKeepsBacked<V>(c: Config<V>, s: State<V>, l: Label<V>, id: nat)
    requires Inv(c, s) && Covered(s) && Enabled(c, s, l)
    ensures Backed(c, Next(c, s, l), id)
  {
    assert Backed(c, s, id);
  }

  /** A caller becomes a holder only by reserving a key that nothing live occupies. */
  lemma NewHolderFoundKeyFree<V>(c: Config<V>, s: State<V>, l: Label<V>, id: nat)
    requires Enabled(c, s, l) && Next(c, s, l).Holds(id)
    ensures s.Holds(id) || (l == Reserve(id) && !Live(s.store, s.callers[id].key, s.now))
  {
  }

  lemma StepKeepsInv<V>(c: Config<V>, s: State<V>, l: Label<V>)
    requires Inv(c, s) && Covered(s) && Enabled(c, s, l)
    ensures Inv(c, Next(c, s, l))
  {
    var t := Next(c, s, l);
    forall id ensures Backed(c, t, id) {
      StepKeepsBacked(c, s, l, id);
    }
    forall a, b | t.Holds(a) && t.Holds(b) && t.callers[a].key == t.callers[b].key ensures a == b {
      NewHolderFoundKeyFree(c, s, l, a);
      NewHolderFoundKeyFree(c, s, l, b);
      assert Backed(c, s, a) && Backed(c, s, b);
    }
  }

  lemma {:induction false} RunKeepsInv<V(!new)>(c: Config<V>, states: seq<State<V>>, labels: seq<Label<V>>, i: nat)
    requires IsRun(c, states, labels) && AllTimely(states) && i < |states|
    ensures Inv(c, states[i])
  {
    if i > 0 {
      RunKeepsInv(c, states, labels, i - 1);
      TimelyIsCovered(c, states[i - 1]);
      StepKeepsInv(c, states[i - 1], labels[i - 1]);
    }
  }

  /** Single execution: in no state of a timely run do two callers run `fn` for one key. */
  lemma SingleExecution<V(!new)>(c: Config<V>, states: seq<State<V>>, labels: seq<Label<V>>, i: nat, a: nat, b: nat)
    requires IsRun(c, states, labels) && AllTimely(states) && i < |states|
    requires states[i].Holds(a) && states[i].Holds(b) && states[i].callers[a].key == states[i].callers[b].key
    ensures a == b
  {
    RunKeepsInv(c, states, labels, i);
  }

  // ---- A completed result stays until its TTL passes -------------------------------------

  /** The key holds the finished value `v` until `e`, and nobody is running `fn` for it. */
  ghost predicate Settled<V>(s: State<V>, k: string, v: V, e: int) {
    && k in s.store && s.store[k] == Timed(Done(v), e)
    && (forall id :: s.Holds(id) ==> s.callers[id].key != k)
  }

  lemma StepKeepsSettled<V>(c: Config<V>, s: State<V>, l: Label<V>, k: string, v: V, e: int)
    requires Enabled(c, s, l) && Settled(s, k, v, e) && s.now < e
    ensures Settled(Next(c, s, l), k, v, e)
    ensures s.now <= Next(c, s, l).now
  {
  }

  /** The state right after a successful `complete` by caller `a` is settled. */
  lemma CompleteSettles<V>(c: Config<V>, s: State<V>, a: nat)
    requires Inv(c, s) && Enabled(c, s, Complete(a))
    ensures Settled(Next(c, s, Complete(a)), s.callers[a].key, c.json(s.callers[a].phase.result),
                    s.now + CompleteTtl(c.backend, s.callers[a].ttl))
  {
    assert s.Holds(a);
  }

  lemma {:induction false} ClockIsMonotone<V(!new)>(
    c: Config<V>, states: seq<State<V>>, labels: seq<Label<V>>, i: nat, j: nat)
    requires IsPath(c, states, labels) && i <= j < |states|
    ensures states[i].now <= states[j].now
  {
    if i < j {
      ClockIsMonotone(c, states, labels, i, j - 1);
      assert states[j] == Next(c, states[j - 1], labels[j - 1]);
    }
  }

  lemma {:induction false} SettledStays<V(!new)>(
    c: Config<V>, states: seq<State<V>>, labels: seq<Label<V>>, i: nat, j: nat, k: string, v: V, e: int)
    requires IsPath(c, states, labels) && i <= j < |states| && Settled(states[i], k, v, e) && states[j].now < e
    ensures Settled(states[j], k, v, e)
  {
    if i < j {
      ClockIsMonotone(c, states, labels, j - 1, j);
      SettledStays(c, states, labels, i, j - 1, k, v, e);
      StepKeepsSettled(c, states[j - 1], labels[j - 1], k, v, e);
    }
  }

  /**
   Once `complete` succeeds, then until that result's TTL passes the key holds the result and
   no caller runs `fn` for it: no further execution starts.
   */
  lemma ResultStays<V(!new)>(
    c: Config<V>, states: seq<State<V>>, labels: seq<Label<V>>, i: nat, j: nat)
    requires IsRun(c, states, labels) && AllTimely(states)
    requires i < j < |states| && labels[i].Complete?
    requires states[j].now < states[i].now + CompleteTtl(c.backend, states[i].callers[labels[i].id].ttl)
    ensures var u := states[i].callers[labels[i].id];
            Settled(states[j], u.key, c.json(u.phase.result), states[i].now + CompleteTtl(c.backend, u.ttl))
  {
    var u := states[i].callers[labels[i].id];
    RunKeepsInv(c, states, labels, i);
    CompleteSettles(c, states[i], labels[i].id);
    SettledStays(c, states, labels, i + 1, j, u.key, c.json(u.phase.result),
                 states[i].now + CompleteTtl(c.backend, u.ttl));
  }

  /** Every caller that returns on the key before the TTL passes returns that one value. */
  lemma EveryReturnIsTheResult<V(!new)>(
    c: Config<V>, states: seq<State<V>>, labels: seq<Label<V>>, i: nat, j: nat, b: nat)
    requires IsRun(c, states, labels) && AllTimely(states)
    requires i < j < |labels| && labels[i].Complete?
    requires states[j].now < states[i].now + CompleteTtl(c.backend, states[i].callers[labels[i].id].ttl)
    requires b in states[j].callers && states[j].callers[b].key == states[i].callers[labels[i].id].key
    requires Next(c, states[j], labels[j]).callers[b].phase.Returned? && !states[j].callers[b].phase.Returned?
    ensures states[j + 1].callers[b].phase.value == c.json(states[i].callers[labels[i].id].phase.result)
  {
    ResultStays(c, states, labels, i, j);
    assert !states[j].Holds(b);
    assert states[j + 1] == Next(c, states[j], labels[j]);
  }

  /** A failed run frees the key at once: after a working `release` the next reserve wins. */
  lemma FailureFreesKey<V(!new)>(c: Config<V>, states: seq<State<V>>, labels: seq<Label<V>>, i: nat, b: nat)
    requires IsRun(c, states, labels) && AllTimely(states) && i < |labels| && labels[i].Release?
    requires b in states[i + 1].callers && states[i + 1].callers[b].phase.Reserving?
    requires states[i + 1].callers[b].key == states[i].callers[labels[i].id].key
    ensures Next(c, states[i + 1], Reserve(b)).callers[b].phase.Running?
  {
    RunKeepsInv(c, states, labels, i);
    assert Backed(c, states[i], labels[i].id);
  }

  // ---- What each caller gets -------------------------------------------------------------

  /** A caller's key, TTL and deadline are those of its arrival; the deadline is the wait timeout later. */
  lemma {:induction false} DeadlineIsArrivalPlusTimeout<V(!new)>(
    c: Config<V>, states: seq<State<V>>, labels: seq<Label<V>>, i: nat, id: nat)
    returns (k: nat)
    requires IsRun(c, states, labels) && i < |states| && id in states[i].callers
    ensures k < i && labels[k] == Arrive(id, states[i].callers[id].key, states[i].callers[id].ttl)
    ensures states[i].callers[id].deadline == states[k].now + c.waitTimeout
  {
    assert states[i] == Next(c, states[i - 1], labels[i - 1]);
    if id in states[i - 1].callers {
      k := DeadlineIsArrivalPlusTimeout(c, states, labels, i - 1, id);
    } else {
      k := i - 1;
    }
  }

  /**
   A caller fails by polling at or after its deadline, by a failing store call, or after a release, and in no
   other way.
   */
  lemma ThrowsIff<V>(c: Config<V>, s: State<V>, l: Label<V>, id: nat)
    requires Enabled(c, s, l) && id in s.callers && !s.callers[id].phase.Threw?
    ensures Next(c, s, l).callers[id].phase.Threw?
            <==> || (l == Retry(id) && s.now >= s.callers[id].deadline)
                 || l == ReadFails(id) || (l.ReserveFails? && l.id == id)
                 || l == Release(id) || (l.ReleaseFails? && l.id == id)
  {
  }

  /** A waiting caller that polls before its deadline follows what the store then shows. */
  lemma PollFollowsStore<V>(c: Config<V>, s: State<V>, id: nat)
    requires id in s.callers && s.callers[id].phase.Waiting? && s.now < s.callers[id].deadline
    ensures Enabled(c, Next(c, s, Retry(id)), Read(id))
    ensures var found := Get(s.store, s.callers[id].key, s.now);
            var phase := Next(c, Next(c, s, Retry(id)), Read(id)).callers[id].phase;
            && (phase == Reserving <==> found == None)
            && (phase == Waiting <==> found == Some(Pending))
            && (forall v :: phase == Returned(v) <==> found == Some(Done(v)))
  {
  }

  /** In every timely run a caller that reads a key whose result was stored returns that result, within its TTL. */
  lemma ReaderGetsTheResult<V(!new)>(
    c: Config<V>, states: seq<State<V>>, labels: seq<Label<V>>, i: nat, j: nat, b: nat)
    requires IsRun(c, states, labels) && AllTimely(states)
    requires i < j < |states| && labels[i].Complete?
    requires states[j].now < states[i].now + CompleteTtl(c.backend, states[i].callers[labels[i].id].ttl)
    requires b in states[j].callers && states[j].callers[b].key == states[i].callers[labels[i].id].key
    requires states[j].callers[b].phase.Reading?
    ensures Next(c, states[j], Read(b)).callers[b].phase
            == Returned(c.json(states[i].callers[labels[i].id].phase.result))
  {
    ResultStays(c, states, labels, i, j);
  }

  /** And one that waits on it reads again, and so returns that result, at a poll before its deadline. */
  lemma WaiterGetsTheResult<V(!new)>(
    c: Config<V>, states: seq<State<V>>, labels: seq<Label<V>>, i: nat, j: nat, b: nat)
    requires IsRun(c, states, labels) && AllTimely(states)
    requires i < j < |states| && labels[i].Complete?
    requires states[j].now < states[i].now + CompleteTtl(c.backend, states[i].callers[labels[i].id].ttl)
    requires b in states[j].callers && states[j].callers[b].key == states[i].callers[labels[i].id].key
    requires states[j].callers[b].phase.Waiting? && states[j].now < states[j].callers[b].deadline
    ensures Enabled(c, Next(c, states[j], Retry(b)), Read(b))
    ensures Next(c, Next(c, states[j], Retry(b)), Read(b)).callers[b].phase
            == Returned(c.json(states[i].callers[labels[i].id].phase.result))
  {
    ResultStays(c, states, labels, i, j);
    PollFollowsStore(c, states[j], b);
  }

  /** A caller whose `fn` throws, or whose `complete` fails, throws after a release that leaves its key free. */
  lemma FailureReleases<V>(c: Config<V>, s: State<V>, a: nat, l: Label<V>)
    requires Inv(c, s) && a in s.callers && Enabled(c, s, l)
    requires l == FnThrows(a) || (l.CompleteFails? && l.id == a && !l.applied)
    ensures Enabled(c, Next(c, s, l), Release(a))
    ensures var t := Next(c, Next(c, s, l), Release(a));
            t.callers[a].phase == Threw && !Live(t.store, s.callers[a].key, t.now)
  {
    assert Backed(c, s, a);
  }

  /**
   A caller that finds the key free runs `fn` until its TTL at most; one that lost the race waits, and the
   winner's entry stays.
   */
  lemma ReserveIff<V>(c: Config<V>, s: State<V>, id: nat)
    requires Enabled(c, s, Reserve(id))
    ensures var t, k := Next(c, s, Reserve(id)), s.callers[id].key;
            && (t.callers[id].phase == Running(s.now + s.callers[id].ttl) <==> !Live(s.store, k, s.now))
            && (t.callers[id].phase == Waiting <==> Live(s.store, k, s.now))
            && (Live(s.store, k, s.now) ==> t.store == s.store)
            && (!Live(s.store, k, s.now) ==> t.store == s.store[k := Timed(Pending, s.now + s.callers[id].ttl)])
  {
  }

  /** A read answers alike in both backends; only the in-memory map forgets the entry, if it has expired. */
  lemma ReadForgetsExpired<V>(b: Backend, m: Keys<V>, k: string, now: int)
    ensures var after := AfterRead(b, m, k, now);
            && Get(after, k, now) == Get(m, k, now) && after - {k} == m - {k}
            && (k in m && k !in after <==> b.InMemory? && k in m && m[k].expiresAt <= now)
  {
  }

  /** A release leaves no marker; it spares a finished result in memory, but not in Redis. */
  lemma ReleaseSparesResultIff<V>(b: Backend, m: Keys<V>, k: string, v: V, now: int)
    ensures var after := AfterRelease(b, m, k);
            && after - {k} == m - {k} && Get(after, k, now) != Some(Pending)
            && (Get(m, k, now) == Some(Done(v)) ==> (Get(after, k, now) == Some(Done(v)) <==> b.InMemory?))
  {
  }

  /**
   A store call whose answer is lost has taken effect all the same: a reservation nobody holds blocks the key for
   its TTL, a completed result is stored although its caller will release it, and a release frees the key.
   */
  lemma LostAnswersTakeEffect<V>(c: Config<V>, s: State<V>, id: nat)
    requires id in s.callers && c.backend.RedisBacked?
    ensures s.callers[id].phase.Reserving? ==>
              && Next(c, s, ReserveFails(id, true)).store == Next(c, s, Reserve(id)).store
              && Next(c, s, ReserveFails(id, false)).store == s.store
    ensures s.callers[id].phase.Completing? ==>
              && Next(c, s, CompleteFails(id, true)).store == Next(c, s, Complete(id)).store
              && Next(c, s, CompleteFails(id, false)).store == s.store
    ensures s.callers[id].phase.Releasing? ==>
              && Next(c, s, ReleaseFails(id, true)).store == Next(c, s, Release(id)).store
              && Next(c, s, ReleaseFails(id, false)).store == s.store
  {
  }

  /** The state after `fn` returned `v` and `complete` succeeded, `d` ms later. */
  function AfterSuccess<V>(c: Config<V>, s: State<V>, a: nat, v: V, d: nat): State<V>
    requires a in s.callers && s.callers[a].phase.Running?
  {
    Next(c, Next(c, Next(c, s, FnReturns(a, v)), Complete(a)), Tick(d))
  }

  // ---- Exactly when two callers run `fn` at once ------------------------------------------

  ghost predicate BothRun<V>(s: State<V>, a: nat, b: nat) {
    && a != b && a in s.callers && b in s.callers && s.callers[a].key == s.callers[b].key
    && s.callers[a].phase.Running? && s.callers[b].phase.Running?
  }

  ghost predicate Overlap<V>(s: State<V>) {
    exists a, b :: BothRun(s, a, b)
  }

  lemma NoOverlap<V>(c: Config<V>, s: State<V>)
    requires Inv(c, s)
    ensures !Overlap(s)
  {
    forall a, b ensures !BothRun(s, a, b) {
      assert s.Holds(a) && s.Holds(b) && s.callers[a].key == s.callers[b].key ==> a == b;
    }
  }

  lemma {:induction false} CoveredRunKeepsInv<V(!new)>(
    c: Config<V>, states: seq<State<V>>, labels: seq<Label<V>>, i: nat)
    requires IsRun(c, states, labels) && i < |states| && forall j :: 0 <= j < i ==> Covered(states[j])
    ensures Inv(c, states[i])
  {
    if i > 0 {
      CoveredRunKeepsInv(c, states, labels, i - 1);
      StepKeepsInv(c, states[i - 1], labels[i - 1]);
    }
  }

  /** In every run, while no earlier state had a holder without a live entry, no two callers run `fn` for one key. */
  lemma OverlapNeedsLateHolder<V(!new)>(c: Config<V>, states: seq<State<V>>, labels: seq<Label<V>>, i: nat)
    requires IsRun(c, states, labels) && i < |states| && forall j :: 0 <= j < i ==> Covered(states[j])
    ensures !Overlap(states[i])
  {
    CoveredRunKeepsInv(c, states, labels, i);
    NoOverlap(c, states[i]);
  }

  /** A new caller `b` arrives, looks at the key and, if it finds it free, reserves it, all at one instant. */
  function TriedOnce<V>(c: Config<V>, s: State<V>, b: nat, k: string, ttl: int): State<V>
    requires b !in s.callers
  {
    var t := Next(c, Next(c, s, Arrive(b, k, ttl)), Read(b));
    if t.callers[b].phase.Reserving? then Next(c, t, Reserve(b)) else t
  }

  /** Whatever a holder is doing, a new caller runs `fn` for the same key if and only if no live entry is left there. */
  lemma SecondCallerRunsIff<V>(c: Config<V>, s: State<V>, a: nat, b: nat, ttl: int)
    requires Inv(c, s) && s.Holds(a) && b !in s.callers
    ensures var t := TriedOnce(c, s, b, s.callers[a].key, ttl);
            && t.now == s.now && t.callers == s.callers[b := t.callers[b]] && t.callers[b].key == s.callers[a].key
            && (t.callers[b].phase.Running? <==> !Live(s.store, s.callers[a].key, s.now))
            && (t.callers[b].phase.Running? ==>
                  t.store == s.store[s.callers[a].key := Timed(Pending, s.now + ttl)])
    ensures !s.callers[a].phase.Releasing? ==>
              (Live(s.store, s.callers[a].key, s.now) <==> s.now < s.callers[a].phase.until)
  {
    assert Backed(c, s, a);
  }

  /**
   A successful caller returns its own value, and its result lasts exactly its TTL: until then a new caller on
   the key returns the copy of it, and from then on runs `fn` again.
   */
  lemma ResultLastsItsTtl<V>(c: Config<V>, s: State<V>, a: nat, v: V, d: nat, b: nat, ttl: int)
    requires a in s.callers && s.callers[a].phase.Running? && s.callers[a].ttl > 0 && b !in s.callers
    ensures AfterSuccess(c, s, a, v, d).callers[a].phase == Returned(v)
    ensures var t := AfterSuccess(c, s, a, v, d);
            var phase := TriedOnce(c, t, b, s.callers[a].key, ttl).callers[b].phase;
            if d < s.callers[a].ttl then phase == Returned(c.json(v)) else phase == Running(t.now + ttl)
  {
  }

  /** With Redis a result is kept for at least one millisecond, whatever the TTL. */
  lemma ShortTtlKeepsOneMillisecond<V>(c: Config<V>, s: State<V>, a: nat, v: V, d: nat, b: nat, ttl: int)
    requires a in s.callers && s.callers[a].phase.Running? && s.callers[a].ttl <= 0 && b !in s.callers
    ensures var t := AfterSuccess(c, s, a, v, d);
            var phase := TriedOnce(c, t, b, s.callers[a].key, ttl).callers[b].phase;
            phase == Returned(c.json(v)) <==> c.backend.RedisBacked? && d == 0
  {
  }

  /**
   A late release: `a` has failed and not yet released, `b` tries the key, then `a` releases it, whoever's
   marker is there, and `d` tries it. Both `b` and `d` run `fn` if and only if `a` had no live entry left.
   */
  lemma LateReleaseIff<V>(c: Config<V>, s: State<V>, a: nat, b: nat, d: nat, ttl: int)
    requires Inv(c, s) && s.Holds(a) && s.callers[a].phase.Releasing? && b !in s.callers && d !in s.callers && b != d
    ensures var k := s.callers[a].key;
            var t := TriedOnce(c, s, b, k, ttl);
            var u := TriedOnce(c, Next(c, t, Release(a)), d, k, ttl);
            BothRun(u, b, d) <==> !Live(s.store, k, s.now)
  {
    assert Backed(c, s, a);
  }

  // ---- The same over runs -------------------------------------------------------------------

  /** A step that takes no time; new callers reserve for a positive time. */
  predicate Instant<V>(l: Label<V>) {
    !l.Tick? && (l.Arrive? ==> l.ttl > 0)
  }

  ghost predicate AllInstant<V>(labels: seq<Label<V>>) {
    forall i :: 0 <= i < |labels| ==> Instant(labels[i])
  }

  /** From `s`, without time passing, two callers can come to run `fn` for one key. */
  ghost predicate OverlapsAtOnce<V(!new)>(c: Config<V>, s: State<V>) {
    exists states, labels ::
      IsPath(c, states, labels) && states[0] == s && AllInstant(labels) && Overlap(states[|labels|])
  }

  ghost predicate PositiveTtls<V>(s: State<V>) {
    forall id :: id in s.callers ==> s.callers[id].ttl > 0
  }

  lemma InstantStepKeepsCover<V>(c: Config<V>, s: State<V>, l: Label<V>, id: nat)
    requires Inv(c, s) && Covered(s) && PositiveTtls(s) && Enabled(c, s, l) && Instant(l)
    ensures Next(c, s, l).Holds(id) ==> Live(Next(c, s, l).store, Next(c, s, l).callers[id].key, Next(c, s, l).now)
  {
    if Next(c, s, l).Holds(id) {
      NewHolderFoundKeyFree(c, s, l, id);
    }
  }

  lemma {:induction false} InstantPathKeepsCover<V(!new)>(
    c: Config<V>, states: seq<State<V>>, labels: seq<Label<V>>, i: nat)
    requires IsPath(c, states, labels) && AllInstant(labels) && i < |states|
    requires Inv(c, states[0]) && Covered(states[0]) && PositiveTtls(states[0])
    ensures Inv(c, states[i]) && Covered(states[i]) && PositiveTtls(states[i])
  {
    if i > 0 {
      InstantPathKeepsCover(c, states, labels, i - 1);
      var s, l := states[i - 1], labels[i - 1];
      StepKeepsInv(c, s, l);
      assert Instant(l);
      forall id | states[i].Holds(id) ensures Live(states[i].store, states[i].callers[id].key, states[i].now) {
        InstantStepKeepsCover(c, s, l, id);
      }
    }
  }

  lemma ExtendPath<V(!new)>(c: Config<V>, states: seq<State<V>>, labels: seq<Label<V>>, l: Label<V>)
    returns (states': seq<State<V>>, labels': seq<Label<V>>)
    requires IsPath(c, states, labels) && Enabled(c, states[|labels|], l)
    ensures IsPath(c, states', labels') && states' == states + [Next(c, states[|labels|], l)] && labels' == labels + [l]
  {
    states', labels' := states + [Next(c, states[|labels|], l)], labels + [l];
  }

  lemma PathThenTry<V(!new)>(c: Config<V>, states: seq<State<V>>, labels: seq<Label<V>>, b: nat, k: string, ttl: int)
    returns (states': seq<State<V>>, labels': seq<Label<V>>)
    requires IsPath(c, states, labels) && b !in states[|labels|].callers && ttl > 0
    ensures IsPath(c, states', labels') && states <= states' && labels <= labels'
    ensures AllInstant(labels) ==> AllInstant(labels')
    ensures states'[|labels'|] == TriedOnce(c, states[|labels|], b, k, ttl)
  {
    states', labels' := ExtendPath(c, states, labels, Arrive(b, k, ttl));
    states', labels' := ExtendPath(c, states', labels', Read(b));
    if states'[|labels'|].callers[b].phase.Reserving? {
      states', labels' := ExtendPath(c, states', labels', Reserve(b));
    }
  }

  /** A releasing holder without a live entry: two new callers come to run `fn` around its release. */
  lemma LateReleaseOverlaps<V(!new)>(
    c: Config<V>, states: seq<State<V>>, labels: seq<Label<V>>, a: nat)
    returns (states': seq<State<V>>, labels': seq<Label<V>>)
    requires IsPath(c, states, labels) && AllInstant(labels)
    requires var s := states[|labels|];
             Inv(c, s) && s.Holds(a) && s.callers[a].phase.Releasing? && !Live(s.store, s.callers[a].key, s.now)
    ensures IsPath(c, states', labels') && states'[0] == states[0] && AllInstant(labels') && Overlap(states'[|labels'|])
  {
    var s := states[|labels|];
    var k := s.callers[a].key;
    var b := FreshNat(s.callers.Keys);
    LateReleaseIff(c, s, a, b, b + 1, 1);
    states', labels' := PathThenTry(c, states, labels, b, k, 1);
    SecondCallerRunsIff(c, s, a, b, 1);
    states', labels' := ExtendPath(c, states', labels', Release(a));
    states', labels' := PathThenTry(c, states', labels', b + 1, k, 1);
    assert BothRun(states'[|labels'|], b, b + 1);
  }

  lemma LateHolderOverlaps<V(!new)>(c: Config<V>, s: State<V>, a: nat)
    requires Inv(c, s) && s.Holds(a) && !Live(s.store, s.callers[a].key, s.now)
    ensures OverlapsAtOnce(c, s)
  {
    var states, labels: seq<Label<V>> := [s], [];
    match s.callers[a].phase
    case Running(_) =>
      var b := FreshNat(s.callers.Keys);
      SecondCallerRunsIff(c, s, a, b, 1);
      states, labels := PathThenTry(c, states, labels, b, s.callers[a].key, 1);
      assert BothRun(states[|labels|], a, b);
    case Completing(_, _) =>
      states, labels := ExtendPath(c, states, labels, CompleteFails(a, false));
      CompletionFailureKeepsInv(c, s, a);
      states, labels := LateReleaseOverlaps(c, states, labels, a);
    case Releasing(_) =>
      states, labels := LateReleaseOverlaps(c, states, labels, a);
  }

  /** A `complete` that fails without effect makes the holder release. */
  lemma CompletionFailureKeepsInv<V>(c: Config<V>, s: State<V>, a: nat)
    requires Inv(c, s) && s.Holds(a) && s.callers[a].phase.Completing?
    ensures var t := Next(c, s, CompleteFails(a, false));
            Inv(c, t) && t.Holds(a) && t.callers[a].phase.Releasing? && t.callers[a].key == s.callers[a].key
            && t.store == s.store && t.now == s.now
  {
    var t := Next(c, s, CompleteFails(a, false));
    forall id ensures Backed(c, t, id) {
      assert Backed(c, s, id);
    }
    forall x, y | t.Holds(x) && t.Holds(y) && t.callers[x].key == t.callers[y].key ensures x == y {
      assert s.Holds(x) && s.Holds(y);
    }
  }

  /**
   In every state of the invariant: two callers can come to run `fn` at once if and only if some holder has no
   live entry left.
   */
  lemma OverlapsAtOnceIff<V(!new)>(c: Config<V>, s: State<V>)
    requires Inv(c, s) && PositiveTtls(s)
    ensures OverlapsAtOnce(c, s) <==> !Covered(s)
  {
    if Covered(s) {
      forall states, labels | IsPath(c, states, labels) && states[0] == s && AllInstant(labels)
        ensures !Overlap(states[|labels|])
      {
        InstantPathKeepsCover(c, states, labels, |labels|);
        NoOverlap(c, states[|labels|]);
      }
    } else {
      var a :| s.Holds(a) && !Live(s.store, s.callers[a].key, s.now);
      LateHolderOverlaps(c, s, a);
    }
  }

  /**
   Exactly when single execution fails. In every run (of positive TTLs) whose earlier states were covered
   nothing overlaps, and an overlap is at once possible if and only if now some holder has no live entry: a
   running or completing one whose reservation has expired, or a failed one whose entry is gone before its release.
   */
  lemma OverlapPossibleIff<V(!new)>(c: Config<V>, states: seq<State<V>>, labels: seq<Label<V>>)
    requires IsRun(c, states, labels) && PositiveTtls(states[|labels|])
    requires forall j :: 0 <= j < |labels| ==> Covered(states[j])
    ensures !Overlap(states[|labels|])
    ensures OverlapsAtOnce(c, states[|labels|]) <==> !Covered(states[|labels|])
    ensures forall id :: states[|labels|].Holds(id) && !states[|labels|].callers[id].phase.Releasing? ==>
              (Live(states[|labels|].store, states[|labels|].callers[id].key, states[|labels|].now)
               <==> states[|labels|].now < states[|labels|].callers[id].phase.until)
  {
    var s := states[|labels|];
    CoveredRunKeepsInv(c, states, labels, |labels|);
    NoOverlap(c, s);
    OverlapsAtOnceIff(c, s);
    forall id | s.Holds(id) && !s.callers[id].phase.Releasing?
      ensures Live(s.store, s.callers[id].key, s.now) <==> s.now < s.callers[id].phase.until
    {
      CoveredIffReserved(c, s, id);
    }
  }

  // ---- In terms of how long callers hold -----------------------------------------------------

  /** Everybody reserves for at least `ttl`, and nobody has held a key for more than `d`. */
  ghost predicate HeldAtMost<V>(s: State<V>, ttl: int, d: int) {
    forall id :: id in s.callers ==>
      && s.callers[id].ttl >= ttl
      && (s.Holds(id) ==> s.now <= s.callers[id].phase.until - s.callers[id].ttl + d)
  }

  ghost predicate OverlapWithin<V(!new)>(c: Config<V>, k: string, ttl: int, d: int) {
    exists states: seq<State<V>>, labels: seq<Label<V>>, a, b ::
      && IsRun(c, states, labels) && (forall i :: 0 <= i < |states| ==> HeldAtMost(states[i], ttl, d))
      && BothRun(states[|labels|], a, b) && states[|labels|].callers[a].key == k
  }

  /** A caller reserves a free key and starts `fn`. */
  lemma FirstCallerRuns<V(!new)>(c: Config<V>, k: string, ttl: int)
    returns (states: seq<State<V>>, labels: seq<Label<V>>)
    requires ttl > 0
    ensures IsRun(c, states, labels) && forall i :: 0 <= i < |states| ==> HeldAtMost(states[i], ttl, ttl)
    ensures states[|labels|]
            == State(0, map[k := Timed(Pending, ttl)], map[0 := Caller(k, ttl, c.waitTimeout, Running(ttl))])
  {
    states, labels := [State(0, map[], map[])], [];
    states, labels := ExtendPath(c, states, labels, Arrive(0, k, ttl));
    states, labels := ExtendPath(c, states, labels, Read(0));
    states, labels := ExtendPath(c, states, labels, Reserve(0));
  }

  /** The first caller is still running `fn` when its reservation of `ttl` expires, and a second one runs it too. */
  lemma ExpiryOverlaps<V(!new)>(c: Config<V>, k: string, ttl: int)
    returns (states: seq<State<V>>, labels: seq<Label<V>>)
    requires ttl > 0
    ensures IsRun(c, states, labels) && forall i :: 0 <= i < |states| ==> HeldAtMost(states[i], ttl, ttl)
    ensures BothRun(states[|labels|], 0, 1) && states[|labels|].callers[0].key == k
  {
    states, labels := FirstCallerRuns(c, k, ttl);
    var first := Caller(k, ttl, c.waitTimeout, Running(ttl));
    states, labels := ExtendPath(c, states, labels, Tick(ttl));
    assert states[|labels|].callers == map[0 := first] && !Live(states[|labels|].store, k, ttl);
    states, labels := ExtendPath(c, states, labels, Arrive(1, k, ttl));
    states, labels := ExtendPath(c, states, labels, Read(1));
    assert states[|labels|].callers == map[0 := first, 1 := Caller(k, ttl, ttl + c.waitTimeout, Reserving)];
    assert !Live(states[|labels|].store, k, ttl);
    states, labels := ExtendPath(c, states, labels, Reserve(1));
  }

  /**
   For every key and positive TTL: if nobody holds a key longer than `d`, `fn` and its complete or release
   together, no run has two callers run `fn` for one key at once; and some run has if and only if `d` reaches the TTL.
   */
  lemma LongHoldOverlapsIff<V(!new)>(c: Config<V>, k: string, ttl: int, d: int)
    requires ttl > 0
    ensures OverlapWithin(c, k, ttl, d) <==> d >= ttl
  {
    if d < ttl {
      forall states: seq<State<V>>, labels: seq<Label<V>>, a, b |
        IsRun(c, states, labels) && (forall i :: 0 <= i < |states| ==> HeldAtMost(states[i], ttl, d))
        ensures !BothRun(states[|labels|], a, b)
      {
        forall i | 0 <= i < |states| ensures Timely(states[i]) {
          assert HeldAtMost(states[i], ttl, d);
        }
        RunKeepsInv(c, states, labels, |labels|);
        NoOverlap(c, states[|labels|]);
      }
    } else {
      var states, labels := ExpiryOverlaps(c, k, ttl);
      assert forall i :: 0 <= i < |states| ==> HeldAtMost(states[i], ttl, ttl) ==> HeldAtMost(states[i], ttl, d);
    }
  }
}
