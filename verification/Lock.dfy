/**
 LockService: leases over one Redis shared by any number of service instances, with store
 calls that may fail before or after taking effect, and the process-local fallback.
 */
module Lock {
  import opened Sets
  import opened Wrappers
  import opened TtlStore

  type Token = nat

  const MAX_TTL_MS := 30_000

  datatype Config = Config(failClosedWithoutRedis: bool, allowInMemoryFallback: bool)

  datatype Mode = RedisMode | InMemoryMode | FailClosedMode

  datatype LockError = TtlTooLong | RedisUnavailable

  /** How a Redis call goes: answered, failed before it took effect, or applied with the answer lost. */
  datatype Reply = Answered | FailedBefore | FailedAfter

  /** One service instance: its configuration, its health flag and its process-local locks. */
  datatype Instance = Instance(hasRedis: bool, config: Config, healthy: bool, locals: Store<Token>) {
    predicate CanFallBack() {
      config.allowInMemoryFallback && !config.failClosedWithoutRedis
    }
  }

  datatype Acquired = Acquired(inst: Instance, redis: Store<Token>, result: Result<Option<Token>, LockError>)

  datatype Release = Released(inst: Instance, redis: Store<Token>, released: bool)

  function ModeOf(i: Instance): Mode {
    if i.healthy && i.hasRedis then RedisMode
    else if i.config.allowInMemoryFallback then InMemoryMode
    else FailClosedMode
  }

  function AfterHealthCheck(i: Instance, pingOk: bool): Instance {
    i.(healthy := i.hasRedis && pingOk)
  }

  /** The path taken when no Redis answer arrived. */
  function Fallback(
    i: Instance, r: Store<Token>, k: string, ttl: int, distributed: bool, t: Token, now: int): Acquired
  {
    if distributed || i.config.failClosedWithoutRedis || !i.config.allowInMemoryFallback then
      Acquired(i, r, Err(RedisUnavailable))
    else if Live(i.locals, k, now) then
      Acquired(i, r, Ok(None))
    else
      Acquired(i.(locals := Put(i.locals, k, t, ttl, now)), r, Ok(Some(t)))
  }

  function Acquire(
    i: Instance, r: Store<Token>, k: string, ttl: int, distributed: bool, t: Token, reply: Reply, now: int): Acquired
  {
    if ttl > MAX_TTL_MS then Acquired(i, r, Err(TtlTooLong))
    else if !i.hasRedis then Fallback(i, r, k, ttl, distributed, t, now)
    else if reply.Answered? then
      if Live(r, k, now) then Acquired(i, r, Ok(None))
      else Acquired(i.(healthy := true), Put(r, k, t, ttl, now), Ok(Some(t)))
    else
      Fallback(i.(healthy := false), if reply.FailedAfter? then PutIfAbsent(r, k, t, ttl, now) else r,
               k, ttl, distributed, t, now)
  }

  function ReleaseLocal(i: Instance, r: Store<Token>, k: string, t: Token): Release {
    if k in i.locals && i.locals[k].value == t then Released(i.(locals := Delete(i.locals, k)), r, true)
    else Released(i, r, false)
  }

  function ReleaseLease(i: Instance, r: Store<Token>, k: string, t: Token, reply: Reply, now: int): Release {
    if !(i.hasRedis && i.healthy) then ReleaseLocal(i, r, k, t)
    else if reply.Answered? then Released(i, DeleteIfEquals(r, k, t, now), Get(r, k, now) == Some(t))
    else ReleaseLocal(i.(healthy := false), if reply.FailedAfter? then DeleteIfEquals(r, k, t, now) else r, k, t)
  }

  /**
   What the mode that `getLockMode` reports says about an acquisition that Redis has just failed. In mode
   `fail-closed` it is refused. In mode `in-memory` it is refused too if the instance is fail-closed or the
   caller requires a distributed lock, and then the mode misleads.
   */
  lemma ModeForetellsIff(
    i: Instance, r: Store<Token>, k: string, ttl: int, distributed: bool, t: Token, reply: Reply, now: int)
    requires ttl <= MAX_TTL_MS && (!i.hasRedis || !reply.Answered?)
    ensures var a := Acquire(i, r, k, ttl, distributed, t, reply, now);
            && !ModeOf(a.inst).RedisMode?
            && (ModeOf(a.inst) == FailClosedMode ==> a.result == Err(RedisUnavailable))
            && ((ModeOf(a.inst) == FailClosedMode <==> a.result == Err(RedisUnavailable))
                <==> !(i.config.allowInMemoryFallback && (i.config.failClosedWithoutRedis || distributed)))
  {
  }

  class LockService {
    const redis: Redis?<Token>
    const config: Config
    var localLockMap: Store<Token>
    var redisHealthy: bool

    /** Outside production the defaults are: not fail-closed, fallback allowed. */
    constructor (redis: Redis?<Token>, failClosed: Option<bool>, allowFallback: Option<bool>, isProduction: bool)
      ensures this.redis == redis && localLockMap == map[] && !redisHealthy
      ensures config.failClosedWithoutRedis == (if failClosed.Some? then failClosed.value else isProduction)
      ensures config.allowInMemoryFallback == (if allowFallback.Some? then allowFallback.value else !isProduction)
    {
      this.redis := redis;
      config := Config(if failClosed.Some? then failClosed.value else isProduction,
                       if allowFallback.Some? then allowFallback.value else !isProduction);
      localLockMap := map[];
      redisHealthy := false;
    }

    ghost function View(): Instance
      reads this
    {
      Instance(redis != null, config, redisHealthy, localLockMap)
    }

    ghost function Shared(): Store<Token>
      reads this, redis
    {
      if redis == null then map[] else redis.entries
    }

    method CheckRedisHealth(pingOk: bool) returns (ok: bool)
      modifies this`redisHealthy
      ensures View() == AfterHealthCheck(old(View()), pingOk) && ok == redisHealthy
    {
      if redis == null {
        redisHealthy := false;
        return false;
      }
      redisHealthy := pingOk;
      ok := pingOk;
    }

    method GetLockMode() returns (m: Mode)
      ensures m == ModeOf(View())
    {
      if redisHealthy && redis != null {
        return RedisMode;
      }
      m := if config.allowInMemoryFallback then InMemoryMode else FailClosedMode;
    }

    method AcquireLock(k: string, ttl: int, requireDistributed: bool, t: Token, reply: Reply, now: int)
      returns (result: Result<Option<Token>, LockError>)
      modifies this`localLockMap, this`redisHealthy, redis
      ensures Acquired(View(), Shared(), result)
              == Acquire(old(View()), old(Shared()), k, ttl, requireDistributed, t, reply, now)
    {
      if ttl > MAX_TTL_MS {
        return Err(TtlTooLong);
      }
      if redis != null {
        var ok := false;
        if reply != FailedBefore {
          ok := redis.SetPxNx(k, t, ttl, now);
        }
        if reply == Answered {
          if ok {
            redisHealthy := true;
            return Ok(Some(t));
          }
          return Ok(None);
        }
        redisHealthy := false;
      }
      if requireDistributed || config.failClosedWithoutRedis {
        return Err(RedisUnavailable);
      }
      if !config.allowInMemoryFallback {
        return Err(RedisUnavailable);
      }
      if k in localLockMap && localLockMap[k].expiresAt > now {
        return Ok(None);
      }
      localLockMap := localLockMap[k := Timed(t, now + ttl)];
      result := Ok(Some(t));
    }

    method ReleaseLock(k: string, t: Token, reply: Reply, now: int) returns (released: bool)
      modifies this`localLockMap, this`redisHealthy, redis
      ensures Released(View(), Shared(), released) == ReleaseLease(old(View()), old(Shared()), k, t, reply, now)
    {
      if redis != null && redisHealthy {
        var deleted := false;
        if reply != FailedBefore {
          deleted := redis.EvalRelease(k, t, now);
        }
        if reply == Answered {
          return deleted;
        }
        redisHealthy := false;
      }
      if k !in localLockMap || localLockMap[k].value != t {
        return false;
      }
      localLockMap := localLockMap - {k};
      released := true;
    }
  }

  // ---- `withLock` as a protocol ---------------------------------------------------------

  datatype Phase =
    | Acquiring(attempt: int)
    | Sleeping(attempt: int)
    | Inside(token: Token, until: int)
    | Leaving(token: Token)
    | Finished
    | NotAcquired
    | Failed

  datatype Caller = Caller(inst: nat, key: string, ttl: int, requireDistributed: bool, retryCount: int, phase: Phase)

  datatype State = State(
    now: int, redis: Store<Token>, insts: map<nat, Instance>, callers: map<nat, Caller>, used: set<Token>)
  {
    ghost predicate WellFormed() {
      forall id :: id in callers ==> callers[id].inst in insts
    }

    predicate HoldsToken(id: nat) {
      id in callers && (callers[id].phase.Inside? || callers[id].phase.Leaving?)
    }

    predicate LeaseLive(id: nat) {
      id in callers && callers[id].phase.Inside? && now < callers[id].phase.until
    }

    /** The caller never uses the fallback: it asked not to, or its instance cannot. */
    predicate Distributed(id: nat) {
      && id in callers && callers[id].inst in insts
      && (callers[id].requireDistributed || !insts[callers[id].inst].CanFallBack())
    }

    /** The caller's instance was built without any Redis client. */
    predicate LocalOnly(id: nat) {
      id in callers && callers[id].inst in insts && !insts[callers[id].inst].hasRedis
    }
  }

  datatype Label =
    | Tick(d: nat)
    | Enter(id: nat, inst: nat, key: string, ttl: int, requireDistributed: bool, retryCount: int)
    | TryAcquire(id: nat, token: Token, reply: Reply)
    | Wake(id: nat)
    | FnEnds(id: nat)
    | DoRelease(id: nat, reply: Reply)
    | Ping(inst: nat, ok: bool)

  predicate Enabled(s: State, l: Label) {
    match l
    case Tick(_) => true
    case Enter(id, inst, _, _, _, _) => id !in s.callers && inst in s.insts
    case TryAcquire(id, token, _) =>
      id in s.callers && s.callers[id].phase.Acquiring? && s.callers[id].inst in s.insts && token !in s.used
    case Wake(id) => id in s.callers && s.callers[id].phase.Sleeping?
    case FnEnds(id) => id in s.callers && s.callers[id].phase.Inside?
    case DoRelease(id, _) => id in s.callers && s.callers[id].phase.Leaving? && s.callers[id].inst in s.insts
    case Ping(inst, _) => inst in s.insts
  }

  function PhaseAfter(u: Caller, r: Result<Option<Token>, LockError>, now: int): Phase
    requires u.phase.Acquiring?
  {
    match r
    case Err(_) => Failed
    case Ok(Some(t)) => Inside(t, now + u.ttl)
    case Ok(None) => if u.phase.attempt < u.retryCount then Sleeping(u.phase.attempt + 1) else NotAcquired
  }

  function Next(s: State, l: Label): State
    requires Enabled(s, l)
  {
    match l
    case Tick(d) => s.(now := s.now + d)
    case Enter(id, inst, key, ttl, req, n) =>
      s.(callers := s.callers[id := Caller(inst, key, ttl, req, n, if n < 0 then NotAcquired else Acquiring(0))])
    case TryAcquire(id, token, reply) =>
      var u := s.callers[id];
      var a := Acquire(s.insts[u.inst], s.redis, u.key, u.ttl, u.requireDistributed, token, reply, s.now);
      State(s.now, a.redis, s.insts[u.inst := a.inst],
            s.callers[id := u.(phase := PhaseAfter(u, a.result, s.now))], s.used + {token})
    case Wake(id) => s.(callers := s.callers[id := s.callers[id].(phase := Acquiring(s.callers[id].phase.attempt))])
    case FnEnds(id) => s.(callers := s.callers[id := s.callers[id].(phase := Leaving(s.callers[id].phase.token))])
    case DoRelease(id, reply) =>
      var u := s.callers[id];
      var a := ReleaseLease(s.insts[u.inst], s.redis, u.key, u.phase.token, reply, s.now);
      s.(redis := a.redis, insts := s.insts[u.inst := a.inst], callers := s.callers[id := u.(phase := Finished)])
    case Ping(inst, ok) => s.(insts := s.insts[inst := AfterHealthCheck(s.insts[inst], ok)])
  }

  /** Fresh instances, no callers, no token handed out; Redis and the clock are arbitrary. */
  ghost predicate Initial(s: State) {
    s.callers == map[] && (forall i :: i in s.insts ==> s.insts[i].locals == map[])
  }

  ghost predicate IsRun(states: seq<State>, labels: seq<Label>) {
    && |states| == |labels| + 1
    && Initial(states[0])
    && (forall i :: 0 <= i < |labels| ==> Enabled(states[i], labels[i]) && states[i + 1] == Next(states[i], labels[i]))
  }

  // ---- Mutual exclusion -----------------------------------------------------------------

  /** Tokens are spent, and no two callers share one. */
  ghost predicate TokensDistinct(s: State) {
    && (forall id :: s.HoldsToken(id) ==> s.callers[id].phase.token in s.used)
    && (forall a, b ::
          s.HoldsToken(a) && s.HoldsToken(b) && s.callers[a].phase.token == s.callers[b].phase.token ==> a == b)
  }

  /** A live lease of a distributed caller is in Redis; one taken without any Redis is in the local map. */
  ghost predicate Recorded(s: State, id: nat) {
    s.LeaseLive(id) ==>
      var u := s.callers[id];
      var lease := Timed(u.phase.token, u.phase.until);
      && (s.Distributed(id) ==> u.key in s.redis && s.redis[u.key] == lease)
      && (s.LocalOnly(id) ==> u.key in s.insts[u.inst].locals && s.insts[u.inst].locals[u.key] == lease)
  }

  ghost predicate Inv(s: State) {
    && s.WellFormed()
    && TokensDistinct(s)
    && (forall id :: Recorded(s, id))
  }

  lemma StepKeepsTokens(s: State, l: Label)
    requires s.WellFormed() && TokensDistinct(s) && Enabled(s, l)
    ensures Next(s, l).WellFormed() && TokensDistinct(Next(s, l))
  {
    var t := Next(s, l);
    forall id | t.HoldsToken(id) ensures t.callers[id].phase.token in t.used {
      assert s.HoldsToken(id) || (l.TryAcquire? && id == l.id);
    }
  }

  lemma AcquireKeepsRecorded(s: State, l: Label, id: nat)
    requires s.WellFormed() && Recorded(s, id) && l.TryAcquire? && Enabled(s, l)
    ensures Recorded(Next(s, l), id)
  {
    var u := s.callers[l.id];
    var a := Acquire(s.insts[u.inst], s.redis, u.key, u.ttl, u.requireDistributed, l.token, l.reply, s.now);
    assert a.inst.config == s.insts[u.inst].config && a.inst.hasRedis == s.insts[u.inst].hasRedis;
    if id != l.id {
      assert forall k :: Live(s.redis, k, s.now) ==> k in a.redis && a.redis[k] == s.redis[k];
      assert forall k :: Live(s.insts[u.inst].locals, k, s.now) ==>
                           k in a.inst.locals && a.inst.locals[k] == s.insts[u.inst].locals[k];
    }
  }

  /** In every mode, whatever a release removes, from Redis or from the local map, held the caller's own token. */
  lemma ReleaseRemovesOnlyOwnToken(
      i: Instance, r: Store<Token>, k: string, t: Token, reply: Reply, now: int, k': string)
    ensures var a := ReleaseLease(i, r, k, t, reply, now);
            && (k' in r && k' !in a.redis ==> k' == k && r[k'].value == t)
            && (k' in r && k' in a.redis ==> a.redis[k'] == r[k'])
            && (k' in i.locals && k' !in a.inst.locals ==> k' == k && i.locals[k'].value == t)
            && (k' in i.locals && k' in a.inst.locals ==> a.inst.locals[k'] == i.locals[k'])
  {
  }

  lemma ReleaseKeepsRecorded(s: State, l: Label, id: nat)
    requires s.WellFormed() && TokensDistinct(s) && Recorded(s, id) && l.DoRelease? && Enabled(s, l)
    ensures Recorded(Next(s, l), id)
  {
    var u := s.callers[l.id];
    var a := ReleaseLease(s.insts[u.inst], s.redis, u.key, u.phase.token, l.reply, s.now);
    assert a.inst.config == s.insts[u.inst].config && a.inst.hasRedis == s.insts[u.inst].hasRedis;
    if Next(s, l).LeaseLive(id) {
      assert s.HoldsToken(id) && s.HoldsToken(l.id);
      ReleaseRemovesOnlyOwnToken(s.insts[u.inst], s.redis, u.key, u.phase.token, l.reply, s.now, s.callers[id].key);
    }
  }

  lemma StepKeepsInv(s: State, l: Label)
    requires Inv(s) && Enabled(s, l)
    ensures Inv(Next(s, l))
  {
    StepKeepsTokens(s, l);
    forall id ensures Recorded(Next(s, l), id) {
      assert Recorded(s, id);
      if l.TryAcquire? {
        AcquireKeepsRecorded(s, l, id);
      } else if l.DoRelease? {
        ReleaseKeepsRecorded(s, l, id);
      }
    }
  }

  lemma {:induction false} RunKeepsInv(states: seq<State>, labels: seq<Label>, i: nat)
    requires IsRun(states, labels) && i < |states|
    ensures Inv(states[i])
  {
    if i > 0 {
      RunKeepsInv(states, labels, i - 1);
      StepKeepsInv(states[i - 1], labels[i - 1]);
    }
  }

  /**
   Mutual exclusion across instances: whatever calls fail and whatever other callers do with
   the fallback, two fail-closed callers are never both inside one key with live leases.
   */
  lemma DistributedExclusion(states: seq<State>, labels: seq<Label>, i: nat, a: nat, b: nat)
    requires IsRun(states, labels) && i < |states|
    requires states[i].LeaseLive(a) && states[i].LeaseLive(b)
    requires states[i].Distributed(a) && states[i].Distributed(b)
    requires states[i].callers[a].key == states[i].callers[b].key
    ensures a == b
  {
    RunKeepsInv(states, labels, i);
    assert Recorded(states[i], a) && Recorded(states[i], b);
    assert states[i].HoldsToken(a) && states[i].HoldsToken(b);
  }

  /** An instance that never had a Redis client still excludes among its own callers. */
  lemma LocalExclusion(states: seq<State>, labels: seq<Label>, i: nat, a: nat, b: nat)
    requires IsRun(states, labels) && i < |states|
    requires states[i].LeaseLive(a) && states[i].LeaseLive(b)
    requires states[i].LocalOnly(a) && states[i].callers[a].inst == states[i].callers[b].inst
    requires states[i].callers[a].key == states[i].callers[b].key
    ensures a == b
  {
    RunKeepsInv(states, labels, i);
    assert states[i].LocalOnly(b);
    assert Recorded(states[i], a) && Recorded(states[i], b);
    assert states[i].HoldsToken(a) && states[i].HoldsToken(b);
  }

  /** The local map of an instance that is fail-closed, or that allows no fallback, stays empty for ever. */
  lemma {:induction false} FailClosedKeepsNoLocalLocks(states: seq<State>, labels: seq<Label>, i: nat, n: nat)
    requires IsRun(states, labels) && i < |states|
    requires n in states[0].insts && !states[0].insts[n].CanFallBack()
    ensures n in states[i].insts && states[i].insts[n].config == states[0].insts[n].config
    ensures states[i].insts[n].locals == map[]
  {
    if i > 0 {
      FailClosedKeepsNoLocalLocks(states, labels, i - 1, n);
      assert states[i] == Next(states[i - 1], labels[i - 1]);
    }
  }

  lemma ExtendRun(states: seq<State>, labels: seq<Label>, l: Label) returns (states': seq<State>, labels': seq<Label>)
    requires IsRun(states, labels) && Enabled(states[|labels|], l)
    ensures IsRun(states', labels') && states' == states + [Next(states[|labels|], l)] && labels' == labels + [l]
  {
    states', labels' := states + [Next(states[|labels|], l)], labels + [l];
  }

  // ---- What a call achieves --------------------------------------------------------------

  /**
   An acquisition gets the lease exactly when the store that decides holds no live lease, and fails by error
   exactly when it may not ask one.
   */
  lemma AcquireSucceedsIff(
    i: Instance, r: Store<Token>, k: string, ttl: int, distributed: bool, t: Token, reply: Reply, now: int)
    ensures var result := Acquire(i, r, k, ttl, distributed, t, reply, now).result;
            && (result == Err(TtlTooLong) <==> ttl > 30_000)
            && (result == Err(RedisUnavailable)
                <==> ttl <= 30_000 && !(i.hasRedis && reply.Answered?) && (distributed || !i.CanFallBack()))
            && (result == Ok(Some(t))
                <==> && ttl <= 30_000
                     && if i.hasRedis && reply.Answered? then !Live(r, k, now)
                        else i.CanFallBack() && !distributed && !Live(i.locals, k, now))
            && (result.Ok? && result.value.Some? ==> result.value == Some(t))
  {
  }

  /**
   An answered release of a lease that is live in Redis reports success and frees the key: any acquisition that
   reaches Redis then succeeds.
   */
  lemma ReleaseFreesRedis(
    i: Instance, j: Instance, r: Store<Token>, k: string, t: Token, ttl: int, distributed: bool, u: Token, now: int)
    requires i.hasRedis && i.healthy && Get(r, k, now) == Some(t) && j.hasRedis && ttl <= MAX_TTL_MS
    ensures var a := ReleaseLease(i, r, k, t, Answered, now);
            a.released && Acquire(j, a.redis, k, ttl, distributed, u, Answered, now).result == Ok(Some(u))
  {
  }

  /**
   A release that does not reach Redis reports success exactly when the local map held the token, and then frees
   the key there.
   */
  lemma ReleaseFreesLocal(
    i: Instance, r: Store<Token>, k: string, t: Token, reply: Reply, ttl: int, u: Token, reply': Reply, now: int)
    requires !(i.hasRedis && i.healthy) || !reply.Answered?
    ensures var a := ReleaseLease(i, r, k, t, reply, now);
            && (a.released <==> k in i.locals && i.locals[k].value == t)
            && (a.released && i.CanFallBack() && ttl <= MAX_TTL_MS && (!i.hasRedis || !reply'.Answered?) ==>
                  Acquire(a.inst, a.redis, k, ttl, false, u, reply', now).result == Ok(Some(u)))
  {
  }

  /** The mode is `redis` exactly after a ping or an acquisition that Redis answered, until a call fails. */
  lemma ModeIsRedisIff(i: Instance, pingOk: bool)
    ensures ModeOf(AfterHealthCheck(i, pingOk)) == RedisMode <==> i.hasRedis && pingOk
    ensures AfterHealthCheck(i, pingOk).healthy <==> i.hasRedis && pingOk
    ensures AfterHealthCheck(i, pingOk).(healthy := i.healthy) == i
  {
  }

  /**
   Whatever the health flag said before, a lease acquired from Redis can be released there, with success, while
   it lasts.
   */
  lemma AcquireThenRelease(
    i: Instance, r: Store<Token>, k: string, ttl: int, distributed: bool, t: Token, now: int, later: int)
    requires i.hasRedis && ttl <= MAX_TTL_MS && !Live(r, k, now) && now <= later < now + ttl
    ensures var a := Acquire(i, r, k, ttl, distributed, t, Answered, now);
            var b := ReleaseLease(a.inst, a.redis, k, t, Answered, later);
            && ModeOf(a.inst) == RedisMode && a.result == Ok(Some(t))
            && b.released && !Live(b.redis, k, later) && b.redis - {k} == r - {k}
  {
  }

  /** An answered release reports success exactly when the caller's token is still live in Redis. */
  lemma ReleaseReportsIff(i: Instance, r: Store<Token>, k: string, t: Token, now: int)
    requires i.hasRedis && i.healthy
    ensures ReleaseLease(i, r, k, t, Answered, now).released <==> Live(r, k, now) && r[k].value == t
    ensures ReleaseLease(i, r, k, t, Answered, now).inst == i
  {
  }

  /** An acquisition whose answer is lost leaves its entry in Redis: nobody gets the key there before it expires. */
  lemma LostAnswerBlocks(
    i: Instance, j: Instance, r: Store<Token>, k: string, ttl: int, distributed: bool, t: Token, u: Token,
    now: int, later: int)
    requires i.hasRedis && j.hasRedis && 0 < ttl <= MAX_TTL_MS && !Live(r, k, now) && now <= later
    ensures var a := Acquire(i, r, k, ttl, distributed, t, FailedAfter, now);
            Acquire(j, a.redis, k, ttl, distributed, u, Answered, later).result == Ok(Some(u)) <==> now + ttl <= later
    ensures !Live(Acquire(i, r, k, ttl, distributed, t, FailedBefore, now).redis, k, now)
  {
  }

  /** After any failed call the instance no longer counts Redis as healthy, and releases only locally. */
  lemma FailureEndsRedisMode(
    i: Instance, r: Store<Token>, k: string, ttl: int, distributed: bool, t: Token, reply: Reply, now: int)
    requires i.hasRedis && !reply.Answered?
    ensures ttl <= MAX_TTL_MS ==> !Acquire(i, r, k, ttl, distributed, t, reply, now).inst.healthy
    ensures i.healthy ==> !ReleaseLease(i, r, k, t, reply, now).inst.healthy
  {
  }

  /** A release whose answer is lost has still freed the key in Redis. */
  lemma LostAnswerStillFrees(i: Instance, r: Store<Token>, k: string, t: Token, now: int)
    requires i.hasRedis && i.healthy && Get(r, k, now) == Some(t)
    ensures !Live(ReleaseLease(i, r, k, t, FailedAfter, now).redis, k, now)
    ensures Live(ReleaseLease(i, r, k, t, FailedBefore, now).redis, k, now)
  {
  }

  // ---- Exactly when exclusion fails ------------------------------------------------------

  /** A caller of `n` may find its local map free while a caller of `m` holds the key elsewhere. */
  predicate Breakable(s: State, n: nat, m: nat)
    requires n in s.insts && m in s.insts
  {
    s.insts[n].CanFallBack() && (s.insts[m].hasRedis || (n != m && s.insts[m].CanFallBack()))
  }

  ghost predicate Clash(s: State, a: nat, b: nat, n: nat, m: nat) {
    && a != b && s.LeaseLive(a) && s.LeaseLive(b) && s.callers[a].key == s.callers[b].key
    && s.callers[a].inst == n && s.callers[b].inst == m
  }

  /** Some run from `s` brings a caller of `n` and a caller of `m` into one key with live leases. */
  ghost predicate CanClash(s: State, n: nat, m: nat) {
    exists states, labels, a, b ::
      IsRun(states, labels) && states[0] == s && Clash(states[|labels|], a, b, n, m)
  }

  lemma {:induction false} FreshKey(keys: set<string>) returns (k: string)
    ensures forall x :: x in keys ==> |x| < |k|
  {
    if keys == {} {
      k := "";
    } else {
      var x :| x in keys;
      var rest := FreshKey(keys - {x});
      k := if |x| < |rest| then rest else x + "k";
      assert forall y :: y in keys ==> y == x || y in keys - {x};
    }
  }

  /** A caller enters and its first attempt gets the lease. */
  lemma EnterAndAcquire(
    states: seq<State>, labels: seq<Label>, id: nat, inst: nat, k: string, ttl: int, token: Token, reply: Reply)
    returns (states': seq<State>, labels': seq<Label>)
    requires IsRun(states, labels)
    requires var s := states[|labels|];
             && id !in s.callers && inst in s.insts && token !in s.used
             && Acquire(s.insts[inst], s.redis, k, ttl, false, token, reply, s.now).result == Ok(Some(token))
    ensures IsRun(states', labels') && states'[0] == states[0]
    ensures var s := states[|labels|];
            var a := Acquire(s.insts[inst], s.redis, k, ttl, false, token, reply, s.now);
            states'[|labels'|]
            == State(s.now, a.redis, s.insts[inst := a.inst],
                     s.callers[id := Caller(inst, k, ttl, false, 0, Inside(token, s.now + ttl))], s.used + {token})
  {
    states', labels' := ExtendRun(states, labels, Enter(id, inst, k, ttl, false, 0));
    states', labels' := ExtendRun(states', labels', TryAcquire(id, token, reply));
  }

  /**
   Exclusion lost, for every clock, key and TTL: a caller of `m` takes the key from Redis or from the local
   map of `m`, and a caller of `n` whose Redis call fails takes it from the local map of `n`.
   */
  lemma FallbackBreaksExclusion(s: State, n: nat, m: nat, k: string, ttl: int)
    returns (states: seq<State>, labels: seq<Label>)
    requires Initial(s) && n in s.insts && m in s.insts && Breakable(s, n, m)
    requires !Live(s.redis, k, s.now) && 0 < ttl <= MAX_TTL_MS
    ensures IsRun(states, labels) && states[0] == s && Clash(states[|labels|], 1, 0, n, m)
  {
    var t := FreshNat(s.used);
    states, labels := [s], [];
    var reply := if s.insts[m].hasRedis then Answered else FailedBefore;
    states, labels := EnterAndAcquire(states, labels, 0, m, k, ttl, t, reply);
    states, labels := EnterAndAcquire(states, labels, 1, n, k, ttl, t + 1, FailedBefore);
  }

  /** What an instance was built with never changes. */
  lemma {:induction false} InstancesKeepTheirKind(states: seq<State>, labels: seq<Label>, i: nat, n: nat)
    requires IsRun(states, labels) && i < |states| && n in states[0].insts
    ensures n in states[i].insts
    ensures states[i].insts[n].hasRedis == states[0].insts[n].hasRedis
            && states[i].insts[n].config == states[0].insts[n].config
  {
    if i > 0 {
      InstancesKeepTheirKind(states, labels, i - 1, n);
      assert states[i] == Next(states[i - 1], labels[i - 1]);
    }
  }

  /** Without Redis and without the fallback no caller ever gets in. */
  lemma {:induction false} NothingToHold(states: seq<State>, labels: seq<Label>, i: nat, n: nat, id: nat)
    requires IsRun(states, labels) && i < |states| && n in states[0].insts
    requires !states[0].insts[n].hasRedis && !states[0].insts[n].CanFallBack()
    ensures states[i].HoldsToken(id) ==> states[i].callers[id].inst != n
  {
    if i > 0 {
      NothingToHold(states, labels, i - 1, n, id);
      InstancesKeepTheirKind(states, labels, i - 1, n);
      assert states[i] == Next(states[i - 1], labels[i - 1]);
    }
  }

  lemma UnbreakableExcludes(states: seq<State>, labels: seq<Label>, a: nat, b: nat, n: nat, m: nat)
    requires IsRun(states, labels) && n in states[0].insts && m in states[0].insts
    requires !Breakable(states[0], n, m) && !Breakable(states[0], m, n)
    ensures !Clash(states[|labels|], a, b, n, m)
  {
    var s := states[|labels|];
    InstancesKeepTheirKind(states, labels, |labels|, n);
    InstancesKeepTheirKind(states, labels, |labels|, m);
    if Clash(s, a, b, n, m) {
      if !states[0].insts[n].CanFallBack() && !states[0].insts[m].CanFallBack() {
        DistributedExclusion(states, labels, |labels|, a, b);
      } else if n == m {
        LocalExclusion(states, labels, |labels|, a, b);
      } else if states[0].insts[n].CanFallBack() {
        NothingToHold(states, labels, |labels|, m, b);
      } else {
        NothingToHold(states, labels, |labels|, n, a);
      }
    }
  }

  /**
   Callers of `n` and `m` are kept apart in every run if and only if neither may fall back while the
   other holds the key in Redis or in another local map. For one instance that is: it has no Redis, or
   it is fail-closed, or it allows no fallback.
   */
  lemma ExclusionFailsIff(s: State, n: nat, m: nat)
    requires Initial(s) && n in s.insts && m in s.insts
    ensures CanClash(s, n, m) <==> Breakable(s, n, m) || Breakable(s, m, n)
  {
    if CanClash(s, n, m) {
      var states, labels, a, b :| IsRun(states, labels) && states[0] == s && Clash(states[|labels|], a, b, n, m);
      if !Breakable(s, n, m) && !Breakable(s, m, n) {
        UnbreakableExcludes(states, labels, a, b, n, m);
      }
    }
    var k := FreshKey(s.redis.Keys);
    assert !Live(s.redis, k, s.now);
    if Breakable(s, n, m) {
      var states, labels := FallbackBreaksExclusion(s, n, m, k, 1);
      assert CanClash(s, n, m);
    } else if Breakable(s, m, n) {
      var states, labels := FallbackBreaksExclusion(s, m, n, k, 1);
      assert Clash(states[|labels|], 0, 1, n, m);
    }
  }

  lemma OneInstanceExcludesIff(s: State, n: nat)
    requires Initial(s) && n in s.insts
    ensures !CanClash(s, n, n)
            <==> var i := s.insts[n];
                 !i.hasRedis || i.config.failClosedWithoutRedis || !i.config.allowInMemoryFallback
  {
    ExclusionFailsIff(s, n, n);
  }

  // ---- What a caller of `withLock` gets ----------------------------------------------------

  /** Only an instance with a Redis client lets a caller in that may not fall back. */
  lemma {:induction false} HolderHasRedis(states: seq<State>, labels: seq<Label>, i: nat, id: nat)
    requires IsRun(states, labels) && i < |states| && states[i].HoldsToken(id) && states[i].Distributed(id)
    ensures states[i].insts[states[i].callers[id].inst].hasRedis
  {
    if i > 0 {
      var s, l := states[i - 1], labels[i - 1];
      assert states[i] == Next(s, l);
      if s.HoldsToken(id) {
        HolderHasRedis(states, labels, i - 1, id);
      }
    }
  }

  /** The state after the caller's `fn` has ended and its release was answered. */
  function AfterRelease(s: State, a: nat): State
    requires a in s.callers && s.callers[a].phase.Inside? && s.callers[a].inst in s.insts
  {
    Next(Next(s, FnEnds(a)), DoRelease(a, Answered))
  }

  /** In such a state `b` tries to acquire with an answer from Redis. */
  function NextTry(s: State, b: nat, token: Token): State
    requires Enabled(s, TryAcquire(b, token, Answered))
  {
    Next(s, TryAcquire(b, token, Answered))
  }

  /**
   In every run, when a caller with a live lease in Redis leaves, the next caller that asks Redis gets in if and
   only if the leaving instance still counts Redis as healthy: otherwise the release never reaches Redis, and the
   key stays taken until the lease expires.
   */
  lemma NextCallerGetsInIff(states: seq<State>, labels: seq<Label>, i: nat, a: nat, b: nat, token: Token)
    requires IsRun(states, labels) && i < |states|
    requires states[i].LeaseLive(a) && states[i].Distributed(a) && a != b
    requires var s := states[i];
             && b in s.callers && s.callers[b].phase.Acquiring? && s.callers[b].key == s.callers[a].key
             && s.callers[b].inst in s.insts && s.insts[s.callers[b].inst].hasRedis
             && s.callers[b].ttl <= MAX_TTL_MS && token !in s.used
    ensures a in states[i].callers && states[i].callers[a].inst in states[i].insts
    ensures var s := states[i];
            var t := NextTry(AfterRelease(s, a), b, token);
            && t.callers[a].phase == Finished
            && (t.callers[b].phase == Inside(token, s.now + s.callers[b].ttl) <==> s.insts[s.callers[a].inst].healthy)
  {
    RunKeepsInv(states, labels, i);
    assert Recorded(states[i], a);
    HolderHasRedis(states, labels, i, a);
  }

  /** In every run of an instance without Redis, when a caller with a live lease leaves, its next caller gets in. */
  lemma NextLocalCallerGetsIn(states: seq<State>, labels: seq<Label>, i: nat, a: nat, b: nat, token: Token)
    requires IsRun(states, labels) && i < |states|
    requires states[i].LeaseLive(a) && states[i].LocalOnly(a) && a != b
    requires var s := states[i];
             && b in s.callers && s.callers[b].phase.Acquiring? && s.callers[b].key == s.callers[a].key
             && s.callers[b].inst == s.callers[a].inst && s.insts[s.callers[a].inst].CanFallBack()
             && !s.callers[b].requireDistributed && s.callers[b].ttl <= MAX_TTL_MS && token !in s.used
    ensures a in states[i].callers && states[i].callers[a].inst in states[i].insts
    ensures var s := states[i];
            NextTry(AfterRelease(s, a), b, token).callers[b].phase == Inside(token, s.now + s.callers[b].ttl)
  {
    RunKeepsInv(states, labels, i);
    assert Recorded(states[i], a);
  }

  /** How many of the first `n` steps were attempts of the caller. */
  function Attempts(labels: seq<Label>, id: nat, n: nat): nat
    requires n <= |labels|
  {
    if n == 0 then 0
    else Attempts(labels, id, n - 1) + if labels[n - 1].TryAcquire? && labels[n - 1].id == id then 1 else 0
  }

  /**
   In every run a caller makes at most `retryCount + 1` attempts, counts them rightly, and gives up without the
   lock only after that many.
   */
  lemma {:induction false} AttemptsAreCounted(states: seq<State>, labels: seq<Label>, i: nat, id: nat)
    requires IsRun(states, labels) && i < |states|
    ensures id !in states[i].callers ==> Attempts(labels, id, i) == 0
    ensures id in states[i].callers ==>
              var u, n := states[i].callers[id], Attempts(labels, id, i);
              match u.phase
              case Acquiring(attempt) => n == attempt <= u.retryCount
              case Sleeping(attempt) => n == attempt <= u.retryCount
              case NotAcquired => n == if u.retryCount < 0 then 0 else u.retryCount + 1
              case _ => 1 <= n <= u.retryCount + 1
  {
    if i > 0 {
      AttemptsAreCounted(states, labels, i - 1, id);
      assert states[i] == Next(states[i - 1], labels[i - 1]);
    }
  }
}
