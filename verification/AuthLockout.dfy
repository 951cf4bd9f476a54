/**
 The lockout of password logins (auth.service.ts): one account, its failure counter and its
 lock. An operation is one atomic step; the outcome of the password comparison is an input.
 */
module AuthLockout {
  import opened Wrappers

  const MAX_FAILED_ATTEMPTS := 5
  const LOCKOUT_MS := 1_800_000

  datatype Account = Account(failedAttempts: int, lockedUntil: Option<int>)

  datatype Outcome = Refused | WrongPassword | LoggedIn

  const FRESH := Account(0, None)

  predicate Locked(a: Account, now: int) {
    a.lockedUntil.Some? && a.lockedUntil.value > now
  }

  /** The account as a login finds it: a lock that has run out takes the counter with it. */
  function Unlocked(a: Account): Account {
    if a.lockedUntil.Some? then FRESH else a
  }

  function FailedOnce(a: Account, now: int): Account {
    var attempts := a.failedAttempts + 1;
    Account(attempts, if attempts >= MAX_FAILED_ATTEMPTS then Some(now + LOCKOUT_MS) else a.lockedUntil)
  }

  function LoginOutcome(a: Account, isActive: bool, passwordValid: bool, now: int): Outcome {
    if !isActive || Locked(a, now) then Refused
    else if passwordValid then LoggedIn
    else WrongPassword
  }

  function AfterLogin(a: Account, isActive: bool, passwordValid: bool, now: int): Account {
    match LoginOutcome(a, isActive, passwordValid, now)
    case Refused => a
    case WrongPassword => FailedOnce(Unlocked(a), now)
    case LoggedIn => FRESH
  }

  /** The stored user row. */
  class User {
    var isActive: bool
    var failedLoginAttempts: int
    var accountLockedUntil: Option<int>

    function Value(): Account
      reads this
    {
      Account(failedLoginAttempts, accountLockedUntil)
    }

    constructor ()
      ensures Value() == FRESH && isActive
    {
      isActive, failedLoginAttempts, accountLockedUntil := true, 0, None;
    }

    method HandleFailedLogin(now: int)
      modifies this`failedLoginAttempts, this`accountLockedUntil
      ensures Value() == FailedOnce(old(Value()), now)
    {
      failedLoginAttempts := failedLoginAttempts + 1;
      if failedLoginAttempts >= MAX_FAILED_ATTEMPTS {
        accountLockedUntil := Some(now + LOCKOUT_MS);
      }
    }

    method Login(passwordValid: bool, now: int) returns (outcome: Outcome)
      modifies this`failedLoginAttempts, this`accountLockedUntil
      ensures outcome == LoginOutcome(old(Value()), isActive, passwordValid, now)
      ensures Value() == AfterLogin(old(Value()), isActive, passwordValid, now)
    {
      if !isActive {
        return Refused;
      }
      if accountLockedUntil.Some? {
        if accountLockedUntil.value > now {
          return Refused;
        }
        accountLockedUntil := None;
        failedLoginAttempts := 0;
      }
      if !passwordValid {
        HandleFailedLogin(now);
        return WrongPassword;
      }
      failedLoginAttempts := 0;
      accountLockedUntil := None;
      return LoggedIn;
    }

    method ResetPassword()
      modifies this`failedLoginAttempts, this`accountLockedUntil
      ensures Value() == FRESH
    {
      failedLoginAttempts := 0;
      accountLockedUntil := None;
    }
  }

  // ---- Runs -----------------------------------------------------------------------------

  /** `Reset` stands for a password reset or a login by another proof of identity, which clear the same fields. */
  datatype Event = Attempt(isActive: bool, passwordValid: bool) | Reset | Tick(ms: nat)

  /** `failures` logs the instants of the wrong passwords that were compared since the last success or reset. */
  datatype State = State(account: Account, clock: int, failures: seq<int>)

  function After(s: State, e: Event): State {
    match e
    case Tick(ms) => s.(clock := s.clock + ms)
    case Reset => State(FRESH, s.clock, [])
    case Attempt(isActive, passwordValid) =>
      State(AfterLogin(s.account, isActive, passwordValid, s.clock), s.clock,
            match LoginOutcome(s.account, isActive, passwordValid, s.clock)
            case Refused => s.failures
            case WrongPassword => s.failures + [s.clock]
            case LoggedIn => [])
  }

  /** The state after `events`, from a new account at instant `start`. */
  function Play(start: int, events: seq<Event>): State {
    if events == [] then State(FRESH, start, [])
    else After(Play(start, events[..|events| - 1]), events[|events| - 1])
  }

  ghost predicate Ordered(f: seq<int>, clock: int) {
    && (forall i, j :: 0 <= i <= j < |f| ==> f[i] <= f[j])
    && (forall i :: 0 <= i < |f| ==> f[i] <= clock)
  }

  /** Five failures further on, at least one lockout has passed. */
  ghost predicate Spaced(f: seq<int>) {
    forall i :: 0 <= i && i + MAX_FAILED_ATTEMPTS < |f| ==> f[i] + LOCKOUT_MS <= f[i + MAX_FAILED_ATTEMPTS]
  }

  /** The counter counts the last failures of the log, and a lockout lies between them and the ones before. */
  ghost predicate Counted(a: Account, f: seq<int>) {
    && 0 <= a.failedAttempts <= |f|
    && (a.failedAttempts < |f|
        ==> var first := |f| - a.failedAttempts;
            a.failedAttempts > 0 && f[first - 1] + LOCKOUT_MS <= f[first])
  }

  /** An account without a lock has fewer than five recorded failures; a lock ends 30 minutes after the last. */
  ghost predicate LockMatches(a: Account, f: seq<int>) {
    && a.failedAttempts <= MAX_FAILED_ATTEMPTS
    && (a.lockedUntil.None? <==> a.failedAttempts < MAX_FAILED_ATTEMPTS)
    && (a.lockedUntil.Some? ==> |f| > 0 && a.lockedUntil.value == f[|f| - 1] + LOCKOUT_MS)
  }

  ghost predicate Inv(s: State) {
    && Ordered(s.failures, s.clock) && Spaced(s.failures)
    && Counted(s.account, s.failures) && LockMatches(s.account, s.failures)
  }

  lemma FailureKeepsInv(s: State)
    requires Inv(s) && !Locked(s.account, s.clock)
    ensures Inv(State(FailedOnce(Unlocked(s.account), s.clock), s.clock, s.failures + [s.clock]))
  {
    var n := |s.failures|;
    if n >= MAX_FAILED_ATTEMPTS {
      var k := s.account.failedAttempts;
      var before := if s.account.lockedUntil.Some? then n - 1 else n - k - 1;
      assert s.failures[n - MAX_FAILED_ATTEMPTS] <= s.failures[before] <= s.clock - LOCKOUT_MS;
    }
  }

  lemma StepKeepsInv(s: State, e: Event)
    requires Inv(s)
    ensures Inv(After(s, e))
  {
    if e.Attempt? && LoginOutcome(s.account, e.isActive, e.passwordValid, s.clock) == WrongPassword {
      FailureKeepsInv(s);
    }
  }

  lemma {:induction false} RunKeepsInv(start: int, events: seq<Event>)
    ensures Inv(Play(start, events))
  {
    if events != [] {
      RunKeepsInv(start, events[..|events| - 1]);
      StepKeepsInv(Play(start, events[..|events| - 1]), events[|events| - 1]);
    }
  }

  // ---- Who gets in ------------------------------------------------------------------------

  /** A login succeeds exactly with the right password on an active account that is not locked at that instant. */
  lemma OutcomeIff(a: Account, isActive: bool, passwordValid: bool, now: int)
    ensures LoginOutcome(a, isActive, passwordValid, now) == LoggedIn
            <==> isActive && passwordValid && (a.lockedUntil.Some? ==> a.lockedUntil.value <= now)
    ensures LoginOutcome(a, isActive, passwordValid, now) == WrongPassword
            <==> isActive && !passwordValid && (a.lockedUntil.Some? ==> a.lockedUntil.value <= now)
  {
  }

  /**
   While the lock runs, and always on an inactive account, an attempt is refused and changes nothing, whatever
   the password.
   */
  lemma ClosedAccountIgnores(s: State, isActive: bool, passwordValid: bool)
    requires !isActive || (s.account.lockedUntil.Some? && s.clock < s.account.lockedUntil.value)
    ensures LoginOutcome(s.account, isActive, passwordValid, s.clock) == Refused
    ensures After(s, Attempt(isActive, passwordValid)) == s
  {
  }

  /** In every run a lock that is set stays as it is until its end, unless a reset comes between. */
  lemma {:induction false} LockStays(start: int, before: seq<Event>, later: seq<Event>)
    requires var s := Play(start, before);
             && s.account.lockedUntil.Some? && Play(start, before + later).clock < s.account.lockedUntil.value
             && forall i :: 0 <= i < |later| ==> !later[i].Reset?
    ensures Play(start, before + later).account == Play(start, before).account
    ensures Play(start, before + later).failures == Play(start, before).failures
    ensures Play(start, before).clock <= Play(start, before + later).clock
  {
    if later == [] {
      assert before + later == before;
    } else {
      var last := |later| - 1;
      assert (before + later)[..|before + later| - 1] == before + later[..last];
      LockStays(start, before, later[..last]);
    }
  }

  /**
   After the fifth failure in a row no attempt succeeds for 30 minutes, with any password, unless a reset comes
   between.
   */
  lemma FifthFailureShutsOut(start: int, before: seq<Event>, later: seq<Event>, isActive: bool, passwordValid: bool)
    requires var s := Play(start, before);
             && !Locked(s.account, s.clock) && s.account.failedAttempts == 4
             && Play(start, before + [Attempt(true, false)] + later).clock < s.clock + 30 * 60_000
             && forall i :: 0 <= i < |later| ==> !later[i].Reset?
    ensures var t := Play(start, before + [Attempt(true, false)] + later);
            LoginOutcome(t.account, isActive, passwordValid, t.clock) == Refused
  {
    var failed := before + [Attempt(true, false)];
    RunKeepsInv(start, before);
    assert failed[..|failed| - 1] == before;
    LockStays(start, failed, later);
  }

  /** Once the lock has ended the right password opens the account again, and a wrong one counts as the first. */
  lemma EndedLockOpens(start: int, events: seq<Event>)
    requires var s := Play(start, events); s.account.lockedUntil.Some? && s.account.lockedUntil.value <= s.clock
    ensures var s := Play(start, events);
            && After(s, Attempt(true, true)).account == FRESH
            && After(s, Attempt(true, false)).account == Account(1, None)
  {
  }

  /** A reset clears the lock and the counter at once. */
  lemma ResetOpens(s: State)
    ensures LoginOutcome(After(s, Reset).account, true, true, s.clock) == LoggedIn
    ensures After(After(s, Reset), Attempt(true, false)).account == Account(1, None)
  {
  }

  // ---- The bound ------------------------------------------------------------------------

  /** How many instants of `f` lie in the closed window from `a` to `b`. */
  function CountIn(f: seq<int>, a: int, b: int): (n: nat)
    ensures n <= |f|
  {
    if f == [] then 0
    else CountIn(f[..|f| - 1], a, b) + if a <= f[|f| - 1] <= b then 1 else 0
  }

  lemma {:induction false} SpacedBy(f: seq<int>, i: nat, j: nat)
    requires Spaced(f) && i + MAX_FAILED_ATTEMPTS * j < |f|
    ensures f[i] + j * LOCKOUT_MS <= f[i + MAX_FAILED_ATTEMPTS * j]
  {
    if j > 0 {
      SpacedBy(f, i, j - 1);
    }
  }

  /** In an ordered log the entries of a window are consecutive. */
  lemma {:induction false} WindowIsConsecutive(f: seq<int>, clock: int, a: int, b: int) returns (lo: nat)
    requires Ordered(f, clock)
    ensures lo + CountIn(f, a, b) <= |f|
    ensures forall i :: lo <= i < lo + CountIn(f, a, b) ==> a <= f[i] <= b
    ensures f != [] && a <= f[|f| - 1] <= b ==> lo + CountIn(f, a, b) == |f|
  {
    if f == [] {
      lo := 0;
    } else {
      var rest := f[..|f| - 1];
      lo := WindowIsConsecutive(rest, clock, a, b);
      if a <= f[|f| - 1] <= b && CountIn(rest, a, b) == 0 {
        lo := |f| - 1;
      } else if a <= f[|f| - 1] <= b {
        assert rest[|rest| - 1] == f[|f| - 2] && a <= f[lo] <= f[|f| - 2] <= f[|f| - 1];
      }
    }
  }

  lemma BoundArithmetic(n: int, j: int, w: int)
    requires n <= MAX_FAILED_ATTEMPTS * j + MAX_FAILED_ATTEMPTS && j * LOCKOUT_MS <= w
    ensures n <= MAX_FAILED_ATTEMPTS * (w / LOCKOUT_MS + 1)
  {
    assert j <= w / LOCKOUT_MS;
  }

  /**
   Between successes and resets, a closed window of `w` milliseconds holds at most
   5 * (w / 30 min + 1) compared wrong passwords, in every run.
   */
  lemma FailuresAreBounded(start: int, events: seq<Event>, a: int, w: nat)
    ensures CountIn(Play(start, events).failures, a, a + w) <= 5 * (w / (30 * 60_000) + 1)
  {
    var s := Play(start, events);
    RunKeepsInv(start, events);
    var n := CountIn(s.failures, a, a + w);
    if n > 0 {
      var lo := WindowIsConsecutive(s.failures, s.clock, a, a + w);
      var j := (n - 1) / MAX_FAILED_ATTEMPTS;
      SpacedBy(s.failures, lo, j);
      BoundArithmetic(n, j, w);
    }
  }

  // ---- The bound is attained ------------------------------------------------------------

  function WrongPasswords(k: nat): seq<Event> {
    if k == 0 then [] else WrongPasswords(k - 1) + [Attempt(true, false)]
  }

  /** Five wrong passwords, then one lockout of waiting, `n` times over, and five more. */
  function Bursts(n: nat): seq<Event> {
    (if n == 0 then [] else Bursts(n - 1) + [Tick(LOCKOUT_MS)]) + WrongPasswords(MAX_FAILED_ATTEMPTS)
  }

  lemma PlayOneMore(start: int, events: seq<Event>, e: Event)
    ensures Play(start, events + [e]) == After(Play(start, events), e)
  {
    assert (events + [e])[..|events|] == events;
  }

  /** `t` is `s` after `k` more wrong passwords at the same instant. */
  ghost predicate FailedMore(s: State, t: State, k: nat) {
    && t.clock == s.clock && |t.failures| == |s.failures| + k && s.failures <= t.failures
    && t.account == Account(k, if k < MAX_FAILED_ATTEMPTS then None else Some(s.clock + LOCKOUT_MS))
    && forall i :: |s.failures| <= i < |t.failures| ==> t.failures[i] == s.clock
  }

  lemma FirstFailure(s: State)
    requires !Locked(s.account, s.clock) && Unlocked(s.account) == FRESH
    ensures FailedMore(s, After(s, Attempt(true, false)), 1)
  {
    assert After(s, Attempt(true, false)).failures == s.failures + [s.clock];
  }

  lemma NextFailure(s: State, t: State, k: nat)
    requires FailedMore(s, t, k) && k < MAX_FAILED_ATTEMPTS
    ensures FailedMore(s, After(t, Attempt(true, false)), k + 1)
  {
    assert After(t, Attempt(true, false)).failures == t.failures + [s.clock];
  }

  lemma {:induction false} PlayWrongPasswords(start: int, events: seq<Event>, k: nat)
    requires 1 <= k <= MAX_FAILED_ATTEMPTS && !Locked(Play(start, events).account, Play(start, events).clock)
    requires Unlocked(Play(start, events).account) == FRESH
    ensures FailedMore(Play(start, events), Play(start, events + WrongPasswords(k)), k)
  {
    var s, before := Play(start, events), events + WrongPasswords(k - 1);
    PlayOneMore(start, before, Attempt(true, false));
    assert events + WrongPasswords(k) == before + [Attempt(true, false)];
    if k == 1 {
      assert before == events;
      FirstFailure(s);
    } else {
      PlayWrongPasswords(start, events, k - 1);
      NextFailure(s, Play(start, before), k - 1);
    }
  }

  lemma {:induction false} CountsAll(f: seq<int>, a: int, b: int)
    requires forall i :: 0 <= i < |f| ==> a <= f[i] <= b
    ensures CountIn(f, a, b) == |f|
  {
    if f != [] {
      CountsAll(f[..|f| - 1], a, b);
    }
  }

  ghost predicate Burst(s: State, n: nat) {
    && s.clock == n * LOCKOUT_MS && s.account == Account(MAX_FAILED_ATTEMPTS, Some(s.clock + LOCKOUT_MS))
    && |s.failures| == MAX_FAILED_ATTEMPTS * (n + 1)
    && forall i :: 0 <= i < |s.failures| ==> 0 <= s.failures[i] <= s.clock
  }

  lemma NextBurst(s: State, t: State, u: State, n: nat)
    requires Burst(s, n) && t == After(s, Tick(LOCKOUT_MS)) && FailedMore(t, u, MAX_FAILED_ATTEMPTS)
    ensures Burst(u, n + 1)
  {
  }

  lemma FirstBurst()
    ensures Burst(Play(0, Bursts(0)), 0)
  {
    PlayWrongPasswords(0, [], MAX_FAILED_ATTEMPTS);
    assert Bursts(0) == [] + WrongPasswords(MAX_FAILED_ATTEMPTS);
  }

  lemma {:induction false} BurstsFailOften(n: nat)
    ensures Burst(Play(0, Bursts(n)), n)
  {
    if n == 0 {
      FirstBurst();
    } else {
      var before, wait := Bursts(n - 1), Bursts(n - 1) + [Tick(LOCKOUT_MS)];
      BurstsFailOften(n - 1);
      PlayOneMore(0, before, Tick(LOCKOUT_MS));
      PlayWrongPasswords(0, wait, MAX_FAILED_ATTEMPTS);
      NextBurst(Play(0, before), Play(0, wait), Play(0, Bursts(n)), n - 1);
    }
  }

  /** The bound is exact: for every number of lockouts a run has that many wrong passwords in the window. */
  lemma BoundIsAttained(n: nat)
    ensures CountIn(Play(0, Bursts(n)).failures, 0, n * (30 * 60_000)) == 5 * (n + 1)
  {
    BurstsFailOften(n);
    CountsAll(Play(0, Bursts(n)).failures, 0, n * LOCKOUT_MS);
  }
}
