/**
 The in-process job queue (job-queue.service.ts). `processNext` is split where it awaits the
 handler; a callback given to setImmediate is a pending wakeup that the event loop runs later.
 */
module JobQueue {
  import opened Wrappers

  /** `serial` is the position of the job among all enqueued jobs. */
  datatype Job = Job(serial: nat, priority: Option<int>)

  function Rank(j: Job): int {
    match j.priority
    case Some(p) => p
    case None => 0
  }

  // ---- The stable sort ------------------------------------------------------------------

  function Insert(j: Job, q: seq<Job>): seq<Job> {
    if q == [] || Rank(j) >= Rank(q[0]) then [j] + q else [q[0]] + Insert(j, q[1..])
  }

  /** The stable sort by priority, highest first, that Array.prototype.sort promises. */
  function Sort(q: seq<Job>): (r: seq<Job>)
    ensures |r| == |q|
  {
    if q == [] then [] else
      InsertKeepsJobs(q[0], Sort(q[1..]));
      Insert(q[0], Sort(q[1..]))
  }

  lemma {:induction false} InsertKeepsJobs(j: Job, q: seq<Job>)
    ensures |Insert(j, q)| == |q| + 1
    ensures multiset(Insert(j, q)) == multiset{j} + multiset(q)
  {
    if q != [] && Rank(j) < Rank(q[0]) {
      InsertKeepsJobs(j, q[1..]);
      assert q == [q[0]] + q[1..];
    }
  }

  lemma {:induction false} SortKeepsJobs(q: seq<Job>)
    ensures multiset(Sort(q)) == multiset(q)
  {
    if q != [] {
      SortKeepsJobs(q[1..]);
      InsertKeepsJobs(q[0], Sort(q[1..]));
      assert q == [q[0]] + q[1..];
    }
  }

  ghost predicate Descending(q: seq<Job>) {
    forall i, j :: 0 <= i < j < |q| ==> Rank(q[i]) >= Rank(q[j])
  }

  /** Jobs of equal priority stand in the order in which they were enqueued. */
  ghost predicate Fifo(q: seq<Job>) {
    forall i, j :: 0 <= i < j < |q| && Rank(q[i]) == Rank(q[j]) ==> q[i].serial < q[j].serial
  }

  ghost predicate FirstOfRank(j: Job, q: seq<Job>) {
    forall i :: 0 <= i < |q| && Rank(q[i]) == Rank(j) ==> j.serial < q[i].serial
  }

  lemma PrependKeepsOrder(j: Job, q: seq<Job>)
    requires Descending(q) && Fifo(q) && FirstOfRank(j, q) && forall i :: 0 <= i < |q| ==> Rank(j) >= Rank(q[i])
    ensures Descending([j] + q) && Fifo([j] + q)
  {
    var r := [j] + q;
    assert forall i :: 1 <= i < |r| ==> r[i] == q[i - 1];
  }

  lemma InsertedFrom(j: Job, q: seq<Job>, i: nat)
    requires i < |Insert(j, q)|
    ensures Insert(j, q)[i] == j || Insert(j, q)[i] in q
  {
    InsertKeepsJobs(j, q);
    assert Insert(j, q)[i] in multiset(Insert(j, q));
  }

  lemma {:induction false} InsertKeepsOrder(j: Job, q: seq<Job>)
    requires Descending(q) && Fifo(q) && FirstOfRank(j, q)
    ensures Descending(Insert(j, q)) && Fifo(Insert(j, q))
  {
    if q == [] || Rank(j) >= Rank(q[0]) {
      PrependKeepsOrder(j, q);
    } else {
      var rest := Insert(j, q[1..]);
      InsertKeepsOrder(j, q[1..]);
      forall i | 0 <= i < |rest|
        ensures Rank(q[0]) >= Rank(rest[i]) && (Rank(q[0]) == Rank(rest[i]) ==> q[0].serial < rest[i].serial)
      {
        InsertedFrom(j, q[1..], i);
      }
      PrependKeepsOrder(q[0], rest);
    }
  }

  lemma {:induction false} SortSorts(q: seq<Job>)
    requires Fifo(q)
    ensures Descending(Sort(q)) && Fifo(Sort(q))
  {
    if q != [] {
      var rest := Sort(q[1..]);
      SortSorts(q[1..]);
      SortKeepsJobs(q[1..]);
      forall i | 0 <= i < |rest| && Rank(rest[i]) == Rank(q[0]) ensures q[0].serial < rest[i].serial {
        assert rest[i] in multiset(rest);
        assert rest[i] in q[1..];
      }
      InsertKeepsOrder(q[0], rest);
    }
  }

  // ---- The service ----------------------------------------------------------------------

  datatype Core = Core(queue: seq<Job>, processing: bool, wakeups: nat)

  function Enqueued(c: Core, j: Job): Core {
    Core(c.queue + [j], c.processing, if c.processing then c.wakeups else c.wakeups + 1)
  }

  /** The job that `processNext` takes, if it takes one. */
  function Taken(c: Core): Option<Job> {
    if c.processing || c.queue == [] then None else Some(Sort(c.queue)[0])
  }

  function Begun(c: Core): Core {
    if Taken(c).None? then c else Core(Sort(c.queue)[1..], true, c.wakeups)
  }

  function Finished(c: Core): Core {
    Core(c.queue, false, if c.queue == [] then c.wakeups else c.wakeups + 1)
  }

  class JobQueueService {
    var queue: seq<Job>
    var processing: bool
    var wakeups: nat

    function Value(): Core
      reads this
    {
      Core(queue, processing, wakeups)
    }

    constructor ()
      ensures Value() == Core([], false, 0)
    {
      queue, processing, wakeups := [], false, 0;
    }

    method Enqueue(job: Job)
      modifies this
      ensures Value() == Enqueued(old(Value()), job)
    {
      queue := queue + [job];
      if !processing {
        wakeups := wakeups + 1;
      }
    }

    /** `processNext` up to the call of the handler. */
    method BeginNext() returns (job: Option<Job>)
      modifies this
      ensures job == Taken(old(Value())) && Value() == Begun(old(Value()))
    {
      if processing || queue == [] {
        return None;
      }
      processing := true;
      queue := Sort(queue);
      job := Some(queue[0]);
      queue := queue[1..];
    }

    /** The `finally` block of `processNext`. */
    method FinishJob()
      modifies this
      ensures Value() == Finished(old(Value()))
    {
      processing := false;
      if queue != [] {
        wakeups := wakeups + 1;
      }
    }

    method DrainQueue() returns (job: Option<Job>)
      modifies this
      ensures job == Taken(old(Value())) && Value() == Begun(old(Value()))
    {
      job := None;
      if |queue| > 0 && !processing {
        job := BeginNext();
      }
    }
  }

  // ---- Runs -----------------------------------------------------------------------------

  /**
   `jobs` are all jobs enqueued so far, `running` those whose handler has been called and has not
   ended, `started` those ever handed to the handler, in that order.
   */
  datatype State = State(
    core: Core, jobs: seq<Job>, running: seq<Job>, started: seq<Job>, completed: seq<Job>, failed: seq<Job>)

  /** `Finish` ends the handler of the running job number `which`. */
  datatype Event = Enqueue(priority: Option<int>) | Wakeup | Cron | Finish(which: nat, ok: bool)

  const IDLE := State(Core([], false, 0), [], [], [], [], [])

  function AfterBegin(s: State): State {
    match Taken(s.core)
    case None => s
    case Some(job) => s.(core := Begun(s.core), running := s.running + [job], started := s.started + [job])
  }

  function AfterFinish(s: State, which: nat, ok: bool): State
    requires which < |s.running|
  {
    var job := s.running[which];
    s.(core := Finished(s.core), running := s.running[..which] + s.running[which + 1..],
       completed := if ok then s.completed + [job] else s.completed,
       failed := if ok then s.failed else s.failed + [job])
  }

  /** An event that is not possible (no pending wakeup, no such running job) changes nothing. */
  function After(s: State, e: Event): State {
    match e
    case Enqueue(priority) =>
      var job := Job(|s.jobs|, priority);
      s.(core := Enqueued(s.core, job), jobs := s.jobs + [job])
    case Wakeup => if s.core.wakeups == 0 then s else AfterBegin(s.(core := s.core.(wakeups := s.core.wakeups - 1)))
    case Cron => AfterBegin(s)
    case Finish(which, ok) => if which < |s.running| then AfterFinish(s, which, ok) else s
  }

  function Play(events: seq<Event>): State {
    if events == [] then IDLE else After(Play(events[..|events| - 1]), events[|events| - 1])
  }

  // ---- Invariants -----------------------------------------------------------------------

  ghost predicate OneAtATime(s: State) {
    |s.running| == if s.core.processing then 1 else 0
  }

  ghost predicate NoLostWakeup(s: State) {
    s.core.queue != [] ==> s.core.processing || s.core.wakeups > 0
  }

  ghost predicate Numbered(jobs: seq<Job>) {
    forall i :: 0 <= i < |jobs| ==> jobs[i].serial == i
  }

  /** Every enqueued job is in exactly one place. */
  ghost predicate Conserved(s: State) {
    && Numbered(s.jobs)
    && multiset(s.jobs) == multiset(s.core.queue) + multiset(s.started)
    && multiset(s.started) == multiset(s.running) + multiset(s.completed) + multiset(s.failed)
  }

  /** All jobs ever started and then the waiting ones: jobs of equal priority start in the order of their enqueueing. */
  ghost predicate StartsInOrder(s: State) {
    Fifo(s.started + s.core.queue)
  }

  ghost predicate Inv(s: State) {
    OneAtATime(s) && NoLostWakeup(s) && Conserved(s) && StartsInOrder(s)
  }

  lemma FifoSuffix(p: seq<Job>, q: seq<Job>)
    requires Fifo(p + q)
    ensures Fifo(p) && Fifo(q)
  {
    assert forall i :: 0 <= i < |q| ==> q[i] == (p + q)[|p| + i];
    assert forall i :: 0 <= i < |p| ==> p[i] == (p + q)[i];
  }

  lemma SortedQueueKeepsFifo(started: seq<Job>, q: seq<Job>)
    requires Fifo(started + q)
    ensures Fifo(started + Sort(q)) && Descending(Sort(q))
  {
    var r, all := Sort(q), started + q;
    FifoSuffix(started, q);
    SortSorts(q);
    SortKeepsJobs(q);
    forall i, j | 0 <= i < |started| && 0 <= j < |r| && Rank(started[i]) == Rank(r[j])
      ensures started[i].serial < r[j].serial
    {
      assert r[j] in multiset(r);
      var k :| 0 <= k < |q| && q[k] == r[j];
      assert all[i] == started[i] && all[|started| + k] == r[j];
    }
  }

  lemma TakenStartsInOrder(started: seq<Job>, q: seq<Job>)
    requires Fifo(started + q) && q != []
    ensures Fifo(started + [Sort(q)[0]] + Sort(q)[1..])
    ensures multiset(q) == multiset{Sort(q)[0]} + multiset(Sort(q)[1..])
  {
    var r := Sort(q);
    SortedQueueKeepsFifo(started, q);
    SortKeepsJobs(q);
    assert r == [r[0]] + r[1..];
    assert started + [r[0]] + r[1..] == started + r;
  }

  lemma BeginKeepsInv(s: State)
    requires OneAtATime(s) && Conserved(s) && StartsInOrder(s)
    requires s.core.processing || s.core.queue != [] || NoLostWakeup(s)
    ensures Inv(AfterBegin(s))
  {
    if Taken(s.core).Some? {
      var q := s.core.queue;
      TakenStartsInOrder(s.started, q);
      var t, job := AfterBegin(s), Sort(q)[0];
      assert t.core.queue == Sort(q)[1..] && t.started == s.started + [job] && t.running == s.running + [job];
    }
  }

  lemma AllEarlier(s: State, i: nat)
    requires Conserved(s) && i < |s.started + s.core.queue|
    ensures (s.started + s.core.queue)[i].serial < |s.jobs|
  {
    var all := s.started + s.core.queue;
    assert all[i] in multiset(s.core.queue) + multiset(s.started);
    assert all[i] in multiset(s.jobs);
  }

  lemma NewJobIsLast(s: State, job: Job)
    requires Conserved(s) && StartsInOrder(s) && job.serial == |s.jobs|
    ensures Fifo(s.started + (s.core.queue + [job]))
  {
    var all := s.started + s.core.queue;
    assert s.started + (s.core.queue + [job]) == all + [job];
    forall i | 0 <= i < |all| ensures all[i].serial < |s.jobs| {
      AllEarlier(s, i);
    }
  }

  lemma EnqueueKeepsInv(s: State, priority: Option<int>)
    requires Inv(s)
    ensures Inv(After(s, Enqueue(priority)))
  {
    NewJobIsLast(s, Job(|s.jobs|, priority));
  }

  lemma FinishKeepsInv(s: State, which: nat, ok: bool)
    requires Inv(s) && which < |s.running|
    ensures Inv(AfterFinish(s, which, ok))
  {
    assert s.running == [s.running[0]];
  }

  lemma WakeupKeepsInv(s: State)
    requires Inv(s)
    ensures Inv(After(s, Wakeup))
  {
    if s.core.wakeups > 0 {
      BeginKeepsInv(s.(core := s.core.(wakeups := s.core.wakeups - 1)));
    }
  }

  lemma StepKeepsInv(s: State, e: Event)
    requires Inv(s)
    ensures Inv(After(s, e))
  {
    match e
    case Enqueue(priority) => EnqueueKeepsInv(s, priority);
    case Cron => BeginKeepsInv(s);
    case Wakeup => WakeupKeepsInv(s);
    case Finish(which, ok) =>
      if which < |s.running| {
        FinishKeepsInv(s, which, ok);
      }
  }

  /**
   Every run: at most one job is running, a waiting job has a running one or a wakeup to come, every
   job is in one place only, and jobs of equal priority start in order.
   */
  lemma {:induction false} RunKeepsInv(events: seq<Event>)
    ensures Inv(Play(events))
  {
    if events != [] {
      RunKeepsInv(events[..|events| - 1]);
      StepKeepsInv(Play(events[..|events| - 1]), events[|events| - 1]);
    }
  }

  /** The job that a run takes next is the one enqueued first among those of the highest priority. */
  lemma TakenIsFirstOfHighest(events: seq<Event>, k: nat)
    requires var c := Play(events).core;
             Taken(c).Some? && k < |c.queue|
    ensures var c := Play(events).core;
            && Taken(c).value in c.queue
            && Rank(c.queue[k]) <= Rank(Taken(c).value)
            && (Rank(c.queue[k]) == Rank(Taken(c).value) ==> Taken(c).value.serial <= c.queue[k].serial)
  {
    var s := Play(events);
    var q, r := s.core.queue, Sort(s.core.queue);
    RunKeepsInv(events);
    FifoSuffix(s.started, q);
    SortSorts(q);
    SortKeepsJobs(q);
    assert r[0] in multiset(q) && q[k] in multiset(r);
  }

  /** The priority that decides: a missing one counts as zero. */
  lemma TakenHasHighestPriority(events: seq<Event>, k: nat, p: int, q: int)
    requires var c := Play(events).core;
             && Taken(c).Some? && k < |c.queue|
             && (Taken(c).value.priority == Some(p) || (Taken(c).value.priority == None && p == 0))
             && (c.queue[k].priority == Some(q) || (c.queue[k].priority == None && q == 0))
    ensures q <= p
    ensures q == p ==> Taken(Play(events).core).value.serial <= Play(events).core.queue[k].serial
  {
    TakenIsFirstOfHighest(events, k);
  }

  lemma {:induction false} NumberedOnce(jobs: seq<Job>, j: Job)
    requires Numbered(jobs)
    ensures multiset(jobs)[j] <= 1
  {
    if jobs != [] {
      var last := |jobs| - 1;
      NumberedOnce(jobs[..last], j);
      assert jobs == jobs[..last] + [jobs[last]];
      assert jobs[last] !in jobs[..last];
    }
  }

  lemma PlacesCount(part: seq<Job>, i: nat, j: nat)
    requires i < j < |part|
    ensures multiset(part)[part[i]] >= if part[i] == part[j] then 2 else 1
  {
    assert part == part[..i] + [part[i]] + part[i + 1..j] + [part[j]] + part[j + 1..];
  }

  /** No job is handed to the handler twice. */
  lemma HandledAtMostOnce(events: seq<Event>, i: nat, j: nat)
    requires i < j < |Play(events).started|
    ensures Play(events).started[i] != Play(events).started[j]
  {
    RunKeepsInv(events);
    NumberedOnce(Play(events).jobs, Play(events).started[i]);
    PlacesCount(Play(events).started, i, j);
  }

  /**
   One wakeup is scheduled by a call that finds no handler running and by the end of a handler that leaves jobs
   waiting, and by nothing else; one is used up whenever the event loop runs it.
   */
  lemma WakeupsChangeIff(s: State, e: Event)
    requires Inv(s)
    ensures After(s, e).core.wakeups == s.core.wakeups + 1
            <==> (e.Enqueue? && s.running == []) || (e.Finish? && e.which < |s.running| && s.core.queue != [])
    ensures After(s, e).core.wakeups == s.core.wakeups - 1 <==> e.Wakeup? && s.core.wakeups > 0
    ensures s.core.wakeups - 1 <= After(s, e).core.wakeups <= s.core.wakeups + 1
  {
  }

  /** When no handler runs and no wakeup is pending, every job has been completed or has failed. */
  lemma QuietMeansAllHandled(events: seq<Event>)
    requires !Play(events).core.processing && Play(events).core.wakeups == 0
    ensures multiset(Play(events).jobs) == multiset(Play(events).completed) + multiset(Play(events).failed)
  {
    RunKeepsInv(events);
  }

  /** The event loop on its own: it ends the running job, well or badly, or else runs a pending wakeup. */
  function LoopOnce(s: State, ok: bool): State {
    After(s, if s.running != [] then Finish(0, ok) else Wakeup)
  }

  /** One turn for each of the outcomes. */
  function Loop(s: State, outcomes: seq<bool>): State
    decreases |outcomes|
  {
    if outcomes == [] then s else Loop(LoopOnce(s, outcomes[0]), outcomes[1..])
  }

  /** Twice the waiting jobs and the running one: what the event loop has left to do. */
  function Remaining(s: State): nat {
    2 * |s.core.queue| + |s.running|
  }

  lemma LoopOnceProgresses(s: State, ok: bool)
    requires Inv(s) && Remaining(s) > 0
    ensures Inv(LoopOnce(s, ok)) && Remaining(LoopOnce(s, ok)) == Remaining(s) - 1 && LoopOnce(s, ok).jobs == s.jobs
  {
    StepKeepsInv(s, if s.running != [] then Finish(0, ok) else Wakeup);
  }

  /** Without another call and without the cron job, the pending wakeups empty the queue, whichever handlers fail. */
  lemma {:induction false} WakeupsDrainTheQueue(s: State, outcomes: seq<bool>)
    requires Inv(s) && |outcomes| == Remaining(s)
    ensures Remaining(Loop(s, outcomes)) == 0 && Loop(s, outcomes).jobs == s.jobs && Inv(Loop(s, outcomes))
    decreases |outcomes|
  {
    if outcomes != [] {
      LoopOnceProgresses(s, outcomes[0]);
      WakeupsDrainTheQueue(LoopOnce(s, outcomes[0]), outcomes[1..]);
    }
  }

  /** So after any run that many turns of the event loop complete or fail every job enqueued in it. */
  lemma EveryRunDrains(events: seq<Event>, outcomes: seq<bool>)
    requires |outcomes| == Remaining(Play(events))
    ensures var s, t := Play(events), Loop(Play(events), outcomes);
            multiset(s.jobs) == multiset(t.completed) + multiset(t.failed)
  {
    RunKeepsInv(events);
    WakeupsDrainTheQueue(Play(events), outcomes);
    assert Conserved(Loop(Play(events), outcomes));
  }
}
