/** The single-queue ThreadPool of luce/common/thread_pool.h as interleaved atomic steps.

    A step is one section under `queue_mtx_`, one notify, one wake-up, or the end of a task.
    Waiting on a condition variable releases the mutex and falls asleep in the same step; a woken
    thread has to take the mutex and test its predicate again.
  */
module ThreadPool {
  import opened Sums

  type Task = nat

  datatype Worker =
    | AtLock              // about to take the mutex and test the predicate
    | Asleep              // in condition.wait
    | Working(ticket: nat)  // runs the task that was taken as number `ticket`
    | Exited

  datatype Caller =       // of Shutdown
    | NotCalled
    | Entering            // about to take the mutex and test tasks_.empty()
    | Waiting             // asleep in condition_producers_.wait
    | Notifying           // stop_ set, notify_all still to come
    | Joining
    | Returned

  /** `pending`: Commit calls between their lock section and their notify_one. The last three
      fields are history: what Commit enqueued, who took what, and which takings have been run. */
  datatype State = State(
    queue: seq<Task>,
    stop: bool,
    workers: seq<Worker>,
    callers: seq<Caller>,
    pending: nat,
    committed: seq<Task>,
    taken: seq<(nat, Task)>,
    ran: set<nat>)

  datatype Action =
    | Commit(task: Task)
    | NotifyOne(w: nat)            // wakes worker w
    | NotifyNobody                 // no worker is asleep
    | Acquire(w: nat, wakes: nat)  // worker w's lock section; `wakes`: the caller its notify_one picks
    | Finish(w: nat)
    | CallShutdown(c: nat)
    | Enter(c: nat)                // Shutdown's lock section
    | NotifyAll(c: nat)
    | Join(c: nat)
    | SpuriousWorker(w: nat)
    | SpuriousCaller(c: nat)

  function Init(workers: nat, callers: nat): State {
    State([], false, seq(workers, _ => AtLock), seq(callers, _ => NotCalled), 0, [], [], {})
  }

  predicate NobodyWaits(s: State) { forall c :: 0 <= c < |s.callers| ==> !s.callers[c].Waiting? }

  predicate Enabled(s: State, a: Action) {
    match a
    case Commit(_) => true
    case NotifyOne(w) => s.pending > 0 && w < |s.workers| && s.workers[w].Asleep?
    case NotifyNobody => s.pending > 0 && forall w :: 0 <= w < |s.workers| ==> !s.workers[w].Asleep?
    case Acquire(w, c) =>
      && w < |s.workers| && s.workers[w].AtLock?
      && (Drains(s) && !NobodyWaits(s) ==> c < |s.callers| && s.callers[c].Waiting?)
    case Finish(w) => w < |s.workers| && s.workers[w].Working?
    case CallShutdown(c) => c < |s.callers| && s.callers[c].NotCalled?
    case Enter(c) => c < |s.callers| && s.callers[c].Entering?
    case NotifyAll(c) => c < |s.callers| && s.callers[c].Notifying?
    case Join(c) => c < |s.callers| && s.callers[c].Joining? && AllExited(s)
    case SpuriousWorker(w) => w < |s.workers| && s.workers[w].Asleep?
    case SpuriousCaller(c) => c < |s.callers| && s.callers[c].Waiting?
  }

  // The next worker in the lock section takes the last task.
  predicate Drains(s: State) { !s.stop && |s.queue| == 1 }

  predicate AllExited(s: State) { forall w :: 0 <= w < |s.workers| ==> s.workers[w].Exited? }

  function Step(s: State, a: Action): State
    requires Enabled(s, a)
  {
    match a
    case Commit(t) =>
      var s' := s.(pending := s.pending + 1);
      if s.stop then s' else s'.(queue := s.queue + [t], committed := s.committed + [t])
    case NotifyOne(w) => s.(pending := s.pending - 1, workers := s.workers[w := AtLock])
    case NotifyNobody => s.(pending := s.pending - 1)
    case Acquire(w, c) =>
      if s.stop then s.(workers := s.workers[w := Exited])
      else if s.queue == [] then s.(workers := s.workers[w := Asleep])
      else
        var t := s.queue[0];
        s.(queue := s.queue[1..], workers := s.workers[w := Working(|s.taken|)], taken := s.taken + [(w, t)],
           callers := if Drains(s) && !NobodyWaits(s) then s.callers[c := Entering] else s.callers)
    case Finish(w) =>
      s.(workers := s.workers[w := AtLock], ran := s.ran + {s.workers[w].ticket})
    case CallShutdown(c) => s.(callers := s.callers[c := Entering])
    case Enter(c) =>
      if s.queue == [] then s.(stop := true, callers := s.callers[c := Notifying])
      else s.(callers := s.callers[c := Waiting])
    case NotifyAll(c) =>
      s.(callers := s.callers[c := Joining],
         workers := seq(|s.workers|, i requires 0 <= i < |s.workers| => Woken(s.workers[i])))
    case Join(c) => s.(callers := s.callers[c := Returned])
    case SpuriousWorker(w) => s.(workers := s.workers[w := AtLock])
    case SpuriousCaller(c) => s.(callers := s.callers[c := Entering])
  }

  function Woken(w: Worker): Worker { if w.Asleep? then AtLock else w }

  // ---------- Safety ----------

  function TasksOf(taken: seq<(nat, Task)>): (ts: seq<Task>)
    ensures |ts| == |taken|
  {
    seq(|taken|, i requires 0 <= i < |taken| => taken[i].1)
  }

  predicate Awake(w: Worker) { w.AtLock? || w.Working? }

  predicate PastStop(c: Caller) { c.Notifying? || c.Joining? || c.Returned? }

  /** FIFO, no loss, no duplication: what was enqueued is what was taken, then what is queued. */
  ghost predicate Fifo(s: State) {
    s.committed == TasksOf(s.taken) + s.queue
  }

  /** Each taking is run once, by the worker that took it: it has been run or is being run, not both. */
  ghost predicate RunOnce(s: State) {
    && (forall w :: 0 <= w < |s.workers| && s.workers[w].Working? ==>
          var k := s.workers[w].ticket; k < |s.taken| && s.taken[k].0 == w && k !in s.ran)
    && (forall k :: k in s.ran ==> k < |s.taken|)
    && (forall k :: 0 <= k < |s.taken| ==>
          var w := s.taken[k].0; w < |s.workers| && (k in s.ran || s.workers[w] == Working(k)))
  }

  /** The queue is drained before the pool stops, and only then may workers leave. */
  ghost predicate Drained(s: State) {
    && (s.stop ==> s.queue == [])
    && (s.stop <==> exists c :: 0 <= c < |s.callers| && PastStop(s.callers[c]))
    && (forall w :: 0 <= w < |s.workers| && s.workers[w].Exited? ==> s.stop)
    && (forall c :: 0 <= c < |s.callers| && s.callers[c].Returned? ==> AllExited(s))
  }

  /** No lost wake-up among the workers. */
  ghost predicate WorkersWake(s: State) {
    && (s.queue != [] ==> s.pending > 0 || exists w :: 0 <= w < |s.workers| && Awake(s.workers[w]))
    && (s.stop ==> forall w :: 0 <= w < |s.workers| && s.workers[w].Asleep? ==>
          exists c :: 0 <= c < |s.callers| && s.callers[c].Notifying?)
  }

  /** A Shutdown caller asleep implies that there is still something to wait for. */
  ghost predicate CallersWake(s: State) {
    forall c :: 0 <= c < |s.callers| && s.callers[c].Waiting? ==> s.queue != []
  }

  ghost predicate Inv(s: State) {
    |s.workers| > 0 && Fifo(s) && RunOnce(s) && Drained(s) && WorkersWake(s)
  }

  lemma InitInv(workers: nat, callers: nat)
    requires workers > 0
    ensures Inv(Init(workers, callers)) && CallersWake(Init(workers, callers))
  {
  }

  lemma StepKeepsFifo(s: State, a: Action)
    requires Fifo(s) && Enabled(s, a)
    ensures Fifo(Step(s, a))
  {
    if a.Acquire? && !s.stop && s.queue != [] {
      assert TasksOf(Step(s, a).taken) == TasksOf(s.taken) + [s.queue[0]];
      assert s.queue == [s.queue[0]] + s.queue[1..];
    }
  }

  lemma StepKeepsRunOnce(s: State, a: Action)
    requires RunOnce(s) && Enabled(s, a)
    ensures RunOnce(Step(s, a))
  {
  }

  lemma StepKeepsDrained(s: State, a: Action)
    requires Drained(s) && Enabled(s, a)
    ensures Drained(Step(s, a))
  {
    StepKeepsStopFlag(s, a);
    hide PastStop;
  }

  lemma StepKeepsStopFlag(s: State, a: Action)
    requires Drained(s) && Enabled(s, a)
    ensures var s' := Step(s, a); s'.stop <==> exists c :: 0 <= c < |s'.callers| && PastStop(s'.callers[c])
  {
    hide AllExited;
    var s' := Step(s, a);
    if k :| 0 <= k < |s.callers| && PastStop(s.callers[k]) {
      assert s.callers[k] == s'.callers[k] || PastStop(s'.callers[k]);
    }
    if s'.stop && !s.stop {
      assert PastStop(s'.callers[a.c]);
    }
  }

  lemma StepKeepsWorkersWake(s: State, a: Action)
    requires Inv(s) && Enabled(s, a)
    ensures WorkersWake(Step(s, a))
  {
    var s' := Step(s, a);
    if s'.queue != [] {
      match a
      case NotifyOne(w) => assert Awake(s'.workers[w]);
      case NotifyNobody =>
        assert !s.workers[0].Asleep? && !s.workers[0].Exited?;
        assert Awake(s'.workers[0]);
      case Acquire(w, _) => assert Awake(s'.workers[w]);
      case Finish(w) => assert Awake(s'.workers[w]);
      case SpuriousWorker(w) => assert Awake(s'.workers[w]);
      case NotifyAll(_) =>
      case Join(_) =>
      case _ => assert s'.workers == s.workers;
    }
    if s'.stop {
      forall w | 0 <= w < |s'.workers| && s'.workers[w].Asleep?
        ensures exists c :: 0 <= c < |s'.callers| && s'.callers[c].Notifying?
      {
        if s.stop {
          assert s.workers[w].Asleep?;
          var c :| 0 <= c < |s.callers| && s.callers[c].Notifying?;
          assert s'.callers[c].Notifying?;
        } else {
          assert s'.callers[a.c].Notifying?;
        }
      }
    }
  }

  /** Every step of every interleaving keeps the invariant. */
  lemma StepKeepsInv(s: State, a: Action)
    requires Inv(s) && Enabled(s, a)
    ensures Inv(Step(s, a))
  {
    StepKeepsFifo(s, a);
    StepKeepsRunOnce(s, a);
    StepKeepsDrained(s, a);
    StepKeepsWorkersWake(s, a);
  }

  /** With at most one caller of Shutdown its wake-up cannot be lost either. */
  lemma StepKeepsCallersWake(s: State, a: Action)
    requires Inv(s) && Enabled(s, a) && CallersWake(s) && |s.callers| <= 1
    ensures CallersWake(Step(s, a))
  {
  }

  // ---------- Runs ----------

  ghost predicate Allowed(s: State, run: seq<Action>)
    decreases |run|
  {
    run == [] || (Enabled(s, run[0]) && Allowed(Step(s, run[0]), run[1..]))
  }

  ghost function Run(s: State, run: seq<Action>): State
    requires Allowed(s, run)
    decreases |run|
  {
    if run == [] then s else Run(Step(s, run[0]), run[1..])
  }

  lemma {:induction false} RunKeepsInv(s: State, run: seq<Action>)
    requires Inv(s) && Allowed(s, run)
    ensures Inv(Run(s, run)) && |Run(s, run).callers| == |s.callers|
    ensures |s.callers| <= 1 && CallersWake(s) ==> CallersWake(Run(s, run))
    decreases |run|
  {
    hide Inv;
    hide CallersWake;
    hide Enabled;
    if run != [] {
      StepKeepsInv(s, run[0]);
      if |s.callers| <= 1 && CallersWake(s) { StepKeepsCallersWake(s, run[0]); }
      StepKeepsThreads(s, run[0]);
      hide Step;
      RunKeepsInv(Step(s, run[0]), run[1..]);
    }
  }

  lemma StepKeepsThreads(s: State, a: Action)
    requires Enabled(s, a)
    ensures |Step(s, a).workers| == |s.workers| && |Step(s, a).callers| == |s.callers|
  {
  }

  /** The tasks of the Commit calls of a run that were made while stop_ was unset, in order. */
  ghost function Accepted(s: State, run: seq<Action>): seq<Task>
    requires Allowed(s, run)
    decreases |run|
  {
    if run == [] then []
    else (if run[0].Commit? && !s.stop then [run[0].task] else []) + Accepted(Step(s, run[0]), run[1..])
  }

  lemma {:induction false} CommittedIsAccepted(s: State, run: seq<Action>)
    requires Allowed(s, run)
    ensures Run(s, run).committed == s.committed + Accepted(s, run)
    decreases |run|
  {
    if run != [] {
      var s' := Step(s, run[0]);
      assert s'.committed == s.committed + if run[0].Commit? && !s.stop then [run[0].task] else [];
      hide Step;
      CommittedIsAccepted(s', run[1..]);
    }
  }

  /** Safety of every run: the tasks of all Commit calls made before stop_ leave the queue in the order
      of the calls, none is lost or run twice, a queued task always has an awake worker or a notify on
      its way, and no worker leaves before all of them have been taken. */
  lemma EveryRunIsSafe(workers: nat, callers: nat, run: seq<Action>)
    requires workers > 0 && Allowed(Init(workers, callers), run)
    ensures var s, tasks := Run(Init(workers, callers), run), Accepted(Init(workers, callers), run);
      && tasks == TasksOf(s.taken) + s.queue && RunOnce(s) && Drained(s) && WorkersWake(s)
      && ((exists w :: 0 <= w < |s.workers| && s.workers[w].Exited?) ==> TasksOf(s.taken) == tasks)
      && (callers <= 1 ==> CallersWake(s))
  {
    InitInv(workers, callers);
    RunKeepsInv(Init(workers, callers), run);
    CommittedIsAccepted(Init(workers, callers), run);
    var s := Run(Init(workers, callers), run);
    assert TasksOf(s.taken) + [] == TasksOf(s.taken);
  }

  // ---------- Termination ----------

  // A step the pool takes by itself: no new Commit or Shutdown, no spurious wake-up.
  predicate Quiet(a: Action) {
    !a.Commit? && !a.CallShutdown? && !a.SpuriousWorker? && !a.SpuriousCaller?
  }

  function WorkerLoad(w: Worker): nat {
    match w
    case AtLock => 1
    case Asleep => 0
    case Working(_) => 2
    case Exited => 0
  }

  function CallerLoad(c: Caller, n: nat): nat {
    match c
    case NotCalled => 0
    case Entering => n + 4
    case Waiting => n + 3
    case Notifying => n + 2
    case Joining => 1
    case Returned => 0
  }

  function CallerLoads(n: nat): Caller -> nat { c => CallerLoad(c, n) }

  function Measure(s: State): nat {
    3 * |s.queue| + 2 * s.pending + Sum(s.workers, WorkerLoad) + Sum(s.callers, CallerLoads(|s.workers|))
  }

  lemma QuietStepsDecrease(s: State, a: Action)
    requires Enabled(s, a) && Quiet(a)
    ensures Measure(Step(s, a)) < Measure(s)
  {
    hide Sum;
    var s', f := Step(s, a), CallerLoads(|s.workers|);
    match a
    case NotifyOne(w) => SumUpdate(s.workers, w, AtLock, WorkerLoad);
    case NotifyNobody =>
    case Acquire(w, c) =>
      SumUpdate(s.workers, w, s'.workers[w], WorkerLoad);
      if Drains(s) && !NobodyWaits(s) { SumUpdate(s.callers, c, Entering, f); }
    case Finish(w) => SumUpdate(s.workers, w, AtLock, WorkerLoad);
    case Enter(c) => SumUpdate(s.callers, c, s'.callers[c], f);
    case NotifyAll(c) =>
      SumUpdate(s.callers, c, Joining, f);
      SumGrowth(s.workers, s'.workers, WorkerLoad);
    case Join(c) => SumUpdate(s.callers, c, Returned, f);
  }

  ghost predicate Stuck(s: State) { forall a :: Quiet(a) ==> !Enabled(s, a) }

  lemma StuckWorkers(s: State, w: nat)
    requires Stuck(s) && w < |s.workers|
    ensures s.pending == 0 && (s.workers[w].Asleep? || s.workers[w].Exited?)
  {
    if k :| 0 <= k < |s.workers| && s.workers[k].Asleep? {
      assert !Enabled(s, NotifyOne(k));
    } else {
      assert !Enabled(s, NotifyNobody);
    }
    assert !Enabled(s, Finish(w));
    if Drains(s) && !NobodyWaits(s) {
      var c :| 0 <= c < |s.callers| && s.callers[c].Waiting?;
      assert !Enabled(s, Acquire(w, c));
    } else {
      assert !Enabled(s, Acquire(w, 0));
    }
  }

  /** The pool never hangs: left to itself it only stops moving with every committed task run,
      and then a Shutdown that was called has returned with all workers gone. */
  lemma StuckOnlyWhenFinished(s: State)
    requires Inv(s) && CallersWake(s) && |s.callers| <= 1 && Stuck(s)
    ensures s.queue == [] && TasksOf(s.taken) == s.committed
    ensures forall k :: 0 <= k < |s.taken| ==> k in s.ran
    ensures forall c :: 0 <= c < |s.callers| ==> s.callers[c].NotCalled? || (s.callers[c].Returned? && AllExited(s))
  {
    forall w | 0 <= w < |s.workers| ensures s.pending == 0 && (s.workers[w].Asleep? || s.workers[w].Exited?) {
      StuckWorkers(s, w);
    }
    StuckWorkers(s, 0);
    assert s.queue == [];
    assert TasksOf(s.taken) + [] == TasksOf(s.taken);
    forall c | 0 <= c < |s.callers| ensures s.callers[c].NotCalled? || (s.callers[c].Returned? && AllExited(s)) {
      assert !Enabled(s, Enter(c)) && !Enabled(s, NotifyAll(c)) && !Enabled(s, Join(c));
      if s.callers[c].Joining? {
        assert false;
      }
    }
  }

  /** Hence, whatever happened before: a pool with one caller of Shutdown that is left alone until it
      cannot move has run the task of every Commit made before stop_, and its Shutdown, if called, has
      returned. */
  lemma LeftAloneItFinishes(workers: nat, callers: nat, run: seq<Action>)
    requires workers > 0 && callers <= 1 && Allowed(Init(workers, callers), run)
    requires Stuck(Run(Init(workers, callers), run))
    ensures var s := Run(Init(workers, callers), run);
      && TasksOf(s.taken) == Accepted(Init(workers, callers), run)
      && (forall k :: 0 <= k < |s.taken| ==> k in s.ran)
      && forall c :: 0 <= c < |s.callers| ==> s.callers[c].NotCalled? || (s.callers[c].Returned? && AllExited(s))
  {
    hide Stuck;
    InitInv(workers, callers);
    RunKeepsInv(Init(workers, callers), run);
    CommittedIsAccepted(Init(workers, callers), run);
    StuckOnlyWhenFinished(Run(Init(workers, callers), run));
  }

  /** Every schedule comes to such an end: a run of quiet steps is no longer than Measure. */
  lemma {:induction false} QuietRunsEnd(s: State, run: seq<Action>)
    requires Allowed(s, run) && forall i :: 0 <= i < |run| ==> Quiet(run[i])
    ensures |run| + Measure(Run(s, run)) <= Measure(s)
    decreases |run|
  {
    hide Measure;
    hide Enabled;
    if run != [] {
      QuietStepsDecrease(s, run[0]);
      hide Step;
      QuietRunsEnd(Step(s, run[0]), run[1..]);
    }
  }

  // ---------- A second Shutdown caller ----------

  /** Two callers of Shutdown asleep together get one notify between them. */
  ghost function TwoCallersRun(): seq<Action> {
    [Commit(0), CallShutdown(0), CallShutdown(1), Enter(0), Enter(1), Acquire(0, 0)]
  }

  /** The caller's wake-up is safe in every run if and only if there is at most one caller. */
  lemma CallerWakeUpExactly(workers: nat, callers: nat)
    requires workers > 0
    ensures callers <= 1 <==>
      forall run :: Allowed(Init(workers, callers), run) ==> CallersWake(Run(Init(workers, callers), run))
  {
    if callers <= 1 {
      forall run | Allowed(Init(workers, callers), run) ensures CallersWake(Run(Init(workers, callers), run)) {
        EveryRunIsSafe(workers, callers, run);
      }
    } else {
      SecondCallerSleepsOn(workers, callers);
    }
  }

  lemma SecondCallerSleepsOn(workers: nat, callers: nat)
    requires workers > 0 && callers > 1
    ensures Allowed(Init(workers, callers), TwoCallersRun())
    ensures var s := Run(Init(workers, callers), TwoCallersRun()); s.queue == [] && s.callers[1].Waiting?
  {
    var s0, r := Init(workers, callers), TwoCallersRun();
    var s1 := Step(s0, r[0]);
    var s2 := Step(s1, r[1]);
    var s3 := Step(s2, r[2]);
    var s4 := Step(s3, r[3]);
    var s5 := Step(s4, r[4]);
    assert s5.callers[0].Waiting? && s5.callers[1].Waiting? && s5.queue == [0] && s5.workers[0].AtLock?;
    var s6 := Step(s5, r[5]);
    assert r[6..] == [] && Allowed(s6, []) && Run(s6, []) == s6;
    hide Step;
    hide Enabled;
    hide Run;
    hide Allowed;
    RunStep(s5, r[5..]);
    RunStep(s4, r[4..]);
    RunStep(s3, r[3..]);
    RunStep(s2, r[2..]);
    RunStep(s1, r[1..]);
    RunStep(s0, r);
  }

  lemma RunStep(s: State, run: seq<Action>)
    requires run != [] && Enabled(s, run[0]) && Allowed(Step(s, run[0]), run[1..])
    ensures Allowed(s, run) && Run(s, run) == Run(Step(s, run[0]), run[1..])
  {
  }
}
