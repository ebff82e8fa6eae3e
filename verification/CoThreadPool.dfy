/** The work-stealing coroutine pool (luce/co/co_thread_pool.cpp) over its blocking queues
    (luce/common/blocking_queue.h), as interleaved atomic steps.

    A step is one lock section of one queue, one notify, one read or write of `stopped_`, or one
    resume. `std::try_to_lock` may fail at any time, so a try that does not succeed is always a
    possible step. Each accepted ScheduleById call is a ticket, numbered in order of acceptance. A
    call is made by a thread outside the pool or by the coroutine a worker is resuming; that worker
    goes on only when the call has pushed and notified.
  */
module CoThreadPool {
  import opened Options
  import opened Sums

  /** Where an accepted handle is. */
  datatype Loc =
    | Trying(i: nat)     // in ScheduleById, about to try_push to queue i % n
    | Pushing            // in ScheduleById, about to push
    | Queued(q: nat)
    | InHand(w: nat)     // popped by worker w, not resumed yet
    | Resumed(w: nat)

  /** `pin`: the explicit id the handle was scheduled with. `caller`: the worker whose coroutine made
      the call. `owes`: the queue it has pushed to and not yet notified. */
  datatype Ticket = Ticket(pin: Option<nat>, caller: Option<nat>, loc: Loc, owes: Option<nat>)

  /** BlockingQueue with its history: everything ever pushed and everything ever popped. */
  datatype Queue = Queue(items: seq<nat>, stop: bool, pushed: seq<nat>, popped: seq<nat>)

  datatype Worker =
    | Stealing(i: nat)   // about to try queue (id + i) % n
    | AtPop              // about to take the lock of its own queue
    | Asleep             // in cond_.wait
    | PopFailed          // pop returned false; about to read stopped_
    | Holding(t: nat)
    | Exited

  datatype Destructor = NotBegun | Stopping(q: nat) | NotifyingAll(q: nat) | Joining | Joined

  /** `inFlight`: the tickets that were still being pushed when the destructor set stopped_. */
  datatype State = State(
    steal: bool,
    stopped: bool,
    queues: seq<Queue>,
    workers: seq<Worker>,
    tickets: seq<Ticket>,
    dtor: Destructor,
    inFlight: set<nat>)

  datatype Action =
    | Schedule(pin: Option<nat>, caller: Option<nat>)
    | TryPush(t: nat, ok: bool)
    | Push(t: nat, q: nat)
    | NotifyOne(t: nat)
    | TrySteal(w: nat, ok: bool)
    | Pop(w: nat)
    | ReadStopped(w: nat)
    | ResumeTask(w: nat)
    | Spurious(w: nat)
    | SetStopped
    | StopQueue
    | NotifyAll
    | JoinAll

  function Init(n: nat, steal: bool): State {
    State(steal, false, seq(n, _ => Queue([], false, [], [])), seq(n, _ => LoopStart(steal)), [], NotBegun, {})
  }

  function LoopStart(steal: bool): Worker { if steal then Stealing(0) else AtPop }

  function N(s: State): nat { |s.workers| }

  predicate CanSteal(s: State, t: nat)
    requires t < |s.tickets|
  {
    s.steal && s.tickets[t].pin.None?
  }

  predicate BeingPushed(l: Loc) { l.Trying? || l.Pushing? }

  // The ScheduleById call has not returned.
  predicate InCall(t: Ticket) { BeingPushed(t.loc) || t.owes.Some? }

  // Worker w is inside a ScheduleById call.
  predicate Busy(s: State, w: nat) {
    exists t :: 0 <= t < |s.tickets| && s.tickets[t].caller == Some(w) && InCall(s.tickets[t])
  }

  predicate AllExited(s: State) { forall w :: 0 <= w < |s.workers| ==> s.workers[w].Exited? }

  // The queue that worker w tries to steal from in round i of its loop.
  function Victim(s: State, w: nat, i: nat): (q: nat)
    requires N(s) > 0
    ensures q < N(s)
  {
    (w + i) % N(s)
  }

  predicate Enabled(s: State, a: Action) {
    Shape(s) &&
    match a
    case Schedule(pin, caller) =>
      && !s.stopped && (pin.Some? ==> pin.value < N(s))
      && (caller.Some? ==> caller.value < N(s) && s.workers[caller.value].Holding? && !Busy(s, caller.value))
    case TryPush(t, _) => t < |s.tickets| && s.tickets[t].loc.Trying?
    case Push(t, q) =>
      && t < |s.tickets| && s.tickets[t].loc.Pushing?
      && q < N(s) && (s.tickets[t].pin.Some? ==> q == s.tickets[t].pin.value)
    case NotifyOne(t) => t < |s.tickets| && s.tickets[t].owes.Some? && s.tickets[t].owes.value < N(s)
    case TrySteal(w, ok) =>
      && w < N(s) && s.workers[w].Stealing?
      && (ok ==> var items := s.queues[Victim(s, w, s.workers[w].i)].items;
                 items != [] && items[0] < |s.tickets| && CanSteal(s, items[0]))
    case Pop(w) =>
      && w < N(s) && s.workers[w].AtPop?
      && (s.queues[w].items != [] ==> s.queues[w].items[0] < |s.tickets|)
    case ReadStopped(w) => w < N(s) && s.workers[w].PopFailed?
    case ResumeTask(w) => w < N(s) && s.workers[w].Holding? && s.workers[w].t < |s.tickets| && !Busy(s, w)
    case Spurious(w) => w < N(s) && s.workers[w].Asleep?
    case SetStopped => s.dtor.NotBegun?
    case StopQueue => s.dtor.Stopping?
    case NotifyAll => s.dtor.NotifyingAll? && s.dtor.q < N(s)
    case JoinAll => s.dtor.Joining? && AllExited(s)
  }

  // ---------- Effects ----------

  function Move(s: State, t: nat, l: Loc): State
    requires t < |s.tickets|
  {
    s.(tickets := s.tickets[t := s.tickets[t].(loc := l)])
  }

  function SetWorker(s: State, w: nat, st: Worker): State
    requires w < |s.workers|
  {
    s.(workers := s.workers[w := st])
  }

  function PushBack(queue: Queue, t: nat): Queue {
    queue.(items := queue.items + [t], pushed := queue.pushed + [t])
  }

  function PopFront(queue: Queue): Queue
    requires queue.items != []
  {
    queue.(items := queue.items[1..], popped := queue.popped + [queue.items[0]])
  }

  /** queue_.push under the lock; the notify is still to come. */
  function Enqueue(s: State, t: nat, q: nat): State
    requires t < |s.tickets| && q < |s.queues|
  {
    s.(queues := s.queues[q := PushBack(s.queues[q], t)],
       tickets := s.tickets[t := s.tickets[t].(loc := Queued(q), owes := Some(q))])
  }

  function Settle(s: State, t: nat): State
    requires t < |s.tickets|
  {
    s.(tickets := s.tickets[t := s.tickets[t].(owes := None)])
  }

  /** Worker w takes the front of queue q. */
  function Dequeue(s: State, w: nat, q: nat): State
    requires w < |s.workers| && q < |s.queues| && s.queues[q].items != [] && s.queues[q].items[0] < |s.tickets|
  {
    var t := s.queues[q].items[0];
    Move(SetWorker(s.(queues := s.queues[q := PopFront(s.queues[q])]), w, Holding(t)), t, InHand(w))
  }

  function Wake(s: State, w: nat): State
    requires w < |s.workers|
  {
    if s.workers[w].Asleep? then SetWorker(s, w, AtPop) else s
  }

  function Step(s: State, a: Action): State
    requires Enabled(s, a)
  {
    match a
    case Schedule(pin, caller) =>
      s.(tickets := s.tickets + [Ticket(pin, caller, if pin.None? && s.steal then Trying(0) else Pushing, None)])
    case TryPush(t, ok) =>
      var i := s.tickets[t].loc.i;
      if ok then Enqueue(s, t, i % N(s))
      else Move(s, t, if i + 1 < 2 * N(s) then Trying(i + 1) else Pushing)
    case Push(t, q) => Enqueue(s, t, q)
    case NotifyOne(t) => Wake(Settle(s, t), s.tickets[t].owes.value)
    case TrySteal(w, ok) =>
      var i := s.workers[w].i;
      if ok then Dequeue(s, w, Victim(s, w, i))
      else SetWorker(s, w, if i + 1 < N(s) then Stealing(i + 1) else AtPop)
    case Pop(w) =>
      if s.queues[w].items != [] then Dequeue(s, w, w)
      else SetWorker(s, w, if s.queues[w].stop then PopFailed else Asleep)
    case ReadStopped(w) => SetWorker(s, w, if s.stopped then Exited else LoopStart(s.steal))
    case ResumeTask(w) => Move(SetWorker(s, w, LoopStart(s.steal)), s.workers[w].t, Resumed(w))
    case Spurious(w) => SetWorker(s, w, AtPop)
    case SetStopped =>
      s.(stopped := true, dtor := Stopping(0),
         inFlight := set t | 0 <= t < |s.tickets| && BeingPushed(s.tickets[t].loc))
    case StopQueue =>
      if s.dtor.q < N(s) then
        s.(queues := s.queues[s.dtor.q := s.queues[s.dtor.q].(stop := true)], dtor := NotifyingAll(s.dtor.q))
      else s.(dtor := Joining)
    case NotifyAll => Wake(s.(dtor := Stopping(s.dtor.q + 1)), s.dtor.q)
    case JoinAll => s.(dtor := Joined)
  }

  // ---------- The invariant ----------

  predicate Shape(s: State) { N(s) > 0 && |s.queues| == N(s) }

  // The place a ticket names does hold it.
  ghost predicate Placed(s: State, t: nat, l: Loc) {
    match l
    case Queued(q) => q < |s.queues| && t in s.queues[q].items
    case InHand(w) => w < |s.workers| && s.workers[w] == Holding(t)
    case _ => true
  }

  /** Every accepted handle is in exactly one place, and there once. */
  ghost predicate Located(s: State) {
    && (forall q, i :: 0 <= q < |s.queues| && 0 <= i < |s.queues[q].items| ==>
          s.queues[q].items[i] < |s.tickets| && s.tickets[s.queues[q].items[i]].loc == Queued(q))
    && (forall q, i, j :: 0 <= q < |s.queues| && 0 <= i < j < |s.queues[q].items| ==>
          s.queues[q].items[i] != s.queues[q].items[j])
    && (forall w :: 0 <= w < |s.workers| && s.workers[w].Holding? ==>
          s.workers[w].t < |s.tickets| && s.tickets[s.workers[w].t].loc == InHand(w))
    && (forall t :: 0 <= t < |s.tickets| ==> Placed(s, t, s.tickets[t].loc))
  }

  /** A handle scheduled to an explicit id is only ever with that queue and that worker. */
  ghost predicate Pinned(s: State) {
    forall t :: 0 <= t < |s.tickets| && s.tickets[t].pin.Some? ==>
      s.tickets[t].pin.value < N(s) && StaysWith(s.tickets[t].loc, s.tickets[t].pin.value)
  }

  predicate StaysWith(l: Loc, k: nat) {
    match l
    case Trying(_) => false
    case Pushing => true
    case Queued(q) => q == k
    case InHand(w) => w == k
    case Resumed(w) => w == k
  }

  /** Each queue is consumed in push order. */
  ghost predicate Fifo(s: State) {
    forall q :: 0 <= q < |s.queues| ==> InOrder(s.queues[q])
  }

  ghost predicate InOrder(queue: Queue) { queue.pushed == queue.popped + queue.items }

  // A queue whose stop flag the destructor has set.
  predicate StopReached(s: State, q: nat) {
    match s.dtor
    case NotBegun => false
    case Stopping(k) => q < k
    case NotifyingAll(k) => q <= k
    case _ => true
  }

  ghost predicate Leaves(w: Worker) { w.PopFailed? || w.Exited? }

  /** Stop flags, and what a worker that found its queue empty and stopped can leave behind. */
  ghost predicate StopOrder(s: State) {
    && (s.stopped <==> !s.dtor.NotBegun?)
    && (s.dtor.NotifyingAll? ==> s.dtor.q < N(s))
    && (forall q :: 0 <= q < |s.queues| ==> (s.queues[q].stop <==> StopReached(s, q)))
    && (s.stopped ==> forall t :: 0 <= t < |s.tickets| && BeingPushed(s.tickets[t].loc) ==> t in s.inFlight)
    && (forall w :: 0 <= w < |s.workers| && w < |s.queues| && Leaves(s.workers[w]) ==>
          s.queues[w].stop && forall t :: t in s.queues[w].items ==> t in s.inFlight)
    && (s.dtor.Joined? ==> AllExited(s))
  }

  /** Who is inside a ScheduleById call, and what a worker that has left cannot have pushed itself. */
  ghost predicate Calls(s: State) {
    && (forall t :: 0 <= t < |s.tickets| ==> CallOk(s, s.tickets[t]))
    && (forall w :: 0 <= w < |s.workers| && w < |s.queues| && Leaves(s.workers[w]) ==> NoneOwn(s, w))
  }

  ghost predicate CallOk(s: State, t: Ticket) {
    && (t.caller.Some? ==> t.caller.value < N(s) && (InCall(t) ==> s.workers[t.caller.value].Holding?))
    && (t.owes.Some? ==> t.owes.value < N(s) && !BeingPushed(t.loc))
  }

  // Queue w holds nothing that worker w pushed.
  ghost predicate NoneOwn(s: State, w: nat)
    requires w < |s.queues|
  {
    forall t :: 0 <= t < |s.tickets| && t in s.queues[w].items ==> s.tickets[t].caller != Some(w)
  }

  ghost predicate Owed(s: State, q: nat) {
    exists t :: 0 <= t < |s.tickets| && s.tickets[t].owes == Some(q)
  }

  /** No lost wake-up: a worker asleep on a queue with work, or stopped, has a notify coming. */
  ghost predicate Wakes(s: State) {
    forall w :: 0 <= w < |s.workers| && w < |s.queues| ==> WakesAt(s, w)
  }

  ghost predicate WakesAt(s: State, w: nat)
    requires w < |s.workers| && w < |s.queues|
  {
    s.workers[w].Asleep? ==>
      && (s.queues[w].items != [] ==> Owed(s, w))
      && (s.queues[w].stop ==> s.dtor == NotifyingAll(w))
  }

  ghost predicate Inv(s: State) {
    Shape(s) && Located(s) && Pinned(s) && Fifo(s) && StopOrder(s) && Calls(s) && Wakes(s)
  }

  lemma InitInv(n: nat, steal: bool)
    requires n > 0
    ensures Inv(Init(n, steal))
  {
    InitLocated(n, steal);
    hide Located;
    InitStopOrder(n, steal);
    hide StopOrder;
  }

  lemma InitLocated(n: nat, steal: bool)
    ensures Located(Init(n, steal))
  {
  }

  lemma InitStopOrder(n: nat, steal: bool)
    ensures StopOrder(Init(n, steal))
  {
  }

  // ---------- Each step keeps it ----------

  lemma EnqueueKeepsLocated(s: State, t: nat, q: nat)
    requires Shape(s) && Located(s) && t < |s.tickets| && BeingPushed(s.tickets[t].loc) && q < |s.queues|
    ensures Located(Enqueue(s, t, q))
  {
    var s' := Enqueue(s, t, q);
    assert t !in s.queues[q].items;
    forall k | 0 <= k < |s'.tickets| ensures Placed(s', k, s'.tickets[k].loc) {
      assert Placed(s, k, s.tickets[k].loc);
      if k == t { assert s'.queues[q].items[|s.queues[q].items|] == t; }
    }
  }

  lemma DequeuePlaces(s: State, w: nat, q: nat, k: nat)
    requires Shape(s) && Located(s) && w < N(s) && !s.workers[w].Holding?
    requires q < |s.queues| && s.queues[q].items != [] && k < |s.tickets|
    ensures Placed(Dequeue(s, w, q), k, Dequeue(s, w, q).tickets[k].loc)
  {
    var items := s.queues[q].items;
    var l := s.tickets[k].loc;
    assert Placed(s, k, l);
    assert s.tickets[items[0]].loc == Queued(q);
    hide Located;
    if k != items[0] && l == Queued(q) {
      var i :| 0 <= i < |items| && items[i] == k;
      assert items[1..][i - 1] == k;
    }
  }

  lemma DequeueKeepsLocated(s: State, w: nat, q: nat)
    requires Shape(s) && Located(s) && w < N(s) && !s.workers[w].Holding?
    requires q < |s.queues| && s.queues[q].items != []
    ensures Located(Dequeue(s, w, q))
  {
    forall k | 0 <= k < |s.tickets| ensures Placed(Dequeue(s, w, q), k, Dequeue(s, w, q).tickets[k].loc) {
      DequeuePlaces(s, w, q, k);
    }
    hide Placed;
  }

  // Any other effect leaves the queues' items and the held handles alone.
  lemma OtherKeepsLocated(s: State, a: Action)
    requires Shape(s) && Located(s) && Enabled(s, a) && !a.Push? && !Takes(s, a) && !(a.TryPush? && a.ok)
    ensures Located(Step(s, a))
  {
    if a.TryPush? {
      MoveKeepsLocated(s, a.t, Step(s, a).tickets[a.t].loc);
    } else if a.ResumeTask? {
      ResumeKeepsLocated(s, a.w);
    } else if a.TrySteal? || a.Pop? || a.ReadStopped? || a.Spurious? {
      IdleKeepsLocated(s, a.w, Step(s, a).workers[a.w]);
    } else {
      RestKeepsLocated(s, a);
    }
  }

  lemma MoveKeepsLocated(s: State, t: nat, l: Loc)
    requires Shape(s) && Located(s) && t < |s.tickets| && BeingPushed(s.tickets[t].loc) && BeingPushed(l)
    ensures Located(Move(s, t, l))
  {
    forall k | 0 <= k < |s.tickets| ensures Placed(Move(s, t, l), k, Move(s, t, l).tickets[k].loc) {
      assert Placed(s, k, s.tickets[k].loc);
    }
  }

  lemma IdleKeepsLocated(s: State, w: nat, st: Worker)
    requires Shape(s) && Located(s) && w < N(s) && !s.workers[w].Holding? && !st.Holding?
    ensures Located(SetWorker(s, w, st))
  {
    forall k | 0 <= k < |s.tickets| ensures Placed(SetWorker(s, w, st), k, s.tickets[k].loc) {
      assert Placed(s, k, s.tickets[k].loc);
    }
  }

  lemma ResumeKeepsLocated(s: State, w: nat)
    requires Shape(s) && Located(s) && w < N(s) && s.workers[w].Holding?
    ensures Located(Move(SetWorker(s, w, LoopStart(s.steal)), s.workers[w].t, Resumed(w)))
  {
    var s' := Move(SetWorker(s, w, LoopStart(s.steal)), s.workers[w].t, Resumed(w));
    forall k | 0 <= k < |s.tickets| ensures Placed(s', k, s'.tickets[k].loc) {
      assert Placed(s, k, s.tickets[k].loc);
    }
  }

  lemma RestKeepsLocated(s: State, a: Action)
    requires Shape(s) && Located(s) && Enabled(s, a)
    requires a.Schedule? || a.NotifyOne? || a.SetStopped? || a.StopQueue? || a.NotifyAll? || a.JoinAll?
    ensures Located(Step(s, a))
  {
    LocatedFrame(s, Step(s, a)) by { hide Located; }
  }

  lemma LocatedFrame(s: State, s': State)
    requires Located(s) && |s'.queues| == |s.queues| && |s'.workers| == |s.workers| && |s.tickets| <= |s'.tickets|
    requires forall t :: 0 <= t < |s.tickets| ==> s'.tickets[t].loc == s.tickets[t].loc
    requires forall q :: 0 <= q < |s.queues| ==> s'.queues[q].items == s.queues[q].items
    requires forall w :: 0 <= w < |s.workers| && (s.workers[w].Holding? || s'.workers[w].Holding?) ==>
      s'.workers[w] == s.workers[w]
    requires forall t :: |s.tickets| <= t < |s'.tickets| ==> BeingPushed(s'.tickets[t].loc)
    ensures Located(s')
  {
    forall k | 0 <= k < |s'.tickets| ensures Placed(s', k, s'.tickets[k].loc) {
      if k < |s.tickets| { assert Placed(s, k, s.tickets[k].loc); }
    }
  }

  // The steps in which a worker takes an item, and from which queue.
  predicate Takes(s: State, a: Action)
    requires Shape(s) && Enabled(s, a)
  {
    (a.TrySteal? && a.ok) || (a.Pop? && s.queues[a.w].items != [])
  }

  function Source(s: State, a: Action): nat
    requires Shape(s) && Enabled(s, a) && Takes(s, a)
  {
    if a.Pop? then a.w else Victim(s, a.w, s.workers[a.w].i)
  }

  lemma StepKeepsLocated(s: State, a: Action)
    requires Shape(s) && Located(s) && Enabled(s, a)
    ensures Shape(Step(s, a)) && Located(Step(s, a))
  {
    hide Located;
    if Takes(s, a) {
      DequeueKeepsLocated(s, a.w, Source(s, a));
    } else if a.Push? {
      EnqueueKeepsLocated(s, a.t, a.q);
    } else if a.TryPush? && a.ok {
      EnqueueKeepsLocated(s, a.t, s.tickets[a.t].loc.i % N(s));
    } else {
      OtherKeepsLocated(s, a);
    }
  }

  lemma StepKeepsPinned(s: State, a: Action)
    requires Shape(s) && Located(s) && Pinned(s) && Enabled(s, a)
    ensures Pinned(Step(s, a))
  {
    if Takes(s, a) {
      TakeKeepsPinned(s, a.w, Source(s, a));
    } else if a.Push? {
      PushKeepsPinned(s, a.t, a.q);
    } else if a.TryPush? && a.ok {
      PushKeepsPinned(s, a.t, s.tickets[a.t].loc.i % N(s));
    } else {
      hide Located;
      hide Enqueue;
      hide Dequeue;
    }
  }

  lemma PushKeepsPinned(s: State, t: nat, q: nat)
    requires Shape(s) && Pinned(s) && t < |s.tickets| && q < |s.queues|
    requires s.tickets[t].pin.Some? ==> s.tickets[t].pin.value == q
    ensures Pinned(Enqueue(s, t, q))
  {
  }

  lemma TakeKeepsPinned(s: State, w: nat, q: nat)
    requires Shape(s) && Located(s) && Pinned(s) && w < N(s) && q < |s.queues| && s.queues[q].items != []
    requires q == w || s.tickets[s.queues[q].items[0]].pin.None?
    ensures Pinned(Dequeue(s, w, q))
  {
    assert s.tickets[s.queues[q].items[0]].loc == Queued(q);
  }

  // All that one step can do to one queue.
  ghost predicate QueueStep(b: Queue, a: Queue) {
    || a == b
    || (|a.items| > 0 && a == PushBack(b, a.items[|a.items| - 1]))
    || (b.items != [] && a == PopFront(b))
    || a == b.(stop := true)
  }

  lemma StepOnQueue(s: State, a: Action, q: nat)
    requires Shape(s) && Located(s) && Enabled(s, a) && q < |s.queues|
    ensures |Step(s, a).queues| == |s.queues| && QueueStep(s.queues[q], Step(s, a).queues[q])
  {
    if Takes(s, a) {
      TakeOnQueue(s, a.w, Source(s, a), q);
    } else if a.Push? {
      PushOnQueue(s, a.t, a.q, q);
    } else if a.TryPush? && a.ok {
      PushOnQueue(s, a.t, s.tickets[a.t].loc.i % N(s), q);
    } else {
      hide Located;
      hide Enqueue;
      hide Dequeue;
    }
  }

  lemma TakeOnQueue(s: State, w: nat, k: nat, q: nat)
    requires w < |s.workers| && k < |s.queues| && s.queues[k].items != [] && s.queues[k].items[0] < |s.tickets|
    requires q < |s.queues|
    ensures |Dequeue(s, w, k).queues| == |s.queues| && QueueStep(s.queues[q], Dequeue(s, w, k).queues[q])
  {
  }

  lemma PushOnQueue(s: State, t: nat, k: nat, q: nat)
    requires t < |s.tickets| && k < |s.queues| && q < |s.queues|
    ensures |Enqueue(s, t, k).queues| == |s.queues| && QueueStep(s.queues[q], Enqueue(s, t, k).queues[q])
  {
  }

  lemma QueueStepInOrder(b: Queue, a: Queue)
    requires InOrder(b) && QueueStep(b, a)
    ensures InOrder(a)
  {
    if b.items != [] { assert b.items == [b.items[0]] + b.items[1..]; }
  }

  lemma StepKeepsFifo(s: State, a: Action)
    requires Shape(s) && Located(s) && Fifo(s) && Enabled(s, a)
    ensures Fifo(Step(s, a))
  {
    StepOnQueue(s, a, 0);
    forall q | 0 <= q < |s.queues| ensures InOrder(Step(s, a).queues[q]) {
      StepOnQueue(s, a, q);
      hide *;
      QueueStepInOrder(s.queues[q], Step(s, a).queues[q]);
    }
  }

  lemma TakeKeepsStopOrder(s: State, w: nat, q: nat)
    requires Shape(s) && Located(s) && StopOrder(s) && w < N(s) && !Leaves(s.workers[w])
    requires q < |s.queues| && s.queues[q].items != [] && s.queues[q].items[0] < |s.tickets|
    ensures StopOrder(Dequeue(s, w, q))
  {
    hide Located;
    var items := s.queues[q].items;
    assert forall t :: t in items[1..] ==> t in items;
  }

  lemma EnqueueKeepsStopOrder(s: State, t: nat, q: nat)
    requires Shape(s) && StopOrder(s) && t < |s.tickets| && BeingPushed(s.tickets[t].loc) && q < |s.queues|
    ensures StopOrder(Enqueue(s, t, q))
  {
  }

  lemma SetWorkerKeepsStopOrder(s: State, w: nat, st: Worker)
    requires Shape(s) && StopOrder(s) && w < N(s) && !s.workers[w].Exited?
    requires Leaves(st) ==> s.queues[w].stop && forall t :: t in s.queues[w].items ==> t in s.inFlight
    ensures StopOrder(SetWorker(s, w, st))
  {
  }

  lemma WorkerKeepsStopOrder(s: State, a: Action)
    requires StopOrder(s) && Enabled(s, a) && !Takes(s, a)
    requires a.TrySteal? || a.Pop? || a.ReadStopped? || a.Spurious?
    ensures StopOrder(Step(s, a))
  {
    var st := Step(s, a).workers[a.w];
    assert Leaves(st) ==> s.queues[a.w].stop && forall t :: t in s.queues[a.w].items ==> t in s.inFlight;
    hide StopOrder;
    SetWorkerKeepsStopOrder(s, a.w, st);
  }

  lemma TicketKeepsStopOrder(s: State, a: Action)
    requires StopOrder(s) && Enabled(s, a) && ((a.TryPush? && !a.ok) || a.ResumeTask?)
    ensures StopOrder(Step(s, a))
  {
    if a.ResumeTask? { SetWorkerKeepsStopOrder(s, a.w, LoopStart(s.steal)); }
  }

  lemma StepKeepsStopOrder(s: State, a: Action)
    requires Shape(s) && Located(s) && StopOrder(s) && Enabled(s, a)
    ensures StopOrder(Step(s, a))
  {
    hide StopOrder;
    hide Located;
    if Takes(s, a) {
      NotLeaving(s, a);
      TakeKeepsStopOrder(s, a.w, Source(s, a));
    } else if a.Push? {
      EnqueueKeepsStopOrder(s, a.t, a.q);
    } else if a.TryPush? && a.ok {
      EnqueueKeepsStopOrder(s, a.t, s.tickets[a.t].loc.i % N(s));
    } else if a.TryPush? || a.ResumeTask? {
      TicketKeepsStopOrder(s, a);
    } else if a.TrySteal? || a.Pop? || a.ReadStopped? || a.Spurious? {
      WorkerKeepsStopOrder(s, a);
    } else {
      DestructorKeepsStopOrder(s, a);
    }
  }

  lemma NotLeaving(s: State, a: Action)
    requires Enabled(s, a) && Takes(s, a)
    ensures !Leaves(s.workers[a.w])
  {
  }

  lemma DestructorKeepsStopOrder(s: State, a: Action)
    requires Shape(s) && StopOrder(s) && Enabled(s, a)
    requires a.Schedule? || a.NotifyOne? || a.SetStopped? || a.StopQueue? || a.NotifyAll? || a.JoinAll?
    ensures StopOrder(Step(s, a))
  {
    match a
    case NotifyOne(t) => NotifyKeepsStopOrder(s, t);
    case StopQueue => StopQueueKeepsStopOrder(s);
    case NotifyAll => WakeKeepsStopOrder(s);
    case _ =>
  }

  lemma NotifyKeepsStopOrder(s: State, t: nat)
    requires StopOrder(s) && Enabled(s, NotifyOne(t))
    ensures StopOrder(Step(s, NotifyOne(t)))
  {
    hide Enqueue;
    hide Dequeue;
    var q := s.tickets[t].owes.value;
    assert StopOrder(Settle(s, t));
    if s.workers[q].Asleep? { SetWorkerKeepsStopOrder(Settle(s, t), q, AtPop); }
    hide StopOrder;
  }

  lemma StopQueueKeepsStopOrder(s: State)
    requires StopOrder(s) && Enabled(s, StopQueue)
    ensures StopOrder(Step(s, StopQueue))
  {
  }

  lemma WakeKeepsStopOrder(s: State)
    requires StopOrder(s) && Enabled(s, NotifyAll)
    ensures StopOrder(Step(s, NotifyAll))
  {
  }

  // ---------- Calls ----------

  lemma EnqueueKeepsCalls(s: State, t: nat, q: nat)
    requires Shape(s) && Calls(s) && t < |s.tickets| && BeingPushed(s.tickets[t].loc) && q < |s.queues|
    ensures Calls(Enqueue(s, t, q))
  {
    var s' := Enqueue(s, t, q);
    assert CallOk(s, s.tickets[t]);
    forall k | 0 <= k < |s'.tickets| ensures CallOk(s', s'.tickets[k]) { assert CallOk(s, s.tickets[k]); }
    forall w | 0 <= w < |s'.workers| && Leaves(s'.workers[w]) ensures NoneOwn(s', w) { assert NoneOwn(s, w); }
  }

  lemma DequeueKeepsCalls(s: State, w: nat, q: nat)
    requires Shape(s) && Calls(s) && w < N(s) && !Leaves(s.workers[w])
    requires q < |s.queues| && s.queues[q].items != [] && s.queues[q].items[0] < |s.tickets|
    requires !BeingPushed(s.tickets[s.queues[q].items[0]].loc)
    ensures Calls(Dequeue(s, w, q))
  {
    var s' := Dequeue(s, w, q);
    forall k | 0 <= k < |s'.tickets| ensures CallOk(s', s'.tickets[k]) { assert CallOk(s, s.tickets[k]); }
    assert forall t :: t in s.queues[q].items[1..] ==> t in s.queues[q].items;
    forall x | 0 <= x < |s'.workers| && Leaves(s'.workers[x]) ensures NoneOwn(s', x) { assert NoneOwn(s, x); }
  }

  lemma SetWorkerKeepsCalls(s: State, w: nat, st: Worker)
    requires Shape(s) && Calls(s) && w < N(s) && (s.workers[w].Holding? ==> !Busy(s, w))
    requires Leaves(st) ==> NoneOwn(s, w)
    ensures Calls(SetWorker(s, w, st))
  {
    var s' := SetWorker(s, w, st);
    forall k | 0 <= k < |s'.tickets| ensures CallOk(s', s'.tickets[k]) { assert CallOk(s, s.tickets[k]); }
    forall x | 0 <= x < |s'.workers| && Leaves(s'.workers[x]) ensures NoneOwn(s', x) {
      if x != w { assert NoneOwn(s, x); }
    }
  }

  // A ticket that moves without beginning or ending a push, or that has notified.
  lemma TicketKeepsCalls(s: State, t: nat, to: Ticket)
    requires Shape(s) && Calls(s) && t < |s.tickets| && to.caller == s.tickets[t].caller
    requires InCall(to) ==> InCall(s.tickets[t])
    requires to.owes.Some? ==> to.owes == s.tickets[t].owes && !BeingPushed(to.loc)
    ensures Calls(s.(tickets := s.tickets[t := to]))
  {
    var s' := s.(tickets := s.tickets[t := to]);
    forall k | 0 <= k < |s'.tickets| ensures CallOk(s', s'.tickets[k]) { assert CallOk(s, s.tickets[k]); }
    forall x | 0 <= x < |s'.workers| && Leaves(s'.workers[x]) ensures NoneOwn(s', x) { assert NoneOwn(s, x); }
  }

  lemma ScheduleKeepsCalls(s: State, a: Action)
    requires Shape(s) && Located(s) && Calls(s) && a.Schedule? && Enabled(s, a)
    ensures Calls(Step(s, a))
  {
    var s' := Step(s, a);
    forall k | 0 <= k < |s'.tickets| ensures CallOk(s', s'.tickets[k]) {
      if k < |s.tickets| { assert CallOk(s, s.tickets[k]); }
    }
    forall x | 0 <= x < |s'.workers| && Leaves(s'.workers[x]) ensures NoneOwn(s', x) { assert NoneOwn(s, x); }
  }

  lemma WorkerKeepsCalls(s: State, a: Action)
    requires Shape(s) && Located(s) && Calls(s) && Enabled(s, a) && !Takes(s, a)
    requires a.TrySteal? || a.Pop? || a.ReadStopped? || a.Spurious? || a.ResumeTask?
    ensures Calls(Step(s, a))
  {
    var st := Step(s, a).workers[a.w];
    assert Leaves(st) ==> NoneOwn(s, a.w);
    if a.ResumeTask? { assert s.tickets[s.workers[a.w].t].loc == InHand(a.w); }
    hide Calls;
    hide Located;
    SetWorkerKeepsCalls(s, a.w, st);
    if a.ResumeTask? {
      var t := s.workers[a.w].t;
      TicketKeepsCalls(SetWorker(s, a.w, st), t, s.tickets[t].(loc := Resumed(a.w)));
    }
  }

  lemma WakeKeepsCalls(s: State, w: nat)
    requires Shape(s) && Calls(s) && w < N(s)
    ensures Calls(Wake(s, w))
  {
    if s.workers[w].Asleep? { SetWorkerKeepsCalls(s, w, AtPop); }
  }

  lemma DestructorKeepsCalls(s: State, a: Action)
    requires Shape(s) && Calls(s) && Enabled(s, a)
    requires a.NotifyOne? || a.SetStopped? || a.StopQueue? || a.NotifyAll? || a.JoinAll?
    ensures Calls(Step(s, a))
  {
    if a.NotifyOne? {
      TicketKeepsCalls(s, a.t, s.tickets[a.t].(owes := None));
      WakeKeepsCalls(Settle(s, a.t), s.tickets[a.t].owes.value);
    } else {
      FlagsKeepCalls(s, a);
    }
  }

  lemma FlagsKeepCalls(s: State, a: Action)
    requires Shape(s) && Calls(s) && Enabled(s, a) && (a.SetStopped? || a.StopQueue? || a.NotifyAll? || a.JoinAll?)
    ensures Calls(Step(s, a))
  {
    if a.NotifyAll? {
      var s1 := s.(dtor := Stopping(s.dtor.q + 1));
      CallsFrame(s, s1);
      WakeKeepsCalls(s1, s.dtor.q);
    } else {
      CallsFrame(s, Step(s, a)) by { hide Calls; }
    }
  }

  lemma CallsFrame(s: State, s': State)
    requires Calls(s) && s'.tickets == s.tickets && s'.workers == s.workers && |s'.queues| == |s.queues|
    requires forall q :: 0 <= q < |s.queues| ==> s'.queues[q].items == s.queues[q].items
    ensures Calls(s')
  {
    forall k | 0 <= k < |s.tickets| ensures CallOk(s', s.tickets[k]) { assert CallOk(s, s.tickets[k]); }
    forall x | 0 <= x < |s.workers| && x < |s.queues| && Leaves(s.workers[x]) ensures NoneOwn(s', x) {
      assert NoneOwn(s, x);
    }
  }

  /** Every step keeps: a worker whose coroutine is inside a call is still resuming it, so it leaves
      only with nothing of its own making in its queue. */
  lemma StepKeepsCalls(s: State, a: Action)
    requires Shape(s) && Located(s) && Calls(s) && Enabled(s, a)
    ensures Calls(Step(s, a))
  {
    if Takes(s, a) {
      NotLeaving(s, a);
      assert s.tickets[s.queues[Source(s, a)].items[0]].loc == Queued(Source(s, a));
    }
    hide Calls;
    hide Located;
    if Takes(s, a) {
      DequeueKeepsCalls(s, a.w, Source(s, a));
    } else if a.Push? {
      EnqueueKeepsCalls(s, a.t, a.q);
    } else if a.TryPush? && a.ok {
      EnqueueKeepsCalls(s, a.t, s.tickets[a.t].loc.i % N(s));
    } else if a.TryPush? {
      TryKeepsCalls(s, a.t, Step(s, a).tickets[a.t].loc);
    } else if a.Schedule? {
      ScheduleKeepsCalls(s, a);
    } else if a.TrySteal? || a.Pop? || a.ReadStopped? || a.Spurious? || a.ResumeTask? {
      WorkerKeepsCalls(s, a);
    } else {
      DestructorKeepsCalls(s, a);
    }
  }

  lemma TryKeepsCalls(s: State, t: nat, l: Loc)
    requires Shape(s) && Calls(s) && t < |s.tickets| && BeingPushed(s.tickets[t].loc) && BeingPushed(l)
    ensures Calls(Move(s, t, l))
  {
    assert CallOk(s, s.tickets[t]);
    hide Calls;
    TicketKeepsCalls(s, t, s.tickets[t].(loc := l));
  }

  // ---------- Wake-ups ----------

  // Only the notify itself settles what a call owes.
  lemma OwedStays(s: State, a: Action, q: nat)
    requires Shape(s) && Calls(s) && Enabled(s, a) && Owed(s, q)
    requires a.NotifyOne? ==> s.tickets[a.t].owes != Some(q)
    ensures Owed(Step(s, a), q)
  {
    var t :| 0 <= t < |s.tickets| && s.tickets[t].owes == Some(q);
    assert CallOk(s, s.tickets[t]);
    assert Step(s, a).tickets[t].owes == Some(q);
  }

  lemma StepKeepsWakesAt(s: State, a: Action, w: nat)
    requires Shape(s) && StopOrder(s) && Calls(s) && Enabled(s, a) && w < N(s) && WakesAt(s, w)
    ensures |Step(s, a).workers| == |s.workers| && |Step(s, a).queues| == |s.queues| && WakesAt(Step(s, a), w)
  {
    StepKeepsWorkerCount(s, a);
    var s' := Step(s, a);
    assert s.queues[w].stop <==> StopReached(s, w);
    hide StopOrder;
    if s'.workers[w].Asleep? {
      if s'.queues[w].items != [] { WorkIsOwed(s, a, w); }
      hide Owed;
      hide Calls;
      StopIsNotified(s, a, w);
    }
  }

  lemma WorkIsOwed(s: State, a: Action, w: nat)
    requires Shape(s) && Calls(s) && Enabled(s, a) && w < N(s) && WakesAt(s, w)
    requires |Step(s, a).workers| == |s.workers| && |Step(s, a).queues| == |s.queues|
    requires Step(s, a).workers[w].Asleep? && Step(s, a).queues[w].items != []
    ensures Owed(Step(s, a), w)
  {
    var s' := Step(s, a);
    if (a.Push? && a.q == w) || (a.TryPush? && a.ok && s.tickets[a.t].loc.i % N(s) == w) {
      assert s'.tickets[a.t].owes == Some(w);
    } else {
      AsleepAlready(s, a, w);
      OwedStays(s, a, w);
    }
  }

  // Whoever sleeps over work after a step that did not bring it slept over work before.
  lemma AsleepAlready(s: State, a: Action, w: nat)
    requires Shape(s) && Enabled(s, a) && w < N(s)
    requires |Step(s, a).workers| == |s.workers| && |Step(s, a).queues| == |s.queues|
    requires Step(s, a).workers[w].Asleep? && Step(s, a).queues[w].items != []
    requires !(a.Push? && a.q == w) && !(a.TryPush? && a.ok && s.tickets[a.t].loc.i % N(s) == w)
    ensures s.workers[w].Asleep? && s.queues[w].items != []
    ensures a.NotifyOne? ==> s.tickets[a.t].owes != Some(w)
  {
  }

  lemma StopIsNotified(s: State, a: Action, w: nat)
    requires Shape(s) && Enabled(s, a) && w < N(s) && WakesAt(s, w)
    requires s.queues[w].stop <==> StopReached(s, w)
    requires |Step(s, a).workers| == |s.workers| && |Step(s, a).queues| == |s.queues|
    requires Step(s, a).workers[w].Asleep?
    ensures Step(s, a).queues[w].stop ==> Step(s, a).dtor == NotifyingAll(w)
  {
    hide Owed;
    hide Busy;
    hide Enqueue;
    hide Dequeue;
    if !a.StopQueue? && !a.NotifyAll? {
      StopFlagStays(s, a, w);
      SleptOrEmpty(s, a, w);
      hide Wake;
      hide SetWorker;
      hide Move;
      hide Settle;
    }
  }

  lemma SleptOrEmpty(s: State, a: Action, w: nat)
    requires Enabled(s, a) && w < N(s) && w < |Step(s, a).workers| && Step(s, a).workers[w].Asleep?
    ensures s.workers[w].Asleep? || !s.queues[w].stop
    ensures a.SetStopped? || a.StopQueue? || a.NotifyAll? || a.JoinAll? || Step(s, a).dtor == s.dtor
  {
  }

  lemma StopFlagStays(s: State, a: Action, w: nat)
    requires Enabled(s, a) && w < N(s) && !a.StopQueue? && w < |Step(s, a).queues|
    ensures Step(s, a).queues[w].stop == s.queues[w].stop
  {
  }

  lemma StepKeepsWakes(s: State, a: Action)
    requires Shape(s) && StopOrder(s) && Calls(s) && Wakes(s) && Enabled(s, a)
    ensures Wakes(Step(s, a))
  {
    hide Step;
    hide StopOrder;
    hide Calls;
    StepKeepsWakesAt(s, a, 0);
    forall w | 0 <= w < |s.workers| ensures WakesAt(Step(s, a), w) {
      StepKeepsWakesAt(s, a, w);
    }
  }

  lemma StepKeepsWorkerCount(s: State, a: Action)
    requires Enabled(s, a)
    ensures |Step(s, a).workers| == |s.workers| && |Step(s, a).queues| == |s.queues|
  {
    match a
    case NotifyOne(t) =>
    case _ =>
  }

  /** Every step of every interleaving keeps the invariant. */
  lemma StepKeepsInv(s: State, a: Action)
    requires Inv(s) && Enabled(s, a)
    ensures Inv(Step(s, a))
  {
    StepKeepsLocated(s, a);
    StepKeepsPinned(s, a);
    StepKeepsFifo(s, a);
    StepKeepsStopOrder(s, a);
    StepKeepsCalls(s, a);
    StepKeepsWakes(s, a);
  }

  // ---------- Runs ----------

  ghost predicate Allowed(s: State, run: seq<Action>)
    decreases |run|
  {
    run == [] || (Enabled(s, run[0]) && Allowed(Step(s, run[0]), run[1..]))
  }

  ghost function Run(s: State, run: seq<Action>): State
    requires Allowed(s, run)
    decreases |run|
  {
    if run == [] then s else Run(Step(s, run[0]), run[1..])
  }

  lemma {:induction false} RunKeepsInv(s: State, run: seq<Action>)
    requires Inv(s) && Allowed(s, run)
    ensures Inv(Run(s, run))
    decreases |run|
  {
    hide Inv;
    hide Enabled;
    if run != [] {
      StepKeepsInv(s, run[0]);
      hide Step;
      RunKeepsInv(Step(s, run[0]), run[1..]);
    }
  }

  // A ScheduleById call: the id it was given, and who made it.
  datatype Call = Call(pin: Option<nat>, caller: Option<nat>)

  /** The ScheduleById calls of a run, in order. */
  function CallsOf(run: seq<Action>): seq<Call>
    decreases |run|
  {
    if run == [] then [] else CallOf(run[0]) + CallsOf(run[1..])
  }

  function CallOf(a: Action): seq<Call> { if a.Schedule? then [Call(a.pin, a.caller)] else [] }

  function TermsOf(tickets: seq<Ticket>): (r: seq<Call>)
    ensures |r| == |tickets|
  {
    seq(|tickets|, i requires 0 <= i < |tickets| => Call(tickets[i].pin, tickets[i].caller))
  }

  lemma StepTerms(s: State, a: Action)
    requires Enabled(s, a)
    ensures TermsOf(Step(s, a).tickets) == TermsOf(s.tickets) + CallOf(a)
  {
    if !a.Schedule? {
      assert |Step(s, a).tickets| == |s.tickets|;
      forall t | 0 <= t < |s.tickets| ensures TermsOf(Step(s, a).tickets)[t] == TermsOf(s.tickets)[t] {
        StepKeepsTerms(s, a, t);
      }
    }
  }

  lemma {:induction false} TicketsAreCalls(s: State, run: seq<Action>)
    requires Allowed(s, run)
    ensures TermsOf(Run(s, run).tickets) == TermsOf(s.tickets) + CallsOf(run)
    decreases |run|
  {
    if run != [] {
      hide Step;
      hide Enabled;
      hide TermsOf;
      hide CallOf;
      StepTerms(s, run[0]);
      TicketsAreCalls(Step(s, run[0]), run[1..]);
      var terms, call, calls := TermsOf(s.tickets), CallOf(run[0]), CallsOf(run[1..]);
      assert terms + call + calls == terms + (call + calls);
    }
  }

  /** Safety of every run: every ScheduleById call is a ticket with the id it was given; each handle is
      in exactly one place, each queue is consumed in push order, a handle scheduled to an explicit id
      is resumed by that worker only, and what was resumed once is not resumed again, whatever
      follows. */
  lemma EveryRunIsSafe(n: nat, steal: bool, run: seq<Action>)
    requires n > 0 && Allowed(Init(n, steal), run)
    ensures var s, calls := Run(Init(n, steal), run), CallsOf(run);
      && |s.tickets| == |calls| && TermsOf(s.tickets) == calls
      && Located(s) && Fifo(s) && Wakes(s)
      && (forall t :: 0 <= t < |calls| && s.tickets[t].loc.Resumed? && calls[t].pin.Some? ==>
            s.tickets[t].loc == Resumed(calls[t].pin.value))
      && (forall t :: 0 <= t < |s.tickets| && s.tickets[t].loc.Resumed? ==> StaysResumed(s, t))
  {
    InitInv(n, steal);
    RunKeepsInv(Init(n, steal), run);
    TicketsAreCalls(Init(n, steal), run);
    var s, calls := Run(Init(n, steal), run), CallsOf(run);
    assert TermsOf([]) == [] && [] + calls == calls;
    forall t | 0 <= t < |s.tickets| && s.tickets[t].loc.Resumed? ensures StaysResumed(s, t) {
      forall more | Allowed(s, more)
        ensures t < |Run(s, more).tickets| && Run(s, more).tickets[t].loc == s.tickets[t].loc
      {
        ResumedOnce(s, more, t);
      }
    }
    assert Pinned(s);
    forall t | 0 <= t < |calls| && s.tickets[t].loc.Resumed? && calls[t].pin.Some?
      ensures s.tickets[t].loc == Resumed(calls[t].pin.value)
    {
      assert TermsOf(s.tickets)[t] == Call(s.tickets[t].pin, s.tickets[t].caller);
    }
  }

  // No continuation moves ticket t, which was resumed, again.
  ghost predicate StaysResumed(s: State, t: nat)
    requires t < |s.tickets|
  {
    forall more :: Allowed(s, more) ==> t < |Run(s, more).tickets| && Run(s, more).tickets[t].loc == s.tickets[t].loc
  }

  /** A false pop always ends the worker: queue stop implies stopped_. */
  lemma FalsePopEndsWorker(s: State, w: nat)
    requires Inv(s) && Enabled(s, ReadStopped(w))
    ensures Step(s, ReadStopped(w)).workers[w] == Exited
  {
  }

  /** Shutdown drains: once all workers have exited, a handle that was not still being pushed when
      the destructor set stopped_ has been resumed. */
  lemma ShutdownDrains(s: State)
    requires Inv(s) && AllExited(s)
    ensures forall t :: 0 <= t < |s.tickets| && t !in s.inFlight ==> s.tickets[t].loc.Resumed?
    ensures s.inFlight == {} ==> forall q :: 0 <= q < |s.queues| ==> s.queues[q].items == []
  {
    assert s.workers[0].Exited?;
    forall t | 0 <= t < |s.tickets| ensures s.tickets[t].loc.Resumed? || t in s.inFlight {
      TicketAtEnd(s, t);
    }
    forall q | 0 <= q < |s.queues| && s.queues[q].items != [] ensures s.queues[q].items[0] in s.inFlight {
      assert Leaves(s.workers[q]) && s.queues[q].items[0] in s.queues[q].items;
    }
  }

  lemma TicketAtEnd(s: State, t: nat)
    requires Inv(s) && AllExited(s) && t < |s.tickets|
    ensures s.tickets[t].loc.Resumed? || t in s.inFlight
  {
    assert Placed(s, t, s.tickets[t].loc);
    assert s.workers[0].Exited? && Leaves(s.workers[0]);
    match s.tickets[t].loc
    case Queued(q) => assert Leaves(s.workers[q]);
    case InHand(w) => assert false;
    case _ =>
  }

  // ---------- Termination ----------

  // A step the pool takes by itself.
  predicate Quiet(a: Action) { !a.Schedule? && !a.SetStopped? && !a.Spurious? }

  function LocLoad(l: Loc, n: nat): nat {
    match l
    case Trying(i) => if i < 2 * n then 3 * n + 8 - i else n + 8
    case Pushing => n + 7
    case Queued(_) => n + 3
    case InHand(_) => 0
    case Resumed(_) => 0
  }

  function StateLoad(w: Worker, n: nat): nat {
    match w
    case Stealing(i) => 3 + (if i < n then n - i else 0)
    case AtPop => 2
    case Asleep => 0
    case PopFailed => 1
    case Holding(_) => n + 4
    case Exited => 0
  }

  function TicketLoad(n: nat): Ticket -> nat {
    (t: Ticket) => LocLoad(t.loc, n) + if t.owes.Some? then 3 else 0
  }

  function WorkerLoad(n: nat): Worker -> nat { (w: Worker) => StateLoad(w, n) }

  function DestructorLoad(d: Destructor, n: nat): nat {
    match d
    case NotBegun => 0
    case Stopping(q) => if q < n then 4 * (n - q) + 2 else 2
    case NotifyingAll(q) => if q < n then 4 * (n - q) + 1 else 1
    case Joining => 1
    case Joined => 0
  }

  function Measure(s: State): nat {
    Sum(s.tickets, TicketLoad(N(s))) + Sum(s.workers, WorkerLoad(N(s))) + DestructorLoad(s.dtor, N(s))
  }

  lemma EnqueueDecreases(s: State, t: nat, q: nat)
    requires Shape(s) && t < |s.tickets| && BeingPushed(s.tickets[t].loc) && q < N(s)
    ensures Measure(Enqueue(s, t, q)) < Measure(s)
  {
    hide Sum;
    SumUpdate(s.tickets, t, s.tickets[t].(loc := Queued(q), owes := Some(q)), TicketLoad(N(s)));
  }

  lemma DequeueDecreases(s: State, w: nat, q: nat)
    requires Shape(s) && w < N(s) && (s.workers[w].AtPop? || s.workers[w].Stealing?)
    requires q < N(s) && s.queues[q].items != [] && s.queues[q].items[0] < |s.tickets|
    requires s.tickets[s.queues[q].items[0]].loc.Queued?
    ensures Measure(Dequeue(s, w, q)) < Measure(s)
  {
    hide Sum;
    var t := s.queues[q].items[0];
    SumUpdate(s.workers, w, Holding(t), WorkerLoad(N(s)));
    SumUpdate(s.tickets, t, s.tickets[t].(loc := InHand(w)), TicketLoad(N(s)));
  }

  lemma SetWorkerChanges(s: State, w: nat, st: Worker)
    requires w < N(s)
    ensures Measure(SetWorker(s, w, st)) == Measure(s) - StateLoad(s.workers[w], N(s)) + StateLoad(st, N(s))
  {
    hide Sum;
    SumUpdate(s.workers, w, st, WorkerLoad(N(s)));
  }

  lemma MoveChanges(s: State, t: nat, l: Loc)
    requires t < |s.tickets|
    ensures Measure(Move(s, t, l)) == Measure(s) - LocLoad(s.tickets[t].loc, N(s)) + LocLoad(l, N(s))
  {
    hide Sum;
    SumUpdate(s.tickets, t, s.tickets[t].(loc := l), TicketLoad(N(s)));
  }

  lemma WakeAdds(s: State, w: nat)
    requires w < N(s)
    ensures Measure(Wake(s, w)) <= Measure(s) + 2
  {
    SetWorkerChanges(s, w, AtPop);
    hide Measure;
  }

  lemma TakeDecreases(s: State, a: Action)
    requires Inv(s) && Enabled(s, a) && Takes(s, a)
    ensures Measure(Step(s, a)) < Measure(s)
  {
    var q := Source(s, a);
    assert s.tickets[s.queues[q].items[0]].loc == Queued(q);
    hide Inv;
    hide Measure;
    DequeueDecreases(s, a.w, q);
  }

  lemma NotifyDecreases(s: State, t: nat)
    requires Enabled(s, NotifyOne(t))
    ensures Measure(Step(s, NotifyOne(t))) < Measure(s)
  {
    hide Sum;
    hide Wake;
    SumUpdate(s.tickets, t, s.tickets[t].(owes := None), TicketLoad(N(s)));
    WakeAdds(Settle(s, t), s.tickets[t].owes.value);
  }

  lemma NotifyAllDecreases(s: State)
    requires Enabled(s, NotifyAll)
    ensures Measure(Step(s, NotifyAll)) < Measure(s)
  {
    hide Sum;
    hide Wake;
    WakeAdds(s.(dtor := Stopping(s.dtor.q + 1)), s.dtor.q);
  }

  lemma WorkerDecreases(s: State, a: Action)
    requires Inv(s) && Enabled(s, a) && !Takes(s, a) && (a.TrySteal? || a.Pop? || a.ReadStopped?)
    ensures Measure(Step(s, a)) < Measure(s)
  {
    if a.ReadStopped? { FalsePopEndsWorker(s, a.w); }
    hide Inv;
    hide Measure;
    hide Enqueue;
    hide Dequeue;
    SetWorkerChanges(s, a.w, Step(s, a).workers[a.w]);
  }

  /** Left to itself the pool makes progress with every step it takes. */
  lemma QuietStepsDecrease(s: State, a: Action)
    requires Inv(s) && Enabled(s, a) && Quiet(a)
    ensures Measure(Step(s, a)) < Measure(s)
  {
    hide Inv;
    hide Measure;
    match a
    case TryPush(t, ok) =>
      if ok {
        EnqueueDecreases(s, t, s.tickets[t].loc.i % N(s));
      } else {
        MoveChanges(s, t, Step(s, a).tickets[t].loc);
      }
    case Push(t, q) => EnqueueDecreases(s, t, q);
    case NotifyOne(t) => NotifyDecreases(s, t);
    case TrySteal(w, ok) => if ok { TakeDecreases(s, a); } else { WorkerDecreases(s, a); }
    case Pop(w) => if s.queues[w].items != [] { TakeDecreases(s, a); } else { WorkerDecreases(s, a); }
    case ReadStopped(w) => WorkerDecreases(s, a);
    case ResumeTask(w) => ResumeDecreases(s, w);
    case NotifyAll => NotifyAllDecreases(s);
    case _ => DestructorDecreases(s, a);
  }

  lemma ResumeDecreases(s: State, w: nat)
    requires Inv(s) && Enabled(s, ResumeTask(w))
    ensures Measure(Step(s, ResumeTask(w))) < Measure(s)
  {
    var t, s1 := s.workers[w].t, SetWorker(s, w, LoopStart(s.steal));
    assert s.tickets[t].loc == InHand(w) && N(s1) == N(s) > 0;
    assert Step(s, ResumeTask(w)) == Move(s1, t, Resumed(w));
    hide Measure;
    hide Inv;
    hide Step;
    hide Enabled;
    SetWorkerChanges(s, w, LoopStart(s.steal));
    MoveChanges(s1, t, Resumed(w));
  }

  lemma DestructorDecreases(s: State, a: Action)
    requires Enabled(s, a) && (a.StopQueue? || a.JoinAll?)
    ensures Measure(Step(s, a)) < Measure(s)
  {
    hide Sum;
  }

  lemma {:induction false} QuietRunsEnd(s: State, run: seq<Action>)
    requires Inv(s) && Allowed(s, run) && forall i :: 0 <= i < |run| ==> Quiet(run[i])
    ensures |run| + Measure(Run(s, run)) <= Measure(s)
    decreases |run|
  {
    hide Measure;
    hide Enabled;
    hide Inv;
    if run != [] {
      QuietStepsDecrease(s, run[0]);
      StepKeepsInv(s, run[0]);
      hide Step;
      QuietRunsEnd(Step(s, run[0]), run[1..]);
    }
  }

  ghost predicate Stuck(s: State) { forall a :: Quiet(a) ==> !Enabled(s, a) }

  // The next step of a ScheduleById call that has not returned.
  function CallStep(s: State, t: nat): Action
    requires t < |s.tickets|
  {
    var ticket := s.tickets[t];
    if ticket.loc.Trying? then TryPush(t, false)
    else if ticket.loc.Pushing? then Push(t, if ticket.pin.Some? then ticket.pin.value else 0)
    else NotifyOne(t)
  }

  lemma CallStepEnabled(s: State, t: nat)
    requires Inv(s) && t < |s.tickets| && InCall(s.tickets[t])
    ensures Enabled(s, CallStep(s, t)) && Quiet(CallStep(s, t))
  {
    assert CallOk(s, s.tickets[t]);
  }

  lemma StuckParts(s: State)
    requires Inv(s) && Stuck(s)
    ensures forall w :: 0 <= w < N(s) ==> s.workers[w].Asleep? || s.workers[w].Exited?
    ensures forall t :: 0 <= t < |s.tickets| ==> !InCall(s.tickets[t])
  {
    forall t | 0 <= t < |s.tickets| ensures !InCall(s.tickets[t]) {
      if InCall(s.tickets[t]) { CallStepEnabled(s, t); }
    }
    forall w | 0 <= w < N(s) ensures s.workers[w].Asleep? || s.workers[w].Exited? {
      assert !Enabled(s, TrySteal(w, false)) && !Enabled(s, Pop(w));
      assert !Enabled(s, ReadStopped(w)) && !Enabled(s, ResumeTask(w));
    }
  }

  /** The pool never hangs: before the destructor runs it only stops moving with every accepted
      handle resumed; once the destructor has begun, only with all workers joined, all pushes
      finished, and every handle resumed that was not still being pushed when stopped_ was set. */
  lemma StuckOnlyWhenFinished(s: State)
    requires Inv(s) && Stuck(s)
    ensures !s.stopped ==> forall t :: 0 <= t < |s.tickets| ==> s.tickets[t].loc.Resumed?
    ensures s.stopped ==> s.dtor.Joined? && AllExited(s)
    ensures s.stopped ==> forall t :: 0 <= t < |s.tickets| && t !in s.inFlight ==> s.tickets[t].loc.Resumed?
  {
    StuckParts(s);
    if s.stopped {
      assert !Enabled(s, StopQueue) && !Enabled(s, NotifyAll) && !Enabled(s, JoinAll);
      forall w | 0 <= w < N(s) ensures s.workers[w].Exited? {
        assert WakesAt(s, w);
        assert s.queues[w].stop <==> StopReached(s, w);
      }
      ShutdownDrains(s);
    } else {
      forall q | 0 <= q < N(s) ensures s.queues[q].items == [] { IdleQueueIsEmpty(s, q); }
      assert forall t :: 0 <= t < |s.tickets| ==> Placed(s, t, s.tickets[t].loc);
    }
  }

  lemma IdleQueueIsEmpty(s: State, q: nat)
    requires Inv(s) && !s.stopped && q < N(s) && !Owed(s, q)
    requires s.workers[q].Asleep? || s.workers[q].Exited?
    ensures s.queues[q].items == []
  {
    var worker, queue := s.workers[q], s.queues[q];
    assert WakesAt(s, q);
    assert Leaves(worker) ==> queue.stop;
    assert queue.stop <==> StopReached(s, q);
  }

  // ---------- Which queues are tried ----------

  // k tries in a row that find the lock taken.
  function FailedPushes(t: nat, k: nat): seq<Action> { seq(k, _ => TryPush(t, false)) }

  function FailedSteals(w: nat, k: nat): seq<Action> { seq(k, _ => TrySteal(w, false)) }

  lemma {:induction false} AfterFailedPushes(s: State, t: nat, i: nat, k: nat)
    requires Shape(s) && t < |s.tickets| && s.tickets[t].loc == Trying(i) && i + k <= 2 * N(s) && i < 2 * N(s)
    ensures Allowed(s, FailedPushes(t, k))
    ensures Run(s, FailedPushes(t, k)) ==
      Move(s, t, if i + k < 2 * N(s) then Trying(i + k) else Pushing)
    decreases k
  {
    if k == 0 {
      assert Move(s, t, Trying(i)) == s;
    } else {
      var run := FailedPushes(t, k);
      assert run[1..] == FailedPushes(t, k - 1);
      var s1 := Step(s, run[0]);
      if k > 1 {
        AfterFailedPushes(s1, t, i + 1, k - 1);
        MoveTwice(s, t, Trying(i + 1), Pushing);
        MoveTwice(s, t, Trying(i + 1), Trying(i + k));
      } else {
        assert run[1..] == [];
      }
      RunStep(s, run);
    }
  }

  lemma MoveTwice(s: State, t: nat, k: Loc, l: Loc)
    requires t < |s.tickets|
    ensures Move(Move(s, t, k), t, l) == Move(s, t, l)
  {
    var ts := s.tickets;
    assert ts[t := ts[t].(loc := k)][t := ts[t].(loc := l)] == ts[t := ts[t].(loc := l)];
  }

  /** A call without an id in a stealing pool tries every queue twice, in order, before it waits for
      one: whichever try succeeds, the handle is in the queue whose turn it is; if none does, it is
      pushed to any. */
  lemma TriesReachEveryQueue(s: State, caller: Option<nat>, j: nat, q: nat)
    requires s.steal && Enabled(s, Schedule(None, caller)) && j <= 2 * N(s) && q < N(s)
    ensures var t := |s.tickets|;
      var last := if j < 2 * N(s) then TryPush(t, true) else Push(t, q);
      var run := [Schedule(None, caller)] + (FailedPushes(t, j) + [last]);
      && Allowed(s, run) && t < |Run(s, run).tickets|
      && Run(s, run).tickets[t].loc == Queued(if j < 2 * N(s) then j % N(s) else q)
  {
    var t, a := |s.tickets|, Schedule(None, caller);
    var s1 := Step(s, a);
    AfterFailedPushes(s1, t, 0, j);
    var s2 := Run(s1, FailedPushes(t, j));
    var last := if j < 2 * N(s) then TryPush(t, true) else Push(t, q);
    assert [last][1..] == [];
    RunStep(s2, [last]);
    RunAppend(s1, FailedPushes(t, j), [last]);
    var run := [a] + (FailedPushes(t, j) + [last]);
    assert run[1..] == FailedPushes(t, j) + [last];
    RunStep(s, run);
  }

  lemma {:induction false} AfterFailedSteals(s: State, w: nat, i: nat, k: nat)
    requires Shape(s) && w < N(s) && s.workers[w] == Stealing(i) && i + k <= N(s) && i < N(s)
    ensures Allowed(s, FailedSteals(w, k))
    ensures Run(s, FailedSteals(w, k)) == SetWorker(s, w, if i + k < N(s) then Stealing(i + k) else AtPop)
    decreases k
  {
    if k == 0 {
      assert SetWorker(s, w, Stealing(i)) == s;
    } else {
      var run := FailedSteals(w, k);
      assert run[1..] == FailedSteals(w, k - 1);
      var s1 := Step(s, run[0]);
      if k > 1 {
        AfterFailedSteals(s1, w, i + 1, k - 1);
        assert s1.workers[w := AtPop] == s.workers[w := AtPop];
        assert s1.workers[w := Stealing(i + k)] == s.workers[w := Stealing(i + k)];
      } else {
        assert run[1..] == [];
      }
      RunStep(s, run);
    }
  }

  /** A worker's round tries every queue once, its own first, and takes the front handle of the one
      whose turn it is if that was scheduled without an id; */
  lemma RoundsReachEveryQueue(s: State, w: nat, k: nat, q: nat, t: nat)
    requires Shape(s) && s.steal && w < N(s) && s.workers[w] == Stealing(0) && k < N(s)
    requires q == (w + k) % N(s) && q < |s.queues| && s.queues[q].items != [] && s.queues[q].items[0] == t
    requires t < |s.tickets| && s.tickets[t].pin.None?
    ensures var run := FailedSteals(w, k) + [TrySteal(w, true)];
      Allowed(s, run) && w < |Run(s, run).workers| && Run(s, run).workers[w] == Holding(t)
  {
    var run, last := FailedSteals(w, k), [TrySteal(w, true)];
    AfterFailedSteals(s, w, 0, k);
    hide Run;
    hide Allowed;
    StealHere(Run(s, run), w, k, q, t);
    RunAppend(s, run, last);
  }

  lemma StealHere(s: State, w: nat, k: nat, q: nat, t: nat)
    requires Shape(s) && s.steal && w < N(s) && s.workers[w] == Stealing(k)
    requires q == (w + k) % N(s) && q < |s.queues| && s.queues[q].items != [] && s.queues[q].items[0] == t
    requires t < |s.tickets| && s.tickets[t].pin.None?
    ensures Allowed(s, [TrySteal(w, true)])
    ensures var e := Run(s, [TrySteal(w, true)]); w < |e.workers| && e.workers[w] == Holding(t)
  {
    assert [TrySteal(w, true)][1..] == [];
    RunStep(s, [TrySteal(w, true)]);
  }

  /** then it waits at its own queue. */
  lemma RoundsEndAtPop(s: State, w: nat)
    requires Shape(s) && w < N(s) && s.workers[w] == Stealing(0)
    ensures Allowed(s, FailedSteals(w, N(s))) && Run(s, FailedSteals(w, N(s))) == SetWorker(s, w, AtPop)
  {
    AfterFailedSteals(s, w, 0, N(s));
  }

  // ---------- A handle is resumed once ----------

  /** What was resumed stays so: no step touches it again, except to end the call that pushed it. */
  lemma StepKeepsResumed(s: State, a: Action, t: nat)
    requires Shape(s) && Located(s) && Enabled(s, a) && t < |s.tickets| && s.tickets[t].loc.Resumed?
    ensures t < |Step(s, a).tickets| && Step(s, a).tickets[t].loc == s.tickets[t].loc
  {
    if Takes(s, a) { assert s.tickets[s.queues[Source(s, a)].items[0]].loc.Queued?; }
  }

  lemma {:induction false} ResumedOnce(s: State, run: seq<Action>, t: nat)
    requires Inv(s) && Allowed(s, run) && t < |s.tickets| && s.tickets[t].loc.Resumed?
    ensures var e := Run(s, run); t < |e.tickets| && e.tickets[t].loc == s.tickets[t].loc
    decreases |run|
  {
    if run != [] {
      StepKeepsResumed(s, run[0], t);
      StepKeepsInv(s, run[0]);
      hide Step;
      hide Inv;
      ResumedOnce(Step(s, run[0]), run[1..], t);
    }
  }

  // ---------- Exactly which shutdowns drain ----------

  ghost predicate AllResumed(s: State) { forall t :: 0 <= t < |s.tickets| ==> s.tickets[t].loc.Resumed? }

  // A step with which ScheduleById brings ticket t closer to a queue.
  predicate Pushes(a: Action, t: nat) { (a.TryPush? || a.Push?) && a.t == t }

  /** Something worker w is waiting for, or does itself without stealing. It moves another call only
      if w's own coroutine is inside it. */
  lemma NextStep(s: State, w: nat) returns (a: Action)
    requires Inv(s) && s.stopped && w < N(s) && !s.workers[w].Exited?
    ensures Enabled(s, a) && Quiet(a) && !(a.TrySteal? && a.ok)
    ensures (a.TryPush? || a.Push?) ==> s.tickets[a.t].caller == Some(w)
  {
    assert WakesAt(s, w);
    assert s.queues[w].stop <==> StopReached(s, w);
    match s.workers[w]
    case Stealing(_) => a := TrySteal(w, false);
    case AtPop => a := Pop(w);
    case PopFailed => a := ReadStopped(w);
    case Asleep => a := if s.dtor.NotifyingAll? then NotifyAll else StopQueue;
    case Holding(_) =>
      if t :| 0 <= t < |s.tickets| && s.tickets[t].caller == Some(w) && InCall(s.tickets[t]) {
        CallStepEnabled(s, t);
        a := CallStep(s, t);
      } else {
        a := ResumeTask(w);
      }
  }

  // Ticket t is out of reach of pops: not pushed yet, or in a queue whose worker has left.
  ghost predicate Parked(s: State, t: nat) {
    t < |s.tickets| &&
    match s.tickets[t].loc
    case Queued(q) => q < N(s) && s.workers[q].Exited?
    case l => BeingPushed(l)
  }

  // The same call: what was said about it when it was accepted, and where its handle is.
  ghost predicate Unmoved(s: State, e: State, t: nat) {
    && t < |s.tickets| && t < |e.tickets| && e.tickets[t].loc == s.tickets[t].loc
    && e.tickets[t].pin == s.tickets[t].pin && e.tickets[t].caller == s.tickets[t].caller
  }

  lemma StaysParked(s: State, a: Action, t: nat)
    requires Inv(s) && Enabled(s, a) && Parked(s, t) && !Pushes(a, t) && !(a.TrySteal? && a.ok)
    ensures Parked(Step(s, a), t) && Unmoved(s, Step(s, a), t) && N(Step(s, a)) == N(s)
  {
    StepKeepsWorkerCount(s, a);
    StepKeepsTerms(s, a, t);
    ExitedStays(s, a);
    if Takes(s, a) { assert s.tickets[s.queues[a.w].items[0]].loc == Queued(a.w); }
    hide Inv;
    LocStays(s, a, t);
    hide Step;
  }

  lemma ExitedStays(s: State, a: Action)
    requires Enabled(s, a)
    ensures forall w :: 0 <= w < N(s) && s.workers[w].Exited? ==> w < N(Step(s, a)) && Step(s, a).workers[w].Exited?
  {
  }

  lemma LocStays(s: State, a: Action, t: nat)
    requires Enabled(s, a) && Parked(s, t) && !Pushes(a, t) && !(a.TrySteal? && a.ok)
    requires Takes(s, a) ==> s.tickets[s.queues[a.w].items[0]].loc == Queued(a.w)
    requires a.ResumeTask? ==> s.tickets[s.workers[a.w].t].loc == InHand(a.w)
    ensures t < |Step(s, a).tickets| && Step(s, a).tickets[t].loc == s.tickets[t].loc
  {
    hide PushBack;
    hide PopFront;
    hide Busy;
  }

  lemma StoppedStays(s: State, a: Action)
    requires Inv(s) && s.stopped && Enabled(s, a)
    ensures Step(s, a).stopped && Step(s, a).inFlight == s.inFlight
  {
    hide Located;
    hide Calls;
  }

  /** With ticket t out of reach, all workers can leave, except perhaps `stay`, the one whose coroutine
      is pushing it. */
  lemma {:induction false} Overtake(s: State, t: nat, stay: Option<nat>) returns (run: seq<Action>)
    requires Inv(s) && s.stopped && Parked(s, t)
    requires BeingPushed(s.tickets[t].loc) && s.tickets[t].caller.Some? ==> stay == s.tickets[t].caller
    ensures Allowed(s, run)
    ensures var e := Run(s, run);
      && Inv(e) && e.stopped && N(e) == N(s) && Parked(e, t) && Unmoved(s, e, t)
      && forall w :: 0 <= w < N(e) && stay != Some(w) ==> e.workers[w].Exited?
    decreases Measure(s)
  {
    assert Unmoved(s, s, t);
    hide Inv;
    hide Measure;
    hide Parked;
    if w :| 0 <= w < N(s) && stay != Some(w) && !s.workers[w].Exited? {
      var a := NextStep(s, w);
      assert !Pushes(a, t) by { ParkedBusy(s, t); }
      QuietStepsDecrease(s, a);
      StepKeepsInv(s, a);
      StoppedStays(s, a);
      StaysParked(s, a, t);
      hide Step;
      hide Enabled;
      var rest := Overtake(Step(s, a), t, stay);
      run := [a] + rest;
      assert run[1..] == rest;
      RunStep(s, run);
    } else {
      run := [];
    }
  }

  /** Ticket t can be brought into any queue its call may choose, while everybody else waits. */
  lemma {:induction false} Deliver(s: State, t: nat, q: nat) returns (run: seq<Action>)
    requires Inv(s) && s.stopped && t < |s.tickets| && BeingPushed(s.tickets[t].loc)
    requires q < N(s) && (s.tickets[t].pin.Some? ==> s.tickets[t].pin.value == q)
    ensures Allowed(s, run)
    ensures var e := Run(s, run);
      && Inv(e) && e.stopped && e.workers == s.workers && t < |e.tickets| && e.tickets[t].loc == Queued(q)
    decreases Measure(s)
  {
    var a := if s.tickets[t].loc.Trying? then TryPush(t, false) else Push(t, q);
    QuietStepsDecrease(s, a);
    StepKeepsInv(s, a);
    StoppedStays(s, a);
    hide Inv;
    hide Measure;
    var rest := [];
    if a.TryPush? { rest := Deliver(Step(s, a), t, q); }
    run := [a] + rest;
    assert run[1..] == rest;
    RunStep(s, run);
  }

  lemma {:induction false} RunAppend(s: State, a: seq<Action>, b: seq<Action>)
    requires Allowed(s, a) && Allowed(Run(s, a), b)
    ensures Allowed(s, a + b) && Run(s, a + b) == Run(Run(s, a), b)
    decreases |a|
  {
    hide Step;
    hide Enabled;
    if a == [] {
      assert a + b == b;
    } else {
      RunAppend(Step(s, a[0]), a[1..], b);
      assert (a + b)[1..] == a[1..] + b;
      RunStep(s, a + b);
    }
  }

  /** The handles sure to be resumed although they were still being pushed when stopped_ was set: those
      a worker pushes into its own queue, because it must be or because there is no other. */
  predicate KeptByCaller(s: State, t: Ticket) { t.caller.Some? && (N(s) == 1 || t.pin == t.caller) }

  // No continuation resumes ticket t.
  ghost predicate Lost(s: State, t: nat) {
    forall run :: Allowed(s, run) ==> t < |Run(s, run).tickets| && !Run(s, run).tickets[t].loc.Resumed?
  }

  lemma AllGoneIsLost(s: State, t: nat)
    requires AllExited(s) && t < |s.tickets| && !s.tickets[t].loc.Resumed?
    ensures Lost(s, t)
  {
    forall run | Allowed(s, run) ensures t < |Run(s, run).tickets| && !Run(s, run).tickets[t].loc.Resumed? {
      StrandedForGood(s, t, run);
    }
  }

  // A worker's call delivers into the queue of another worker, when all others have left.
  lemma StrandInside(s: State, t: nat, w: nat, q: nat) returns (run: seq<Action>)
    requires Inv(s) && s.stopped && t < |s.tickets| && BeingPushed(s.tickets[t].loc)
    requires s.tickets[t].caller == Some(w) && q < N(s) && q != w
    requires s.tickets[t].pin.Some? ==> s.tickets[t].pin.value == q
    ensures Allowed(s, run) && AllExited(Run(s, run)) && Lost(Run(s, run), t)
  {
    hide Inv;
    hide Step;
    hide Enabled;
    hide Allowed;
    hide Run;
    hide Lost;
    var leave := Overtake(s, t, Some(w));
    var e := Run(s, leave);
    var push := Deliver(e, t, q);
    var f := Run(e, push);
    assert Parked(f, t);
    var rest := Overtake(f, t, None);
    RunAppend(e, push, rest);
    RunAppend(s, leave, push + rest);
    run := leave + (push + rest);
    AllGoneIsLost(Run(s, run), t);
  }

  /** Any other handle can be lost: pushed by an outside thread after all workers have left, or by a
      worker into the queue of one that has left. */
  lemma Strand(s: State, t: nat) returns (run: seq<Action>)
    requires Inv(s) && s.stopped && t < |s.tickets| && BeingPushed(s.tickets[t].loc)
    requires !KeptByCaller(s, s.tickets[t])
    ensures Allowed(s, run) && AllExited(Run(s, run)) && Lost(Run(s, run), t)
  {
    PinInRange(s, t);
    hide Inv;
    hide Allowed;
    hide Run;
    hide Lost;
    match s.tickets[t].caller
    case None =>
      run := Overtake(s, t, None);
      AllGoneIsLost(Run(s, run), t);
    case Some(w) =>
      var pin := s.tickets[t].pin;
      run := StrandInside(s, t, w, if pin.Some? then pin.value else if w == 0 then 1 else 0);
  }

  lemma PinInRange(s: State, t: nat)
    requires Inv(s) && t < |s.tickets|
    ensures s.tickets[t].pin.Some? ==> s.tickets[t].pin.value < N(s)
    ensures s.tickets[t].caller.Some? ==> s.tickets[t].caller.value < N(s)
  {
    assert CallOk(s, s.tickets[t]);
  }

  // A parked ticket that its own call could still move is being pushed.
  lemma ParkedBusy(s: State, t: nat)
    requires Parked(s, t)
    ensures Enabled(s, TryPush(t, false)) || (exists q :: Enabled(s, Push(t, q))) ==> BeingPushed(s.tickets[t].loc)
  {
  }

  // Nobody resumes anything once all workers have gone.
  lemma NobodyLeft(s: State, a: Action)
    requires AllExited(s) && Enabled(s, a)
    ensures AllExited(Step(s, a)) && |s.tickets| <= |Step(s, a).tickets|
    ensures forall t :: 0 <= t < |s.tickets| && Step(s, a).tickets[t].loc.Resumed? ==> s.tickets[t].loc.Resumed?
  {
  }

  lemma {:induction false} StrandedForGood(s: State, t: nat, run: seq<Action>)
    requires AllExited(s) && t < |s.tickets| && !s.tickets[t].loc.Resumed? && Allowed(s, run)
    ensures var e := Run(s, run); t < |e.tickets| && !e.tickets[t].loc.Resumed?
    decreases |run|
  {
    if run != [] {
      NobodyLeft(s, run[0]);
      hide Step;
      StrandedForGood(Step(s, run[0]), t, run[1..]);
    }
  }

  lemma StepKeepsTerms(s: State, a: Action, t: nat)
    requires Enabled(s, a) && t < |s.tickets|
    ensures t < |Step(s, a).tickets| && N(Step(s, a)) == N(s)
    ensures Step(s, a).tickets[t].pin == s.tickets[t].pin && Step(s, a).tickets[t].caller == s.tickets[t].caller
  {
    StepKeepsWorkerCount(s, a);
  }

  // The tickets in flight when stopped_ was set are all kept by their callers.
  ghost predicate FlightKept(s: State) {
    forall t :: t in s.inFlight && 0 <= t < |s.tickets| ==> KeptByCaller(s, s.tickets[t])
  }

  lemma StepKeepsFlight(s: State, a: Action)
    requires Inv(s) && s.stopped && FlightKept(s) && Enabled(s, a)
    ensures FlightKept(Step(s, a))
  {
    StoppedStays(s, a);
    var s' := Step(s, a);
    assert !a.Schedule?;
    assert |s'.tickets| == |s.tickets|;
    hide Inv;
    forall t | t in s'.inFlight && 0 <= t < |s'.tickets| ensures KeptByCaller(s', s'.tickets[t]) {
      StepKeepsTerms(s, a, t);
    }
  }

  lemma {:induction false} RunKeepsFlight(s: State, run: seq<Action>)
    requires Inv(s) && s.stopped && FlightKept(s) && Allowed(s, run)
    ensures FlightKept(Run(s, run))
    decreases |run|
  {
    hide Inv;
    hide FlightKept;
    if run != [] {
      StepKeepsInv(s, run[0]);
      StoppedStays(s, run[0]);
      StepKeepsFlight(s, run[0]);
      hide Step;
      RunKeepsFlight(Step(s, run[0]), run[1..]);
    }
  }

  // A worker does not leave before what it has pushed into its own queue is out of it.
  lemma KeptIsResumed(s: State, t: nat)
    requires Inv(s) && AllExited(s) && t < |s.tickets| && KeptByCaller(s, s.tickets[t])
    ensures s.tickets[t].loc.Resumed?
  {
    var w := s.tickets[t].caller.value;
    assert CallOk(s, s.tickets[t]) && Placed(s, t, s.tickets[t].loc);
    assert s.workers[w].Exited? && Leaves(s.workers[w]) && NoneOwn(s, w);
  }

  // Whatever happens from s on, once all workers have left every accepted handle has been resumed.
  ghost predicate Drains(s: State) {
    forall run :: Allowed(s, run) && AllExited(Run(s, run)) ==> AllResumed(Run(s, run))
  }

  lemma DrainsIfFlightKept(s: State)
    requires Inv(s) && s.stopped && FlightKept(s)
    ensures Drains(s)
  {
    forall run | Allowed(s, run) && AllExited(Run(s, run)) ensures AllResumed(Run(s, run)) {
      RunKeepsInv(s, run);
      RunKeepsFlight(s, run);
      AllResumedAtEnd(Run(s, run));
    }
  }

  lemma AllResumedAtEnd(s: State)
    requires Inv(s) && AllExited(s) && FlightKept(s)
    ensures AllResumed(s)
  {
    ShutdownDrains(s);
    hide Inv;
    forall t | 0 <= t < |s.tickets| ensures s.tickets[t].loc.Resumed? {
      if t in s.inFlight { KeptIsResumed(s, t); }
    }
  }

  /** Shutdown from any reachable state drains the pool if and only if every ScheduleById that is still
      pushing when the destructor sets stopped_ was called by a worker that can only push it into its
      own queue. */
  lemma ShutdownDrainsExactly(n: nat, steal: bool, history: seq<Action>)
    requires n > 0 && Allowed(Init(n, steal), history)
    ensures var s := Run(Init(n, steal), history);
      Enabled(s, SetStopped) ==>
        (Drains(Step(s, SetStopped)) <==>
          forall t :: 0 <= t < |s.tickets| && BeingPushed(s.tickets[t].loc) ==> KeptByCaller(s, s.tickets[t]))
  {
    var s := Run(Init(n, steal), history);
    InitInv(n, steal);
    RunKeepsInv(Init(n, steal), history);
    if Enabled(s, SetStopped) { DrainsExactly(s); }
  }

  lemma DrainsExactly(s: State)
    requires Inv(s) && Enabled(s, SetStopped)
    ensures Drains(Step(s, SetStopped)) <==>
      forall t :: 0 <= t < |s.tickets| && BeingPushed(s.tickets[t].loc) ==> KeptByCaller(s, s.tickets[t])
  {
    var s1 := Step(s, SetStopped);
    StepKeepsInv(s, SetStopped);
    hide Inv;
    if t :| 0 <= t < |s.tickets| && BeingPushed(s.tickets[t].loc) && !KeptByCaller(s, s.tickets[t]) {
      assert s1.tickets == s.tickets && N(s1) == N(s);
      var run := Strand(s1, t);
      LostIsNotResumed(Run(s1, run), t);
    } else {
      hide Drains;
      DrainsIfFlightKept(s1);
    }
  }

  lemma LostIsNotResumed(s: State, t: nat)
    requires Lost(s, t)
    ensures !AllResumed(s)
  {
    assert Allowed(s, []) && Run(s, []) == s;
  }

  // ---------- A push that loses the race with the destructor ----------

  ghost function LatePushRun(): seq<Action> {
    [Schedule(Some(0), None), SetStopped, StopQueue, NotifyAll, StopQueue, Pop(0), ReadStopped(0), Push(0, 0)]
  }

  /** A ScheduleById that passed its stopped_ check may push after the worker has gone: the handle
      is accepted and never resumed. */
  lemma LatePushIsStranded()
    ensures Allowed(Init(1, false), LatePushRun())
    ensures var s := Run(Init(1, false), LatePushRun());
      AllExited(s) && s.inFlight == {0} && s.tickets[0].loc == Queued(0)
  {
    var r := LatePushRun();
    var s0 := Init(1, false);
    var s1 := Step(s0, r[0]);
    assert s1 == Accepted();
    FirstHalf();
    RunStep(s0, r);
  }

  // One handle accepted for queue 0, its push not begun.
  ghost function Accepted(): State {
    State(false, false, [Queue([], false, [], [])], [AtPop], [Ticket(Some(0), None, Pushing, None)], NotBegun, {})
  }

  lemma FirstHalf()
    ensures Allowed(Accepted(), LatePushRun()[1..])
    ensures var s := Run(Accepted(), LatePushRun()[1..]);
      AllExited(s) && s.inFlight == {0} && s.tickets[0].loc == Queued(0)
  {
    var r := LatePushRun();
    var s1 := Accepted();
    var s2 := Step(s1, r[1]);
    assert s2.inFlight == {0};
    var s3 := Step(s2, r[2]);
    assert Step(s3, r[3]) == Middle();
    SecondHalf();
    assert r[4..] == LateHalf() && r[3..][1..] == r[4..] && r[2..][1..] == r[3..] && r[1..][1..] == r[2..];
    RunStep(s3, r[3..]);
    RunStep(s2, r[2..]);
    RunStep(s1, r[1..]);
  }

  // The only queue is stopped and its worker notified; the handle is still being pushed.
  ghost function Middle(): State {
    State(false, true, [Queue([], true, [], [])], [AtPop], [Ticket(Some(0), None, Pushing, None)], Stopping(1), {0})
  }

  ghost function LateHalf(): seq<Action> { [StopQueue, Pop(0), ReadStopped(0), Push(0, 0)] }

  lemma SecondHalf()
    ensures Allowed(Middle(), LateHalf())
    ensures var s := Run(Middle(), LateHalf());
      AllExited(s) && s.inFlight == {0} && s.tickets[0].loc == Queued(0)
  {
    var r := LateHalf();
    var s0 := Middle();
    var s1 := Step(s0, r[0]);
    var s2 := Step(s1, r[1]);
    var s3 := Step(s2, r[2]);
    RunStep(s3, r[3..]);
    RunStep(s2, r[2..]);
    RunStep(s1, r[1..]);
    RunStep(s0, r);
  }

  lemma RunStep(s: State, run: seq<Action>)
    requires run != [] && Enabled(s, run[0]) && Allowed(Step(s, run[0]), run[1..])
    ensures Allowed(s, run) && Run(s, run) == Run(Step(s, run[0]), run[1..])
  {
  }
}
