/** timer::TimerManager: a binary heap of timers ordered by expiry (luce/timer/timer.h). */
module TimerHeap {
  import opened Options

  // `task` is not looked at; time points are integers.
  datatype Timer = Timer(expiry: int, id: nat)

  type Heap = seq<Timer>

  function Parent(i: nat): nat
    requires i > 0
  {
    (i - 1) / 2
  }

  /** Heap order: no timer expires before its parent. */
  ghost predicate Ordered(h: Heap) {
    forall i :: 0 < i < |h| ==> h[Parent(i)].expiry <= h[i].expiry
  }

  function Swap(h: Heap, i: nat, j: nat): (r: Heap)
    requires i < |h| && j < |h|
    ensures |r| == |h|
  {
    h[i := h[j]][j := h[i]]
  }

  lemma SwapPermutes(h: Heap, i: nat, j: nat)
    requires i < |h| && j < |h|
    ensures multiset(Swap(h, i, j)) == multiset(h)
  {
  }

  // ---------- Sifting ----------

  function SiftUp(h: Heap, i: nat): (r: Heap)
    requires i < |h|
    ensures |r| == |h|
    decreases i
  {
    if i == 0 || h[i].expiry >= h[Parent(i)].expiry then h
    else SiftUp(Swap(h, i, Parent(i)), Parent(i))
  }

  /** The child HeapifyDown would swap i with, or i itself. */
  function Smallest(h: Heap, i: nat): (m: nat)
    ensures m == i || (m == 2 * i + 1 && m < |h|) || (m == 2 * i + 2 && m < |h|)
    ensures m != i && i < |h| ==> h[m].expiry < h[i].expiry
    ensures i < |h| && m < |h| ==>
      forall c :: (c == 2 * i + 1 || c == 2 * i + 2) && c < |h| ==> h[m].expiry <= h[c].expiry
  {
    var l, r := 2 * i + 1, 2 * i + 2;
    var m := if l < |h| && h[l].expiry < h[i].expiry then l else i;
    if r < |h| && h[r].expiry < h[m].expiry then r else m
  }

  function SiftDown(h: Heap, i: nat): (r: Heap)
    ensures |r| == |h|
    decreases |h| - i
  {
    var m := Smallest(h, i);
    if m == i then h else SiftDown(Swap(h, m, i), m)
  }

  function Push(h: Heap, t: Timer): Heap { SiftUp(h + [t], |h|) }

  /** Erase: swap with the last, drop it, sift down from the hole. */
  function Erase(h: Heap, i: nat): (r: Heap)
    requires i < |h|
    ensures |r| == |h| - 1
  {
    SiftDown(Swap(h, i, |h| - 1)[..|h| - 1], i)
  }

  // ---------- Contents ----------

  lemma {:induction false} SiftUpPermutes(h: Heap, i: nat)
    requires i < |h|
    ensures multiset(SiftUp(h, i)) == multiset(h)
    decreases i
  {
    if i > 0 && h[i].expiry < h[Parent(i)].expiry {
      SwapPermutes(h, i, Parent(i));
      SiftUpPermutes(Swap(h, i, Parent(i)), Parent(i));
    }
  }

  lemma {:induction false} SiftDownPermutes(h: Heap, i: nat)
    ensures multiset(SiftDown(h, i)) == multiset(h)
    decreases |h| - i
  {
    var m := Smallest(h, i);
    if m != i {
      SwapPermutes(h, m, i);
      SiftDownPermutes(Swap(h, m, i), m);
    }
  }

  lemma PushAdds(h: Heap, t: Timer)
    ensures multiset(Push(h, t)) == multiset(h) + multiset{t}
  {
    SiftUpPermutes(h + [t], |h|);
  }

  /** Erase(i) removes exactly the timer at i, whatever the order. */
  lemma EraseRemoves(h: Heap, i: nat)
    requires i < |h|
    ensures multiset(Erase(h, i)) == multiset(h) - multiset{h[i]}
  {
    hide SiftDown;
    var n := |h| - 1;
    var s := Swap(h, i, n);
    SwapPermutes(h, i, n);
    SiftDownPermutes(s[..n], i);
    DropLast(s, n);
  }

  lemma DropLast(s: Heap, n: nat)
    requires |s| == n + 1
    ensures multiset(s[..n]) == multiset(s) - multiset{s[n]}
  {
    assert s == s[..n] + [s[n]];
  }

  // ---------- Order ----------

  // Ordered except that i may expire before its parent; its children respect its parent.
  ghost predicate OrderedExceptUp(h: Heap, i: nat) {
    && (forall j :: 0 < j < |h| && j != i ==> h[Parent(j)].expiry <= h[j].expiry)
    && (forall j :: 0 < j < |h| && 0 < i && Parent(j) == i ==> h[Parent(i)].expiry <= h[j].expiry)
  }

  // Ordered except that i may expire after its children; they respect i's parent.
  ghost predicate OrderedExceptDown(h: Heap, i: nat) {
    && (forall j :: 0 < j < |h| && Parent(j) != i ==> h[Parent(j)].expiry <= h[j].expiry)
    && (forall j :: 0 < j < |h| && 0 < i < |h| && Parent(j) == i ==> h[Parent(i)].expiry <= h[j].expiry)
  }

  lemma {:induction false} SiftUpOrders(h: Heap, i: nat)
    requires i < |h| && OrderedExceptUp(h, i)
    ensures Ordered(SiftUp(h, i))
    decreases i
  {
    if i > 0 && h[i].expiry < h[Parent(i)].expiry {
      var p := Parent(i);
      var s := Swap(h, i, p);
      forall j | 0 < j < |s| && j != p ensures s[Parent(j)].expiry <= s[j].expiry {
        assert h[Parent(j)].expiry <= h[j].expiry || j == i;
      }
      forall j | 0 < j < |s| && 0 < p && Parent(j) == p ensures s[Parent(p)].expiry <= s[j].expiry {
        assert h[Parent(p)].expiry <= h[p].expiry;
        if j != i { assert h[Parent(j)].expiry <= h[j].expiry; }
      }
      SiftUpOrders(s, p);
    }
  }

  lemma {:induction false} SiftDownOrders(h: Heap, i: nat)
    requires OrderedExceptDown(h, i)
    ensures Ordered(SiftDown(h, i))
    decreases |h| - i
  {
    var m := Smallest(h, i);
    if m != i {
      var s := Swap(h, m, i);
      assert Parent(m) == i;
      forall j | 0 < j < |s| && Parent(j) != m ensures s[Parent(j)].expiry <= s[j].expiry {
        if j == i { assert h[Parent(i)].expiry <= h[m].expiry; }
        if j != i && Parent(j) == i { assert j == 2 * i + 1 || j == 2 * i + 2; }
      }
      forall j | 0 < j < |s| && Parent(j) == m ensures s[Parent(m)].expiry <= s[j].expiry {
        assert h[Parent(j)].expiry <= h[j].expiry;
      }
      SiftDownOrders(s, m);
    } else {
      forall j | 0 < j < |h| && Parent(j) == i ensures h[Parent(j)].expiry <= h[j].expiry {
        assert j == 2 * i + 1 || j == 2 * i + 2;
      }
    }
  }

  lemma PushKeepsOrder(h: Heap, t: Timer)
    requires Ordered(h)
    ensures Ordered(Push(h, t))
  {
    SiftUpOrders(h + [t], |h|);
  }

  // The hole filled with a timer no earlier than the hole's parent: only its children can object.
  lemma FilledHole(h: Heap, i: nat)
    requires Ordered(h) && i < |h| && (i == 0 || h[Parent(i)].expiry <= h[|h| - 1].expiry)
    ensures OrderedExceptDown(Swap(h, i, |h| - 1)[..|h| - 1], i)
  {
    var n := |h| - 1;
    var s := Swap(h, i, n)[..n];
    forall j | 0 < j < |s| && Parent(j) != i ensures s[Parent(j)].expiry <= s[j].expiry {
      if j != i { assert h[Parent(j)].expiry <= h[j].expiry; }
    }
    forall j | 0 < j < |s| && 0 < i < |s| && Parent(j) == i ensures s[Parent(i)].expiry <= s[j].expiry {
      assert h[Parent(j)].expiry <= h[j].expiry && h[Parent(i)].expiry <= h[i].expiry;
    }
  }

  // A timer earlier than the hole's parent is earlier than the hole's children too: it stays put.
  lemma EarlyTimerStays(h: Heap, i: nat)
    requires Ordered(h) && 0 < i < |h| && h[|h| - 1].expiry < h[Parent(i)].expiry
    ensures i < |h| - 1 && Erase(h, i) == Swap(h, i, |h| - 1)[..|h| - 1]
  {
    var n := |h| - 1;
    assert i < n;
    var s := Swap(h, i, n)[..n];
    assert h[Parent(i)].expiry <= h[i].expiry;
    forall c | (c == 2 * i + 1 || c == 2 * i + 2) && c < |s| ensures s[i].expiry < s[c].expiry {
      assert Parent(c) == i && h[Parent(c)].expiry <= h[c].expiry;
    }
    assert Smallest(s, i) == i;
  }

  /** Heap order survives Erase(i) exactly when i is the root or the timer moved into the hole
      expires no earlier than the hole's parent; erasing the last slot is a case of the latter. */
  lemma EraseOrderExactly(h: Heap, i: nat)
    requires Ordered(h) && i < |h|
    ensures Ordered(Erase(h, i)) <==> i == 0 || h[Parent(i)].expiry <= h[|h| - 1].expiry
    ensures i == |h| - 1 ==> Ordered(Erase(h, i))
  {
    hide SiftDown;
    var n := |h| - 1;
    if i == 0 || h[Parent(i)].expiry <= h[n].expiry {
      FilledHole(h, i);
      SiftDownOrders(Swap(h, i, n)[..n], i);
    } else {
      EarlyTimerStays(h, i);
      assert Erase(h, i)[Parent(i)].expiry > Erase(h, i)[i].expiry;
    }
  }

  /** The front is the earliest of all held timers. */
  lemma {:induction false} FrontIsEarliest(h: Heap, i: nat)
    requires Ordered(h) && i < |h|
    ensures h[0].expiry <= h[i].expiry
    decreases i
  {
    if i > 0 { FrontIsEarliest(h, Parent(i)); }
  }

  // ---------- Discharging ----------

  /** The timers that leave the heap under repeated Erase(0), in that order. */
  function Drain(h: Heap): seq<Timer>
    decreases |h|
  {
    if h == [] then [] else [h[0]] + Drain(Erase(h, 0))
  }

  ghost predicate NonDecreasing(ts: seq<Timer>) {
    forall i, j :: 0 <= i < j < |ts| ==> ts[i].expiry <= ts[j].expiry
  }

  /** Repeated Erase(0) discharges exactly what was held, */
  lemma {:induction false} DrainPermutes(h: Heap)
    ensures multiset(Drain(h)) == multiset(h)
    decreases |h|
  {
    hide Erase;
    if h != [] {
      EraseRemoves(h, 0);
      DrainPermutes(Erase(h, 0));
      assert h[0] in multiset(h);
    }
  }

  /** and, from an ordered heap, in order of expiry. */
  lemma {:induction false} DrainSorts(h: Heap)
    requires Ordered(h)
    ensures NonDecreasing(Drain(h))
    decreases |h|
  {
    hide Erase;
    hide Ordered;
    if h != [] {
      var r := Erase(h, 0);
      EraseOrderExactly(h, 0);
      DrainSorts(r);
      forall j | 0 <= j < |Drain(r)| ensures h[0].expiry <= Drain(r)[j].expiry { FrontBeforeRest(h, j); }
    }
  }

  lemma FrontBeforeRest(h: Heap, j: nat)
    requires Ordered(h) && h != [] && j < |Drain(Erase(h, 0))|
    ensures h[0].expiry <= Drain(Erase(h, 0))[j].expiry
  {
    hide Erase;
    hide Drain;
    var d := Drain(Erase(h, 0));
    DrainPermutes(Erase(h, 0));
    EraseRemoves(h, 0);
    assert d[j] in multiset(d);
    FrontIsEarliestHeld(h, d[j]);
  }

  lemma FrontIsEarliestHeld(h: Heap, t: Timer)
    requires Ordered(h) && t in multiset(h)
    ensures h != [] && h[0].expiry <= t.expiry
  {
    var i :| 0 <= i < |h| && h[i] == t;
    FrontIsEarliest(h, i);
  }

  /** pop() binds a reference to the front slot, erases, and returns what the slot then holds:
      None stands for the dangling reference left when the only timer goes. */
  function PopResult(h: Heap): Option<Timer>
    requires h != []
  {
    if |h| == 1 then None else Some(Erase(h, 0)[0])
  }

  /** So pop() never returns the timer it removes, but the earliest of those that stay. */
  lemma PopReturnsTheNextTimer(h: Heap)
    requires Ordered(h) && UniqueIds(multiset(h)) && |h| > 1
    ensures var t := PopResult(h).value;
      t.id != h[0].id && t in Erase(h, 0) && forall i :: 0 <= i < |h| - 1 ==> t.expiry <= Erase(h, 0)[i].expiry
  {
    var r := Erase(h, 0);
    EraseOrderExactly(h, 0);
    EraseRemoves(h, 0);
    assert r[0] in multiset(r);
    assert h[0] in multiset(h);
    forall i | 0 <= i < |r| ensures r[0].expiry <= r[i].expiry { FrontIsEarliest(r, i); }
  }

  /** One firing of Tick: the clock it read, and the task it started. */
  datatype Firing = Firing(now: int, task: Option<Timer>)

  /** Tick over successive clock readings, with no other call in between. */
  function Ticks(h: Heap, clock: seq<int>): seq<Firing>
    decreases |clock|
  {
    if clock == [] || h == [] then []
    else if clock[0] < h[0].expiry then Ticks(h, clock[1..])
    else [Firing(clock[0], PopResult(h))] + Ticks(Erase(h, 0), clock[1..])
  }

  /** With no other call in between, Tick is one timer behind: its k-th firing waits for the k-th timer
      to expire and starts the task of the next one, whether that has expired or not; the last firing
      starts whatever the dangling reference reads, and the first timer's task is never started. */
  lemma {:induction false} TicksAreOneBehind(h: Heap, clock: seq<int>)
    ensures var f, d := Ticks(h, clock), Drain(h);
      && |f| <= |d| == |h|
      && (forall k :: 0 <= k < |f| ==> f[k].now >= d[k].expiry && f[k].task == NextOf(d, k))
    decreases |clock|
  {
    hide Erase;
    DrainLength(h);
    if clock != [] && h != [] {
      if clock[0] < h[0].expiry {
        TicksAreOneBehind(h, clock[1..]);
      } else {
        var r := Erase(h, 0);
        TicksAreOneBehind(r, clock[1..]);
        var f, d := Ticks(h, clock), Drain(h);
        assert d[1..] == Drain(r) && f[1..] == Ticks(r, clock[1..]);
        forall k | 0 < k < |f| ensures f[k].now >= d[k].expiry && f[k].task == NextOf(d, k) {
          assert f[k] == f[1..][k - 1] && d[k] == d[1..][k - 1];
          assert NextOf(d, k) == NextOf(d[1..], k - 1);
        }
      }
    }
  }

  function NextOf(d: seq<Timer>, k: nat): Option<Timer> { if k + 1 < |d| then Some(d[k + 1]) else None }

  lemma {:induction false} DrainLength(h: Heap)
    ensures |Drain(h)| == |h|
    decreases |h|
  {
    if h != [] { DrainLength(Erase(h, 0)); }
  }

  /** Whatever the clock does, as long as no other call is made the task of the earliest timer held is
      not among those started. */
  lemma FirstTaskNeverStarts(h: Heap, clock: seq<int>, k: nat)
    requires h != [] && UniqueIds(multiset(h)) && k < |Ticks(h, clock)|
    ensures Ticks(h, clock)[k].task != Some(h[0])
  {
    hide Ticks;
    TicksAreOneBehind(h, clock);
    DrainPermutes(h);
    var d := Drain(h);
    assert d[0] == h[0];
    if k + 1 < |d| { OnceInUnique(d, 0, k + 1); }
  }

  lemma OnceInUnique(d: seq<Timer>, i: nat, j: nat)
    requires i < j < |d| && UniqueIds(multiset(d))
    ensures d[i] != d[j]
  {
    assert d == d[..i] + [d[i]] + d[i + 1..];
    assert d[i + 1..][j - i - 1] == d[j];
    assert d[j] in multiset(d[i + 1..]);
    assert multiset(d) == multiset(d[..i]) + multiset{d[i]} + multiset(d[i + 1..]);
    assert d[i] in multiset(d);
  }

  // ---------- Runs of the manager ----------

  datatype Op = Add(expiry: int) | Remove(id: nat) | PopFront

  /** `left`: the timers that have left the heap, by pop or by removal. */
  datatype State = State(heap: Heap, nextId: nat, left: multiset<Timer>)

  ghost predicate UniqueIds(m: multiset<Timer>) {
    && (forall t :: t in m ==> m[t] == 1)
    && (forall t, u :: t in m && u in m && t.id == u.id ==> t == u)
  }

  /** find_if over the vector; `|h|` when no timer has the id. */
  function Find(h: Heap, id: nat): (i: nat)
    ensures i <= |h| && (i < |h| ==> h[i].id == id) && forall j :: 0 <= j < i ==> h[j].id != id
  {
    FindFrom(h, id, 0)
  }

  function FindFrom(h: Heap, id: nat, k: nat): (i: nat)
    requires k <= |h|
    ensures k <= i <= |h| && (i < |h| ==> h[i].id == id) && forall j :: k <= j < i ==> h[j].id != id
    decreases |h| - k
  {
    if k == |h| || h[k].id == id then k else FindFrom(h, id, k + 1)
  }

  function Step(s: State, op: Op): State {
    match op
    case Add(expiry) => s.(heap := Push(s.heap, Timer(expiry, s.nextId)), nextId := s.nextId + 1)
    case Remove(id) =>
      var i := Find(s.heap, id);
      if i < |s.heap| then s.(heap := Erase(s.heap, i), left := s.left + multiset{s.heap[i]}) else s
    case PopFront =>
      if s.heap == [] then s else s.(heap := Erase(s.heap, 0), left := s.left + multiset{s.heap[0]})
  }

  function Run(s: State, ops: seq<Op>): State
    decreases |ops|
  {
    if ops == [] then s else Run(Step(s, ops[0]), ops[1..])
  }

  const START := State([], 0, multiset{})

  // Every timer there has been.
  ghost function Ever(s: State): multiset<Timer> { multiset(s.heap) + s.left }

  /** Ids are handed out once and never shared, also by timers that have left. */
  ghost predicate Accounted(s: State) {
    UniqueIds(Ever(s)) && (forall t :: t in Ever(s) ==> t.id < s.nextId) && |Ever(s)| == s.nextId
  }

  lemma StepEver(s: State, op: Op)
    ensures Ever(Step(s, op)) == Ever(s) + if op.Add? then multiset{Timer(op.expiry, s.nextId)} else multiset{}
  {
    match op
    case Add(expiry) => PushAdds(s.heap, Timer(expiry, s.nextId));
    case Remove(id) => if Find(s.heap, id) < |s.heap| { EraseEver(s, Find(s.heap, id)); }
    case PopFront => if s.heap != [] { EraseEver(s, 0); }
  }

  lemma EraseEver(s: State, i: nat)
    requires i < |s.heap|
    ensures multiset(Erase(s.heap, i)) + (s.left + multiset{s.heap[i]}) == Ever(s)
  {
    hide Erase;
    EraseRemoves(s.heap, i);
    assert s.heap[i] in multiset(s.heap);
  }

  lemma StepKeepsAccounted(s: State, op: Op)
    requires Accounted(s)
    ensures Accounted(Step(s, op))
  {
    StepEver(s, op);
    hide Ever;
    hide Push;
    hide Erase;
    if op.Add? {
      var t := Timer(op.expiry, s.nextId);
      assert Ever(s)[t] == 0;
    }
  }

  /** What a caller can test before RemoveTimer: the timer is not held, is the front, or the last
      timer expires no earlier than its parent. */
  predicate Harmless(s: State, op: Op) {
    op.Remove? ==>
      var i := Find(s.heap, op.id);
      i >= |s.heap| || i == 0 || s.heap[Parent(i)].expiry <= s.heap[|s.heap| - 1].expiry
  }

  /** Every operation keeps heap order, except RemoveTimer, which keeps it exactly when harmless. */
  lemma StepOrderExactly(s: State, op: Op)
    requires Ordered(s.heap)
    ensures Ordered(Step(s, op).heap) <==> Harmless(s, op)
  {
    match op
    case Add(expiry) => PushKeepsOrder(s.heap, Timer(expiry, s.nextId));
    case Remove(id) => if Find(s.heap, id) < |s.heap| { EraseOrderExactly(s.heap, Find(s.heap, id)); }
    case PopFront => if s.heap != [] { EraseOrderExactly(s.heap, 0); }
  }

  ghost predicate AllHarmless(s: State, ops: seq<Op>)
    decreases |ops|
  {
    ops == [] || (Harmless(s, ops[0]) && AllHarmless(Step(s, ops[0]), ops[1..]))
  }

  lemma {:induction false} RunKeeps(s: State, ops: seq<Op>)
    requires Accounted(s)
    ensures Accounted(Run(s, ops))
    ensures Ordered(s.heap) && AllHarmless(s, ops) ==> Ordered(Run(s, ops).heap)
    decreases |ops|
  {
    hide Accounted;
    hide Ordered;
    hide Harmless;
    if ops != [] {
      StepKeepsAccounted(s, ops[0]);
      if Ordered(s.heap) { StepOrderExactly(s, ops[0]); }
      hide Step;
      RunKeeps(Step(s, ops[0]), ops[1..]);
    }
  }

  /** Every run: each id is used once, and as many timers are held or gone as were added. A run
      whose removals are harmless (so every run of pushes and pops) ends in a heap whose front is
      the earliest timer held and whose discharge is sorted and complete. */
  lemma EveryRun(ops: seq<Op>)
    ensures Accounted(Run(START, ops))
    ensures AllHarmless(START, ops) ==>
      var h := Run(START, ops).heap;
      && Ordered(h) && NonDecreasing(Drain(h)) && multiset(Drain(h)) == multiset(h)
      && forall i :: 0 <= i < |h| ==> h[0].expiry <= h[i].expiry
  {
    assert Accounted(START);
    RunKeeps(START, ops);
    var h := Run(START, ops).heap;
    if AllHarmless(START, ops) {
      DrainSorts(h);
      DrainPermutes(h);
      forall i | 0 <= i < |h| ensures h[0].expiry <= h[i].expiry { FrontIsEarliest(h, i); }
    }
  }

  // ---------- Tick among other calls ----------

  datatype Call = Manage(op: Op) | Clock(now: int)

  /** One firing: the timer that left the heap, and the one whose task was started. */
  datatype Fired = Fired(now: int, expired: Timer, started: Option<Timer>)

  predicate Due(s: State, now: int) { s.heap != [] && now >= s.heap[0].expiry }

  /** The firings of Tick, with other calls in between. */
  function Fires(s: State, calls: seq<Call>): seq<Fired>
    decreases |calls|
  {
    if calls == [] then [] else
    match calls[0]
    case Manage(op) => Fires(Step(s, op), calls[1..])
    case Clock(now) =>
      if !Due(s, now) then Fires(s, calls[1..])
      else [Fired(now, s.heap[0], PopResult(s.heap))] + Fires(Step(s, PopFront), calls[1..])
  }

  /** Whatever calls stand between, no firing starts the task of the timer that expired: it starts that
      of another one, which stays in the heap. */
  lemma {:induction false} NoFiringStartsItsOwn(s: State, calls: seq<Call>, k: nat)
    requires Accounted(s) && k < |Fires(s, calls)|
    ensures var f := Fires(s, calls)[k];
      f.now >= f.expired.expiry && (f.started.Some? ==> f.started.value.id != f.expired.id)
    decreases |calls|
  {
    hide Accounted;
    var rest := calls[1..];
    match calls[0]
    case Manage(op) =>
      StepKeepsAccounted(s, op);
      NoFiringStartsItsOwn(Step(s, op), rest, k);
    case Clock(now) =>
      if !Due(s, now) {
        NoFiringStartsItsOwn(s, rest, k);
      } else if k == 0 {
        if |s.heap| > 1 { PopStartsAnother(s); }
      } else {
        StepKeepsAccounted(s, PopFront);
        NoFiringStartsItsOwn(Step(s, PopFront), rest, k - 1);
      }
  }

  lemma PopStartsAnother(s: State)
    requires Accounted(s) && |s.heap| > 1
    ensures var t := PopResult(s.heap).value; t in Step(s, PopFront).heap && t.id != s.heap[0].id
  {
    EraseRemoves(s.heap, 0);
    hide Erase;
    var h, r := s.heap, Erase(s.heap, 0);
    assert r[0] in multiset(r) && h[0] in multiset(h);
    assert multiset(h)[h[0]] <= Ever(s)[h[0]] == 1;
    assert r[0] in Ever(s) && h[0] in Ever(s);
  }
}

/** Runs that go wrong: a removal that is not harmless, and a task that is started twice. */
module TimerWitness {
  import opened Options
  import opened TimerHeap

  /** A timer added between two firings makes the second start the same task again; the tasks of the
      two timers that expired are not started. */
  lemma TaskStartsTwice()
    ensures Fires(START, [Manage(Add(5)), Manage(Add(10)), Clock(5), Manage(Add(7)), Clock(7)])
         == [Fired(5, Timer(5, 0), Some(Timer(10, 1))), Fired(7, Timer(7, 2), Some(Timer(10, 1)))]
  {
    var a, b := Timer(5, 0), Timer(10, 1);
    var calls := [Manage(Add(5)), Manage(Add(10)), Clock(5), Manage(Add(7)), Clock(7)];
    PushStays([], a);
    PushStays([a], b);
    assert [] + [a] == [a] && [a] + [b] == [a, b];
    hide Push;
    hide Erase;
    var s2 := State([a, b], 2, multiset{});
    assert Step(Step(START, Add(5)), Add(10)) == s2;
    hide Step;
    assert calls[1..][1..] == [Clock(5), Manage(Add(7)), Clock(7)];
    FirstStart(s2, calls[1..][1..]);
  }

  lemma FirstStart(s: State, calls: seq<Call>)
    requires s.heap == [Timer(5, 0), Timer(10, 1)] && s.nextId == 2
    requires calls == [Clock(5), Manage(Add(7)), Clock(7)]
    ensures Fires(s, calls) == [Fired(5, Timer(5, 0), Some(Timer(10, 1))), Fired(7, Timer(7, 2), Some(Timer(10, 1)))]
  {
    var a, b := Timer(5, 0), Timer(10, 1);
    assert Swap([a, b], 0, 1)[..1] == [b] && Erase([a, b], 0) == [b];
    hide Erase;
    var s1 := Step(s, PopFront);
    assert s1.heap == [b] && s1.nextId == 2;
    hide Step;
    assert calls[1..] == [Manage(Add(7)), Clock(7)];
    SecondStart(s1, calls[1..]);
  }

  lemma SecondStart(s: State, calls: seq<Call>)
    requires s.heap == [Timer(10, 1)] && s.nextId == 2 && calls == [Manage(Add(7)), Clock(7)]
    ensures Fires(s, calls) == [Fired(7, Timer(7, 2), Some(Timer(10, 1)))]
  {
    var b, c := Timer(10, 1), Timer(7, 2);
    assert [b] + [c] == [b, c] && Swap([b, c], 1, 0) == [c, b];
    assert Push([b], c) == [c, b];
    assert Swap([c, b], 0, 1)[..1] == [b] && Erase([c, b], 0) == [b];
    hide Push;
    hide Erase;
    var s1 := Step(s, Add(7));
    assert calls[1..] == [Clock(7)] && calls[1..][1..] == [];
    assert Fires(s1, calls[1..]) == [Fired(7, c, Some(b))] + Fires(Step(s1, PopFront), []);
  }

  lemma PushStays(h: Heap, t: Timer)
    requires h == [] || h[Parent(|h|)].expiry <= t.expiry
    ensures Push(h, t) == h + [t]
  {
  }

  function Adds(expiries: seq<int>): seq<Op> { seq(|expiries|, i requires 0 <= i < |expiries| => Add(expiries[i])) }

  const EXPIRIES := [0, 10, 5, 11, 12, 8, 7]

  const BUILT: Heap := [Timer(0, 0), Timer(10, 1), Timer(5, 2), Timer(11, 3), Timer(12, 4), Timer(8, 5), Timer(7, 6)]

  lemma AddStep(k: nat)
    requires k < 7
    ensures Step(State(BUILT[..k], k, multiset{}), Add(EXPIRIES[k])) == State(BUILT[..k + 1], k + 1, multiset{})
  {
    hide Push;
    hide Erase;
    var t := Timer(EXPIRIES[k], k);
    assert BUILT[k] == t;
    if k > 0 { assert BUILT[..k][Parent(k)] == BUILT[(k - 1) / 2]; }
    PushStays(BUILT[..k], t);
    assert BUILT[..k + 1] == BUILT[..k] + [t];
  }

  lemma {:induction false} AddsBuild(k: nat)
    requires k <= 7
    ensures Run(State(BUILT[..k], k, multiset{}), Adds(EXPIRIES)[k..] + [Remove(3), PopFront, PopFront])
         == Run(State(BUILT, 7, multiset{}), [Remove(3), PopFront, PopFront])
    decreases 7 - k
  {
    hide Step;
    var ops := Adds(EXPIRIES)[k..] + [Remove(3), PopFront, PopFront];
    if k < 7 {
      AddStep(k);
      assert ops[0] == Add(EXPIRIES[k]) && ops[1..] == Adds(EXPIRIES)[k + 1..] + [Remove(3), PopFront, PopFront];
      AddsBuild(k + 1);
    } else {
      assert BUILT[..7] == BUILT && ops == [Remove(3), PopFront, PopFront];
    }
  }

  lemma AfterRemove()
    ensures Find(BUILT, 3) == 3
    ensures Erase(BUILT, 3) == [Timer(0, 0), Timer(10, 1), Timer(5, 2), Timer(7, 6), Timer(12, 4), Timer(8, 5)]
  {
    assert Find(BUILT, 3) <= 3;
    assert Swap(BUILT, 3, 6)[..6] == [Timer(0, 0), Timer(10, 1), Timer(5, 2), Timer(7, 6), Timer(12, 4), Timer(8, 5)];
  }

  lemma AfterOnePop()
    ensures Erase([Timer(0, 0), Timer(10, 1), Timer(5, 2), Timer(7, 6), Timer(12, 4), Timer(8, 5)], 0)
         == [Timer(5, 2), Timer(10, 1), Timer(8, 5), Timer(7, 6), Timer(12, 4)]
  {
    var h := [Timer(8, 5), Timer(10, 1), Timer(5, 2), Timer(7, 6), Timer(12, 4)];
    assert Swap([Timer(0, 0), Timer(10, 1), Timer(5, 2), Timer(7, 6), Timer(12, 4), Timer(8, 5)], 0, 5)[..5] == h;
    assert Smallest(h, 0) == 2;
    assert Swap(h, 2, 0) == [Timer(5, 2), Timer(10, 1), Timer(8, 5), Timer(7, 6), Timer(12, 4)];
    assert Smallest(Swap(h, 2, 0), 2) == 2;
  }

  lemma AfterTwoPops()
    ensures Erase([Timer(5, 2), Timer(10, 1), Timer(8, 5), Timer(7, 6), Timer(12, 4)], 0)
         == [Timer(8, 5), Timer(10, 1), Timer(12, 4), Timer(7, 6)]
  {
    var h := [Timer(12, 4), Timer(10, 1), Timer(8, 5), Timer(7, 6)];
    assert Swap([Timer(5, 2), Timer(10, 1), Timer(8, 5), Timer(7, 6), Timer(12, 4)], 0, 4)[..4] == h;
    assert Smallest(h, 0) == 2;
    assert Swap(h, 2, 0) == [Timer(8, 5), Timer(10, 1), Timer(12, 4), Timer(7, 6)];
    assert Smallest(Swap(h, 2, 0), 2) == 2;
  }

  /** Seven AddTimer calls, one RemoveTimer and two pops leave a later timer in front of an earlier. */
  lemma RemovalCanDelayATimer()
    ensures var h := Run(START, Adds(EXPIRIES) + [Remove(3), PopFront, PopFront]).heap;
      |h| == 4 && h[3].expiry < h[0].expiry
  {
    AddsBuild(0);
    assert Adds(EXPIRIES)[0..] == Adds(EXPIRIES) && BUILT[..0] == [];
    AfterRemove();
    AfterOnePop();
    AfterTwoPops();
    hide Erase;
    hide Find;
    var ops := [Remove(3), PopFront, PopFront];
    var s1 := Step(State(BUILT, 7, multiset{}), ops[0]);
    var s2 := Step(s1, ops[1]);
    var s3 := Step(s2, ops[2]);
    assert ops[1..] == [PopFront, PopFront] && ops[1..][1..] == [PopFront] && [PopFront][1..] == [];
    assert Run(s3, []) == s3;
    assert Run(s2, [PopFront]) == s3;
    assert Run(s1, [PopFront, PopFront]) == s3;
  }
}

/** The manager as the vector-backed object it is. */
module TimerManager {
  import opened Options
  import opened TimerHeap

  class TimerManager {
    var timers: Heap
    var nextId: nat

    constructor (firstId: nat)
      ensures timers == [] && nextId == firstId
    {
      timers, nextId := [], firstId;
    }

    method AddTimer(now: int, milliseconds: nat) returns (id: nat)
      modifies this
      ensures id == old(nextId) && nextId == old(nextId) + 1
      ensures timers == Push(old(timers), Timer(now + milliseconds, id))
    {
      id := nextId;
      nextId := nextId + 1;
      timers := timers + [Timer(now + milliseconds, id)];
      HeapifyUp(|timers| - 1);
    }

    method RemoveTimer(id: nat)
      modifies `timers
      ensures var i := Find(old(timers), id);
        timers == if i < |old(timers)| then TimerHeap.Erase(old(timers), i) else old(timers)
    {
      var i := 0;
      while i < |timers| && timers[i].id != id
        invariant 0 <= i <= |timers| && FindFrom(timers, id, 0) == FindFrom(timers, id, i)
      {
        i := i + 1;
      }
      if i < |timers| {
        Erase(i);
      }
    }

    method HeapifyUp(index: nat)
      requires index < |timers|
      modifies `timers
      ensures timers == SiftUp(old(timers), index)
      decreases index
    {
      if index == 0 { return; }
      var parent := (index - 1) / 2;
      if timers[index].expiry < timers[parent].expiry {
        timers := Swap(timers, index, parent);
        HeapifyUp(parent);
      }
    }

    method HeapifyDown(index: nat)
      modifies `timers
      ensures timers == SiftDown(old(timers), index)
      decreases |timers| - index
    {
      var left, right, smallest := index * 2 + 1, index * 2 + 2, index;
      if left < |timers| && timers[left].expiry < timers[smallest].expiry {
        smallest := left;
      }
      if right < |timers| && timers[right].expiry < timers[smallest].expiry {
        smallest := right;
      }
      if smallest != index {
        timers := Swap(timers, smallest, index);
        HeapifyDown(smallest);
      }
    }

    method Erase(index: nat)
      requires index < |timers|
      modifies `timers
      ensures timers == TimerHeap.Erase(old(timers), index)
    {
      timers := Swap(timers, index, |timers| - 1);
      timers := timers[..|timers| - 1];
      HeapifyDown(index);
    }

    /** The returned reference is read after the erase; None when it dangles. */
    method Pop() returns (r: Option<Timer>)
      modifies `timers
      ensures old(timers) == [] ==> r == None && timers == []
      ensures old(timers) != [] ==> timers == TimerHeap.Erase(old(timers), 0) && r == PopResult(old(timers))
    {
      if timers == [] { return None; }
      Erase(0);
      r := if timers == [] then None else Some(timers[0]);
    }

    /** One round of Tick: fire if the front has expired, sleep otherwise. */
    method Tick(now: int) returns (fired: bool, task: Option<Timer>)
      modifies `timers
      ensures fired <==> old(timers) != [] && now >= old(timers)[0].expiry
      ensures !fired ==> timers == old(timers)
      ensures fired ==> timers == TimerHeap.Erase(old(timers), 0) && task == PopResult(old(timers))
      ensures Ticks(old(timers), [now]) == if fired then [Firing(now, task)] else []
    {
      assert [now][1..] == [];
      fired, task := timers != [] && now >= timers[0].expiry, None;
      if fired { task := Pop(); }
    }
  }
}
