/** Coroutine frames of co::Task and the transfers of control between them.

    A coroutine body is code over its local variables; `Eval` is what the same body would return
    if every task were an ordinary call. The machine below runs it with suspended frames,
    continuations, symmetric transfer, detaching and destruction, one step of any executing
    frame at a time, so its runs are all interleavings of the spawned coroutines.
  */
module TaskMachine {
  import opened Options
  import opened Sums

  type Env = seq<int>

  datatype Code =
    | Return(result: Env -> int)
    | If(cond: Env -> bool, yes: Code, no: Code)
      // auto x = co_await child(args): the result becomes the newest local variable
    | Await(args: Env -> Env, child: Code, rest: Code)
      // co_spawn(child(args))
    | Spawn(args: Env -> Env, child: Code, rest: Code)

  /** Direct style: the value of a body when awaiting is calling. */
  function Eval(c: Code, env: Env): int {
    match c
    case Return(result) => result(env)
    case If(cond, yes, no) => if cond(env) then Eval(yes, env) else Eval(no, env)
    case Await(args, child, rest) => Eval(rest, env + [Eval(child, args(env))])
    case Spawn(args, child, rest) => Eval(rest, env)
  }

  // ---------- Frames ----------

  datatype Destroyer = FinalSuspend | TaskDestructor

  datatype Status =
    | Suspended(code: Code, env: Env)   // at initial_suspend
    | Running(code: Code, env: Env)
      // `promised` records what direct style gives for the child
    | Holding(child: nat, rest: Code, env: Env, promised: int)   // owns the new Task, not awaited yet
    | Awaiting(child: nat, rest: Code, env: Env, promised: int)  // suspended in co_await
    | Resumed(child: nat, rest: Code, env: Env, promised: int)   // before await_resume
    | Returned                          // value stored, before final_suspend
    | Done                              // suspended at the final suspend point
    | Destroyed(agent: Destroyer)

  /** A coroutine frame with its promise. `queued`: the handle is with the thread pool.
      `parent` and `expected` are history: who awaits it, and its direct-style value. */
  datatype Frame = Frame(
    status: Status,
    continuation: Option<nat>,  // None is noop_coroutine
    detached: bool,
    value: Option<int>,
    queued: bool,
    suspends: nat,
    resumes: nat,
    destroys: nat,
    parent: Option<nat>,
    expected: int)

  type State = seq<Frame>

  function NewFrame(code: Code, env: Env, parent: Option<nat>, detached: bool): Frame {
    Frame(Suspended(code, env), None, detached, None, detached, 0, 0, 0, parent, Eval(code, env))
  }

  /** co_spawn on the root task: detached, its handle handed to the pool. */
  function Init(code: Code, env: Env): State { [NewFrame(code, env, None, true)] }

  function Destroy(f: Frame, agent: Destroyer): Frame {
    f.(status := Destroyed(agent), destroys := f.destroys + 1)
  }

  // ---------- Steps ----------

  // Frame i has something to do: it executes on some worker, or the pool holds its handle.
  predicate Enabled(s: State, i: nat) {
    i < |s| && match s[i].status
               case Suspended(_, _) => s[i].queued
               case Running(_, _) => true
               case Holding(c, _, _, _) => c < |s|
               case Awaiting(_, _, _, _) => false
               case Resumed(c, _, _, _) => c < |s| && s[c].value.Some?
               case Returned => true
               case Done => false
               case Destroyed(_) => false
  }

  function Step(s: State, i: nat): State
    requires Enabled(s, i)
  {
    var f := s[i];
    match f.status
    case Suspended(code, env) => s[i := f.(status := Running(code, env), queued := false)]
    case Running(code, env) => Execute(s, i, code, env)
    case Holding(c, rest, env, p) => AwaitSuspend(s, i)
    case Resumed(c, rest, env, p) => AwaitResume(s, i)
    case Returned => FinalAwait(s, i)
    case _ => s
  }

  function Execute(s: State, i: nat, code: Code, env: Env): State
    requires i < |s|
  {
    var f := s[i];
    match code
    case Return(result) => s[i := f.(status := Returned, value := Some(result(env)))]
    case If(cond, yes, no) => s[i := f.(status := Running(if cond(env) then yes else no, env))]
    case Await(args, child, rest) =>
      var inner := NewFrame(child, args(env), Some(i), false);
      s[i := f.(status := Holding(|s|, rest, env, inner.expected))] + [inner]
    case Spawn(args, child, rest) =>
      // co_spawn: take the handle, detach (the Task lets go of it), ScheduleById
      s[i := f.(status := Running(rest, env))] + [NewFrame(child, args(env), None, true)]
  }

  /** await_ready, then await_suspend: hand the child its continuation and transfer to it. */
  function AwaitSuspend(s: State, i: nat): State
    requires i < |s| && s[i].status.Holding? && s[i].status.child < |s|
  {
    var f, c := s[i], s[i].status.child;
    var Holding(_, rest, env, p) := f.status;
    if s[c].status.Done? then s[i := f.(status := Resumed(c, rest, env, p))]
    else if s[c].status.Suspended? then
      s[i := f.(status := Awaiting(c, rest, env, p), suspends := f.suspends + 1)]
       [c := s[c].(status := Running(s[c].status.code, s[c].status.env), continuation := Some(i))]
    else s
  }

  /** await_resume reads the child's promise; then the temporary Task destroys its frame. */
  function AwaitResume(s: State, i: nat): State
    requires i < |s| && s[i].status.Resumed? && s[i].status.child < |s| && s[s[i].status.child].value.Some?
  {
    var f, c := s[i], s[i].status.child;
    var Resumed(_, rest, env, _) := f.status;
    s[i := f.(status := Running(rest, env + [s[c].value.value]))][c := Destroy(s[c], TaskDestructor)]
  }

  /** The final awaiter: read the continuation, destroy the frame if detached, transfer. */
  function FinalAwait(s: State, i: nat): State
    requires i < |s|
  {
    var f := s[i];
    var s' := s[i := if f.detached then Destroy(f, FinalSuspend) else f.(status := Done)];
    if f.continuation.None? then s' else Resume(s', f.continuation.value)
  }

  function Resume(s: State, p: nat): State {
    if p < |s| && s[p].status.Awaiting? then
      var Awaiting(c, rest, env, q) := s[p].status;
      s[p := s[p].(status := Resumed(c, rest, env, q), resumes := s[p].resumes + 1)]
    else s
  }

  // ---------- The invariant ----------

  predicate Waits(st: Status) { st.Holding? || st.Awaiting? || st.Resumed? }

  // Started and not yet at its final suspend point.
  predicate Active(st: Status) { st.Running? || Waits(st) || st.Returned? }

  // What holds of one frame by itself.
  ghost predicate Sound(f: Frame) {
    && (match f.status
        case Suspended(code, env) => Eval(code, env) == f.expected
        case Running(code, env) => Eval(code, env) == f.expected
        case Holding(_, rest, env, p) => Eval(rest, env + [p]) == f.expected
        case Awaiting(_, rest, env, p) => Eval(rest, env + [p]) == f.expected
        case Resumed(_, rest, env, p) => Eval(rest, env + [p]) == f.expected
        case Returned => f.value == Some(f.expected)
        case Done => f.value == Some(f.expected) && !f.detached
        case Destroyed(agent) => f.value == Some(f.expected) && (agent == FinalSuspend <==> f.detached))
    && f.suspends == f.resumes + (if f.status.Awaiting? then 1 else 0)
    && f.destroys == (if f.status.Destroyed? then 1 else 0)
    && (f.detached <==> f.parent.None?)
    && f.continuation == (if f.status.Suspended? then None else f.parent)
    && (f.queued <==> f.status.Suspended? && f.detached)
  }

  // The child that frame i is dealing with knows about it, and is where it should be.
  ghost predicate OwnsChild(s: State, i: nat)
    requires i < |s|
  {
    var st := s[i].status;
    Waits(st) ==>
      && i < st.child < |s|
      && s[st.child].parent == Some(i) && s[st.child].expected == st.promised
      && (st.Holding? ==> s[st.child].status.Suspended?)
      && (st.Awaiting? ==> Active(s[st.child].status))
      && (st.Resumed? ==> s[st.child].status.Done?)
  }

  // An owned frame that still exists is the child its parent is dealing with.
  ghost predicate OwnedByParent(s: State, j: nat)
    requires j < |s|
  {
    s[j].parent.Some? && !s[j].status.Destroyed? ==>
      var p := s[j].parent.value;
      p < j && Waits(s[p].status) && s[p].status.child == j
  }

  ghost predicate Inv(s: State) {
    forall i :: 0 <= i < |s| ==> Sound(s[i]) && OwnsChild(s, i) && OwnedByParent(s, i)
  }

  lemma InitInv(code: Code, env: Env)
    ensures Inv(Init(code, env))
  {
  }

  lemma StartKeepsInv(s: State, i: nat)
    requires Inv(s) && Enabled(s, i) && s[i].status.Suspended?
    ensures Inv(Step(s, i))
  {
  }

  lemma LocalStepKeepsInv(s: State, i: nat, code: Code, env: Env)
    requires Inv(s) && i < |s| && s[i].status == Running(code, env) && (code.Return? || code.If?)
    ensures Inv(Execute(s, i, code, env))
  {
  }

  lemma CallKeepsInv(s: State, i: nat, code: Code, env: Env)
    requires Inv(s) && i < |s| && s[i].status == Running(code, env) && code.Await?
    ensures Inv(Execute(s, i, code, env))
  {
    var t := Execute(s, i, code, env);
    forall k | 0 <= k < |t| ensures Sound(t[k]) && OwnsChild(t, k) && OwnedByParent(t, k) {
      if k < |s| { assert Sound(s[k]) && OwnsChild(s, k) && OwnedByParent(s, k); }
    }
  }

  lemma SpawnKeepsInv(s: State, i: nat, code: Code, env: Env)
    requires Inv(s) && i < |s| && s[i].status == Running(code, env) && code.Spawn?
    ensures Inv(Execute(s, i, code, env))
  {
    var t := Execute(s, i, code, env);
    forall k | 0 <= k < |t| ensures Sound(t[k]) && OwnsChild(t, k) && OwnedByParent(t, k) {
      if k < |s| { assert Sound(s[k]) && OwnsChild(s, k) && OwnedByParent(s, k); }
    }
  }

  lemma AwaitSuspendKeepsInv(s: State, i: nat)
    requires Inv(s) && Enabled(s, i) && s[i].status.Holding?
    ensures Inv(AwaitSuspend(s, i))
  {
    var t := AwaitSuspend(s, i);
    assert OwnsChild(s, i);
    forall k | 0 <= k < |t| ensures Sound(t[k]) && OwnsChild(t, k) && OwnedByParent(t, k) {
      assert Sound(s[k]) && OwnsChild(s, k) && OwnedByParent(s, k);
    }
  }

  lemma AwaitResumeKeepsInv(s: State, i: nat)
    requires Inv(s) && Enabled(s, i) && s[i].status.Resumed?
    ensures Inv(AwaitResume(s, i))
  {
    var t := AwaitResume(s, i);
    assert OwnsChild(s, i);
    assert Sound(s[s[i].status.child]);
    forall k | 0 <= k < |t| ensures Sound(t[k]) && OwnsChild(t, k) && OwnedByParent(t, k) {
      assert Sound(s[k]) && OwnsChild(s, k) && OwnedByParent(s, k);
    }
  }

  lemma FinalAwaitKeepsInv(s: State, i: nat)
    requires Inv(s) && i < |s| && s[i].status.Returned?
    ensures Inv(FinalAwait(s, i))
  {
    var t := FinalAwait(s, i);
    assert Sound(s[i]) && OwnedByParent(s, i);
    forall k | 0 <= k < |t| ensures Sound(t[k]) && OwnsChild(t, k) && OwnedByParent(t, k) {
      assert Sound(s[k]) && OwnsChild(s, k) && OwnedByParent(s, k);
    }
  }

  /** Every step of every interleaving keeps the invariant. */
  lemma StepKeepsInv(s: State, i: nat)
    requires Inv(s) && Enabled(s, i)
    ensures Inv(Step(s, i))
  {
    match s[i].status
    case Suspended(_, _) => StartKeepsInv(s, i);
    case Running(code, env) =>
      match code {
        case Await(_, _, _) => CallKeepsInv(s, i, code, env);
        case Spawn(_, _, _) => SpawnKeepsInv(s, i, code, env);
        case _ => LocalStepKeepsInv(s, i, code, env);
      }
    case Holding(_, _, _, _) => AwaitSuspendKeepsInv(s, i);
    case Resumed(_, _, _, _) => AwaitResumeKeepsInv(s, i);
    case Returned => FinalAwaitKeepsInv(s, i);
  }

  // ---------- Progress ----------

  // Following awaited children downwards from i ends at a frame that can move.
  lemma {:induction false} SomeoneBelowMoves(s: State, i: nat) returns (k: nat)
    requires Inv(s) && i < |s| && Active(s[i].status)
    ensures Enabled(s, k)
    decreases |s| - i
  {
    assert OwnsChild(s, i);
    if s[i].status.Awaiting? {
      k := SomeoneBelowMoves(s, s[i].status.child);
    } else {
      if s[i].status.Resumed? { assert Sound(s[s[i].status.child]); }
      k := i;
    }
  }

  /** While any frame exists, some frame can take a step: control is never lost. */
  lemma Progress(s: State, i: nat) returns (k: nat)
    requires Inv(s) && i < |s| && !s[i].status.Destroyed?
    ensures Enabled(s, k)
  {
    assert Sound(s[i]) && OwnedByParent(s, i);
    if Active(s[i].status) {
      k := SomeoneBelowMoves(s, i);
    } else if s[i].queued {
      k := i;
    } else {
      var p := s[i].parent.value;
      assert OwnsChild(s, p);
      k := SomeoneBelowMoves(s, p);
    }
  }

  /** A step touches only frames that exist: await_resume reads a finished, undestroyed promise
      and the final awaiter transfers to a suspended awaiter of this very frame. */
  lemma NoUseAfterDestroy(s: State, i: nat)
    requires Inv(s) && Enabled(s, i)
    ensures !s[i].status.Destroyed?
    ensures s[i].status.Resumed? ==> s[s[i].status.child].status.Done?
    ensures s[i].status.Returned? && s[i].continuation.Some? ==>
      var p := s[i].continuation.value;
      p < |s| && s[p].status.Awaiting? && s[p].status.child == i
  {
    assert Sound(s[i]) && OwnsChild(s, i) && OwnedByParent(s, i);
    if s[i].status.Returned? && s[i].continuation.Some? {
      assert OwnsChild(s, s[i].parent.value);
    }
  }

  // ---------- Every run ends, after a number of steps fixed by direct style ----------

  function Cost(c: Code, env: Env): nat {
    match c
    case Return(_) => 2
    case If(cond, yes, no) => 1 + if cond(env) then Cost(yes, env) else Cost(no, env)
    case Await(args, child, rest) =>
      3 + Cost(child, args(env)) + Cost(rest, env + [Eval(child, args(env))])
    case Spawn(args, child, rest) =>
      2 + Cost(child, args(env)) + Cost(rest, env)
  }

  // The steps a frame has still to take itself.
  function Weight(f: Frame): nat {
    match f.status
    case Suspended(code, env) => Cost(code, env) + if f.queued then 1 else 0
    case Running(code, env) => Cost(code, env)
    case Holding(_, rest, env, p) => 2 + Cost(rest, env + [p])
    case Awaiting(_, rest, env, p) => 1 + Cost(rest, env + [p])
    case Resumed(_, rest, env, p) => 1 + Cost(rest, env + [p])
    case Returned => 1
    case Done => 0
    case Destroyed(_) => 0
  }

  function Work(s: State): nat { Sum(s, Weight) }

  /** Each step does exactly one unit of the outstanding work, whichever frame takes it. */
  lemma StepDoesOneUnit(s: State, i: nat)
    requires Inv(s) && Enabled(s, i)
    ensures Work(Step(s, i)) == Work(s) - 1
  {
    hide Sum;
    var f := s[i];
    assert Sound(f) && OwnsChild(s, i) && OwnedByParent(s, i);
    match f.status
    case Suspended(code, env) => SumUpdate(s, i, f.(status := Running(code, env), queued := false), Weight);
    case Running(code, env) => ExecuteDoesOneUnit(s, i, code, env);
    case Holding(c, rest, env, p) =>
      var f' := f.(status := Awaiting(c, rest, env, p), suspends := f.suspends + 1);
      SumUpdate(s, i, f', Weight);
      assert Sound(s[c]);
      var g := s[c].(status := Running(s[c].status.code, s[c].status.env), continuation := Some(i));
      SumUpdate(s[i := f'], c, g, Weight);
    case Resumed(c, rest, env, p) =>
      assert Sound(s[c]);
      var f' := f.(status := Running(rest, env + [s[c].value.value]));
      SumUpdate(s, i, f', Weight);
      SumUpdate(s[i := f'], c, Destroy(s[c], TaskDestructor), Weight);
    case Returned => FinalAwaitDoesOneUnit(s, i);
  }

  lemma ExecuteDoesOneUnit(s: State, i: nat, code: Code, env: Env)
    requires i < |s| && s[i].status == Running(code, env)
    ensures Work(Execute(s, i, code, env)) == Work(s) - 1
  {
    hide Sum;
    var f := s[i];
    match code
    case Return(result) => SumUpdate(s, i, f.(status := Returned, value := Some(result(env))), Weight);
    case If(cond, yes, no) => SumUpdate(s, i, f.(status := Running(if cond(env) then yes else no, env)), Weight);
    case Await(args, child, rest) =>
      var inner := NewFrame(child, args(env), Some(i), false);
      var f' := f.(status := Holding(|s|, rest, env, inner.expected));
      SumUpdate(s, i, f', Weight);
      SumAppend(s[i := f'], inner, Weight);
    case Spawn(args, child, rest) =>
      var f' := f.(status := Running(rest, env));
      SumUpdate(s, i, f', Weight);
      SumAppend(s[i := f'], NewFrame(child, args(env), None, true), Weight);
  }

  lemma FinalAwaitDoesOneUnit(s: State, i: nat)
    requires i < |s| && s[i].status.Returned?
    ensures Work(FinalAwait(s, i)) == Work(s) - 1
  {
    hide Sum;
    hide Resume;
    var f := s[i];
    var g := if f.detached then Destroy(f, FinalSuspend) else f.(status := Done);
    SumUpdate(s, i, g, Weight);
    if f.continuation.Some? { ResumeMovesNoWork(s[i := g], f.continuation.value); }
  }

  lemma ResumeMovesNoWork(s: State, p: nat)
    ensures Work(Resume(s, p)) == Work(s)
  {
    if p < |s| && s[p].status.Awaiting? {
      var Awaiting(c, rest, env, q) := s[p].status;
      SumUpdate(s, p, s[p].(status := Resumed(c, rest, env, q), resumes := s[p].resumes + 1), Weight);
    }
  }

  // ---------- Which tasks there are, fixed by direct style ----------

  // A task by what it returns and whether it is detached.
  type Kind = (int, bool)

  /** The tasks a body gives rise to, each child with the arguments it is given. */
  function Inside(c: Code, env: Env): multiset<Kind> {
    match c
    case Return(_) => multiset{}
    case If(cond, yes, no) => if cond(env) then Inside(yes, env) else Inside(no, env)
    case Await(args, child, rest) =>
      var v := Eval(child, args(env));
      multiset{(v, false)} + Inside(child, args(env)) + Inside(rest, env + [v])
    case Spawn(args, child, rest) =>
      multiset{(Eval(child, args(env)), true)} + Inside(child, args(env)) + Inside(rest, env)
  }

  // The tasks a frame has still to give rise to.
  function Left(f: Frame): multiset<Kind> {
    match f.status
    case Suspended(code, env) => Inside(code, env)
    case Running(code, env) => Inside(code, env)
    case Holding(_, rest, env, p) => Inside(rest, env + [p])
    case Awaiting(_, rest, env, p) => Inside(rest, env + [p])
    case Resumed(_, rest, env, p) => Inside(rest, env + [p])
    case _ => multiset{}
  }

  // How many tasks of kind x a frame accounts for: itself, and those still to come.
  function Share(x: Kind): Frame -> nat {
    (f: Frame) => Left(f)[x] + if (f.expected, f.detached) == x then 1 else 0
  }

  lemma ShareSame(f: Frame, g: Frame, x: Kind)
    requires Left(f) == Left(g) && f.expected == g.expected && f.detached == g.detached
    ensures Share(x)(f) == Share(x)(g)
  {
    hide Left;
  }

  // Replacing a frame by one with the same share changes nothing.
  lemma SumKept(s: State, i: nat, g: Frame, x: Kind)
    requires i < |s| && Left(s[i]) == Left(g) && s[i].expected == g.expected && s[i].detached == g.detached
    ensures Sum(s[i := g], Share(x)) == Sum(s, Share(x))
  {
    hide Sum;
    hide Left;
    ShareSame(s[i], g, x);
    SumUpdate(s, i, g, Share(x));
    hide Share;
  }

  /** No step makes a task that direct style does not call for, or loses one. */
  lemma StepKeepsShares(s: State, i: nat, x: Kind)
    requires Inv(s) && Enabled(s, i)
    ensures Sum(Step(s, i), Share(x)) == Sum(s, Share(x))
  {
    hide Sum;
    hide Share;
    hide Inside;
    var f := s[i];
    assert Sound(f) && OwnsChild(s, i) && OwnedByParent(s, i);
    match f.status
    case Suspended(code, env) => SumKept(s, i, f.(status := Running(code, env), queued := false), x);
    case Running(code, env) => ExecuteKeepsShares(s, i, code, env, x);
    case Holding(c, rest, env, p) =>
      var f' := f.(status := Awaiting(c, rest, env, p), suspends := f.suspends + 1);
      SumKept(s, i, f', x);
      var g := s[c].(status := Running(s[c].status.code, s[c].status.env), continuation := Some(i));
      SumKept(s[i := f'], c, g, x);
    case Resumed(c, rest, env, p) =>
      assert Sound(s[c]);
      var f' := f.(status := Running(rest, env + [s[c].value.value]));
      SumKept(s, i, f', x);
      SumKept(s[i := f'], c, Destroy(s[c], TaskDestructor), x);
    case Returned => FinalAwaitKeepsShares(s, i, x);
  }

  lemma ExecuteKeepsShares(s: State, i: nat, code: Code, env: Env, x: Kind)
    requires i < |s| && s[i].status == Running(code, env)
    ensures Sum(Execute(s, i, code, env), Share(x)) == Sum(s, Share(x))
  {
    hide Sum;
    hide Share;
    var f := s[i];
    match code
    case Return(result) => SumKept(s, i, f.(status := Returned, value := Some(result(env))), x);
    case If(cond, yes, no) => SumKept(s, i, f.(status := Running(if cond(env) then yes else no, env)), x);
    case Await(_, _, _) => AwaitKeepsShares(s, i, code, env, x);
    case Spawn(_, _, _) => SpawnKeepsShares(s, i, code, env, x);
  }

  lemma AwaitKeepsShares(s: State, i: nat, code: Code, env: Env, x: Kind)
    requires i < |s| && s[i].status == Running(code, env) && code.Await?
    ensures Sum(Execute(s, i, code, env), Share(x)) == Sum(s, Share(x))
  {
    hide Sum;
    hide Share;
    hide Eval;
    var inner := NewFrame(code.child, code.args(env), Some(i), false);
    var g := s[i].(status := Holding(|s|, code.rest, env, inner.expected));
    assert Left(s[i]) == multiset{(inner.expected, false)} + Left(inner) + Left(g);
    hide Left;
    hide Inside;
    SharesSplit(s, i, g, inner, x);
  }

  lemma SpawnKeepsShares(s: State, i: nat, code: Code, env: Env, x: Kind)
    requires i < |s| && s[i].status == Running(code, env) && code.Spawn?
    ensures Sum(Execute(s, i, code, env), Share(x)) == Sum(s, Share(x))
  {
    hide Sum;
    hide Share;
    hide Eval;
    var inner := NewFrame(code.child, code.args(env), None, true);
    var g := s[i].(status := Running(code.rest, env));
    assert Left(s[i]) == multiset{(inner.expected, true)} + Left(inner) + Left(g);
    hide Left;
    hide Inside;
    SharesSplit(s, i, g, inner, x);
  }

  // A frame passes part of its share on to a new one.
  lemma SharesSplit(s: State, i: nat, g: Frame, inner: Frame, x: Kind)
    requires i < |s| && s[i].expected == g.expected && s[i].detached == g.detached
    requires Left(s[i]) == multiset{(inner.expected, inner.detached)} + Left(inner) + Left(g)
    ensures Sum(s[i := g] + [inner], Share(x)) == Sum(s, Share(x))
  {
    hide Sum;
    hide Left;
    SumUpdate(s, i, g, Share(x));
    SumAppend(s[i := g], inner, Share(x));
    assert Left(s[i])[x] == multiset{(inner.expected, inner.detached)}[x] + Left(inner)[x] + Left(g)[x];
  }

  lemma FinalAwaitKeepsShares(s: State, i: nat, x: Kind)
    requires i < |s| && s[i].status.Returned?
    ensures Sum(FinalAwait(s, i), Share(x)) == Sum(s, Share(x))
  {
    hide Sum;
    hide Resume;
    hide Share;
    var f := s[i];
    var g := if f.detached then Destroy(f, FinalSuspend) else f.(status := Done);
    SumKept(s, i, g, x);
    if f.continuation.Some? { ResumeMovesNoShare(s[i := g], f.continuation.value, x); }
  }

  lemma ResumeMovesNoShare(s: State, p: nat, x: Kind)
    ensures Sum(Resume(s, p), Share(x)) == Sum(s, Share(x))
  {
    hide Sum;
    hide Share;
    if p < |s| && s[p].status.Awaiting? {
      var Awaiting(c, rest, env, q) := s[p].status;
      SumKept(s, p, s[p].(status := Resumed(c, rest, env, q), resumes := s[p].resumes + 1), x);
    }
  }

  // ---------- Runs ----------

  /** `sched` names the frame that moves at each step. */
  ghost predicate Allowed(s: State, sched: seq<nat>)
    decreases |sched|
  {
    sched == [] || (Enabled(s, sched[0]) && Allowed(Step(s, sched[0]), sched[1..]))
  }

  ghost function Run(s: State, sched: seq<nat>): State
    requires Allowed(s, sched)
    decreases |sched|
  {
    if sched == [] then s else Run(Step(s, sched[0]), sched[1..])
  }

  lemma {:induction false} RunKeeps(s: State, sched: seq<nat>)
    requires Inv(s) && Allowed(s, sched)
    ensures Inv(Run(s, sched)) && Work(Run(s, sched)) == Work(s) - |sched|
    ensures |s| <= |Run(s, sched)|
    ensures forall i :: 0 <= i < |s| ==> Run(s, sched)[i].expected == s[i].expected
    decreases |sched|
  {
    hide Step;
    hide Inv;
    hide Sum;
    hide Enabled;
    if sched != [] {
      StepKeepsInv(s, sched[0]);
      StepDoesOneUnit(s, sched[0]);
      StepKeepsHistory(s, sched[0]);
      RunKeeps(Step(s, sched[0]), sched[1..]);
    }
  }

  lemma {:induction false} RunKeepsShares(s: State, sched: seq<nat>, x: Kind)
    requires Inv(s) && Allowed(s, sched)
    ensures Sum(Run(s, sched), Share(x)) == Sum(s, Share(x))
    decreases |sched|
  {
    hide Step;
    hide Inv;
    hide Sum;
    hide Enabled;
    hide Share;
    if sched != [] {
      StepKeepsInv(s, sched[0]);
      StepKeepsShares(s, sched[0], x);
      RunKeepsShares(Step(s, sched[0]), sched[1..], x);
    }
  }

  lemma StepKeepsHistory(s: State, i: nat)
    requires Enabled(s, i)
    ensures |s| <= |Step(s, i)|
    ensures forall k :: 0 <= k < |s| ==> Step(s, i)[k].expected == s[k].expected
  {
  }

  // A frame that held the value of a task of kind x.
  function Held(x: Kind): Frame -> nat { (f: Frame) => if f.value == Some(x.0) && f.detached == x.1 then 1 else 0 }

  /** At the end of every interleaving there has been exactly one frame for each task that direct style
      calls for: as many of each value, awaited or spawned, and no others. */
  lemma TasksAreThoseOfDirectStyle(code: Code, env: Env, sched: seq<nat>, x: Kind)
    requires Allowed(Init(code, env), sched) && |sched| == 1 + Cost(code, env)
    ensures Sum(Run(Init(code, env), sched), Held(x)) == (multiset{(Eval(code, env), true)} + Inside(code, env))[x]
  {
    hide Sum;
    hide Run;
    hide Allowed;
    var s := Init(code, env);
    InitInv(code, env);
    TasksRefineDirectStyle(code, env, sched);
    RunKeepsShares(s, sched, x);
    var end := Run(s, sched);
    SumAppend([], s[0], Share(x));
    SumNone(Share(x));
    assert s == [] + [s[0]];
    forall i | 0 <= i < |end| ensures Share(x)(end[i]) == Held(x)(end[i]) { assert Settled(end[i]); }
    SumSame(end, Share(x), Held(x));
  }

  // Everything a finished run owes its frames.
  ghost predicate Settled(f: Frame) {
    && f.value == Some(f.expected)
    && f.suspends == f.resumes
    && f.destroys == 1
    && f.status == Destroyed(if f.detached then FinalSuspend else TaskDestructor)
  }

  /** Refinement of direct style, for every coroutine body and every interleaving: a run takes at
      most 1 + Cost steps; short of that it can go on; at that point every frame ever created has
      held its direct-style value, was resumed once for each time it suspended in co_await, and was
      destroyed exactly once, by ~Task if owned and at its final suspend point if detached. */
  lemma TasksRefineDirectStyle(code: Code, env: Env, sched: seq<nat>)
    requires Allowed(Init(code, env), sched)
    ensures |sched| <= 1 + Cost(code, env)
    ensures |sched| < 1 + Cost(code, env) ==> exists i :: Enabled(Run(Init(code, env), sched), i)
    ensures |sched| == 1 + Cost(code, env) ==>
      var end := Run(Init(code, env), sched);
      && |end| > 0 && end[0].value == Some(Eval(code, env))
      && forall i :: 0 <= i < |end| ==> Settled(end[i])
  {
    hide Run;
    hide Allowed;
    hide Eval;
    var s := Init(code, env);
    InitInv(code, env);
    SumAppend([], s[0], Weight);
    assert s == [] + [s[0]];
    RunKeeps(s, sched);
    var end := Run(s, sched);
    assert Work(end) == 1 + Cost(code, env) - |sched|;
    if Work(end) > 0 {
      SumZero(end, Weight);
      var i :| 0 <= i < |end| && Weight(end[i]) != 0;
      var k := Progress(end, i);
    } else {
      SumZero(end, Weight);
      forall i | 0 <= i < |end| ensures Settled(end[i]) { IdleIsSettled(end, i); }
      assert Settled(end[0]);
    }
  }

  lemma IdleIsSettled(s: State, i: nat)
    requires Inv(s) && i < |s| && forall k :: 0 <= k < |s| ==> Weight(s[k]) == 0
    ensures Settled(s[i])
  {
    hide Eval;
    assert Weight(s[i]) == 0;
    assert Sound(s[i]) && OwnedByParent(s, i);
    if s[i].status.Done? {
      assert false;
    }
  }
}
