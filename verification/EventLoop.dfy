/** The functions posted to `src/network/net/EventLoop.cpp` and its wakeup pipe, with any number of threads
    posting. One action is one thing another thread can see: a producer pushes under the lock, then
    writes its token, then unlocks; the loop returns from its wait, reads at most one token, takes the
    lock, runs and pops tasks, unlocks, runs its timers and waits again. */
module TaskQueue {

  type TaskId = nat
  type Thread = nat

  datatype Lock = Free | ByProducer(thread: Thread) | ByLoop

  datatype Phase = Waiting | Dispatching | Draining | Timing

  /** `tokens` is what the pipe holds unread; `readable` says that this turn's events include the
      pipe, not read yet; `posted` and `executed` record tasks; `drains` counts finished drains. */
  datatype Loop = Loop(queue: seq<TaskId>, tokens: nat, lock: Lock, phase: Phase, readable: bool,
                       posted: seq<TaskId>, executed: seq<TaskId>, drains: nat)

  const START: Loop := Loop([], 0, Free, Waiting, false, [], [], 0)

  datatype Action =
    | Push(thread: Thread, task: TaskId)
    | Wake(thread: Thread)
    | WaitReturns(reported: bool)
    | ReadPipe
    | TakeLock
    | RunTask
    | Release
    | NextWait

  predicate Enabled(s: Loop, a: Action) {
    match a
    case Push(_, _) => s.lock.Free?
    case Wake(t) => s.lock == ByProducer(t)
    case WaitReturns(reported) => s.phase.Waiting? && (reported ==> s.tokens > 0)
    case ReadPipe => s.phase.Dispatching? && s.readable && s.tokens > 0
    case TakeLock => s.phase.Dispatching? && !s.readable && s.lock.Free?
    case RunTask => s.phase.Draining? && s.queue != []
    case Release => s.phase.Draining? && s.queue == []
    case NextWait => s.phase.Timing?
  }

  /** An action that cannot happen leaves the state as it is. */
  function Step(s: Loop, a: Action): Loop {
    if !Enabled(s, a) then s
    else match a
      case Push(t, task) => s.(queue := s.queue + [task], posted := s.posted + [task], lock := ByProducer(t))
      case Wake(_) => s.(tokens := s.tokens + 1, lock := Free)
      case WaitReturns(reported) => s.(phase := Dispatching, readable := reported)
      case ReadPipe => s.(tokens := s.tokens - 1, readable := false)
      case TakeLock => s.(lock := ByLoop, phase := Draining)
      case RunTask => s.(executed := s.executed + [s.queue[0]], queue := s.queue[1..])
      case Release => s.(lock := Free, phase := Timing, drains := s.drains + 1)
      case NextWait => s.(phase := Waiting)
  }

  function Run(s: Loop, actions: seq<Action>): Loop
    decreases |actions|
  {
    if actions == [] then s else Run(Step(s, actions[0]), actions[1..])
  }

  /** A producer has pushed and not yet written its token. */
  function Unwoken(s: Loop): nat { if s.lock.ByProducer? then 1 else 0 }

  ghost predicate Inv(s: Loop) {
    && s.executed + s.queue == s.posted
    && (s.phase.Draining? <==> s.lock.ByLoop?)
    && (s.readable ==> s.phase.Dispatching? && s.tokens > 0)
    && (s.phase.Waiting? || s.phase.Timing? || s.readable ==> |s.queue| <= s.tokens + Unwoken(s))
    && (s.phase.Dispatching? ==> |s.queue| <= s.tokens + Unwoken(s) + 1)
  }

  lemma StepInv(s: Loop, a: Action)
    requires Inv(s)
    ensures Inv(Step(s, a))
    ensures s.posted <= Step(s, a).posted && s.executed <= Step(s, a).executed && s.drains <= Step(s, a).drains
  {
    if a.Push? {
      assert s.executed + (s.queue + [a.task]) == (s.executed + s.queue) + [a.task];
    } else if a.RunTask? && s.queue != [] {
      assert s.queue == [s.queue[0]] + s.queue[1..];
      assert s.executed + [s.queue[0]] + s.queue[1..] == s.executed + s.queue;
    }
  }

  lemma {:induction false} RunInv(s: Loop, actions: seq<Action>)
    requires Inv(s)
    ensures Inv(Run(s, actions))
    ensures s.posted <= Run(s, actions).posted && s.executed <= Run(s, actions).executed
    decreases |actions|
  {
    if actions != [] {
      StepInv(s, actions[0]);
      RunInv(Step(s, actions[0]), actions[1..]);
    }
  }

  /** In every run: tasks run once each and in the order posted; and whenever the loop waits, the pipe
      holds a token for every queued task whose producer is not about to write one. */
  lemma NoLostWakeup(actions: seq<Action>)
    ensures var s := Run(START, actions);
            && s.executed + s.queue == s.posted
            && (s.phase.Waiting? ==> |s.queue| <= s.tokens + Unwoken(s))
            && (s.phase.Waiting? && s.lock.Free? && s.queue != [] ==> Enabled(s, WaitReturns(true)))
  {
    RunInv(START, actions);
  }

  /** What was posted before a drain ends has run by then. */
  lemma {:induction false} DrainRunsAll(s: Loop, actions: seq<Action>)
    requires Inv(s) && Run(s, actions).drains > s.drains
    ensures s.posted <= Run(s, actions).executed
    decreases |actions|
  {
    if actions != [] {
      var s' := Step(s, actions[0]);
      StepInv(s, actions[0]);
      RunInv(s', actions[1..]);
      if s'.drains == s.drains {
        DrainRunsAll(s', actions[1..]);
      }
    }
  }

  /** `runFunctions`: as many tasks as are queued, then the lock is released. */
  function DrainActions(n: nat): seq<Action> {
    if n == 0 then [Release] else [RunTask] + DrainActions(n - 1)
  }

  lemma {:induction false} DrainTerminates(s: Loop)
    requires Inv(s) && s.phase.Draining?
    ensures var t := Run(s, DrainActions(|s.queue|));
            && t.phase.Timing? && t.lock.Free? && t.queue == [] && t.executed == s.posted
            && t.tokens == s.tokens && t.posted == s.posted && t.drains == s.drains + 1
    decreases |s.queue|
  {
    if s.queue == [] {
      assert [Release][1..] == [];
      assert s.executed + [] == s.executed;
    } else {
      StepInv(s, RunTask);
      assert DrainActions(|s.queue|)[1..] == DrainActions(|s.queue| - 1);
      DrainTerminates(Step(s, RunTask));
    }
  }

  /** A loop that waits with work queued and no producer inside can go round at once, and one turn runs
      everything that is queued. */
  lemma OneTurnRunsAll(s: Loop)
    requires Inv(s) && s.phase.Waiting? && s.lock.Free? && s.queue != []
    ensures var turn := [WaitReturns(true), ReadPipe, TakeLock] + DrainActions(|s.queue|);
            && Enabled(s, turn[0])
            && Run(s, turn).executed == s.posted && Run(s, turn).queue == [] && Run(s, turn).phase.Timing?
            && Run(s, turn).tokens == s.tokens - 1 && Step(Run(s, turn), NextWait).phase.Waiting?
  {
    var turn := [WaitReturns(true), ReadPipe, TakeLock] + DrainActions(|s.queue|);
    var s1 := Step(s, WaitReturns(true));
    var s2 := Step(s1, ReadPipe);
    var s3 := Step(s2, TakeLock);
    StepInv(s, WaitReturns(true));
    StepInv(s1, ReadPipe);
    StepInv(s2, TakeLock);
    assert turn[1..] == [ReadPipe, TakeLock] + DrainActions(|s.queue|);
    assert turn[1..][1..] == [TakeLock] + DrainActions(|s.queue|);
    assert turn[1..][1..][1..] == DrainActions(|s.queue|);
    assert Run(s, turn) == Run(s1, turn[1..]) == Run(s2, turn[1..][1..]) == Run(s3, DrainActions(|s.queue|));
    DrainTerminates(s3);
  }
}

/** The queue as the loop's own thread sees it. */
module LoopTasks {

  /** A task: what it is, and the tasks it hands to `runInLoop` while it runs. */
  datatype Func = Func(id: nat, inner: seq<Func>)

  /** The ids in the order they run: posts from the loop's thread run inline. */
  function Order(f: Func): seq<nat>
    decreases f, 0
  {
    [f.id] + OrderAll(f.inner)
  }

  function OrderAll(fs: seq<Func>): seq<nat>
    decreases fs, |fs|
  {
    if fs == [] then [] else Order(fs[0]) + OrderAll(fs[1..])
  }

  lemma {:induction false} OrderAllConcat(a: seq<Func>, b: seq<Func>)
    ensures OrderAll(a + b) == OrderAll(a) + OrderAll(b)
    decreases |a|
  {
    if a == [] {
      assert a + b == b;
    } else {
      assert (a + b)[1..] == a[1..] + b;
      OrderAllConcat(a[1..], b);
    }
  }

  function Size(f: Func): (n: nat)
    ensures n > 0
    decreases f, 0
  {
    1 + SizeAll(f.inner)
  }

  function SizeAll(fs: seq<Func>): nat
    decreases fs, |fs|
  {
    if fs == [] then 0 else Size(fs[0]) + SizeAll(fs[1..])
  }

  lemma {:induction false} SizeAllConcat(a: seq<Func>, b: seq<Func>)
    ensures SizeAll(a + b) == SizeAll(a) + SizeAll(b)
    decreases |a|
  {
    if a == [] {
      assert a + b == b;
    } else {
      assert (a + b)[1..] == a[1..] + b;
      SizeAllConcat(a[1..], b);
    }
  }

  lemma StackShrinks(todo: seq<Func>)
    requires todo != []
    ensures SizeAll(todo[0].inner + todo[1..]) < SizeAll(todo)
  {
    SizeAllConcat(todo[0].inner, todo[1..]);
    assert Size(todo[0]) == 1 + SizeAll(todo[0].inner);
  }

  /** The calls as a call stack makes them: the function on top runs, and what it posts runs before anything
      below it. */
  function Stacked(todo: seq<Func>): seq<nat>
    decreases SizeAll(todo)
  {
    if todo == [] then []
    else
      StackShrinks(todo);
      [todo[0].id] + Stacked(todo[0].inner + todo[1..])
  }

  /** Running inline is what a call stack does. */
  lemma {:induction false} OrderIsCallOrder(todo: seq<Func>)
    ensures OrderAll(todo) == Stacked(todo)
    decreases SizeAll(todo)
  {
    if todo != [] {
      StackShrinks(todo);
      OrderAllConcat(todo[0].inner, todo[1..]);
      OrderIsCallOrder(todo[0].inner + todo[1..]);
    }
  }

  class TaskLoop {
    var functions: seq<Func>
    var tokens: nat
    var ran: seq<nat>

    constructor ()
      ensures functions == [] && tokens == 0 && ran == []
    {
      functions, tokens, ran := [], 0, [];
    }

    method RunInLoop(f: Func, inLoopThread: bool)
      modifies this
      ensures if inLoopThread then ran == old(ran) + Order(f) && functions == old(functions) && tokens == old(tokens)
              else ran == old(ran) && functions == old(functions) + [f] && tokens == old(tokens) + 1
      decreases f, 1
    {
      if inLoopThread {
        Call(f);
      } else {
        functions := functions + [f];
        tokens := tokens + 1;
      }
    }

    /** `f()` on the loop's thread. */
    method Call(f: Func)
      modifies this
      ensures ran == old(ran) + Order(f) && functions == old(functions) && tokens == old(tokens)
      decreases f, 0
    {
      ran := ran + [f.id];
      var i := 0;
      while i < |f.inner|
        invariant 0 <= i <= |f.inner| && functions == old(functions) && tokens == old(tokens)
        invariant ran == old(ran) + ([f.id] + OrderAll(f.inner[..i]))
      {
        assert f.inner[..i + 1] == f.inner[..i] + [f.inner[i]];
        OrderAllConcat(f.inner[..i], [f.inner[i]]);
        assert [f.inner[i]][1..] == [];
        RunInLoop(f.inner[i], true);
        i := i + 1;
      }
      assert f.inner[..i] == f.inner;
    }

    /** Each task runs while it is still at the front, and is popped afterwards. */
    method RunFunctions()
      modifies this
      ensures functions == [] && tokens == old(tokens) && ran == old(ran) + OrderAll(old(functions))
    {
      while functions != []
        invariant ran + OrderAll(functions) == old(ran) + OrderAll(old(functions)) && tokens == old(tokens)
        decreases |functions|
      {
        var f := functions[0];
        assert OrderAll(functions) == Order(f) + OrderAll(functions[1..]);
        Call(f);
        functions := functions[1..];
      }
    }
  }
}
