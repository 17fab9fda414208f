/** The wake-up protocol of the event loop: producer threads queue callbacks under a mutex and bump an eventfd; the
    loop polls, drains the eventfd, swaps the list out and runs the batch.  One `Step` is one atomic action of one
    thread. */
module EventLoop {

  type Thread = nat
  type Callback = nat

  /** The thread that runs the loop; its callbacks may themselves queue callbacks. */
  const LOOP_THREAD: Thread := 0

  /** The mutex, with what its holder has done so far inside `add_callback_after`. */
  datatype Mutex =
    | Free
    | Locked(t: Thread, cb: Callback)
    | Pushed(t: Thread)
    | Activated(t: Thread)

  datatype LoopPc =
    | NotStarted
    | AtTop                        // about to test is_loop
    | AtPoll                       // in epoll_wait
    | AtDrain                      // poll has reported the eventfd; its handler is about to read it
    | AtSwap                       // about to lock and swap the list
    | Running(rest: seq<Callback>) // the callbacks of the batch that have not run yet
    | Stopped

  /** `history` is what has been put into the list so far; `ran` every callback run; `stopping` counts stop calls that
      have cleared is_loop but not yet bumped the eventfd. */
  datatype Loop = Loop(
    mu: Mutex, cbList: seq<Callback>, eventfd: nat, isLoop: bool, stopping: nat, pc: LoopPc,
    ran: seq<Callback>, history: seq<Callback>)

  const NEW_LOOP := Loop(Free, [], 0, false, 0, NotStarted, [], [])

  datatype Step =
    | Lock(t: Thread, cb: Callback) | Push | Activate | Unlock
    | StopFlag | StopActivate
    | Start | Top | PollActivated | PollOther | Drain | Swap | RunOne | Finish

  /** The loop thread is inside `add_callback_after`, called by the callback it is running. */
  predicate LoopBusy(s: Loop) { !s.mu.Free? && s.mu.t == LOOP_THREAD }

  predicate Enabled(s: Loop, step: Step) {
    match step
    case Lock(t, cb) => s.mu.Free? && (t == LOOP_THREAD ==> s.pc.Running?)
    case Push => s.mu.Locked?
    case Activate => s.mu.Pushed?
    case Unlock => s.mu.Activated?
    case StopFlag => true
    case StopActivate => s.stopping > 0
    case Start => s.pc.NotStarted? && !s.isLoop
    case Top => s.pc.AtTop?
    case PollActivated => s.pc.AtPoll? && s.eventfd > 0
    case PollOther => s.pc.AtPoll?
    case Drain => s.pc.AtDrain?
    case Swap => s.pc.AtSwap? && s.mu.Free?
    case RunOne => s.pc.Running? && s.pc.rest != [] && !LoopBusy(s)
    case Finish => s.pc.Running? && s.pc.rest == [] && !LoopBusy(s)
  }

  function Do(s: Loop, step: Step): Loop
    requires Enabled(s, step)
  {
    match step
    case Lock(t, cb) => s.(mu := Locked(t, cb))
    case Push => s.(mu := Pushed(s.mu.t), cbList := s.cbList + [s.mu.cb], history := s.history + [s.mu.cb])
    case Activate => s.(mu := Activated(s.mu.t), eventfd := s.eventfd + 1)
    case Unlock => s.(mu := Free)
    case StopFlag => s.(isLoop := false, stopping := s.stopping + 1)
    case StopActivate => s.(stopping := s.stopping - 1, eventfd := s.eventfd + 1)
    case Start => s.(isLoop := true, pc := AtTop)
    case Top => s.(pc := if s.isLoop then AtPoll else Stopped)
    case PollActivated => s.(pc := AtDrain)
    case PollOther => s.(pc := AtSwap)
    case Drain => s.(eventfd := 0, pc := AtSwap)
    case Swap => s.(cbList := [], pc := Running(s.cbList))
    case RunOne => s.(ran := s.ran + [s.pc.rest[0]], pc := Running(s.pc.rest[1..]))
    case Finish => s.(pc := AtTop)
  }

  predicate LegalRun(s: Loop, steps: seq<Step>)
    decreases |steps|
  {
    steps == [] || (Enabled(s, steps[0]) && LegalRun(Do(s, steps[0]), steps[1..]))
  }

  function Run(s: Loop, steps: seq<Step>): Loop
    requires LegalRun(s, steps)
    decreases |steps|
  {
    if steps == [] then s else Run(Do(s, steps[0]), steps[1..])
  }

  // ----- safety

  function Batch(s: Loop): seq<Callback> { if s.pc.Running? then s.pc.rest else [] }

  /** Queued work is announced: the eventfd is readable, or the loop has left the poll and not yet swapped, or the
      producer is about to bump the eventfd. */
  predicate Announced(s: Loop) {
    s.cbList != [] ==> s.eventfd > 0 || s.pc.AtDrain? || s.pc.AtSwap? || s.mu.Pushed?
  }

  /** A stop that has been asked for is announced to a loop that polls. */
  predicate StopAnnounced(s: Loop) {
    s.pc.AtPoll? && !s.isLoop ==> s.eventfd > 0 || s.stopping > 0
  }

  /** Every callback is run, in the current batch, or still queued: once, in lock order. */
  predicate InOrder(s: Loop) { s.ran + Batch(s) + s.cbList == s.history }

  ghost predicate Ok(s: Loop) {
    && Announced(s) && StopAnnounced(s) && InOrder(s)
    && (s.pc.AtDrain? ==> s.eventfd > 0)
    && (LoopBusy(s) ==> s.pc.Running?)
    && (s.pc.Stopped? ==> !s.isLoop)
  }

  lemma StepKeeps(s: Loop, step: Step)
    requires Ok(s) && Enabled(s, step)
    ensures Ok(Do(s, step))
  {
    var t := Do(s, step);
    match step {
      case Push =>
        assert s.ran + Batch(s) + (s.cbList + [s.mu.cb]) == s.ran + Batch(s) + s.cbList + [s.mu.cb];
      case Swap => assert s.ran + [] + s.cbList == s.ran + s.cbList + [];
      case RunOne => assert s.ran + [s.pc.rest[0]] + s.pc.rest[1..] == s.ran + s.pc.rest;
      case _ =>
    }
  }

  /** Under every interleaving of producers, stop calls and the loop. */
  lemma {:induction false} RunKeeps(s: Loop, steps: seq<Step>)
    requires Ok(s) && LegalRun(s, steps)
    ensures Ok(Run(s, steps))
    decreases |steps|
  {
    if steps != [] {
      StepKeeps(s, steps[0]);
      RunKeeps(Do(s, steps[0]), steps[1..]);
    }
  }

  // ----- what has been asked for, told from the steps alone

  /** The callbacks of the calls that have taken the lock and then pushed, in that order; `held` is that of the call
      now in its critical section. */
  function Enqueued(held: Callback, steps: seq<Step>): seq<Callback>
    decreases |steps|
  {
    if steps == [] then []
    else
      match steps[0]
      case Lock(_, cb) => Enqueued(cb, steps[1..])
      case Push => [held] + Enqueued(held, steps[1..])
      case _ => Enqueued(held, steps[1..])
  }

  lemma {:induction false} HistoryIs(s: Loop, steps: seq<Step>, held: Callback)
    requires LegalRun(s, steps) && (s.mu.Locked? ==> held == s.mu.cb)
    ensures Run(s, steps).history == s.history + Enqueued(held, steps)
    decreases |steps|
  {
    if steps != [] {
      var next := if steps[0].Lock? then steps[0].cb else held;
      HistoryIs(Do(s, steps[0]), steps[1..], next);
      if steps[0].Push? {
        assert s.history + [held] + Enqueued(held, steps[1..]) == s.history + ([held] + Enqueued(held, steps[1..]));
      }
    } else {
      assert s.history + [] == s.history;
    }
  }

  /** No lost wake-up: in every reachable state with work queued and no producer inside its critical section, a loop
      that polls finds the eventfd readable; and the eventfd handler never finds it empty.  What has run, then the
      rest of the batch, then the list, is what has been asked for, in lock order. */
  lemma NoLostWakeUp(steps: seq<Step>)
    requires LegalRun(NEW_LOOP, steps)
    ensures var s := Run(NEW_LOOP, steps);
            && (s.pc.AtPoll? && s.mu.Free? && s.cbList != [] ==> Enabled(s, PollActivated))
            && (s.pc.AtPoll? && !s.isLoop && s.stopping == 0 ==> Enabled(s, PollActivated))
            && (s.pc.AtDrain? ==> s.eventfd > 0)
            && s.ran + Batch(s) + s.cbList == Enqueued(0, steps)
  {
    assert Ok(NEW_LOOP);
    RunKeeps(NEW_LOOP, steps);
    HistoryIs(NEW_LOOP, steps, 0);
    assert NEW_LOOP.history + Enqueued(0, steps) == Enqueued(0, steps);
  }

  lemma {:induction false} RunConcat(s: Loop, a: seq<Step>, b: seq<Step>)
    requires LegalRun(s, a) && LegalRun(Run(s, a), b)
    ensures LegalRun(s, a + b) && Run(s, a + b) == Run(Run(s, a), b)
    decreases |a|
  {
    hide Do, Enabled;
    if a == [] {
      assert a + b == b;
    } else {
      assert (a + b)[1..] == a[1..] + b;
      RunConcat(Do(s, a[0]), a[1..], b);
    }
  }

  lemma RunTwo(s: Loop, x: Step, y: Step)
    requires Enabled(s, x) && Enabled(Do(s, x), y)
    ensures LegalRun(s, [x, y]) && Run(s, [x, y]) == Do(Do(s, x), y)
  {
    hide Do, Enabled;
    var t := Do(s, x);
    assert [x, y][1..] == [y] && [y][1..] == [];
    assert LegalRun(t, [y]) && Run(t, [y]) == Run(Do(t, y), []);
  }

  /** A whole call of `add_callback_after`. */
  function CallOf(t: Thread, cb: Callback): seq<Step> { [Lock(t, cb), Push] + [Activate, Unlock] }

  /** Whenever the mutex is free a thread can make it, and the callback is then in the list and announced. */
  lemma CallQueues(s: Loop, t: Thread, cb: Callback)
    requires s.mu.Free? && (t == LOOP_THREAD ==> s.pc.Running?)
    ensures LegalRun(s, CallOf(t, cb))
    ensures Run(s, CallOf(t, cb)) ==
            s.(cbList := s.cbList + [cb], eventfd := s.eventfd + 1, history := s.history + [cb])
  {
    hide Run, LegalRun;
    RunTwo(s, Lock(t, cb), Push);
    RunTwo(Run(s, [Lock(t, cb), Push]), Activate, Unlock);
    RunConcat(s, [Lock(t, cb), Push], [Activate, Unlock]);
  }

  lemma {:induction false} BatchRun(s: Loop, steps: seq<Step>)
    requires LegalRun(s, steps) && Swap !in steps
    ensures var t := Run(s, steps);
            && t.ran + Batch(t) == s.ran + Batch(s) && s.ran <= t.ran
            && s.cbList <= t.cbList && t.history == s.history + t.cbList[|s.cbList|..]
    decreases |steps|
  {
    if steps != [] {
      var u := Do(s, steps[0]);
      assert steps[0] in steps;
      if steps[0].RunOne? { assert s.ran + [s.pc.rest[0]] + s.pc.rest[1..] == s.ran + s.pc.rest; }
      BatchRun(u, steps[1..]);
      var t := Run(s, steps);
      assert t.cbList[|s.cbList|..] == u.cbList[|s.cbList|..] + t.cbList[|u.cbList|..];
    }
  }

  /** Until the list is swapped out again, the batch is only worked off, from the front, and every callback queued
      meanwhile goes to the end of the list and stays there: none of them runs with this batch.  `held` is the
      callback of a call that has the lock and has not pushed yet. */
  lemma BatchFixed(s: Loop, steps: seq<Step>, held: Callback)
    requires LegalRun(s, steps) && Swap !in steps && (s.mu.Locked? ==> held == s.mu.cb)
    ensures var t := Run(s, steps);
            && t.ran + Batch(t) == s.ran + Batch(s) && s.ran <= t.ran
            && t.cbList == s.cbList + Enqueued(held, steps)
  {
    hide Run, LegalRun;
    BatchRun(s, steps);
    HistoryIs(s, steps, held);
    var t, e := Run(s, steps), Enqueued(held, steps);
    assert (s.history + t.cbList[|s.cbList|..])[|s.history|..] == (s.history + e)[|s.history|..];
  }

  // ----- progress

  /** The next action of the loop thread when no other thread acts; it waits in the poll while the eventfd is empty.
      */
  function LoopStep(s: Loop): Loop {
    match s.pc
    case AtTop => Do(s, Top)
    case AtPoll => if s.eventfd > 0 then Do(s, PollActivated) else s
    case AtDrain => Do(s, Drain)
    case AtSwap => if s.mu.Free? then Do(s, Swap) else s
    case Running(rest) => if LoopBusy(s) then s else if rest == [] then Do(s, Finish) else Do(s, RunOne)
    case _ => s
  }

  function LoopSteps(s: Loop, n: nat): Loop
    decreases n
  {
    if n == 0 then s else LoopSteps(LoopStep(s), n - 1)
  }

  /** Loop actions after which everything now queued has been run. */
  function Budget(s: Loop): nat {
    var list := |s.cbList|;
    match s.pc
    case AtTop => 4 + list
    case AtPoll => 3 + list
    case AtDrain => 2 + list
    case AtSwap => 1 + list
    case Running(rest) => |rest| + (if list == 0 then 0 else 5 + list)
    case _ => 0
  }

  lemma LoopStepKeeps(s: Loop)
    requires Ok(s)
    ensures Ok(LoopStep(s))
  {
    match s.pc
    case AtTop => StepKeeps(s, Top);
    case AtPoll => if s.eventfd > 0 { StepKeeps(s, PollActivated); }
    case AtDrain => StepKeeps(s, Drain);
    case AtSwap => if s.mu.Free? { StepKeeps(s, Swap); }
    case Running(rest) =>
      if !LoopBusy(s) {
        if rest == [] { StepKeeps(s, Finish); } else { StepKeeps(s, RunOne); }
      }
    case _ =>
  }

  lemma {:induction false} NothingLeft(s: Loop, n: nat)
    requires Ok(s) && s.ran == s.history
    ensures LoopSteps(s, n).ran == s.history
    decreases n
  {
    if n > 0 {
      LoopStepKeeps(s);
      assert |Batch(s)| == 0 && |s.cbList| == 0 by {
        assert |s.ran + Batch(s) + s.cbList| == |s.history|;
      }
      NothingLeft(LoopStep(s), n - 1);
    }
  }

  lemma {:induction false} LoopDrains(s: Loop)
    requires Ok(s) && s.mu.Free? && s.isLoop && !s.pc.NotStarted? && !s.pc.Stopped?
    ensures LoopSteps(s, Budget(s)).ran == s.history
    decreases Budget(s)
  {
    if s.cbList == [] && Batch(s) == [] {
      assert s.ran + [] + [] == s.ran;
      NothingLeft(s, Budget(s));
    } else {
      var t := LoopStep(s);
      LoopStepKeeps(s);
      assert t.history == s.history && t.mu.Free? && t.isLoop;
      assert Budget(t) == Budget(s) - 1;
      LoopDrains(t);
    }
  }

  /** Once the producers pause, a started loop that has not been stopped runs every callback that has been asked
      for, in order, within a bounded number of its own actions: it never goes to sleep on them. */
  lemma DrainsTheQueue(steps: seq<Step>)
    requires LegalRun(NEW_LOOP, steps)
    requires var s := Run(NEW_LOOP, steps); s.mu.Free? && s.isLoop && !s.pc.NotStarted?
    ensures var s := Run(NEW_LOOP, steps); LoopSteps(s, Budget(s)).ran == Enqueued(0, steps)
  {
    hide Run, LegalRun, LoopSteps, Budget;
    assert Ok(NEW_LOOP);
    RunKeeps(NEW_LOOP, steps);
    HistoryIs(NEW_LOOP, steps, 0);
    assert NEW_LOOP.history + Enqueued(0, steps) == Enqueued(0, steps);
    LoopDrains(Run(NEW_LOOP, steps));
  }

  /** So a callback that any other thread queues on such a loop is run, behind all that were queued before. */
  lemma QueuedCallbackRuns(steps: seq<Step>, t: Thread, cb: Callback)
    requires LegalRun(NEW_LOOP, steps) && t != LOOP_THREAD
    requires var s := Run(NEW_LOOP, steps); s.mu.Free? && s.isLoop && !s.pc.NotStarted?
    ensures LegalRun(NEW_LOOP, steps + CallOf(t, cb))
    ensures var s := Run(NEW_LOOP, steps + CallOf(t, cb));
            LoopSteps(s, Budget(s)).ran == Enqueued(0, steps) + [cb]
  {
    hide Run, LegalRun, LoopSteps, Budget;
    CallQueues(Run(NEW_LOOP, steps), t, cb);
    RunConcat(NEW_LOOP, steps, CallOf(t, cb));
    DrainsTheQueue(steps + CallOf(t, cb));
    EnqueuedAppend(steps, t, cb, 0);
  }

  lemma {:induction false} EnqueuedAppend(steps: seq<Step>, t: Thread, cb: Callback, held: Callback)
    ensures Enqueued(held, steps + CallOf(t, cb)) == Enqueued(held, steps) + [cb]
    decreases |steps|
  {
    var call := CallOf(t, cb);
    if steps == [] {
      assert steps + call == call;
      assert call[1..] == [Push, Activate, Unlock] && call[1..][1..] == [Activate, Unlock];
      assert [Activate, Unlock][1..] == [Unlock] && [Unlock][1..] == [];
      assert Enqueued(cb, [Activate, Unlock]) == Enqueued(cb, [Unlock]) == Enqueued(cb, []);
    } else {
      assert (steps + call)[1..] == steps[1..] + call;
      EnqueuedAppend(steps[1..], t, cb, if steps[0].Lock? then steps[0].cb else held);
    }
  }

  /** Loop actions until the loop sleeps, when nobody else acts. */
  function SleepBudget(s: Loop): nat {
    var round := if s.eventfd == 0 then 0 else 5 + |s.cbList|;
    match s.pc
    case AtTop => 1 + round
    case AtPoll => round
    case AtDrain => 4 + |s.cbList|
    case AtSwap => 3 + |s.cbList| + (if s.eventfd == 0 then 0 else 5)
    case Running(rest) => 2 + |rest| + round
    case _ => 0
  }

  /** And it does go to sleep: once the producers pause, a loop that has not been stopped ends up in the poll with the
      eventfd drained, the list empty and everything run, and stays there. */
  lemma {:induction false} LoopSleeps(s: Loop)
    requires Ok(s) && s.mu.Free? && s.isLoop && !s.pc.NotStarted?
    ensures var t := LoopSteps(s, SleepBudget(s));
            t.pc.AtPoll? && t.eventfd == 0 && t.cbList == [] && t.ran == s.history && LoopStep(t) == t
    decreases SleepBudget(s)
  {
    if SleepBudget(s) == 0 {
      assert s.ran + [] + [] == s.ran;
    } else {
      LoopStepKeeps(s);
      LoopSleeps(LoopStep(s));
    }
  }

  // ----- stopping

  /** Some stop comes after the loop has started. */
  predicate StopAfterStart(steps: seq<Step>) {
    exists i, j :: 0 <= i < j < |steps| && steps[i].Start? && steps[j].StopFlag?
  }

  lemma {:induction false} StartedRun(s: Loop, steps: seq<Step>)
    requires LegalRun(s, steps) && !s.pc.NotStarted?
    ensures var t := Run(s, steps);
            !t.pc.NotStarted? && (t.isLoop <==> s.isLoop && StopFlag !in steps)
    decreases |steps|
  {
    if steps != [] {
      StartedRun(Do(s, steps[0]), steps[1..]);
      assert StopFlag in steps <==> steps[0] == StopFlag || StopFlag in steps[1..];
    }
  }

  /** A loop that has started is told to stop exactly when some stop came after the start. */
  lemma {:induction false} StopNoticed(s: Loop, steps: seq<Step>)
    requires LegalRun(s, steps) && s.pc.NotStarted?
    requires !Run(s, steps).pc.NotStarted?
    ensures !Run(s, steps).isLoop <==> StopAfterStart(steps)
    decreases |steps|
  {
    var rest := steps[1..];
    assert forall i :: 0 <= i < |rest| ==> rest[i] == steps[i + 1];
    if steps[0].Start? {
      StartedRun(Do(s, Start), rest);
      StartsOnce(Do(s, Start), rest);
      if StopFlag in rest {
        var j :| 0 <= j < |rest| && rest[j] == StopFlag;
        assert steps[0].Start? && steps[j + 1].StopFlag?;
      }
    } else {
      StopNoticed(Do(s, steps[0]), rest);
      if StopAfterStart(rest) {
        var i, j :| 0 <= i < j < |rest| && rest[i].Start? && rest[j].StopFlag?;
        assert steps[i + 1].Start? && steps[j + 1].StopFlag?;
      }
      if StopAfterStart(steps) {
        var i, j :| 0 <= i < j < |steps| && steps[i].Start? && steps[j].StopFlag?;
        assert rest[i - 1].Start? && rest[j - 1].StopFlag?;
      }
    }
  }

  lemma {:induction false} StartsOnce(s: Loop, steps: seq<Step>)
    requires LegalRun(s, steps) && !s.pc.NotStarted?
    ensures Start !in steps
    decreases |steps|
  {
    if steps != [] {
      StartsOnce(Do(s, steps[0]), steps[1..]);
    }
  }

  /** Loop actions until a loop that has been told to stop has left `run`. */
  function StopBudget(s: Loop): nat {
    match s.pc
    case AtTop => 1
    case AtPoll => 5 + |s.cbList|
    case AtDrain => 4 + |s.cbList|
    case AtSwap => 3 + |s.cbList|
    case Running(rest) => 2 + |rest|
    case _ => 0
  }

  /** A loop that has been told to stop leaves `run`, unless the stop call has yet to bump the eventfd; the batch at
      hand is run to its end. */
  lemma {:induction false} StopReached(s: Loop)
    requires Ok(s) && s.mu.Free? && !s.isLoop && s.stopping == 0 && !s.pc.NotStarted?
    ensures LoopSteps(s, StopBudget(s)).pc.Stopped?
    decreases StopBudget(s)
  {
    if !s.pc.Stopped? {
      LoopStepKeeps(s);
      StopReached(LoopStep(s));
    }
  }

  lemma {:induction false} NeverStops(s: Loop, n: nat)
    requires s.isLoop && !s.pc.Stopped?
    ensures !LoopSteps(s, n).pc.Stopped?
    decreases n
  {
    if n > 0 {
      NeverStops(LoopStep(s), n - 1);
    }
  }

  /** When a stop is honoured: in every reachable state of a started loop in which no producer is inside its
      critical section and no stop call is under way, the loop leaves `run` within a bounded number of its own
      actions if some stop came after the start, and otherwise it does not, however long one waits. */
  lemma StopHonoured(steps: seq<Step>, n: nat)
    requires LegalRun(NEW_LOOP, steps)
    requires var s := Run(NEW_LOOP, steps); !s.pc.NotStarted? && s.mu.Free? && s.stopping == 0
    ensures var s := Run(NEW_LOOP, steps);
            if StopAfterStart(steps) then LoopSteps(s, StopBudget(s)).pc.Stopped?
            else !LoopSteps(s, n).pc.Stopped?
  {
    hide Run, LegalRun, LoopSteps, StopAfterStart;
    var s := Run(NEW_LOOP, steps);
    assert Ok(NEW_LOOP);
    RunKeeps(NEW_LOOP, steps);
    StopNoticed(NEW_LOOP, steps);
    if StopAfterStart(steps) { StopReached(s); } else { NeverStops(s, n); }
  }

  /** A stop that comes before the loop has started is lost: `run` sets the flag again. */
  lemma EarlyStopIsLost()
    ensures var steps := [StopFlag, StopActivate, Start, Top];
            LegalRun(NEW_LOOP, steps) && Run(NEW_LOOP, steps).pc == AtPoll && Run(NEW_LOOP, steps).isLoop
  {
    var steps := [StopFlag, StopActivate, Start, Top];
    var s1 := Do(NEW_LOOP, StopFlag);
    var s2 := Do(s1, StopActivate);
    var s3 := Do(s2, Start);
    assert steps[1..] == [StopActivate, Start, Top];
    assert [StopActivate, Start, Top][1..] == [Start, Top];
    assert [Start, Top][1..] == [Top];
    assert [Top][1..] == [];
    assert LegalRun(s3, [Top]) && Run(s3, [Top]) == Run(Do(s3, Top), []);
    assert LegalRun(s2, [Start, Top]) && Run(s2, [Start, Top]) == Run(s3, [Top]);
    assert LegalRun(s1, [StopActivate, Start, Top]) && Run(s1, [StopActivate, Start, Top]) == Run(s2, [Start, Top]);
  }
}
