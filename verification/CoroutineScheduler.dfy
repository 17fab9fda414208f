/** The coroutine scheduler: a ready queue served by `handle_co`, and the flag `is_schedule` that is meant to let
    `handle_co` into the event loop's callback list at most once.  Nothing is locked, so a scheduling call is four
    actions of the thread that makes it, and every interleaving of them with the loop thread is a run.  One push to
    or pop from the ready queue is one action, and resume and yield are atomic transfers of control. */
module CoroutineScheduler {

  type Co = nat
  type Thread = nat

  /** The thread of the event loop. */
  const LOOP: Thread := 0

  /** `Resumed(again)`: has control; `again` when it has been woken meanwhile, as by a timer that is due at once. */
  datatype Status = Blocked | Ready | Resumed(again: bool) | Done

  datatype HandlePc =
    | Idle             // handle_co is not on the stack
    | Looping          // about to test whether the queue is empty
    | In(co: Co)       // a coroutine runs on the loop thread
    | Leaving          // has found the queue empty, about to clear is_schedule

  /** How far a scheduling call has got. */
  datatype CallPc =
    | Pushed           // about to test is_schedule
    | SawClear         // has found it clear, about to put handle_co into the callback list
    | Queued           // has done so, about to set is_schedule

  /** `queued` counts copies of handle_co in the callback list of the loop; `calls` holds the scheduling call each
      thread is in; `woken` is what has been put into the queue so far, `resumed` what has been resumed. */
  datatype Sched = Sched(
    ready: seq<Co>, isSchedule: bool, queued: nat, pc: HandlePc, calls: map<Thread, CallPc>, status: map<Co, Status>,
    woken: seq<Co>, resumed: seq<Co>)

  const NEW_SCHED := Sched([], false, 0, Idle, map[], map[], [], [])

  /** `Spawn` begins add_callback and `Wake` begins schedule_co, each with its push; `Test`, `Queue` and `SetFlag`
      finish them.  The rest is the loop thread in handle_co. */
  datatype Step =
    | Spawn(t: Thread, co: Co) | Wake(t: Thread, co: Co)
    | Test(t: Thread) | Queue(t: Thread) | SetFlag(t: Thread)
    | Begin | ResumeNext | Yield | Return | FindEmpty | Clear

  /** A thread starts a call when it is in none; the loop thread does so inside a coroutine or between callbacks. */
  predicate CanCall(s: Sched, t: Thread) {
    t !in s.calls && (t == LOOP ==> s.pc.Idle? || s.pc.In?)
  }

  predicate CanWake(s: Sched, co: Co) {
    co in s.status && (s.status[co].Blocked? || s.status[co] == Resumed(false))
  }

  /** A coroutine that has been woken while it runs goes on to yield: it does not return before it is resumed again.
      */
  predicate Enabled(s: Sched, step: Step) {
    match step
    case Spawn(t, co) => CanCall(s, t) && co !in s.status
    case Wake(t, co) => CanCall(s, t) && CanWake(s, co)
    case Test(t) => t in s.calls && s.calls[t].Pushed?
    case Queue(t) => t in s.calls && s.calls[t].SawClear?
    case SetFlag(t) => t in s.calls && s.calls[t].Queued?
    case Begin => LOOP !in s.calls && s.pc.Idle? && s.queued > 0
    case ResumeNext => LOOP !in s.calls && s.pc.Looping? && s.ready != []
    case Yield => LOOP !in s.calls && s.pc.In?
    case Return => LOOP !in s.calls && s.pc.In? && !(s.pc.co in s.status && s.status[s.pc.co] == Resumed(true))
    case FindEmpty => LOOP !in s.calls && s.pc.Looping? && s.ready == []
    case Clear => LOOP !in s.calls && s.pc.Leaving?
  }

  function Push(s: Sched, t: Thread, co: Co): Sched {
    var running := co in s.status && s.status[co].Resumed?;
    s.(ready := s.ready + [co], status := s.status[co := if running then Resumed(true) else Ready],
       woken := s.woken + [co], calls := s.calls[t := Pushed])
  }

  function Do(s: Sched, step: Step): Sched
    requires Enabled(s, step)
  {
    match step
    case Spawn(t, co) => Push(s, t, co)
    case Wake(t, co) => Push(s, t, co)
    case Test(t) => if s.isSchedule then s.(calls := s.calls - {t}) else s.(calls := s.calls[t := SawClear])
    case Queue(t) => s.(queued := s.queued + 1, calls := s.calls[t := Queued])
    case SetFlag(t) => s.(isSchedule := true, calls := s.calls - {t})
    case Begin => s.(queued := s.queued - 1, pc := Looping)
    case ResumeNext =>
      s.(ready := s.ready[1..], pc := In(s.ready[0]), status := s.status[s.ready[0] := Resumed(false)],
         resumed := s.resumed + [s.ready[0]])
    case Yield =>
      var again := s.pc.co in s.status && s.status[s.pc.co] == Resumed(true);
      s.(pc := Looping, status := s.status[s.pc.co := if again then Ready else Blocked])
    case Return => s.(pc := Looping, status := s.status[s.pc.co := Done])
    case FindEmpty => s.(pc := Leaving)
    case Clear => s.(isSchedule := false, pc := Idle)
  }

  predicate LegalRun(s: Sched, steps: seq<Step>)
    decreases |steps|
  {
    steps == [] || (Enabled(s, steps[0]) && LegalRun(Do(s, steps[0]), steps[1..]))
  }

  function Run(s: Sched, steps: seq<Step>): Sched
    requires LegalRun(s, steps)
    decreases |steps|
  {
    if steps == [] then s else Run(Do(s, steps[0]), steps[1..])
  }

  // ----- what holds of every interleaving

  predicate InQueue(st: Status) { st.Ready? || st == Resumed(true) }

  /** A coroutine is in the queue, once, exactly when it is ready or has been woken while it runs; and it has control
      exactly when its status says so. */
  ghost predicate StatusExact(s: Sched) {
    && (forall co :: co in s.ready <==> co in s.status && InQueue(s.status[co]))
    && (forall i, j :: 0 <= i < j < |s.ready| ==> s.ready[i] != s.ready[j])
    && (forall co :: co in s.status && s.status[co].Resumed? <==> s.pc == In(co))
  }

  /** Wake-ups are answered in order, each by one resume. */
  predicate Fifo(s: Sched) { s.resumed + s.ready == s.woken }

  ghost predicate Basic(s: Sched) { StatusExact(s) && Fifo(s) }

  lemma PushKeeps(s: Sched, t: Thread, co: Co)
    requires Basic(s) && (co in s.status ==> CanWake(s, co))
    ensures Basic(Push(s, t, co))
  {
    var q := Push(s, t, co);
    assert s.resumed + (s.ready + [co]) == s.resumed + s.ready + [co];
    assert co !in s.ready;
    forall x ensures x in q.ready <==> x in q.status && InQueue(q.status[x]) {
      assert x in q.ready <==> x in s.ready || x == co;
    }
  }

  lemma ResumeKeeps(s: Sched)
    requires Basic(s) && Enabled(s, ResumeNext)
    ensures Basic(Do(s, ResumeNext)) && s.status[s.ready[0]] == Ready
  {
    var t, co := Do(s, ResumeNext), s.ready[0];
    assert s.ready == [co] + t.ready;
    assert s.resumed + [co] + t.ready == s.resumed + s.ready;
    assert co !in t.ready;
    forall x ensures x in t.ready <==> x in t.status && InQueue(t.status[x]) {
      assert x in s.ready <==> x in t.ready || x == co;
    }
  }

  lemma StepKeeps(s: Sched, step: Step)
    requires Basic(s) && Enabled(s, step)
    ensures Basic(Do(s, step))
  {
    match step
    case Spawn(t, co) => PushKeeps(s, t, co);
    case Wake(t, co) => PushKeeps(s, t, co);
    case ResumeNext => ResumeKeeps(s);
    case _ =>
  }

  lemma {:induction false} RunKeeps(s: Sched, steps: seq<Step>)
    requires Basic(s) && LegalRun(s, steps)
    ensures Basic(Run(s, steps))
    decreases |steps|
  {
    hide Basic, Do, Enabled;
    if steps != [] {
      StepKeeps(s, steps[0]);
      RunKeeps(Do(s, steps[0]), steps[1..]);
    }
  }

  /** The wake-ups asked for, in order, told from the steps alone. */
  function Wakes(steps: seq<Step>): seq<Co> {
    if steps == [] then []
    else
      match steps[0]
      case Spawn(_, co) => [co] + Wakes(steps[1..])
      case Wake(_, co) => [co] + Wakes(steps[1..])
      case _ => Wakes(steps[1..])
  }

  lemma {:induction false} WokenIs(s: Sched, steps: seq<Step>)
    requires LegalRun(s, steps)
    ensures Run(s, steps).woken == s.woken + Wakes(steps)
    decreases |steps|
  {
    if steps == [] {
      assert s.woken + [] == s.woken;
    } else {
      WokenIs(Do(s, steps[0]), steps[1..]);
      if steps[0].Spawn? || steps[0].Wake? {
        var co := steps[0].co;
        assert s.woken + [co] + Wakes(steps[1..]) == s.woken + ([co] + Wakes(steps[1..]));
      }
    }
  }

  /** Every wake-up leads to one resume, in order, of a coroutine that was ready; none is resumed while it runs or
      after it has returned. */
  lemma EachWakeResumesOnce(steps: seq<Step>)
    requires LegalRun(NEW_SCHED, steps)
    ensures var s := Run(NEW_SCHED, steps);
            && s.resumed + s.ready == Wakes(steps)
            && (Enabled(s, ResumeNext) ==> s.ready[0] in s.status && s.status[s.ready[0]] == Ready)
  {
    assert Basic(NEW_SCHED);
    RunKeeps(NEW_SCHED, steps);
    WokenIs(NEW_SCHED, steps);
    assert NEW_SCHED.woken + Wakes(steps) == Wakes(steps);
    var s := Run(NEW_SCHED, steps);
    if Enabled(s, ResumeNext) { ResumeKeeps(s); }
  }

  /** A coroutine that has yielded stays blocked until it is woken, and can be woken by any thread that may call. */
  lemma {:induction false} StaysBlocked(s: Sched, co: Co, steps: seq<Step>)
    requires Basic(s) && LegalRun(s, steps) && co in s.status && s.status[co].Blocked?
    requires forall i :: 0 <= i < |steps| ==> !(steps[i].Wake? && steps[i].co == co)
    ensures var t := Run(s, steps);
            co in t.status && t.status[co].Blocked? && (forall u :: CanCall(t, u) ==> Enabled(t, Wake(u, co)))
    decreases |steps|
  {
    if steps != [] {
      StepKeeps(s, steps[0]);
      assert co !in s.ready && s.pc != In(co);
      StaysBlocked(Do(s, steps[0]), co, steps[1..]);
    }
  }

  /** One that yields without having been woken meanwhile is blocked, one that has been woken is ready, and one that
      has returned is neither, for good. */
  lemma YieldBlocks(s: Sched, co: Co)
    requires Basic(s) && s.pc == In(co) && LOOP !in s.calls && co in s.status
    ensures Enabled(s, Yield)
    ensures Do(s, Yield).status[co] == if co in s.ready then Ready else Blocked
    ensures co !in s.ready ==> Enabled(s, Return) && Do(s, Return).status[co] == Done
  {
  }

  lemma {:induction false} DoneForGood(s: Sched, co: Co, steps: seq<Step>)
    requires Basic(s) && LegalRun(s, steps) && co in s.status && s.status[co].Done?
    ensures var t := Run(s, steps);
            && co in t.status && t.status[co].Done? && co !in t.ready
            && |s.resumed| <= |t.resumed| && co !in t.resumed[|s.resumed|..]
    decreases |steps|
  {
    assert co !in s.ready && s.pc != In(co);
    if steps != [] {
      var u := Do(s, steps[0]);
      StepKeeps(s, steps[0]);
      DoneForGood(u, co, steps[1..]);
      RunGrows(u, steps[1..]);
      var t := Run(s, steps);
      if steps[0].ResumeNext? {
        assert t.resumed[|s.resumed|..] == [s.ready[0]] + t.resumed[|u.resumed|..];
      }
    }
  }

  function Resumes(steps: seq<Step>): nat {
    if steps == [] then 0 else (if steps[0].ResumeNext? then 1 else 0) + Resumes(steps[1..])
  }

  lemma {:induction false} RunGrows(s: Sched, steps: seq<Step>)
    requires LegalRun(s, steps)
    ensures var t := Run(s, steps);
            |t.resumed| == |s.resumed| + Resumes(steps) && s.woken <= t.woken && s.resumed <= t.resumed
    decreases |steps|
  {
    if steps != [] {
      RunGrows(Do(s, steps[0]), steps[1..]);
    }
  }

  /** Whatever else happens, the coroutine at place `i` of the queue is the one that the (i+1)-th resume from now on
      resumes. */
  lemma ResumedInTurn(s: Sched, steps: seq<Step>, i: nat)
    requires Basic(s) && LegalRun(s, steps) && i < |s.ready|
    ensures var t := Run(s, steps);
            if i < Resumes(steps) then |s.resumed| + i < |t.resumed| && t.resumed[|s.resumed| + i] == s.ready[i]
            else i - Resumes(steps) < |t.ready| && t.ready[i - Resumes(steps)] == s.ready[i]
  {
    hide Run, LegalRun;
    var t := Run(s, steps);
    RunKeeps(s, steps);
    RunGrows(s, steps);
    var n := |s.resumed| + i;
    assert s.woken[n] == s.ready[i] && t.woken[n] == s.woken[n];
    assert (t.resumed + t.ready)[n] == t.woken[n];
  }

  // ----- when every scheduling call comes from the loop's thread

  predicate OwnCall(step: Step) {
    (step.Spawn? || step.Wake? || step.Test? || step.Queue? || step.SetFlag?) ==> step.t == LOOP
  }

  predicate OwnCalls(steps: seq<Step>) { forall i :: 0 <= i < |steps| ==> OwnCall(steps[i]) }

  /** Copies of handle_co that are queued or running. */
  function Handlers(s: Sched): nat { s.queued + (if s.pc.Idle? then 0 else 1) }

  /** What the flag says about the handlers while only the loop's thread makes calls, and at each point of its call.
      */
  ghost predicate Own(s: Sched) {
    && s.calls.Keys <= {LOOP}
    && if LOOP !in s.calls then
         && Handlers(s) == (if s.isSchedule then 1 else 0)
         && (s.ready != [] ==> s.isSchedule && !s.pc.Leaving?)
       else
         && (s.pc.Idle? || s.pc.In?)
         && match s.calls[LOOP]
            case Pushed => Handlers(s) == (if s.isSchedule then 1 else 0)
            case SawClear => !s.isSchedule && Handlers(s) == 0
            case Queued => Handlers(s) == 1
  }

  lemma OwnStep(s: Sched, step: Step)
    requires Own(s) && Enabled(s, step) && OwnCall(step)
    ensures Own(Do(s, step))
  {
  }

  /** Ready coroutines are served: a handler is queued or will look at the queue again, or a call is still about to
      see to it. */
  ghost predicate Served(s: Sched) {
    s.ready != [] ==> s.queued > 0 || s.pc.Looping? || s.pc.In? || exists t :: Caring(s, t)
  }

  /** The call of thread `t` has yet to test the flag, or has found it clear. */
  predicate Caring(s: Sched, t: Thread) {
    t in s.calls && (s.calls[t].Pushed? || s.calls[t].SawClear?)
  }

  lemma OwnServed(s: Sched)
    requires Own(s)
    ensures Served(s) && Handlers(s) <= 1
  {
    if LOOP in s.calls && !s.calls[LOOP].Queued? { assert Caring(s, LOOP); }
  }

  lemma {:induction false} OwnRun(s: Sched, steps: seq<Step>)
    requires Own(s) && LegalRun(s, steps) && OwnCalls(steps)
    ensures Own(Run(s, steps))
    decreases |steps|
  {
    hide Own, Do, Enabled;
    if steps != [] {
      assert OwnCall(steps[0]);
      OwnStep(s, steps[0]);
      OwnRun(Do(s, steps[0]), steps[1..]);
    }
  }

  /** When every scheduling call comes from the loop's thread, in every reachable state at most one handler is queued
      or running, no ready coroutine is stranded, and between calls the flag says exactly whether there is a
      handler. */
  lemma OwnCallsAreServed(steps: seq<Step>)
    requires LegalRun(NEW_SCHED, steps) && OwnCalls(steps)
    ensures var s := Run(NEW_SCHED, steps);
            && Served(s) && Handlers(s) <= 1
            && (s.calls == map[] ==> Handlers(s) == if s.isSchedule then 1 else 0)
  {
    assert Own(NEW_SCHED);
    OwnRun(NEW_SCHED, steps);
    OwnServed(Run(NEW_SCHED, steps));
  }

  // ----- when another thread calls too

  /** The step is a test that finds the flag set although the handler behind the flag is gone, or has looked at the
      queue for the last time, and nobody else is about to see to the ready coroutines. */
  ghost predicate Misses(s: Sched, step: Step) {
    && step.Test? && s.isSchedule && s.ready != []
    && s.queued == 0 && (s.pc.Idle? || s.pc.Leaving?)
    && forall u :: Caring(s, u) ==> u == step.t
  }

  lemma ServedStep(s: Sched, step: Step)
    requires Enabled(s, step) && Served(s)
    ensures Served(Do(s, step)) <==> !Misses(s, step)
  {
    var q := Do(s, step);
    if exists u :: Caring(s, u) && !(step.Test? && u == step.t) {
      var u :| Caring(s, u) && !(step.Test? && u == step.t);
      assert Caring(q, u) || q.queued > 0;
    }
    if step.Spawn? || step.Wake? || (step.Test? && !s.isSchedule) { assert Caring(q, step.t); }
    if Misses(s, step) && Served(q) {
      var u :| Caring(q, u);
      assert Caring(s, u);
    }
  }

  ghost predicate AlwaysServed(s: Sched, steps: seq<Step>)
    requires LegalRun(s, steps)
    decreases |steps|
  {
    Served(s) && (steps == [] || AlwaysServed(Do(s, steps[0]), steps[1..]))
  }

  ghost predicate NeverMisses(s: Sched, steps: seq<Step>)
    requires LegalRun(s, steps)
    decreases |steps|
  {
    steps == [] || (!Misses(s, steps[0]) && NeverMisses(Do(s, steps[0]), steps[1..]))
  }

  /** Under every interleaving of all threads: some state of the run strands a ready coroutine if and only if some
      test of the flag misses. */
  lemma {:induction false} StrandsExactly(s: Sched, steps: seq<Step>)
    requires Served(s) && LegalRun(s, steps)
    ensures AlwaysServed(s, steps) <==> NeverMisses(s, steps)
    decreases |steps|
  {
    hide Served, Misses, Do, Enabled;
    if steps != [] {
      ServedStep(s, steps[0]);
      if !Misses(s, steps[0]) {
        StrandsExactly(Do(s, steps[0]), steps[1..]);
      } else {
        assert !AlwaysServed(Do(s, steps[0]), steps[1..]) by { NotServed(Do(s, steps[0]), steps[1..]); }
      }
    }
  }

  lemma NotServed(s: Sched, steps: seq<Step>)
    requires LegalRun(s, steps) && !Served(s)
    ensures !AlwaysServed(s, steps)
  {
  }

  /** The flag is set with no handler to clear it. */
  predicate LateFlag(s: Sched) { s.isSchedule && s.queued == 0 && s.pc.Idle? }

  /** That comes about in one way: a call sets the flag after the handler that it queued has come and gone. */
  lemma LateFlagExactly(s: Sched, step: Step)
    requires Enabled(s, step) && !LateFlag(s)
    ensures LateFlag(Do(s, step)) <==> step.SetFlag? && s.queued == 0 && s.pc.Idle?
  {
  }

  predicate Deaf(s: Sched) {
    LateFlag(s) && forall t :: t in s.calls ==> !s.calls[t].SawClear?
  }

  /** From then on, once no call is about to queue a handler, nothing is ever resumed again, whatever is woken. */
  lemma {:induction false} DeafForEver(s: Sched, steps: seq<Step>)
    requires Deaf(s) && LegalRun(s, steps)
    ensures Deaf(Run(s, steps)) && Run(s, steps).resumed == s.resumed
    decreases |steps|
  {
    if steps != [] {
      assert Deaf(Do(s, steps[0]));
      DeafForEver(Do(s, steps[0]), steps[1..]);
    }
  }

  // ----- runs with a second thread

  lemma {:induction false} RunConcat(s: Sched, a: seq<Step>, b: seq<Step>)
    requires LegalRun(s, a) && LegalRun(Run(s, a), b)
    ensures LegalRun(s, a + b) && Run(s, a + b) == Run(Run(s, a), b)
    decreases |a|
  {
    hide Do, Enabled;
    if a == [] {
      assert a + b == b;
    } else {
      assert (a + b)[1..] == a[1..] + b;
      RunConcat(Do(s, a[0]), a[1..], b);
    }
  }

  lemma RunOne(s: Sched, x: Step)
    requires Enabled(s, x)
    ensures LegalRun(s, [x]) && Run(s, [x]) == Do(s, x)
  {
    hide Do, Enabled;
    assert [x][1..] == [];
    assert LegalRun(Do(s, x), []) && Run(Do(s, x), []) == Do(s, x);
  }

  lemma RunTwo(s: Sched, x: Step, y: Step)
    requires Enabled(s, x) && Enabled(Do(s, x), y)
    ensures LegalRun(s, [x, y]) && Run(s, [x, y]) == Do(Do(s, x), y)
  {
    hide Do, Enabled, Run, LegalRun;
    RunOne(s, x);
    RunOne(Do(s, x), y);
    RunConcat(s, [x], [y]);
    assert [x] + [y] == [x, y];
  }

  const SERVE := [Begin, ResumeNext] + [Return, FindEmpty]

  /** A handler runs one coroutine to its end and finds the queue empty. */
  lemma ServeOne(s: Sched, co: Co)
    requires LOOP !in s.calls && s.pc.Idle? && s.queued == 1 && s.ready == [co]
    ensures LegalRun(s, SERVE)
    ensures Run(s, SERVE) == s.(queued := 0, pc := Leaving, ready := [], status := s.status[co := Done],
                                resumed := s.resumed + [co])
  {
    hide Run, LegalRun;
    RunTwo(s, Begin, ResumeNext);
    var t := Run(s, [Begin, ResumeNext]);
    RunTwo(t, Return, FindEmpty);
    RunConcat(s, [Begin, ResumeNext], [Return, FindEmpty]);
    assert s.status[co := Resumed(false)][co := Done] == s.status[co := Done];
  }

  /** Thread 1 wakes somebody up between the last test of the queue and the clearing of the flag: stranded. */
  lemma WindowRun() returns (steps: seq<Step>)
    ensures LegalRun(NEW_SCHED, steps)
    ensures var s := Run(NEW_SCHED, steps); s.ready == [2] && s.calls == map[] && Handlers(s) == 0 && !Served(s)
  {
    hide Run, LegalRun;
    var call0, call1 := [Spawn(LOOP, 1), Test(LOOP)], [Queue(LOOP), SetFlag(LOOP)];
    RunTwo(NEW_SCHED, Spawn(LOOP, 1), Test(LOOP));
    var s1 := Run(NEW_SCHED, call0);
    RunTwo(s1, Queue(LOOP), SetFlag(LOOP));
    RunConcat(NEW_SCHED, call0, call1);
    var s2 := Run(NEW_SCHED, call0 + call1);
    assert s2.calls == map[];
    ServeOne(s2, 1);
    RunConcat(NEW_SCHED, call0 + call1, SERVE);
    var s3 := Run(NEW_SCHED, call0 + call1 + SERVE);
    steps := WindowEnd(s3, call0 + call1 + SERVE);
  }

  lemma WindowEnd(s: Sched, before: seq<Step>) returns (steps: seq<Step>)
    requires LegalRun(NEW_SCHED, before) && Run(NEW_SCHED, before) == s
    requires s.pc.Leaving? && s.isSchedule && s.queued == 0 && s.ready == [] && s.calls == map[] && 2 !in s.status
    ensures LegalRun(NEW_SCHED, steps)
    ensures var t := Run(NEW_SCHED, steps); t.ready == [2] && t.calls == map[] && Handlers(t) == 0 && !Served(t)
  {
    hide Run, LegalRun;
    RunTwo(s, Spawn(1, 2), Test(1));
    var t := Do(Do(s, Spawn(1, 2)), Test(1));
    assert t.calls == map[];
    RunConcat(NEW_SCHED, before, [Spawn(1, 2), Test(1)]);
    RunOne(t, Clear);
    RunConcat(NEW_SCHED, before + [Spawn(1, 2), Test(1)], [Clear]);
    steps := before + [Spawn(1, 2), Test(1)] + [Clear];
  }

  /** Thread 1 is held up between queueing the handler and setting the flag.  Nothing is scheduled in the window,
      and the scheduler is deaf for ever. */
  lemma LateRun() returns (steps: seq<Step>)
    ensures LegalRun(NEW_SCHED, steps) && steps == [Spawn(1, 1), Test(1)] + [Queue(1)] + SERVE + [Clear, SetFlag(1)]
    ensures var s := Run(NEW_SCHED, steps); s.calls == map[] && Deaf(s)
  {
    hide Run, LegalRun;
    var a := [Spawn(1, 1), Test(1)];
    RunTwo(NEW_SCHED, Spawn(1, 1), Test(1));
    var s1 := Run(NEW_SCHED, a);
    RunOne(s1, Queue(1));
    RunConcat(NEW_SCHED, a, [Queue(1)]);
    var s2 := Run(NEW_SCHED, a + [Queue(1)]);
    assert s2.calls == map[1 := Queued];
    ServeOne(s2, 1);
    RunConcat(NEW_SCHED, a + [Queue(1)], SERVE);
    var s3 := Run(NEW_SCHED, a + [Queue(1)] + SERVE);
    RunTwo(s3, Clear, SetFlag(1));
    RunConcat(NEW_SCHED, a + [Queue(1)] + SERVE, [Clear, SetFlag(1)]);
    steps := a + [Queue(1)] + SERVE + [Clear, SetFlag(1)];
    assert Do(Do(s3, Clear), SetFlag(1)).calls == map[];
  }

  /** Two threads find the flag clear: two handlers. */
  lemma DoubleRun() returns (steps: seq<Step>)
    ensures LegalRun(NEW_SCHED, steps) && Handlers(Run(NEW_SCHED, steps)) == 2
  {
    hide Run, LegalRun;
    var a, b, c := [Spawn(1, 1), Spawn(2, 2)], [Test(1), Test(2)], [Queue(1), Queue(2)];
    RunTwo(NEW_SCHED, Spawn(1, 1), Spawn(2, 2));
    RunTwo(Run(NEW_SCHED, a), Test(1), Test(2));
    RunConcat(NEW_SCHED, a, b);
    RunTwo(Run(NEW_SCHED, a + b), Queue(1), Queue(2));
    RunConcat(NEW_SCHED, a + b, c);
    steps := a + b + c;
  }

  // ----- progress

  /** The next action of the loop thread, when the coroutine it runs yields at once. */
  function LoopStep(s: Sched): Sched {
    if LOOP in s.calls then
      match s.calls[LOOP]
      case Pushed => Do(s, Test(LOOP))
      case SawClear => Do(s, Queue(LOOP))
      case Queued => Do(s, SetFlag(LOOP))
    else
      match s.pc
      case Idle => if s.queued > 0 then Do(s, Begin) else s
      case Looping => if s.ready != [] then Do(s, ResumeNext) else Do(s, FindEmpty)
      case In(co) => Do(s, Yield)
      case Leaving => Do(s, Clear)
  }

  function LoopSteps(s: Sched, n: nat): Sched
    decreases n
  {
    if n == 0 then s else LoopSteps(LoopStep(s), n - 1)
  }

  function Budget(s: Sched): nat {
    if s.ready == [] then 0
    else
      2 * |s.ready| + (if s.pc.Idle? || s.pc.In? then 1 else 0) +
      (if LOOP !in s.calls then 0 else match s.calls[LOOP] case Pushed => 3 case SawClear => 2 case Queued => 1)
  }

  lemma LoopStepKeeps(s: Sched)
    requires Basic(s) && Own(s)
    ensures Basic(LoopStep(s)) && Own(LoopStep(s)) && LoopStep(s).woken == s.woken
    ensures s.ready != [] ==> Budget(LoopStep(s)) < Budget(s)
    ensures s.ready == [] ==> LoopStep(s).ready == []
  {
    hide Basic;
    if LOOP in s.calls {
      match s.calls[LOOP]
      case Pushed => StepKeeps(s, Test(LOOP));
      case SawClear => StepKeeps(s, Queue(LOOP));
      case Queued => StepKeeps(s, SetFlag(LOOP));
    } else {
      match s.pc
      case Idle => if s.queued > 0 { StepKeeps(s, Begin); }
      case Looping => if s.ready != [] { StepKeeps(s, ResumeNext); } else { StepKeeps(s, FindEmpty); }
      case In(co) => StepKeeps(s, Yield);
      case Leaving => StepKeeps(s, Clear);
    }
  }

  /** With the scheduling calls on the loop's thread, every ready coroutine is resumed within a bounded number of its
      actions. */
  lemma {:induction false} EveryReadyIsResumed(s: Sched, n: nat)
    requires Basic(s) && Own(s) && n >= Budget(s)
    ensures LoopSteps(s, n).resumed == s.woken
    decreases n
  {
    hide Basic, Own, LoopStep;
    assert Fifo(s) by { QueueOrder(s); }
    if n == 0 {
      assert s.resumed + [] == s.resumed;
    } else {
      LoopStepKeeps(s);
      EveryReadyIsResumed(LoopStep(s), n - 1);
    }
  }

  lemma QueueOrder(s: Sched)
    requires Basic(s)
    ensures Fifo(s)
  {
  }

  /** An awaited wake-up ends in a resume: when the loop's thread wakes a blocked coroutine, that coroutine is
      resumed, behind all that were woken before, within a bounded number of its actions. */
  lemma AwaitedWakeResumes(s: Sched, co: Co)
    requires Basic(s) && Own(s) && CanCall(s, LOOP) && CanWake(s, co)
    ensures Enabled(s, Wake(LOOP, co))
    ensures var t := Do(s, Wake(LOOP, co));
            && t.resumed == s.resumed && t.ready == s.ready + [co]
            && LoopSteps(t, Budget(t)).resumed == s.resumed + s.ready + [co]
  {
    hide LoopSteps, Budget;
    var t := Do(s, Wake(LOOP, co));
    StepKeeps(s, Wake(LOOP, co));
    OwnStep(s, Wake(LOOP, co));
    EveryReadyIsResumed(t, Budget(t));
    QueueOrder(t);
    assert s.resumed + (s.ready + [co]) == s.resumed + s.ready + [co];
  }
}
