/** Whole runs of the timer queue: every timer runs exactly once, in the first trigger that reaches its tick. */
module TimerRuns {
  import opened TimerQueue

  datatype Op =
    | Add(timer: Timer, now: nat)
    | Trigger(nowMs: nat, clock: nat)
    | Remove(id: TimerId)

  function Apply(s: Schedule, op: Op): Schedule
    requires s.reached % EVERY_MS == 0
  {
    match op
    case Add(timer, now) => AddTimer(s, timer, now)
    case Trigger(nowMs, clock) => TriggerTimer(s, nowMs, clock)
    case Remove(id) => RemoveTimer(s, id)
  }

  // ----- how often a node occurs

  function CountEntries(q: seq<Entry>, name: nat): nat {
    if q == [] then 0
    else CountEntries(q[..|q| - 1], name) + (if q[|q| - 1].node.name == name then 1 else 0)
  }

  function CountNodes(q: seq<Node>, name: nat): nat {
    if q == [] then 0
    else CountNodes(q[..|q| - 1], name) + (if q[|q| - 1].name == name then 1 else 0)
  }

  lemma CountSnoc(q: seq<Entry>, e: Entry, name: nat)
    ensures CountEntries(q + [e], name) == CountEntries(q, name) + (if e.node.name == name then 1 else 0)
  {
    assert (q + [e])[..|q|] == q;
  }

  lemma {:induction false} CountInsert(q: seq<Entry>, e: Entry, name: nat)
    ensures CountEntries(InsertByDue(q, e), name) ==
            CountEntries(q, name) + (if e.node.name == name then 1 else 0)
    decreases |q|
  {
    if q == [] || q[|q| - 1].due <= e.due {
      CountSnoc(q, e, name);
    } else {
      CountInsert(q[..|q| - 1], e, name);
      CountSnoc(InsertByDue(q[..|q| - 1], e), q[|q| - 1], name);
    }
  }

  lemma {:induction false} CountSort(q: seq<Entry>, name: nat)
    ensures CountEntries(SortByDue(q), name) == CountEntries(q, name)
    decreases |q|
  {
    if q != [] {
      CountSort(q[..|q| - 1], name);
      CountInsert(SortByDue(q[..|q| - 1]), q[|q| - 1], name);
    }
  }

  lemma LastOut(q: seq<Entry>, t: nat)
    requires q != []
    ensures var r, e := q[..|q| - 1], q[|q| - 1];
            && q == r + [e]
            && Until(q, t) == (if e.due <= t then Until(r, t) + [e] else Until(r, t))
            && After(q, t) == (if e.due > t then After(r, t) + [e] else After(r, t))
  {
  }

  lemma {:induction false} CountSplit(q: seq<Entry>, t: nat, name: nat)
    ensures CountEntries(q, name) == CountEntries(Until(q, t), name) + CountEntries(After(q, t), name)
    decreases |q|
  {
    if q != [] {
      hide Until, After, CountEntries;
      var r, e := q[..|q| - 1], q[|q| - 1];
      LastOut(q, t);
      CountSplit(r, t, name);
      CountSnoc(r, e, name);
      CountSnoc(Until(r, t), e, name);
      CountSnoc(After(r, t), e, name);
    }
  }

  lemma WithoutLast(q: seq<Entry>, gone: nat)
    requires q != []
    ensures var r, e := q[..|q| - 1], q[|q| - 1];
            q == r + [e] && Without(q, gone) == if e.node.name != gone then Without(r, gone) + [e] else Without(r, gone)
  {
  }

  lemma {:induction false} CountWithout(q: seq<Entry>, gone: nat, name: nat)
    ensures CountEntries(Without(q, gone), name) == if name == gone then 0 else CountEntries(q, name)
    decreases |q|
  {
    if q != [] {
      hide CountEntries, Without;
      var r, e := q[..|q| - 1], q[|q| - 1];
      WithoutLast(q, gone);
      CountWithout(r, gone, name);
      CountSnoc(r, e, name);
      CountSnoc(Without(r, gone), e, name);
    }
  }

  lemma {:induction false} CountFired(a: seq<Node>, q: seq<Entry>, name: nat)
    ensures CountNodes(a + Nodes(q), name) == CountNodes(a, name) + CountEntries(q, name)
    decreases |q|
  {
    if q == [] {
      assert a + Nodes(q) == a;
    } else {
      var r, e := q[..|q| - 1], q[|q| - 1];
      CountFired(a, r, name);
      assert (a + Nodes(q))[..|a| + |r|] == a + Nodes(r);
    }
  }

  lemma {:induction false} CountMember(q: seq<Entry>, e: Entry)
    requires e in q
    ensures CountEntries(q, e.node.name) >= 1
    decreases |q|
  {
    if q[|q| - 1] != e {
      assert q == q[..|q| - 1] + [q[|q| - 1]];
      CountMember(q[..|q| - 1], e);
    }
  }

  lemma {:induction false} WithoutMembers(q: seq<Entry>, name: nat)
    ensures forall x :: x in Without(q, name) <==> x in q && x.node.name != name
    decreases |q|
  {
    if q != [] {
      WithoutMembers(q[..|q| - 1], name);
      assert q == q[..|q| - 1] + [q[|q| - 1]];
    }
  }

  // ----- the invariant of every run

  /** A pending timer lies at most one lap ahead, and whole laps before the deadline its id promises. */
  ghost predicate EntryInLap(e: Entry, reached: nat) {
    && reached < e.due <= reached + SPAN_MS && e.due % EVERY_MS == 0
    && e.due <= e.at && (e.at - e.due) % SPAN_MS == 0
  }

  ghost predicate Ok(s: Schedule) {
    && s.reached % EVERY_MS == 0
    && (forall e :: e in s.queue ==> EntryInLap(e, s.reached))
    && (forall name: nat :: CountEntries(s.queue, name) + CountNodes(s.fired, name) <= if name < s.next then 1 else 0)
  }

  lemma AddKeeps(s: Schedule, timer: Timer, now: nat)
    requires Ok(s)
    ensures Ok(AddTimer(s, timer, now))
  {
    var at := Deadline(timer, now);
    var t := AddTimer(s, timer, now);
    var node := Node(s.next, timer);
    if at <= s.reached {
      forall name: nat
        ensures CountNodes(t.fired, name) == CountNodes(s.fired, name) + if name == s.next then 1 else 0
      {
        assert t.fired[..|s.fired|] == s.fired;
      }
    } else if t != s {
      var e := Entry(node, at, DueTick(s.reached, at));
      forall name: nat
        ensures CountEntries(t.queue, name) == CountEntries(s.queue, name) + if name == s.next then 1 else 0
      {
        CountSnoc(s.queue, e, name);
      }
    }
  }

  /** The run moves whole nodes from the queue to the log, losing and repeating none. */
  lemma TriggerConserves(s: Schedule, nowMs: nat, clock: nat, name: nat)
    requires Ok(s)
    ensures var t := TriggerTimer(s, nowMs, clock);
            CountEntries(t.queue, name) + CountNodes(t.fired, name) ==
            CountEntries(s.queue, name) + CountNodes(s.fired, name)
  {
    var at := SlotTime(nowMs, clock);
    if at > s.reached {
      FiredIsSorted(s.queue, s.reached, at);
      CountSort(Until(s.queue, at), name);
      CountFired(s.fired, Fired(s.queue, s.reached, at), name);
      CountSplit(s.queue, at, name);
    }
  }

  lemma TriggerKeeps(s: Schedule, nowMs: nat, clock: nat)
    requires Ok(s)
    ensures Ok(TriggerTimer(s, nowMs, clock))
  {
    var t := TriggerTimer(s, nowMs, clock);
    var at := SlotTime(nowMs, clock);
    forall name: nat ensures CountEntries(t.queue, name) + CountNodes(t.fired, name) <= if name < s.next then 1 else 0 {
      TriggerConserves(s, nowMs, clock, name);
    }
    if at > s.reached {
      AfterMembers(s.queue, at);
    }
  }

  lemma RemoveKeeps(s: Schedule, id: TimerId)
    requires Ok(s)
    ensures Ok(RemoveTimer(s, id))
  {
    var t := RemoveTimer(s, id);
    WithoutMembers(s.queue, id.name);
    forall name: nat ensures CountEntries(t.queue, name) <= CountEntries(s.queue, name) {
      CountWithout(s.queue, id.name, name);
    }
  }

  lemma ApplyKeeps(s: Schedule, op: Op)
    requires Ok(s)
    ensures Ok(Apply(s, op))
  {
    hide Ok, AddTimer, TriggerTimer, RemoveTimer;
    match op
    case Add(timer, now) => AddKeeps(s, timer, now);
    case Trigger(nowMs, clock) => TriggerKeeps(s, nowMs, clock);
    case Remove(id) => RemoveKeeps(s, id);
  }

  function Run(s: Schedule, ops: seq<Op>): Schedule
    requires Ok(s)
    decreases |ops|
  {
    if ops == [] then s
    else
      ApplyKeeps(s, ops[0]);
      Run(Apply(s, ops[0]), ops[1..])
  }

  /** The invariant holds in every reachable state. */
  lemma {:induction false} RunKeeps(s: Schedule, ops: seq<Op>)
    requires Ok(s)
    ensures Ok(Run(s, ops))
    decreases |ops|
  {
    if ops != [] {
      ApplyKeeps(s, ops[0]);
      RunKeeps(Apply(s, ops[0]), ops[1..]);
    }
  }

  // ----- what becomes of one timer

  /** Pending before its tick is reached; from then on run, once. */
  ghost predicate FateOf(s: Schedule, e: Entry) {
    if s.reached < e.due then e in s.queue
    else CountEntries(s.queue, e.node.name) == 0 && CountNodes(s.fired, e.node.name) == 1
  }

  /** The number of times a node occurs, pending or run. */
  function Occurrences(s: Schedule, name: nat): nat {
    CountEntries(s.queue, name) + CountNodes(s.fired, name)
  }

  lemma FateAdd(s: Schedule, e: Entry, timer: Timer, now: nat)
    requires Ok(s) && FateOf(s, e) && Occurrences(s, e.node.name) == 1
    ensures FateOf(AddTimer(s, timer, now), e) && Occurrences(AddTimer(s, timer, now), e.node.name) == 1
  {
    var t, n := AddTimer(s, timer, now), e.node.name;
    assert n != s.next;
    if Deadline(timer, now) <= s.reached {
      assert t.fired[..|s.fired|] == s.fired;
    } else if t != s {
      CountSnoc(s.queue, t.queue[|s.queue|], n);
    }
  }

  lemma FateTrigger(s: Schedule, e: Entry, nowMs: nat, clock: nat)
    requires Ok(s) && FateOf(s, e) && Occurrences(s, e.node.name) == 1
    ensures FateOf(TriggerTimer(s, nowMs, clock), e)
    ensures Occurrences(TriggerTimer(s, nowMs, clock), e.node.name) == 1
  {
    var t, n, at := TriggerTimer(s, nowMs, clock), e.node.name, SlotTime(nowMs, clock);
    TriggerConserves(s, nowMs, clock, n);
    if at > s.reached {
      hide Ok, Fired, Until, After, CountEntries, CountNodes;
      AfterMembers(s.queue, at);
      CountSplit(s.queue, at, n);
      if s.reached < e.due <= at {
        CountMember(Until(s.queue, at), e);
        CountsBound(s, n);
      }
    }
  }

  lemma CountsBound(s: Schedule, name: nat)
    requires Ok(s)
    ensures CountEntries(s.queue, name) + CountNodes(s.fired, name) <= 1
  {
  }

  lemma FateRemove(s: Schedule, e: Entry, id: TimerId)
    requires Ok(s) && FateOf(s, e) && Occurrences(s, e.node.name) == 1 && id.name != e.node.name
    ensures FateOf(RemoveTimer(s, id), e) && Occurrences(RemoveTimer(s, id), e.node.name) == 1
  {
    WithoutMembers(s.queue, id.name);
    CountWithout(s.queue, id.name, e.node.name);
  }

  lemma FateStep(s: Schedule, e: Entry, op: Op)
    requires Ok(s) && FateOf(s, e) && !(op.Remove? && op.id.name == e.node.name)
    requires Occurrences(s, e.node.name) == 1
    ensures FateOf(Apply(s, op), e) && Occurrences(Apply(s, op), e.node.name) == 1
  {
    hide FateOf, AddTimer, TriggerTimer, RemoveTimer, Occurrences;
    match op
    case Add(timer, now) => FateAdd(s, e, timer, now);
    case Trigger(nowMs, clock) => FateTrigger(s, e, nowMs, clock);
    case Remove(id) => FateRemove(s, e, id);
  }

  /** Over any run in which it is not removed, a pending timer stays pending until some trigger reaches its tick,
      and has then run exactly once, whatever else is added, removed or triggered. */
  lemma {:induction false} RunsExactlyOnce(s: Schedule, e: Entry, ops: seq<Op>)
    requires Ok(s) && e in s.queue
    requires forall i :: 0 <= i < |ops| ==> !(ops[i].Remove? && ops[i].id.name == e.node.name)
    ensures FateOf(Run(s, ops), e)
  {
    CountMember(s.queue, e);
    FateRun(s, e, ops);
  }

  lemma {:induction false} FateRun(s: Schedule, e: Entry, ops: seq<Op>)
    requires Ok(s) && FateOf(s, e) && Occurrences(s, e.node.name) == 1
    requires forall i :: 0 <= i < |ops| ==> !(ops[i].Remove? && ops[i].id.name == e.node.name)
    ensures FateOf(Run(s, ops), e)
    decreases |ops|
  {
    hide FateOf, Apply, Occurrences;
    if ops != [] {
      FateStep(s, e, ops[0]);
      ApplyKeeps(s, ops[0]);
      FateRun(Apply(s, ops[0]), e, ops[1..]);
    }
  }

  /** A removed timer is gone and nothing else is; a timer that has run cannot be removed any more. */
  lemma RemoveExactly(s: Schedule, e: Entry)
    requires Ok(s) && e in s.queue
    ensures var t := RemoveTimer(s, TimerId(e.at, e.node.name));
            forall x :: x in t.queue <==> x in s.queue && x != e
  {
    WithoutMembers(s.queue, e.node.name);
    assert EntryInLap(e, s.reached);
    forall x | x in s.queue && x.node.name == e.node.name ensures x == e {
      OneOfName(s.queue, x, e);
    }
  }

  lemma {:induction false} OneOfName(q: seq<Entry>, x: Entry, y: Entry)
    requires x in q && y in q && x.node.name == y.node.name && CountEntries(q, x.node.name) <= 1
    ensures x == y
    decreases |q|
  {
    var r := q[..|q| - 1];
    assert q == r + [q[|q| - 1]];
    if x in r { CountMember(r, x); }
    if y in r { CountMember(r, y); }
    if x in r && y in r { OneOfName(r, x, y); }
  }

  // ----- triggers compose

  lemma {:induction false} AfterTwice(q: seq<Entry>, a: nat, b: nat)
    requires a <= b
    ensures After(After(q, a), b) == After(q, b)
    decreases |q|
  {
    if q != [] {
      var r, e := q[..|q| - 1], q[|q| - 1];
      AfterTwice(r, a, b);
      if e.due > a {
        assert (After(r, a) + [e])[..|After(r, a)|] == After(r, a);
      } else {
        assert After(r, a) + [] == After(r, a) && After(r, b) + [] == After(r, b);
      }
    }
  }

  lemma {:induction false} DueAfter(q: seq<Entry>, a: nat, t: nat)
    requires a < t
    ensures DueAt(After(q, a), t) == DueAt(q, t)
    decreases |q|
  {
    if q != [] {
      var r, e := q[..|q| - 1], q[|q| - 1];
      DueAfter(r, a, t);
      if e.due > a {
        DueAtSnoc(After(r, a), e, t);
      }
      assert After(r, a) + [] == After(r, a) && DueAt(r, t) + [] == DueAt(r, t);
    }
  }

  lemma {:induction false} FiredAfter(q: seq<Entry>, a: nat, from: nat, to: nat)
    requires a <= from
    ensures Fired(After(q, a), from, to) == Fired(q, from, to)
    decreases if from < to then to - from else 0
  {
    if from < to {
      DueAfter(q, a, from + EVERY_MS);
      FiredAfter(q, a, from + EVERY_MS, to);
    }
  }

  lemma {:induction false} FiredSplit(q: seq<Entry>, from: nat, mid: nat, to: nat)
    requires from <= mid <= to && (mid - from) % EVERY_MS == 0
    ensures Fired(q, from, to) == Fired(q, from, mid) + Fired(q, mid, to)
    decreases mid - from
  {
    if from < mid {
      FiredSplit(q, from + EVERY_MS, mid, to);
    }
  }

  /** Triggering at one time and then at a later one is triggering at the later one: a late wake-up,
      even by several laps, loses nothing and changes no order. */
  lemma TriggerTwice(s: Schedule, t1: nat, t2: nat, clock1: nat, clock2: nat)
    requires Ok(s) && SlotTime(t1, clock1) <= SlotTime(t2, clock2)
    ensures TriggerTimer(TriggerTimer(s, t1, clock1), t2, clock2) == TriggerTimer(s, t2, clock2)
  {
    hide Fired, After, CountEntries, CountNodes, EntryInLap, SlotTime, Nodes;
    var a, b := SlotTime(t1, clock1), SlotTime(t2, clock2);
    if a > s.reached {
      var f1, f2 := Fired(s.queue, s.reached, a), Fired(s.queue, a, b);
      AfterTwice(s.queue, a, b);
      FiredAfter(s.queue, a, a, b);
      FiredSplit(s.queue, s.reached, a, b);
      NodesAppend(f1, f2);
      assert s.fired + Nodes(f1) + Nodes(f2) == s.fired + (Nodes(f1) + Nodes(f2));
      if a == b {
        AfterTwice(s.queue, a, a);
        NothingToFire(s.queue, a);
        assert f1 + [] == f1;
      }
    }
  }

  lemma NothingToFire(q: seq<Entry>, a: nat)
    ensures Fired(q, a, a) == []
  {
  }

  lemma NodesAppend(a: seq<Entry>, b: seq<Entry>)
    ensures Nodes(a + b) == Nodes(a) + Nodes(b)
  {
  }

  // ----- timing

  /** The deadline an id promises is at most 9 ms before the requested time, and never after it. */
  lemma DeadlineIsRounded(timer: Timer, now: nat)
    requires timer.after + now < U64 - 1
    ensures Deadline(timer, now) <= now + timer.after < Deadline(timer, now) + EVERY_MS
  {
  }

  /** The wheel keeps the promised deadline if and only if it lies at most one lap ahead of the tick reached;
      otherwise the timer runs one or more laps early. */
  lemma LapBound(reached: nat, at: nat)
    requires reached < at && reached % EVERY_MS == 0 && at % EVERY_MS == 0
    ensures DueTick(reached, at) == at <==> at - reached <= SPAN_MS
    ensures at - reached > SPAN_MS ==> DueTick(reached, at) + SPAN_MS <= at
  {
    if at - reached <= SPAN_MS {
      assert (at - reached - EVERY_MS) % SPAN_MS == at - reached - EVERY_MS;
    }
  }

  /** The limit that `add_timer` checks is the delay; it implies the lap bound when the wheel is less than one tick
      behind the clock. */
  lemma GuardSuffices(s: Schedule, timer: Timer, now: nat)
    requires Ok(s) && timer.after + now < U64 - 1
    requires s.reached <= now < s.reached + EVERY_MS
    requires s.reached < Deadline(timer, now) && SlotTime(timer.after, now) < SPAN_MS
    ensures Deadline(timer, now) - s.reached <= SPAN_MS
    ensures DueTick(s.reached, Deadline(timer, now)) == Deadline(timer, now)
  {
    LapBound(s.reached, Deadline(timer, now));
  }

  /** A timer that is let in while the wheel is less than one tick behind the clock. */
  lemma AddedOnTime(s: Schedule, timer: Timer, now: nat)
    requires Ok(s) && timer.after + now < U64 - 1 && s.reached <= now < s.reached + EVERY_MS
    requires SlotTime(timer.after, now) < SPAN_MS
    ensures var t, at := AddTimer(s, timer, now), Deadline(timer, now);
            Ok(t) && FateOf(t, Entry(Node(s.next, timer), at, at)) && Occurrences(t, s.next) == 1
  {
    hide SlotTime, Deadline;
    var t, at := AddTimer(s, timer, now), Deadline(timer, now);
    AddKeeps(s, timer, now);
    assert CountEntries(s.queue, s.next) + CountNodes(s.fired, s.next) <= 0;
    if at > s.reached {
      GuardSuffices(s, timer, now);
      CountSnoc(s.queue, Entry(Node(s.next, timer), at, at), s.next);
    } else {
      assert t.fired[..|s.fired|] == s.fired;
    }
  }

  lemma DeadlineIs(timer: Timer, now: nat)
    requires timer.after + now < U64 - 1
    ensures Deadline(timer, now) == now + timer.after - (now + timer.after) % EVERY_MS
  {
  }

  lemma FateCounts(s: Schedule, e: Entry, ops: seq<Op>)
    requires Ok(s) && FateOf(s, e) && Occurrences(s, e.node.name) == 1
    requires forall i :: 0 <= i < |ops| ==> !(ops[i].Remove? && ops[i].id.name == e.node.name)
    ensures var t := Run(s, ops);
            && CountNodes(t.fired, e.node.name) == (if e.due <= t.reached then 1 else 0)
            && CountEntries(t.queue, e.node.name) == (if e.due <= t.reached then 0 else 1)
  {
    hide Run, Ok, CountEntries, CountNodes;
    var t := Run(s, ops);
    FateRun(s, e, ops);
    RunKeeps(s, ops);
    CountsBound(t, e.node.name);
    if t.reached < e.due { CountMember(t.queue, e); }
  }

  /** Such a timer is pending until the wheel reaches the requested time rounded down, and has then run exactly once;
      whatever else is added, removed or triggered. */
  lemma RunsOnTime(s: Schedule, timer: Timer, now: nat, ops: seq<Op>)
    requires Ok(s) && timer.after + now < U64 - 1 && s.reached <= now < s.reached + 10
    requires timer.after < 60_000
    requires forall i :: 0 <= i < |ops| ==> !(ops[i].Remove? && ops[i].id.name == s.next)
    ensures Ok(AddTimer(s, timer, now))
    ensures var t := Run(AddTimer(s, timer, now), ops);
            var at := now + timer.after - (now + timer.after) % 10;
            && CountNodes(t.fired, s.next) == (if at <= t.reached then 1 else 0)
            && CountEntries(t.queue, s.next) == (if at <= t.reached then 0 else 1)
  {
    assert SlotTime(timer.after, now) < SPAN_MS;
    hide Run, AddTimer, FateOf, Occurrences, SlotTime, Deadline, CountEntries, CountNodes, EntryInLap;
    var at := Deadline(timer, now);
    AddedOnTime(s, timer, now);
    DeadlineIs(timer, now);
    FateCounts(AddTimer(s, timer, now), Entry(Node(s.next, timer), at, at), ops);
  }

  /** When the wheel lags, the same guard lets a timer in that runs almost a minute early. */
  lemma GuardFailsWhenLate()
    ensures var s0 := Schedule(0, [], [], 0);
            var timer := Timer(59_999, 7);
            var s1 := AddTimer(s0, timer, 20);
            && SlotTime(timer.after, 20) < SPAN_MS
            && Deadline(timer, 20) == 60_010
            && TriggerTimer(s1, 20, 20).fired == [Node(0, timer)]
  {
    var timer := Timer(59_999, 7);
    var e := Entry(Node(0, timer), 60_010, 10);
    assert AddTimer(Schedule(0, [], [], 0), timer, 20).queue == [e];
    assert DueAt([e], 10) == [e] by { DueAtSnoc([], e, 10); assert [] + [e] == [e]; }
    assert DueAt([e], 20) == [] by { DueAtSnoc([], e, 20); assert [] + [e] == [e]; }
    FiredUnfold([e], 0, 20);
    FiredUnfold([e], 10, 20);
    FiredUnfold([e], 20, 20);
  }
}
