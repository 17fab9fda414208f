/** The timer wheel: 6000 slots of 10 ms in a circular array, each a list of timers, refining the deadline queue. */
module TimerWheel {
  import opened TimerQueue
  import opened TimerRuns
  import opened TimerOrder

  const SLOTS := 6_000

  /** The slot that comes up `n` ticks after slot `ptr`. */
  function Slot(ptr: nat, n: nat): (i: nat)
    ensures i < SLOTS
  {
    (ptr + n) % SLOTS
  }

  /** Within one lap, different tick counts mean different slots. */
  lemma SlotInjective(ptr: nat, m: nat, n: nat)
    requires 1 <= m <= SLOTS && 1 <= n <= SLOTS && Slot(ptr, m) == Slot(ptr, n)
    ensures m == n
  {
  }

  /** The list that a slot holds: the nodes of the timers due when it comes up. */
  ghost predicate SlotsMatch(wheel: seq<seq<Node>>, ptr: nat, reached: nat, queue: seq<Entry>)
    requires |wheel| == SLOTS
  {
    forall n :: 1 <= n <= SLOTS ==> wheel[Slot(ptr, n)] == Nodes(DueAt(queue, reached + n * EVERY_MS))
  }

  /** The list without the node called `name`. */
  function Erase(q: seq<Node>, name: nat): seq<Node> {
    if q == [] then []
    else Erase(q[..|q| - 1], name) + (if q[|q| - 1].name != name then [q[|q| - 1]] else [])
  }

  lemma NodesSnoc(q: seq<Entry>, e: Entry)
    ensures Nodes(q + [e]) == Nodes(q) + [e.node]
  {
  }

  lemma {:induction false} EraseNodes(q: seq<Entry>, name: nat)
    ensures Erase(Nodes(q), name) == Nodes(Without(q, name))
    decreases |q|
  {
    if q != [] {
      var r, e := q[..|q| - 1], q[|q| - 1];
      EraseNodes(r, name);
      assert Nodes(q)[..|q| - 1] == Nodes(r);
      if e.node.name != name {
        NodesSnoc(Without(r, name), e);
      } else {
        assert Without(r, name) + [] == Without(r, name);
        assert Erase(Nodes(r), name) + [] == Erase(Nodes(r), name);
      }
    }
  }

  lemma {:induction false} DueWithout(q: seq<Entry>, name: nat, t: nat)
    ensures DueAt(Without(q, name), t) == Without(DueAt(q, t), name)
    decreases |q|
  {
    if q != [] {
      var r, e := q[..|q| - 1], q[|q| - 1];
      DueWithout(r, name, t);
      assert Without(r, name) + [] == Without(r, name);
      assert DueAt(r, t) + [] == DueAt(r, t);
      DueAtSnoc(Without(r, name), e, t);
      assert (DueAt(r, t) + [e])[..|DueAt(r, t)|] == DueAt(r, t);
      assert Without(DueAt(r, t), name) + [] == Without(DueAt(r, t), name);
    }
  }

  lemma {:induction false} WithoutAbsent(q: seq<Entry>, name: nat)
    requires forall x :: x in q ==> x.node.name != name
    ensures Without(q, name) == q
    decreases |q|
  {
    if q != [] {
      assert q == q[..|q| - 1] + [q[|q| - 1]];
      WithoutAbsent(q[..|q| - 1], name);
    }
  }

  // ----- what each operation does to the slots

  lemma SlotsAfterAdd(wheel: seq<seq<Node>>, ptr: nat, reached: nat, queue: seq<Entry>, e: Entry, n: nat)
    requires |wheel| == SLOTS && SlotsMatch(wheel, ptr, reached, queue)
    requires 1 <= n <= SLOTS && e.due == reached + n * EVERY_MS
    ensures var i := Slot(ptr, n);
            SlotsMatch(wheel[i := wheel[i] + [e.node]], ptr, reached, queue + [e])
  {
    hide Slot, Nodes, DueAt;
    var i := Slot(ptr, n);
    var next := wheel[i := wheel[i] + [e.node]];
    forall m | 1 <= m <= SLOTS
      ensures next[Slot(ptr, m)] == Nodes(DueAt(queue + [e], reached + m * EVERY_MS))
    {
      DueAtSnoc(queue, e, reached + m * EVERY_MS);
      if m == n {
        NodesSnoc(DueAt(queue, e.due), e);
      } else if Slot(ptr, m) == Slot(ptr, n) {
        SlotInjective(ptr, m, n);
      }
    }
  }

  lemma SlotsAfterRemove(wheel: seq<seq<Node>>, ptr: nat, reached: nat, queue: seq<Entry>, e: Entry, n: nat)
    requires |wheel| == SLOTS && SlotsMatch(wheel, ptr, reached, queue)
    requires 1 <= n <= SLOTS && e in queue && e.due == reached + n * EVERY_MS
    requires CountEntries(queue, e.node.name) <= 1
    ensures var i := Slot(ptr, n);
            SlotsMatch(wheel[i := Erase(wheel[i], e.node.name)], ptr, reached, Without(queue, e.node.name))
  {
    hide Slot, Nodes, DueAt, Without, Erase, CountEntries;
    var i, name := Slot(ptr, n), e.node.name;
    var next := wheel[i := Erase(wheel[i], name)];
    forall m | 1 <= m <= SLOTS
      ensures next[Slot(ptr, m)] == Nodes(DueAt(Without(queue, name), reached + m * EVERY_MS))
    {
      var t := reached + m * EVERY_MS;
      DueWithout(queue, name, t);
      if m == n {
        EraseNodes(DueAt(queue, t), name);
      } else {
        if Slot(ptr, m) == Slot(ptr, n) { SlotInjective(ptr, m, n); }
        NotInSlot(queue, e, t);
      }
    }
  }

  /** A list for another tick does not hold the node. */
  lemma NotInSlot(queue: seq<Entry>, e: Entry, t: nat)
    requires e in queue && e.due != t && CountEntries(queue, e.node.name) <= 1
    ensures Without(DueAt(queue, t), e.node.name) == DueAt(queue, t)
  {
    DueAtMembers(queue, t);
    forall x | x in DueAt(queue, t) ensures x.node.name != e.node.name {
      if x.node.name == e.node.name { OneOfName(queue, x, e); }
    }
    WithoutAbsent(DueAt(queue, t), e.node.name);
  }

  lemma NoneDue(q: seq<Entry>, t: nat)
    requires forall x :: x in q ==> x.due != t
    ensures DueAt(q, t) == []
  {
    DueAtMembers(q, t);
    assert |DueAt(q, t)| > 0 ==> DueAt(q, t)[0] in DueAt(q, t);
  }

  lemma SlotAfterTick(wheel: seq<seq<Node>>, ptr: nat, reached: nat, queue: seq<Entry>, n: nat)
    requires |wheel| == SLOTS && ptr < SLOTS && SlotsMatch(wheel, ptr, reached, queue) && 1 <= n <= SLOTS
    requires forall e :: e in queue ==> EntryInLap(e, reached)
    ensures var i, now := Slot(ptr, 1), reached + EVERY_MS;
            wheel[i := []][Slot(i, n)] == Nodes(DueAt(After(queue, now), now + n * EVERY_MS))
  {
    hide Slot, Nodes, DueAt, After;
    var i, now := Slot(ptr, 1), reached + EVERY_MS;
    if n == SLOTS {
      FullLap(i);
      AfterMembers(queue, now);
      NoneDue(After(queue, now), now + n * EVERY_MS);
      NoNodes();
    } else {
      TickSlot(ptr, n);
      DueAfter(queue, now, now + n * EVERY_MS);
      if Slot(ptr, n + 1) == i { SlotInjective(ptr, n + 1, 1); }
      assert reached + (n + 1) * EVERY_MS == now + n * EVERY_MS;
    }
  }

  lemma FullLap(i: nat)
    requires i < SLOTS
    ensures Slot(i, SLOTS) == i
  {
  }

  lemma NoNodes()
    ensures Nodes([]) == []
  {
  }

  /** One tick: the slot that has come up is emptied, and every other one is a tick nearer. */
  lemma SlotsAfterTick(wheel: seq<seq<Node>>, ptr: nat, reached: nat, queue: seq<Entry>)
    requires |wheel| == SLOTS && ptr < SLOTS && SlotsMatch(wheel, ptr, reached, queue)
    requires forall e :: e in queue ==> EntryInLap(e, reached)
    ensures var i := Slot(ptr, 1);
            && wheel[i] == Nodes(DueAt(queue, reached + EVERY_MS))
            && SlotsMatch(wheel[i := []], i, reached + EVERY_MS, After(queue, reached + EVERY_MS))
  {
    hide EntryInLap, Nodes, DueAt, After, Slot;
    var i, now := Slot(ptr, 1), reached + EVERY_MS;
    forall n | 1 <= n <= SLOTS
      ensures wheel[i := []][Slot(i, n)] == Nodes(DueAt(After(queue, now), now + n * EVERY_MS))
    {
      SlotAfterTick(wheel, ptr, reached, queue, n);
    }
  }

  lemma TickSlot(ptr: nat, n: nat)
    ensures Slot(Slot(ptr, 1), n) == Slot(ptr, n + 1)
  {
  }

  /** The slot of a deadline `at` is the slot of its due tick, now and after any number of ticks. */
  lemma SlotOfDeadline(ptr: nat, reached: nat, at: nat, due: nat)
    requires reached % EVERY_MS == 0 && at % EVERY_MS == 0 && due % EVERY_MS == 0
    requires reached < due <= at && (at - due) % SPAN_MS == 0
    ensures Slot(ptr, (at - reached) / EVERY_MS) == Slot(ptr, (due - reached) / EVERY_MS)
    ensures due == reached + (due - reached) / EVERY_MS * EVERY_MS
  {
    var k := (at - due) / SPAN_MS;
    assert (at - reached) / EVERY_MS == (due - reached) / EVERY_MS + k * SLOTS;
    SlotLaps(ptr, (due - reached) / EVERY_MS, k);
  }

  lemma {:induction false} SlotLaps(ptr: nat, n: nat, k: nat)
    ensures Slot(ptr, n + k * SLOTS) == Slot(ptr, n)
    decreases k
  {
    if k > 0 {
      SlotLaps(ptr, n, k - 1);
      assert Slot(ptr, n + (k - 1) * SLOTS + SLOTS) == Slot(ptr, n + (k - 1) * SLOTS);
    }
  }

  /** The slot that `add_timer` computes is the one that comes up at the due tick. */
  lemma AddedToItsSlot(wheel: seq<seq<Node>>, ptr: nat, s: Schedule, node: Node, at: nat)
    requires |wheel| == SLOTS && SlotsMatch(wheel, ptr, s.reached, s.queue)
    requires s.reached % EVERY_MS == 0 && at % EVERY_MS == 0 && s.reached < at
    ensures var i := Slot(ptr, (at - s.reached) / EVERY_MS);
            SlotsMatch(wheel[i := wheel[i] + [node]], ptr, s.reached,
                       s.queue + [Entry(node, at, DueTick(s.reached, at))])
  {
    hide SlotsMatch, Slot;
    var due := DueTick(s.reached, at);
    SlotOfDeadline(ptr, s.reached, at, due);
    SlotsAfterAdd(wheel, ptr, s.reached, s.queue, Entry(node, at, due), (due - s.reached) / EVERY_MS);
  }

  /** The slot that `remove_timer` computes is the one the timer was put in, and loses exactly its node. */
  lemma RemovedFromItsSlot(wheel: seq<seq<Node>>, ptr: nat, s: Schedule, e: Entry)
    requires |wheel| == SLOTS && SlotsMatch(wheel, ptr, s.reached, s.queue) && Ok(s) && e in s.queue
    ensures e.at > s.reached
    ensures var i := Slot(ptr, (e.at - s.reached) / EVERY_MS);
            SlotsMatch(wheel[i := Erase(wheel[i], e.node.name)], ptr, s.reached, Without(s.queue, e.node.name))
  {
    hide SlotsMatch, Without, Erase, CountEntries, CountNodes, Slot;
    assert EntryInLap(e, s.reached);
    assert e.at == e.due + (e.at - e.due) / SPAN_MS * SPAN_MS && e.at % EVERY_MS == 0;
    SlotOfDeadline(ptr, s.reached, e.at, e.due);
    CountsBound(s, e.node.name);
    SlotsAfterRemove(wheel, ptr, s.reached, s.queue, e, (e.due - s.reached) / EVERY_MS);
  }

  lemma OkAligned(s: Schedule)
    requires Ok(s)
    ensures s.reached % EVERY_MS == 0
  {
  }

  /** What a caller of add_timer gets: an id for a timer that is let in, none for one that has run at once or has been
      refused; and what is refused leaves no trace. */
  ghost predicate Answer(s: Schedule, timer: Timer, now: nat, t: Schedule, id: TimerId) {
    var at := now + timer.after - (now + timer.after) % 10;
    if at <= s.reached then id == NO_TIMER && t.fired == s.fired + [Node(s.next, timer)]
    else if timer.after >= 60_000 then id == NO_TIMER && t == s
    else id == TimerId(at, s.next) && t.fired == s.fired
  }

  lemma AddAnswers(s: Schedule, timer: Timer, now: nat)
    requires Ok(s) && timer.after + now < 0xffff_ffff_ffff_ffff
    ensures var t := TimerQueue.AddTimer(s, timer, now);
            Answer(s, timer, now, t, if t.queue == s.queue then NO_TIMER else TimerId(Deadline(timer, now), s.next))
  {
    DeadlineIs(timer, now);
  }

  class TimerWheel {
    var wheel: array<seq<Node>>
    var slotPtr: nat
    var triggerBefore: nat
    /** The next list node's name. */
    var nextNode: nat
    /** The callbacks that have run, in order. */
    var fired: seq<Node>
    /** The pending timers in insertion order. */
    ghost var queue: seq<Entry>

    ghost function View(): Schedule
      reads this
    {
      Schedule(triggerBefore, queue, fired, nextNode)
    }

    ghost predicate Valid()
      reads this, wheel
    {
      && wheel.Length == SLOTS && slotPtr < SLOTS
      && Ok(View())
      && SlotsMatch(wheel[..], slotPtr, triggerBefore, queue)
    }

    constructor (clock: nat)
      ensures Valid() && fresh(wheel)
      ensures View() == Schedule(SlotTime(U64 - 1, clock), [], [], 0)
    {
      wheel := new seq<Node>[SLOTS](_ => []);
      slotPtr := 0;
      triggerBefore := SlotTime(U64 - 1, clock);
      nextNode := 0;
      fired := [];
      queue := [];
    }

    /** Run at once what is already due, refuse what lies too far ahead, else append to a slot. */
    method AddTimer(timer: Timer, now: nat) returns (id: TimerId)
      requires Valid()
      modifies this, wheel
      ensures Valid() && wheel == old(wheel)
      ensures old(View()).reached % EVERY_MS == 0 && View() == TimerQueue.AddTimer(old(View()), timer, now)
      ensures id == if queue == old(queue) then NO_TIMER else TimerId(Deadline(timer, now), old(nextNode))
      ensures timer.after + now < 0xffff_ffff_ffff_ffff ==> Answer(old(View()), timer, now, View(), id)
    {
      AddKeeps(View(), timer, now);
      OkAligned(View());
      if timer.after + now < 0xffff_ffff_ffff_ffff { AddAnswers(View(), timer, now); }
      hide Ok, SlotsMatch, Answer;
      var at := SlotTime((timer.after + now) % U64, now);
      if at <= triggerBefore {
        fired := fired + [Node(nextNode, timer)];
        nextNode := nextNode + 1;
        return NO_TIMER;
      } else if SlotTime(timer.after, now) >= SPAN_MS {
        return NO_TIMER;
      }
      var slotN := (at - triggerBefore) / EVERY_MS;
      var newSlotPtr := (slotPtr + slotN) % wheel.Length;
      ghost var e := Entry(Node(nextNode, timer), at, DueTick(triggerBefore, at));
      AddedToItsSlot(wheel[..], slotPtr, View(), e.node, at);
      wheel[newSlotPtr] := wheel[newSlotPtr] + [Node(nextNode, timer)];
      assert wheel[..] == old(wheel[..])[newSlotPtr := old(wheel[newSlotPtr]) + [e.node]];
      queue := queue + [e];
      id := TimerId(at, nextNode);
      nextNode := nextNode + 1;
    }

    /** The id must still be pending, unless its deadline has been reached: erasing a list node twice is undefined. */
    method RemoveTimer(id: TimerId)
      requires Valid()
      requires id.at <= triggerBefore || exists e :: e in queue && e.at == id.at && e.node.name == id.name
      modifies wheel, this`queue
      ensures Valid() && View() == TimerQueue.RemoveTimer(old(View()), id)
    {
      hide Ok, SlotsMatch;
      RemoveKeeps(View(), id);
      if id.at <= triggerBefore {
        return;
      }
      var slotN := (id.at - triggerBefore) / EVERY_MS;
      var newSlotPtr := (slotPtr + slotN) % wheel.Length;
      ghost var e :| e in queue && e.at == id.at && e.node.name == id.name;
      RemovedFromItsSlot(wheel[..], slotPtr, View(), e);
      wheel[newSlotPtr] := Erase(wheel[newSlotPtr], id.name);
      assert wheel[..] == old(wheel[..])[newSlotPtr := Erase(old(wheel[newSlotPtr]), id.name)];
      queue := Without(queue, id.name);
    }

    /** Tick until `nowMs` is reached, running and clearing each slot on the way. */
    method TriggerTimer(nowMs: nat, clock: nat) returns (after: nat)
      requires Valid()
      modifies this, wheel
      ensures Valid() && wheel == old(wheel) && after == EVERY_MS
      ensures View() == TimerQueue.TriggerTimer(old(View()), nowMs, clock)
    {
      hide Ok, TimerQueue.TriggerTimer, Tick;
      ghost var before := View();
      var at := SlotTime(nowMs, clock);
      while triggerBefore < at
        invariant Valid() && wheel == old(wheel)
        invariant TimerQueue.TriggerTimer(View(), nowMs, clock) == TimerQueue.TriggerTimer(before, nowMs, clock)
        decreases at - triggerBefore
      {
        TickThenTrigger(View(), nowMs, clock);
        TickAndTrigger();
        if triggerBefore >= at { break; }
      }
      NoTrigger(View(), nowMs, clock);
      return EVERY_MS;
    }

    /** One round of the loop: move to the next slot, run its timers in order, clear it. */
    method TickAndTrigger()
      requires Valid()
      modifies this, wheel
      ensures Valid() && wheel == old(wheel)
      ensures triggerBefore == old(triggerBefore) + EVERY_MS
      ensures View() == Tick(old(View()))
    {
      TickKeeps(View());
      SlotsAfterTick(wheel[..], slotPtr, triggerBefore, queue);
      hide SlotsMatch;
      triggerBefore := triggerBefore + EVERY_MS;
      slotPtr := (slotPtr + 1) % wheel.Length;
      ghost var slots := wheel[..];
      var timers := wheel[slotPtr];
      for i := 0 to |timers|
        invariant wheel == old(wheel) && wheel[..] == slots
        invariant fired == old(fired) + timers[..i]
        invariant triggerBefore == old(triggerBefore) + EVERY_MS && slotPtr == Slot(old(slotPtr), 1)
        invariant queue == old(queue) && nextNode == old(nextNode)
      {
        assert timers[..i + 1] == timers[..i] + [timers[i]];
        fired := fired + [timers[i]];
      }
      assert timers[..|timers|] == timers;
      wheel[slotPtr] := [];
      assert wheel[..] == slots[slotPtr := []];
      queue := After(queue, triggerBefore);
    }
  }

  lemma NoTrigger(s: Schedule, nowMs: nat, clock: nat)
    requires SlotTime(nowMs, clock) <= s.reached
    ensures TriggerTimer(s, nowMs, clock) == s
  {
  }

  /** One tick of the queue. */
  ghost function Tick(s: Schedule): Schedule {
    var t := s.reached + EVERY_MS;
    s.(reached := t, queue := After(s.queue, t), fired := s.fired + Nodes(DueAt(s.queue, t)))
  }

  lemma TickIsTrigger(s: Schedule)
    requires Ok(s)
    ensures TriggerTimer(s, s.reached + EVERY_MS, s.reached + EVERY_MS) == Tick(s)
  {
    var t := s.reached + EVERY_MS;
    NothingToFire(s.queue, t);
    FiredUnfold(s.queue, s.reached, t);
    assert DueAt(s.queue, t) + [] == DueAt(s.queue, t);
  }

  lemma TickKeeps(s: Schedule)
    requires Ok(s)
    ensures Ok(Tick(s))
  {
    TickIsTrigger(s);
    TriggerKeeps(s, s.reached + EVERY_MS, s.reached + EVERY_MS);
  }

  lemma TickThenTrigger(s: Schedule, nowMs: nat, clock: nat)
    requires Ok(s) && s.reached < SlotTime(nowMs, clock)
    ensures TriggerTimer(Tick(s), nowMs, clock) == TriggerTimer(s, nowMs, clock)
  {
    var t := s.reached + EVERY_MS;
    TickIsTrigger(s);
    TriggerTwice(s, t, nowMs, t, clock);
  }
}
