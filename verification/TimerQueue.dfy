/** Timers as a queue ordered by deadline: what the timer wheel is meant to be, as functions on values. */
module TimerQueue {

  const EVERY_MS := 10
  const SPAN_MS := 60_000
  const U64 := 0x1_0000_0000_0000_0000

  /** A timer with its callback named by a number. */
  datatype Timer = Timer(after: nat, callback: nat)

  /** A list node: the name stands for the address that `TimerId` holds. */
  datatype Node = Node(name: nat, timer: Timer)

  /** A pending timer: `at` is the deadline its id promises, `due` the tick at which the wheel runs it. */
  datatype Entry = Entry(node: Node, at: nat, due: nat)

  datatype TimerId = TimerId(at: nat, name: nat)

  const NO_TIMER := TimerId(0, 0)

  /** The scheduler's state: the tick reached, the pending timers in insertion order, the nodes run so far. */
  datatype Schedule = Schedule(reached: nat, queue: seq<Entry>, fired: seq<Node>, next: nat)

  /** A 64-bit time rounded down to a tick; the largest value means the clock itself. */
  function SlotTime(a: nat, clock: nat): (t: nat)
    ensures t % EVERY_MS == 0
  {
    var b := if a == U64 - 1 then clock else a;
    b - b % EVERY_MS
  }

  /** The deadline of a timer added at time `now`, in 64-bit arithmetic. */
  function Deadline(timer: Timer, now: nat): nat {
    SlotTime((timer.after + now) % U64, now)
  }

  /** The tick at which the slot that the wheel picks for deadline `at` comes up next. */
  function DueTick(reached: nat, at: nat): (d: nat)
    requires reached < at && reached % EVERY_MS == 0 && at % EVERY_MS == 0
    ensures reached < d <= reached + SPAN_MS && d <= at && d % EVERY_MS == 0
    ensures (at - d) % SPAN_MS == 0
  {
    reached + (at - reached - EVERY_MS) % SPAN_MS + EVERY_MS
  }

  // ----- the queue

  /** The pending timers due at tick `t`, in insertion order. */
  function DueAt(q: seq<Entry>, t: nat): seq<Entry> {
    if q == [] then []
    else DueAt(q[..|q| - 1], t) + (if q[|q| - 1].due == t then [q[|q| - 1]] else [])
  }

  function Until(q: seq<Entry>, t: nat): seq<Entry> {
    if q == [] then []
    else Until(q[..|q| - 1], t) + (if q[|q| - 1].due <= t then [q[|q| - 1]] else [])
  }

  function After(q: seq<Entry>, t: nat): seq<Entry> {
    if q == [] then []
    else After(q[..|q| - 1], t) + (if q[|q| - 1].due > t then [q[|q| - 1]] else [])
  }

  function Without(q: seq<Entry>, name: nat): seq<Entry> {
    if q == [] then []
    else Without(q[..|q| - 1], name) + (if q[|q| - 1].node.name != name then [q[|q| - 1]] else [])
  }

  function Nodes(q: seq<Entry>): seq<Node> {
    seq(|q|, i requires 0 <= i < |q| => q[i].node)
  }

  /** The timers run by ticking from `reached` to `at`. */
  function Fired(q: seq<Entry>, reached: nat, at: nat): seq<Entry>
    decreases if reached < at then at - reached else 0
  {
    if reached >= at then [] else DueAt(q, reached + EVERY_MS) + Fired(q, reached + EVERY_MS, at)
  }

  // ----- the operations

  function AddTimer(s: Schedule, timer: Timer, now: nat): Schedule
    requires s.reached % EVERY_MS == 0
  {
    var at := Deadline(timer, now);
    var node := Node(s.next, timer);
    if at <= s.reached then s.(fired := s.fired + [node], next := s.next + 1)
    else if SlotTime(timer.after, now) >= SPAN_MS then s
    else s.(queue := s.queue + [Entry(node, at, DueTick(s.reached, at))], next := s.next + 1)
  }

  function TriggerTimer(s: Schedule, nowMs: nat, clock: nat): Schedule {
    var at := SlotTime(nowMs, clock);
    if at <= s.reached then s
    else s.(reached := at, queue := After(s.queue, at), fired := s.fired + Nodes(Fired(s.queue, s.reached, at)))
  }

  function RemoveTimer(s: Schedule, id: TimerId): Schedule {
    if id.at <= s.reached then s else s.(queue := Without(s.queue, id.name))
  }

  // ----- the reference: a stable sort by due tick

  /** Insert `e` behind everything due no later. */
  function InsertByDue(q: seq<Entry>, e: Entry): seq<Entry> {
    if q == [] || q[|q| - 1].due <= e.due then q + [e]
    else InsertByDue(q[..|q| - 1], e) + [q[|q| - 1]]
  }

  function SortByDue(q: seq<Entry>): seq<Entry> {
    if q == [] then [] else InsertByDue(SortByDue(q[..|q| - 1]), q[|q| - 1])
  }

  ghost predicate Sorted(q: seq<Entry>) {
    forall i, j :: 0 <= i < j < |q| ==> q[i].due <= q[j].due
  }

  lemma SortedSnoc(q: seq<Entry>, x: Entry)
    requires Sorted(q) && forall y :: y in q ==> y.due <= x.due
    ensures Sorted(q + [x])
  {
    assert forall i :: 0 <= i < |q| ==> q[i] in q;
  }

  lemma SortedFront(q: seq<Entry>, n: nat)
    requires Sorted(q) && n < |q|
    ensures Sorted(q[..n]) && forall y :: y in q[..n] ==> y.due <= q[n].due
  {
  }

  lemma {:induction false} InsertSorted(q: seq<Entry>, e: Entry)
    requires Sorted(q)
    ensures Sorted(InsertByDue(q, e))
    ensures multiset(InsertByDue(q, e)) == multiset(q) + multiset{e}
    ensures forall x :: x in InsertByDue(q, e) ==> x == e || x in q
    decreases |q|
  {
    hide Sorted;
    if q != [] {
      var r, x := q[..|q| - 1], q[|q| - 1];
      assert q == r + [x];
      SortedFront(q, |q| - 1);
      if x.due <= e.due {
        SortedSnoc(q, e);
      } else {
        InsertSorted(r, e);
        SortedSnoc(InsertByDue(r, e), x);
      }
    } else {
      SortedSnoc(q, e);
    }
  }

  lemma {:induction false} DueAtAppend(a: seq<Entry>, b: seq<Entry>, t: nat)
    ensures DueAt(a + b, t) == DueAt(a, t) + DueAt(b, t)
    decreases |b|
  {
    if b == [] {
      assert a + b == a;
    } else {
      assert (a + b)[..|a + b| - 1] == a + b[..|b| - 1];
      DueAtAppend(a, b[..|b| - 1], t);
    }
  }

  lemma DueAtSnoc(q: seq<Entry>, e: Entry, t: nat)
    ensures DueAt(q + [e], t) == if e.due == t then DueAt(q, t) + [e] else DueAt(q, t)
  {
    assert (q + [e])[..|q + [e]| - 1] == q;
  }

  lemma {:induction false} InsertStable(q: seq<Entry>, e: Entry, t: nat)
    ensures DueAt(InsertByDue(q, e), t) == DueAt(q + [e], t)
    decreases |q|
  {
    hide DueAt;
    if q != [] && q[|q| - 1].due > e.due {
      var r, x := q[..|q| - 1], q[|q| - 1];
      assert q == r + [x];
      InsertStable(r, e, t);
      DueAtSnoc(InsertByDue(r, e), x, t);
      DueAtSnoc(r, e, t);
      DueAtSnoc(q, e, t);
      DueAtSnoc(r, x, t);
    }
  }

  /** The reference really is a stable sort: ordered, a permutation, equal ticks in insertion order. */
  lemma {:induction false} SortIsStable(q: seq<Entry>)
    ensures Sorted(SortByDue(q))
    ensures multiset(SortByDue(q)) == multiset(q)
    ensures forall t :: DueAt(SortByDue(q), t) == DueAt(q, t)
    decreases |q|
  {
    if q != [] {
      var r, e := q[..|q| - 1], q[|q| - 1];
      assert q == r + [e];
      SortIsStable(r);
      InsertSorted(SortByDue(r), e);
      forall t ensures DueAt(SortByDue(q), t) == DueAt(q, t) {
        InsertStable(SortByDue(r), e, t);
        DueAtAppend(SortByDue(r), [e], t);
        DueAtAppend(r, [e], t);
      }
    }
  }

  lemma {:induction false} InsertPast(a: seq<Entry>, b: seq<Entry>, e: Entry)
    requires forall x :: x in a ==> x.due <= e.due
    ensures InsertByDue(a + b, e) == a + InsertByDue(b, e)
    decreases |b|
  {
    if b == [] {
      assert a + b == a;
      assert a != [] ==> a[|a| - 1] in a;
    } else {
      assert (a + b)[..|a + b| - 1] == a + b[..|b| - 1];
      InsertPast(a, b[..|b| - 1], e);
    }
  }

  lemma {:induction false} InsertFront(b: seq<Entry>, e: Entry)
    requires forall x :: x in b ==> x.due > e.due
    ensures InsertByDue(b, e) == [e] + b
    decreases |b|
  {
    if b != [] {
      assert b[|b| - 1] in b;
      InsertFront(b[..|b| - 1], e);
      assert b == b[..|b| - 1] + [b[|b| - 1]];
    }
  }

  lemma {:induction false} DueAtMembers(q: seq<Entry>, t: nat)
    ensures forall x :: x in DueAt(q, t) <==> x in q && x.due == t
    decreases |q|
  {
    if q != [] {
      DueAtMembers(q[..|q| - 1], t);
      assert q == q[..|q| - 1] + [q[|q| - 1]];
    }
  }

  lemma {:induction false} FiredMembers(q: seq<Entry>, reached: nat, at: nat)
    ensures forall x :: x in Fired(q, reached, at) ==> x in q && reached < x.due
    decreases if reached < at then at - reached else 0
  {
    if reached < at {
      DueAtMembers(q, reached + EVERY_MS);
      FiredMembers(q, reached + EVERY_MS, at);
    }
  }

  /** Ticks are whole: `due` and the tick counter stay on the same grid. */
  ghost predicate Aligned(q: seq<Entry>, reached: nat) {
    reached % EVERY_MS == 0 && forall x :: x in q ==> x.due % EVERY_MS == 0
  }

  lemma FiredUnfold(q: seq<Entry>, reached: nat, at: nat)
    ensures Fired(q, reached, at) ==
            if reached < at then DueAt(q, reached + EVERY_MS) + Fired(q, reached + EVERY_MS, at) else []
  {
  }

  /** Adding one more timer inserts it among those that fire. */
  lemma {:induction false} FiredSnoc(q: seq<Entry>, e: Entry, reached: nat, at: nat)
    requires reached % EVERY_MS == 0 && e.due % EVERY_MS == 0 && at % EVERY_MS == 0
    ensures Fired(q + [e], reached, at) ==
            if reached < e.due <= at then InsertByDue(Fired(q, reached, at), e) else Fired(q, reached, at)
    decreases if reached < at then at - reached else 0
  {
    hide Fired, DueAt, InsertByDue;
    FiredUnfold(q, reached, at);
    FiredUnfold(q + [e], reached, at);
    if reached < at {
      var t := reached + EVERY_MS;
      var now, later := DueAt(q, t), Fired(q, t, at);
      FiredSnoc(q, e, t, at);
      DueAtMembers(q, t);
      DueAtSnoc(q, e, t);
      if e.due == t {
        FiredMembers(q, t, at);
        InsertPast(now, later, e);
        InsertFront(later, e);
        assert now + ([e] + later) == now + [e] + later;
      } else if t < e.due <= at {
        InsertPast(now, later, e);
      }
    }
  }

  /** Ticking from one instant to another runs exactly the timers due by then, stably sorted by due tick. */
  lemma {:induction false} FiredIsSorted(q: seq<Entry>, reached: nat, at: nat)
    requires Aligned(q, reached) && at % EVERY_MS == 0 && forall x :: x in q ==> reached < x.due
    ensures Fired(q, reached, at) == SortByDue(Until(q, at))
    decreases |q|
  {
    hide Fired, InsertByDue;
    if q == [] {
      NothingFired(reached, at);
    } else {
      var r, e := q[..|q| - 1], q[|q| - 1];
      assert q == r + [e] && e in q;
      FiredIsSorted(r, reached, at);
      FiredSnoc(r, e, reached, at);
      if e.due <= at {
        SortSnoc(Until(r, at), e);
      } else {
        assert Until(q, at) == Until(r, at) + [] == Until(r, at);
      }
    }
  }

  lemma SortSnoc(q: seq<Entry>, e: Entry)
    ensures SortByDue(q + [e]) == InsertByDue(SortByDue(q), e)
  {
    assert (q + [e])[..|q|] == q;
  }

  lemma {:induction false} NothingFired(reached: nat, at: nat)
    ensures Fired([], reached, at) == []
    decreases if reached < at then at - reached else 0
  {
    if reached < at {
      NothingFired(reached + EVERY_MS, at);
    }
  }

  lemma {:induction false} AfterMembers(q: seq<Entry>, t: nat)
    ensures forall x :: x in After(q, t) <==> x in q && x.due > t
    ensures forall x :: x in Until(q, t) <==> x in q && x.due <= t
    ensures multiset(q) == multiset(Until(q, t)) + multiset(After(q, t))
    decreases |q|
  {
    if q != [] {
      AfterMembers(q[..|q| - 1], t);
      assert q == q[..|q| - 1] + [q[|q| - 1]];
    }
  }
}
