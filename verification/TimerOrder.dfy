/** The order in which timers run, told from the calls alone: of two timers the one added first runs first, unless its
    deadline is the later one. */
module TimerOrder {
  import opened TimerQueue
  import opened TimerRuns

  // ----- before and behind in a sequence

  ghost predicate Precedes<T(!new)>(q: seq<T>, x: T, y: T) {
    exists i, j :: 0 <= i < j < |q| && q[i] == x && q[j] == y
  }

  lemma PrecedesSnoc<T(!new)>(q: seq<T>, z: T, x: T, y: T)
    ensures Precedes(q + [z], x, y) <==> Precedes(q, x, y) || (z == y && x in q)
  {
    var p := q + [z];
    if Precedes(q, x, y) {
      var i, j :| 0 <= i < j < |q| && q[i] == x && q[j] == y;
      assert p[i] == x && p[j] == y;
    }
    if z == y && x in q {
      var i :| 0 <= i < |q| && q[i] == x;
      assert p[i] == x && p[|q|] == y;
    }
    if Precedes(p, x, y) {
      var i, j :| 0 <= i < j < |p| && p[i] == x && p[j] == y;
      assert q[i] == x;
      if j < |q| { assert q[j] == y; }
    }
  }

  lemma PrecedesAppend<T(!new)>(a: seq<T>, b: seq<T>, x: T, y: T)
    ensures Precedes(a, x, y) ==> Precedes(a + b, x, y)
    ensures Precedes(b, x, y) ==> Precedes(a + b, x, y)
    ensures x in a && y in b ==> Precedes(a + b, x, y)
  {
    var p := a + b;
    if Precedes(a, x, y) {
      var i, j :| 0 <= i < j < |a| && a[i] == x && a[j] == y;
      assert p[i] == x && p[j] == y;
    }
    if Precedes(b, x, y) {
      var i, j :| 0 <= i < j < |b| && b[i] == x && b[j] == y;
      assert p[|a| + i] == x && p[|a| + j] == y;
    }
    if x in a && y in b {
      var i :| 0 <= i < |a| && a[i] == x;
      var j :| 0 <= j < |b| && b[j] == y;
      assert p[i] == x && p[|a| + j] == y;
    }
  }

  lemma LastOff<T>(q: seq<T>)
    requires q != []
    ensures q == q[..|q| - 1] + [q[|q| - 1]]
  {
  }

  lemma {:induction false} InsertMembers(q: seq<Entry>, e: Entry, x: Entry)
    ensures x in InsertByDue(q, e) <==> x in q || x == e
    decreases |q|
  {
    if q != [] {
      LastOff(q);
      InsertMembers(q[..|q| - 1], e, x);
    }
  }

  lemma {:induction false} InsertKeepsOrder(q: seq<Entry>, e: Entry, x: Entry, y: Entry)
    requires Precedes(q, x, y)
    ensures Precedes(InsertByDue(q, e), x, y)
    decreases |q|
  {
    hide Precedes;
    if q == [] || q[|q| - 1].due <= e.due {
      PrecedesSnoc(q, e, x, y);
    } else {
      var r, z := q[..|q| - 1], q[|q| - 1];
      LastOff(q);
      PrecedesSnoc(r, z, x, y);
      if Precedes(r, x, y) { InsertKeepsOrder(r, e, x, y); }
      InsertMembers(r, e, x);
      PrecedesSnoc(InsertByDue(r, e), z, x, y);
    }
  }

  lemma {:induction false} InsertBehind(q: seq<Entry>, e: Entry, x: Entry)
    requires x in q && x.due <= e.due
    ensures Precedes(InsertByDue(q, e), x, e)
    decreases |q|
  {
    hide Precedes;
    if q[|q| - 1].due <= e.due {
      PrecedesSnoc(q, e, x, e);
    } else {
      var r, z := q[..|q| - 1], q[|q| - 1];
      LastOff(q);
      InsertBehind(r, e, x);
      PrecedesSnoc(InsertByDue(r, e), z, x, e);
    }
  }

  lemma {:induction false} SortMembers(q: seq<Entry>, x: Entry)
    ensures x in SortByDue(q) <==> x in q
    decreases |q|
  {
    if q != [] {
      LastOff(q);
      SortMembers(q[..|q| - 1], x);
      InsertMembers(SortByDue(q[..|q| - 1]), q[|q| - 1], x);
    }
  }

  lemma {:induction false} SortKeepsOrder(q: seq<Entry>, x: Entry, y: Entry)
    requires Precedes(q, x, y) && x.due <= y.due
    ensures Precedes(SortByDue(q), x, y)
    decreases |q|
  {
    hide Precedes;
    assert q != [] by { NotEmpty(q, x, y); }
    var r, z := q[..|q| - 1], q[|q| - 1];
    LastOff(q);
    PrecedesSnoc(r, z, x, y);
    if Precedes(r, x, y) {
      SortKeepsOrder(r, x, y);
      InsertKeepsOrder(SortByDue(r), z, x, y);
    } else {
      SortMembers(r, x);
      InsertBehind(SortByDue(r), z, x);
    }
  }

  lemma NotEmpty<T(!new)>(q: seq<T>, x: T, y: T)
    requires Precedes(q, x, y)
    ensures q != [] && x in q && y in q
  {
  }

  lemma {:induction false} UntilKeepsOrder(q: seq<Entry>, t: nat, x: Entry, y: Entry)
    requires Precedes(q, x, y)
    ensures x.due <= t && y.due <= t ==> Precedes(Until(q, t), x, y)
    ensures x.due > t && y.due > t ==> Precedes(After(q, t), x, y)
    decreases |q|
  {
    hide Precedes, Until, After;
    assert q != [] by { NotEmpty(q, x, y); }
    var r, z := q[..|q| - 1], q[|q| - 1];
    LastOut(q, t);
    PrecedesSnoc(r, z, x, y);
    PrecedesSnoc(Until(r, t), z, x, y);
    PrecedesSnoc(After(r, t), z, x, y);
    AfterMembers(r, t);
    if Precedes(r, x, y) { UntilKeepsOrder(r, t, x, y); }
  }

  lemma {:induction false} WithoutKeepsOrder(q: seq<Entry>, gone: nat, x: Entry, y: Entry)
    requires Precedes(q, x, y) && x.node.name != gone && y.node.name != gone
    ensures Precedes(Without(q, gone), x, y)
    decreases |q|
  {
    hide Precedes, Without;
    assert q != [] by { NotEmpty(q, x, y); }
    var r, z := q[..|q| - 1], q[|q| - 1];
    WithoutLast(q, gone);
    PrecedesSnoc(r, z, x, y);
    PrecedesSnoc(Without(r, gone), z, x, y);
    WithoutMembers(r, gone);
    if Precedes(r, x, y) { WithoutKeepsOrder(r, gone, x, y); }
  }

  lemma NodesKeepOrder(q: seq<Entry>, x: Entry, y: Entry)
    requires Precedes(q, x, y)
    ensures Precedes(Nodes(q), x.node, y.node)
  {
    var i, j :| 0 <= i < j < |q| && q[i] == x && q[j] == y;
    assert Nodes(q)[i] == x.node && Nodes(q)[j] == y.node;
  }

  lemma NodeMembers(q: seq<Entry>, n: Node)
    ensures n in Nodes(q) <==> exists e :: e in q && e.node == n
  {
    if n in Nodes(q) {
      var i :| 0 <= i < |q| && Nodes(q)[i] == n;
      assert q[i] in q;
    }
    if exists e :: e in q && e.node == n {
      var e :| e in q && e.node == n;
      var i :| 0 <= i < |q| && q[i] == e;
      assert Nodes(q)[i] == n;
    }
  }

  // ----- one timer

  /** Pending before its tick is reached, run from then on. */
  ghost predicate Tracked(s: Schedule, e: Entry) {
    && e.node.name < s.next
    && (if s.reached < e.due then e in s.queue && e.node !in s.fired else e.node in s.fired && e !in s.queue)
  }

  lemma {:induction false} CountNodeMember(q: seq<Node>, n: Node)
    requires n in q
    ensures CountNodes(q, n.name) >= 1
    decreases |q|
  {
    LastOff(q);
    if q[|q| - 1] != n {
      CountNodeMember(q[..|q| - 1], n);
    }
  }

  /** A node is never both pending and run. */
  lemma NeverBoth(s: Schedule, e: Entry, n: Node)
    requires Ok(s) && e in s.queue && n in s.fired
    ensures e.node.name != n.name
  {
    hide EntryInLap;
    CountMember(s.queue, e);
    CountNodeMember(s.fired, n);
  }

  lemma TrackedAdd(s: Schedule, e: Entry, timer: Timer, now: nat)
    requires Ok(s) && Tracked(s, e)
    ensures Tracked(AddTimer(s, timer, now), e)
  {
  }

  lemma TrackedTrigger(s: Schedule, e: Entry, nowMs: nat, clock: nat)
    requires Ok(s) && Tracked(s, e)
    ensures Tracked(TriggerTimer(s, nowMs, clock), e)
  {
    hide Ok, Until, After, Fired, SlotTime, SortByDue;
    var t, at := TriggerTimer(s, nowMs, clock), SlotTime(nowMs, clock);
    TriggerKeeps(s, nowMs, clock);
    if at > s.reached {
      FiredNow(s, at);
      AfterMembers(s.queue, at);
      var f := Fired(s.queue, s.reached, at);
      NodeMembers(f, e.node);
      SortMembers(Until(s.queue, at), e);
      if at < e.due && e.node in t.fired { NeverBoth(t, e, e.node); }
    }
  }

  lemma FiredNow(s: Schedule, at: nat)
    requires Ok(s) && at % EVERY_MS == 0
    ensures Fired(s.queue, s.reached, at) == SortByDue(Until(s.queue, at))
  {
    FiredIsSorted(s.queue, s.reached, at);
  }

  lemma TrackedRemove(s: Schedule, e: Entry, id: TimerId)
    requires Ok(s) && Tracked(s, e) && id.name != e.node.name
    ensures Tracked(RemoveTimer(s, id), e)
  {
    WithoutMembers(s.queue, id.name);
  }

  lemma TrackedStep(s: Schedule, e: Entry, op: Op)
    requires Ok(s) && Tracked(s, e) && !(op.Remove? && op.id.name == e.node.name)
    ensures Tracked(Apply(s, op), e)
  {
    hide Tracked, AddTimer, TriggerTimer, RemoveTimer;
    match op
    case Add(timer, now) => TrackedAdd(s, e, timer, now);
    case Trigger(nowMs, clock) => TrackedTrigger(s, e, nowMs, clock);
    case Remove(id) => TrackedRemove(s, e, id);
  }

  // ----- two timers

  /** `a` comes before `b` wherever both are. */
  ghost predicate Ordered(s: Schedule, a: Entry, b: Entry) {
    && (a in s.queue && b in s.queue ==> Precedes(s.queue, a, b))
    && (b.node in s.fired ==> Precedes(s.fired, a.node, b.node))
  }

  lemma OrderedAdd(s: Schedule, a: Entry, b: Entry, timer: Timer, now: nat)
    requires Ok(s) && Tracked(s, a) && Tracked(s, b) && Ordered(s, a, b)
    ensures Ordered(AddTimer(s, timer, now), a, b)
  {
    hide Precedes;
    var t, at := AddTimer(s, timer, now), Deadline(timer, now);
    var n := Node(s.next, timer);
    if at <= s.reached {
      PrecedesSnoc(s.fired, n, a.node, b.node);
    } else if t != s {
      PrecedesSnoc(s.queue, t.queue[|s.queue|], a, b);
    }
  }

  lemma OrderedTrigger(s: Schedule, a: Entry, b: Entry, nowMs: nat, clock: nat)
    requires Ok(s) && Tracked(s, a) && Tracked(s, b) && Ordered(s, a, b) && a.due <= b.due
    ensures Ordered(TriggerTimer(s, nowMs, clock), a, b)
  {
    hide Precedes, Ok, Until, After, Fired, SlotTime, SortByDue, Nodes;
    var t, at := TriggerTimer(s, nowMs, clock), SlotTime(nowMs, clock);
    if at > s.reached {
      TrackedTrigger(s, a, nowMs, clock);
      TrackedTrigger(s, b, nowMs, clock);
      FiredNow(s, at);
      var u := Until(s.queue, at);
      AfterMembers(s.queue, at);
      if a in s.queue && b in s.queue {
        UntilKeepsOrder(s.queue, at, a, b);
        if b.due <= at {
          SortKeepsOrder(u, a, b);
          NodesKeepOrder(SortByDue(u), a, b);
        }
      }
      SortMembers(u, b);
      NodeMembers(SortByDue(u), b.node);
      PrecedesAppend(s.fired, Nodes(SortByDue(u)), a.node, b.node);
    }
  }

  lemma OrderedRemove(s: Schedule, a: Entry, b: Entry, id: TimerId)
    requires Ordered(s, a, b) && id.name != a.node.name && id.name != b.node.name
    ensures Ordered(RemoveTimer(s, id), a, b)
  {
    hide Precedes;
    WithoutMembers(s.queue, id.name);
    if a in s.queue && b in s.queue { WithoutKeepsOrder(s.queue, id.name, a, b); }
  }

  /** What becomes of two timers, the first of which was added first and is due no later. */
  ghost predicate PairOk(s: Schedule, a: Entry, b: Entry) {
    Ok(s) && Tracked(s, a) && Tracked(s, b) && Ordered(s, a, b)
  }

  lemma PairStep(s: Schedule, a: Entry, b: Entry, op: Op)
    requires PairOk(s, a, b) && a.due <= b.due
    requires op.Remove? ==> op.id.name != a.node.name && op.id.name != b.node.name
    ensures PairOk(Apply(s, op), a, b)
  {
    hide Ok, Tracked, Ordered, AddTimer, TriggerTimer, RemoveTimer;
    TrackedStep(s, a, op);
    TrackedStep(s, b, op);
    ApplyKeeps(s, op);
    match op
    case Add(timer, now) => OrderedAdd(s, a, b, timer, now);
    case Trigger(nowMs, clock) => OrderedTrigger(s, a, b, nowMs, clock);
    case Remove(id) => OrderedRemove(s, a, b, id);
  }

  /** No operation removes the timer named `name`. */
  predicate Spared(ops: seq<Op>, name: nat) {
    forall i :: 0 <= i < |ops| ==> !(ops[i].Remove? && ops[i].id.name == name)
  }

  lemma {:induction false} PairRun(s: Schedule, a: Entry, b: Entry, ops: seq<Op>)
    requires PairOk(s, a, b) && a.due <= b.due && Spared(ops, a.node.name) && Spared(ops, b.node.name)
    ensures PairOk(Run(s, ops), a, b)
    decreases |ops|
  {
    hide Tracked, Ordered, Apply;
    if ops != [] {
      PairStep(s, a, b, ops[0]);
      PairRun(Apply(s, ops[0]), a, b, ops[1..]);
    }
  }

  lemma {:induction false} TrackedRun(s: Schedule, e: Entry, ops: seq<Op>)
    requires Ok(s) && Tracked(s, e) && Spared(ops, e.node.name)
    ensures Ok(Run(s, ops)) && Tracked(Run(s, ops), e)
    decreases |ops|
  {
    hide Tracked, Apply;
    if ops != [] {
      TrackedStep(s, e, ops[0]);
      ApplyKeeps(s, ops[0]);
      TrackedRun(Apply(s, ops[0]), e, ops[1..]);
    }
  }

  // ----- the calls

  /** The operation adds a timer within the limit while a wheel that has reached `reached` is less than one tick
      behind the clock. */
  predicate OnTime(op: Op, reached: nat) {
    && op.Add? && reached <= op.now < reached + 10 && op.timer.after < 60_000
    && op.now + op.timer.after < 0xffff_ffff_ffff_ffff
  }

  /** The requested time, rounded down. */
  function Due(op: Op): nat
    requires op.Add?
  {
    op.now + op.timer.after - (op.now + op.timer.after) % 10
  }

  lemma AddTracked(s: Schedule, op: Op)
    requires Ok(s) && OnTime(op, s.reached)
    ensures Ok(Apply(s, op)) && Tracked(Apply(s, op), Entry(Node(s.next, op.timer), Due(op), Due(op)))
    ensures Apply(s, op).reached == s.reached
    ensures var t, e := Apply(s, op), Entry(Node(s.next, op.timer), Due(op), Due(op));
            if Due(op) > s.reached then t.fired == s.fired && t.queue == s.queue + [e]
            else t.queue == s.queue && t.fired == s.fired + [e.node]
  {
    hide EntryInLap, CountEntries, CountNodes;
    var n, e := Node(s.next, op.timer), Entry(Node(s.next, op.timer), Due(op), Due(op));
    DeadlineIs(op.timer, op.now);
    AddKeeps(s, op.timer, op.now);
    if Due(op) > s.reached { GuardSuffices(s, op.timer, op.now); }
    assert CountEntries(s.queue, n.name) + CountNodes(s.fired, n.name) <= 0;
    if n in s.fired { CountNodeMember(s.fired, n); }
    if e in s.queue { CountMember(s.queue, e); }
  }

  lemma SecondAdded(s: Schedule, a: Entry, op: Op)
    requires Ok(s) && Tracked(s, a) && OnTime(op, s.reached) && a.due <= Due(op)
    ensures PairOk(Apply(s, op), a, Entry(Node(s.next, op.timer), Due(op), Due(op)))
  {
    hide Precedes;
    var b := Entry(Node(s.next, op.timer), Due(op), Due(op));
    AddTracked(s, op);
    PrecedesSnoc(s.queue, b, a, b);
    PrecedesSnoc(s.fired, b.node, a.node, b.node);
  }

  lemma {:induction false} RunConcat(s: Schedule, a: seq<Op>, b: seq<Op>)
    requires Ok(s)
    ensures Ok(Run(s, a)) && Run(s, a + b) == Run(Run(s, a), b)
    decreases |a|
  {
    hide Apply;
    if a == [] {
      assert a + b == b;
    } else {
      assert (a + b)[1..] == a[1..] + b;
      ApplyKeeps(s, a[0]);
      RunConcat(Apply(s, a[0]), a[1..], b);
    }
  }

  lemma RunFrom(s: Schedule, ops: seq<Op>, i: nat)
    requires Ok(s) && i < |ops|
    ensures Ok(Run(s, ops[..i]))
    ensures var t := Run(s, ops[..i]); Ok(Apply(t, ops[i])) && Run(s, ops) == Run(Apply(t, ops[i]), ops[i + 1..])
  {
    hide Apply, Run;
    assert ops == ops[..i] + ops[i..] && ops[i..][0] == ops[i] && ops[i..][1..] == ops[i + 1..];
    RunConcat(s, ops[..i], ops[i..]);
    ApplyKeeps(Run(s, ops[..i]), ops[i]);
    RunOnce(Run(s, ops[..i]), ops[i..]);
  }

  lemma RunOnce(s: Schedule, ops: seq<Op>)
    requires Ok(s) && ops != [] && Ok(Apply(s, ops[0]))
    ensures Run(s, ops) == Run(Apply(s, ops[0]), ops[1..])
  {
  }

  /** How far the calls have taken the wheel: the latest time at which it was triggered, rounded down. */
  function ReachedBy(start: nat, ops: seq<Op>): nat
    decreases |ops|
  {
    if ops == [] then start
    else
      match ops[0]
      case Trigger(nowMs, clock) =>
        var t := if nowMs == 0xffff_ffff_ffff_ffff then clock else nowMs;
        ReachedBy(if t - t % 10 > start then t - t % 10 else start, ops[1..])
      case _ => ReachedBy(start, ops[1..])
  }

  lemma {:induction false} ReachedIs(s: Schedule, ops: seq<Op>)
    requires Ok(s)
    ensures Run(s, ops).reached == ReachedBy(s.reached, ops)
    decreases |ops|
  {
    hide EntryInLap, CountEntries, CountNodes;
    if ops != [] {
      ApplyKeeps(s, ops[0]);
      ReachedIs(Apply(s, ops[0]), ops[1..]);
    }
  }

  /** The node made by the add at place `i`. */
  function Added(s: Schedule, ops: seq<Op>, i: nat): Node
    requires Ok(s) && i < |ops| && ops[i].Add?
  {
    Node(Run(s, ops[..i]).next, ops[i].timer)
  }

  /** Over any run, a timer that is added on time and not removed has run, by the end, exactly when some trigger has
      reached its requested time rounded down. */
  lemma RunsWhenDue(s: Schedule, ops: seq<Op>, i: nat)
    requires Ok(s) && i < |ops| && OnTime(ops[i], ReachedBy(s.reached, ops[..i]))
    requires Spared(ops[i..], Added(s, ops, i).name)
    ensures Added(s, ops, i) in Run(s, ops).fired <==> Due(ops[i]) <= ReachedBy(s.reached, ops)
  {
    hide Apply, Run, ReachedBy;
    var e := Entry(Added(s, ops, i), Due(ops[i]), Due(ops[i]));
    RunFrom(s, ops, i);
    ReachedIs(s, ops[..i]);
    AddTracked(Run(s, ops[..i]), ops[i]);
    SparedRest(ops, i, i, e.node.name);
    TrackedRun(Apply(Run(s, ops[..i]), ops[i]), e, ops[i + 1..]);
    ReachedIs(s, ops);
  }

  /** Over any run: of two timers that are added on time and not removed, the one added first has run first, if it
      is due no later than the other. */
  lemma FirstAddedRunsFirst(s: Schedule, ops: seq<Op>, i: nat, j: nat)
    requires Ok(s) && i < j < |ops|
    requires OnTime(ops[i], ReachedBy(s.reached, ops[..i])) && OnTime(ops[j], ReachedBy(s.reached, ops[..j]))
    requires Spared(ops[i..], Added(s, ops, i).name) && Spared(ops[j..], Added(s, ops, j).name)
    requires Due(ops[i]) <= Due(ops[j])
    ensures Added(s, ops, j) in Run(s, ops).fired ==>
              Precedes(Run(s, ops).fired, Added(s, ops, i), Added(s, ops, j))
  {
    hide Apply, Run, ReachedBy, Precedes;
    var a := Entry(Added(s, ops, i), Due(ops[i]), Due(ops[i]));
    var b := Entry(Added(s, ops, j), Due(ops[j]), Due(ops[j]));
    var before := ops[..j];
    assert before[..i] == ops[..i] && before[i] == ops[i];
    RunFrom(s, before, i);
    ReachedIs(s, ops[..i]);
    AddTracked(Run(s, ops[..i]), ops[i]);
    SparedPart(ops, i, j, a.node.name);
    TrackedRun(Apply(Run(s, ops[..i]), ops[i]), a, before[i + 1..]);
    RunFrom(s, ops, j);
    ReachedIs(s, ops[..j]);
    SecondAdded(Run(s, ops[..j]), a, ops[j]);
    SparedRest(ops, i, j, a.node.name);
    SparedRest(ops, j, j, b.node.name);
    PairRun(Apply(Run(s, ops[..j]), ops[j]), a, b, ops[j + 1..]);
  }

  lemma SparedPart(ops: seq<Op>, i: nat, j: nat, name: nat)
    requires i < j <= |ops| && Spared(ops[i..], name)
    ensures Spared(ops[..j][i + 1..], name)
  {
    var part := ops[..j][i + 1..];
    forall k | 0 <= k < |part| ensures !(part[k].Remove? && part[k].id.name == name) {
      assert part[k] == ops[i..][k + 1];
    }
  }

  lemma SparedRest(ops: seq<Op>, i: nat, j: nat, name: nat)
    requires i <= j < |ops| && Spared(ops[i..], name)
    ensures Spared(ops[j + 1..], name)
  {
    var part := ops[j + 1..];
    forall k | 0 <= k < |part| ensures !(part[k].Remove? && part[k].id.name == name) {
      assert part[k] == ops[i..][j - i + 1 + k];
    }
  }

  /** An add changes nothing, and its timer never runs, exactly when the delay is a minute or more and the requested
      time, rounded down, lies ahead. */
  lemma RefusedExactly(s: Schedule, timer: Timer, now: nat)
    requires Ok(s) && timer.after + now < 0xffff_ffff_ffff_ffff
    ensures AddTimer(s, timer, now) == s <==> timer.after >= 60_000 && Due(Add(timer, now)) > s.reached
  {
    DeadlineIs(timer, now);
  }
}
