/** A connection told as what has happened to it, without any state of its own: the messages taken from the user,
    the bytes the socket took, the texts received, the pops, the closes.  The connection object holds exactly what
    this history says. */
module TcpHistory {
  import opened TcpProtocol

  datatype Happening =
    | Sent(msg: string) | Taken(n: nat) | Got(text: string) | Popped | HalfClosed | Closed | Threw

  type History = seq<Happening>

  /** Every message taken from the user, in order. */
  function SentBytes(h: History): string {
    if h == [] then []
    else
      var before := SentBytes(h[..|h| - 1]);
      match h[|h| - 1]
      case Sent(msg) => before + msg
      case _ => before
  }

  /** How many bytes the socket has taken. */
  function TakenBytes(h: History): nat {
    if h == [] then 0
    else
      var before := TakenBytes(h[..|h| - 1]);
      match h[|h| - 1]
      case Taken(n) => before + n
      case _ => before
  }

  /** The texts received since the last pop, in order. */
  function SincePop(h: History): string {
    if h == [] then []
    else
      match h[|h| - 1]
      case Got(text) => SincePop(h[..|h| - 1]) + text
      case Popped => []
      case _ => SincePop(h[..|h| - 1])
  }

  function Phase(h: History): ConnState {
    if Closed in h then FULL_CLOSE else if HalfClosed in h then HALF_CLOSE else CONNECTING
  }

  // ----- what the calls and the events add to it

  function Closes(onClose: seq<Act>, h: History): History {
    if Phase(h) == FULL_CLOSE then h + [Threw]
    else if onClose == [] then h + [Closed]
    else h + [Closed] + [Threw]
  }

  function Acts1(onClose: seq<Act>, h: History, act: Act): History {
    match act
    case Send(msg) =>
      if Phase(h) != CONNECTING then h + [Threw]
      else if |SentBytes(h)| - TakenBytes(h) + |msg| >= 1_048_576 then Closes(onClose, h)
      else h + [Sent(msg)]
    case HalfClose => if Phase(h) != CONNECTING then h + [Threw] else h + [HalfClosed]
    case FullClose => Closes(onClose, h)
    case Pop(len) =>
      if Phase(h) == FULL_CLOSE || !(0 <= len <= |SincePop(h)|) then h + [Threw] else h + [Popped]
    case PopAll => if Phase(h) == FULL_CLOSE then h + [Threw] else h + [Popped]
  }

  /** A callback ends where it throws. */
  function ActsAll(onClose: seq<Act>, h: History, acts: seq<Act>): History
    decreases |acts|
  {
    if acts == [] || Threw in h then h else ActsAll(onClose, Acts1(onClose, h, acts[0]), acts[1..])
  }

  function Drained(h: History): bool { |SentBytes(h)| == TakenBytes(h) }

  function Happens(onClose: seq<Act>, h: History, e: Event): History {
    match e
    case User(act) => Acts1(onClose, h, act)
    case Readable(Received(text), onMessage) =>
      if text == [] then Closes(onClose, h)
      else if onMessage.None? then h + [Got(text)] + [Popped]
      else ActsAll(onClose, h + [Got(text)], onMessage.value)
    case Readable(ReadAgain, _) => h
    case Readable(ReadBroken, _) => Closes(onClose, h)
    case Writable(took, onDrained) =>
      if Drained(h) then h + [Threw]
      else
        match took
        case Count(n) =>
          if n > 0 && Drained(h + [Taken(n)]) then ActsAll(onClose, h + [Taken(n)], onDrained) else h + [Taken(n)]
        case TryAgain => h
        case Broken => Closes(onClose, h)
  }

  function HappensAll(onClose: seq<Act>, h: History, events: seq<Event>): History
    decreases |events|
  {
    if events == [] then h else HappensAll(onClose, Happens(onClose, h, events[0]), events[1..])
  }

  // ----- the connection agrees

  ghost predicate Agrees(c: Conn, h: History) {
    && c.state == Phase(h) && c.failed == (Threw in h)
    && TakenBytes(h) <= |SentBytes(h)| && c.accepted == SentBytes(h)
    && c.written == SentBytes(h)[..TakenBytes(h)] && c.pending == SentBytes(h)[TakenBytes(h)..]
    && c.unread == SincePop(h)
    && c.removals == (if Closed in h && c.onClose == [] then 1 else 0)
  }

  lemma Snoc(h: History, x: Happening)
    ensures SentBytes(h + [x]) == if x.Sent? then SentBytes(h) + x.msg else SentBytes(h)
    ensures TakenBytes(h + [x]) == if x.Taken? then TakenBytes(h) + x.n else TakenBytes(h)
    ensures SincePop(h + [x]) == if x.Got? then SincePop(h) + x.text else if x.Popped? then [] else SincePop(h)
    ensures forall y :: y in h + [x] <==> y in h || y == x
  {
    assert (h + [x])[..|h|] == h;
  }

  lemma ThrewAgrees(c: Conn, h: History)
    requires Agrees(c, h)
    ensures Agrees(Fail(c), h + [Threw])
  {
    Snoc(h, Threw);
  }

  lemma ClosesAgree(c: Conn, h: History)
    requires Agrees(c, h)
    ensures Agrees(DoFullClose(c), Closes(c.onClose, h)) && DoFullClose(c).onClose == c.onClose
  {
    hide SentBytes, TakenBytes, SincePop;
    ThrewAgrees(c, h);
    Snoc(h, Closed);
    Snoc(h + [Closed], Threw);
  }

  lemma SentAgrees(c: Conn, h: History, msg: string)
    requires Agrees(c, h) && c.state == CONNECTING
    ensures Agrees(c.(pending := c.pending + msg, accepted := c.accepted + msg, writeOn := true), h + [Sent(msg)])
  {
    hide SentBytes, TakenBytes, SincePop;
    Snoc(h, Sent(msg));
    var t, n := SentBytes(h), TakenBytes(h);
    assert (t + msg)[..n] == t[..n] && (t + msg)[n..] == t[n..] + msg;
  }

  lemma HalfClosedAgrees(c: Conn, h: History)
    requires Agrees(c, h) && c.state == CONNECTING
    ensures Agrees(DoHalfClose(c), h + [HalfClosed])
  {
    hide SentBytes, TakenBytes, SincePop;
    Snoc(h, HalfClosed);
  }

  lemma PoppedAgrees(c: Conn, h: History)
    requires Agrees(c, h)
    ensures Agrees(c.(unread := []), h + [Popped])
  {
    hide SentBytes, TakenBytes, SincePop;
    Snoc(h, Popped);
  }

  lemma GotAgrees(c: Conn, h: History, text: string)
    requires Agrees(c, h)
    ensures Agrees(c.(unread := c.unread + text), h + [Got(text)])
  {
    hide SentBytes, TakenBytes, SincePop;
    Snoc(h, Got(text));
  }

  lemma TakenAgrees(c: Conn, h: History, n: nat)
    requires Agrees(c, h) && n <= |c.pending|
    ensures Agrees(Written(c, n), h + [Taken(n)])
  {
    hide SentBytes, TakenBytes, SincePop;
    Snoc(h, Taken(n));
    var t, k := SentBytes(h), TakenBytes(h);
    assert t[k..][..n] == t[k..k + n] && t[k..][n..] == t[k + n..] && t[..k] + t[k..k + n] == t[..k + n];
  }

  /** The parts of the agreement that decide what happens next. */
  lemma SameView(c: Conn, h: History)
    requires Agrees(c, h)
    ensures c.state == Phase(h) && c.failed == (Threw in h) && c.unread == SincePop(h)
    ensures |c.pending| == |SentBytes(h)| - TakenBytes(h) && (c.pending == [] <==> Drained(h))
  {
  }

  lemma Act1Agrees(c: Conn, h: History, act: Act)
    requires Agrees(c, h)
    ensures Agrees(DoAct(c, act), Acts1(c.onClose, h, act)) && DoAct(c, act).onClose == c.onClose
  {
    hide Agrees, SentBytes, TakenBytes, SincePop, Phase, Closes, DoFullClose;
    SameView(c, h);
    ThrewAgrees(c, h);
    PoppedAgrees(c, h);
    ClosesAgree(c, h);
    if c.state == CONNECTING {
      HalfClosedAgrees(c, h);
      if act.Send? { SentAgrees(c, h, act.msg); }
    }
  }

  lemma {:induction false} ActsAgree(c: Conn, h: History, acts: seq<Act>)
    requires Agrees(c, h)
    ensures Agrees(DoActs(c, acts), ActsAll(c.onClose, h, acts)) && DoActs(c, acts).onClose == c.onClose
    decreases |acts|
  {
    if acts != [] && !c.failed {
      hide Acts1, DoAct, SentBytes, TakenBytes, SincePop;
      Act1Agrees(c, h, acts[0]);
      ActsAgree(DoAct(c, acts[0]), Acts1(c.onClose, h, acts[0]), acts[1..]);
    }
  }

  lemma ReadAgrees(c: Conn, h: History, got: Incoming, onMessage: Option<seq<Act>>)
    requires Agrees(c, h)
    ensures var d := HandleRead(c, got, onMessage);
            Agrees(d, Happens(c.onClose, h, Readable(got, onMessage))) && d.onClose == c.onClose
  {
    hide Agrees, ActsAll, DoActs, Closes, DoFullClose;
    ClosesAgree(c, h);
    if got.Received? {
      var d, g := c.(unread := c.unread + got.text), h + [Got(got.text)];
      GotAgrees(c, h, got.text);
      PoppedAgrees(d, g);
      if onMessage.Some? { ActsAgree(d, g, onMessage.value); }
    }
  }

  /** Interest in writing is no part of the story. */
  lemma InterestAside(c: Conn, h: History, on: bool)
    requires Agrees(c, h)
    ensures Agrees(c.(writeOn := on), h)
  {
  }

  lemma DrainAgrees(c: Conn, h: History)
    requires Agrees(c, h)
    ensures Agrees(AfterDrain(c), h) && AfterDrain(c).onClose == c.onClose
  {
  }

  lemma WriteAgrees(c: Conn, h: History, took: Io, onDrained: seq<Act>)
    requires Agrees(c, h) && (took.Count? ==> took.n <= |c.pending|)
    ensures var d := HandleWrite(c, took, onDrained);
            Agrees(d, Happens(c.onClose, h, Writable(took, onDrained))) && d.onClose == c.onClose
  {
    hide Agrees, ActsAll, DoActs, Closes, DoFullClose, AfterDrain, Drained;
    SameView(c, h);
    ClosesAgree(c, h);
    ThrewAgrees(c, h);
    if took.Count? && c.pending != [] {
      var d, g := Written(c, took.n), h + [Taken(took.n)];
      TakenAgrees(c, h, took.n);
      SameView(d, g);
      var e := d.(writeOn := false);
      InterestAside(d, g, false);
      ActsAgree(e, g, onDrained);
      DrainAgrees(DoActs(e, onDrained), ActsAll(c.onClose, g, onDrained));
    }
  }

  lemma EventAgrees(c: Conn, h: History, e: Event)
    requires Agrees(c, h) && Possible(c, e)
    ensures Agrees(Handle(c, e), Happens(c.onClose, h, e)) && Handle(c, e).onClose == c.onClose
  {
    hide Agrees, Acts1, HandleRead, HandleWrite;
    match e
    case User(act) => Act1Agrees(c, h, act);
    case Readable(got, onMessage) => ReadAgrees(c, h, got, onMessage);
    case Writable(took, onDrained) =>
      assert took.Count? ==> took.n <= |c.pending|;
      WriteAgrees(c, h, took, onDrained);
  }

  lemma {:induction false} EventsAgree(c: Conn, h: History, events: seq<Event>)
    requires Agrees(c, h) && PossibleRun(c, events)
    ensures Agrees(Run(c, events), HappensAll(c.onClose, h, events))
    decreases |events|
  {
    hide Agrees, Handle, Happens, Possible;
    if events != [] {
      EventAgrees(c, h, events[0]);
      EventsAgree(Handle(c, events[0]), Happens(c.onClose, h, events[0]), events[1..]);
    }
  }

  /** What has happened to a connection since it was created. */
  function Story(onOpen: seq<Act>, onClose: seq<Act>, events: seq<Event>): History {
    HappensAll(onClose, ActsAll(onClose, [], onOpen), events)
  }

  lemma StartAgrees(onClose: seq<Act>)
    ensures Agrees(NewConn(onClose), [])
  {
  }

  /** Over every run, whatever the callbacks do: the connection holds exactly what its story says. */
  lemma StoryIsKept(onOpen: seq<Act>, onClose: seq<Act>, events: seq<Event>)
    requires PossibleRun(Open(onOpen, onClose), events)
    ensures Agrees(Run(Open(onOpen, onClose), events), Story(onOpen, onClose, events))
  {
    hide Agrees, ActsAll, DoActs, Run, PossibleRun, HappensAll;
    StartAgrees(onClose);
    ActsAgree(NewConn(onClose), [], onOpen);
    EventsAgree(Open(onOpen, onClose), ActsAll(onClose, [], onOpen), events);
  }

  // ----- what a reader sees

  predicate IsPop(act: Act) { act.Pop? || act.PopAll? }

  predicate NoPop(acts: seq<Act>) { forall i :: 0 <= i < |acts| ==> !IsPop(acts[i]) }

  /** The event finds a message callback, and nothing in it pops. */
  predicate LeavesUnread(e: Event) {
    match e
    case User(act) => !IsPop(act)
    case Readable(_, acts) => acts.Some? && NoPop(acts.value)
    case Writable(_, acts) => NoPop(acts)
  }

  /** The texts of all reads, in order. */
  function Texts(events: seq<Event>): string {
    if events == [] then []
    else
      match events[0]
      case Readable(Received(text), _) => text + Texts(events[1..])
      case _ => Texts(events[1..])
  }

  lemma ClosesLeave(onClose: seq<Act>, h: History)
    ensures SincePop(Closes(onClose, h)) == SincePop(h)
  {
    Snoc(h, Threw);
    Snoc(h, Closed);
    Snoc(h + [Closed], Threw);
  }

  lemma {:induction false} ActsLeave(onClose: seq<Act>, h: History, acts: seq<Act>)
    requires NoPop(acts)
    ensures SincePop(ActsAll(onClose, h, acts)) == SincePop(h)
    decreases |acts|
  {
    if acts != [] && Threw !in h {
      hide SincePop, Closes;
      ClosesLeave(onClose, h);
      Snoc(h, Threw);
      Snoc(h, HalfClosed);
      assert !IsPop(acts[0]);
      if acts[0].Send? { Snoc(h, Sent(acts[0].msg)); }
      ActsLeave(onClose, Acts1(onClose, h, acts[0]), acts[1..]);
    }
  }

  lemma HappensLeaves(onClose: seq<Act>, h: History, e: Event)
    requires LeavesUnread(e)
    ensures SincePop(Happens(onClose, h, e)) == SincePop(h) + Texts([e])
  {
    hide SincePop, Closes, ActsAll;
    ClosesLeave(onClose, h);
    Snoc(h, Threw);
    assert SincePop(h) + [] == SincePop(h) && [e][1..] == [];
    match e
    case User(act) =>
      ActsLeave(onClose, h, [act]);
      OneAct(onClose, h, act);
    case Readable(got, acts) =>
      if got.Received? {
        Snoc(h, Got(got.text));
        ActsLeave(onClose, h + [Got(got.text)], acts.value);
        assert got.text + [] == got.text;
      }
    case Writable(took, acts) =>
      if took.Count? {
        Snoc(h, Taken(took.n));
        ActsLeave(onClose, h + [Taken(took.n)], acts);
      }
  }

  lemma OneAct(onClose: seq<Act>, h: History, act: Act)
    requires !IsPop(act)
    ensures SincePop(Acts1(onClose, h, act)) == SincePop(h)
  {
    hide SincePop, Closes;
    ClosesLeave(onClose, h);
    Snoc(h, Threw);
    Snoc(h, HalfClosed);
    if act.Send? { Snoc(h, Sent(act.msg)); }
  }

  lemma {:induction false} AllLeave(onClose: seq<Act>, h: History, events: seq<Event>)
    requires forall i :: 0 <= i < |events| ==> LeavesUnread(events[i])
    ensures SincePop(HappensAll(onClose, h, events)) == SincePop(h) + Texts(events)
    decreases |events|
  {
    if events == [] {
      assert SincePop(h) + [] == SincePop(h);
    } else {
      hide SincePop, Happens, Texts, LeavesUnread;
      var e := events[0];
      HappensLeaves(onClose, h, e);
      AllLeave(onClose, Happens(onClose, h, e), events[1..]);
      FirstText(events);
      Join(SincePop(h), Texts([e]), Texts(events[1..]));
    }
  }

  lemma Join(a: string, b: string, c: string)
    ensures a + b + c == a + (b + c)
  {
  }

  lemma FirstText(events: seq<Event>)
    requires events != []
    ensures Texts(events) == Texts([events[0]]) + Texts(events[1..])
  {
    assert [events[0]][1..] == [];
  }

  /** While there is a message callback and nothing pops, every text that has been read is kept, in order. */
  lemma UnreadIsAllRead(onClose: seq<Act>, events: seq<Event>)
    requires PossibleRun(NewConn(onClose), events)
    requires forall i :: 0 <= i < |events| ==> LeavesUnread(events[i])
    ensures Run(NewConn(onClose), events).unread == Texts(events)
  {
    hide Run, PossibleRun;
    assert Open([], onClose) == NewConn(onClose);
    StoryIsKept([], onClose, events);
    AllLeave(onClose, [], events);
    assert [] + Texts(events) == Texts(events);
  }

  lemma {:induction false} HappensAllSnoc(onClose: seq<Act>, h: History, events: seq<Event>, e: Event)
    ensures HappensAll(onClose, h, events + [e]) == Happens(onClose, HappensAll(onClose, h, events), e)
    decreases |events|
  {
    hide Happens;
    if events == [] {
      assert [] + [e] == [e] && [e][1..] == [];
      assert HappensAll(onClose, h, [e]) == HappensAll(onClose, Happens(onClose, h, e), []);
    } else {
      assert (events + [e])[1..] == events[1..] + [e];
      HappensAllSnoc(onClose, Happens(onClose, h, events[0]), events[1..], e);
    }
  }

  /** Without a message callback nothing is kept. */
  lemma NothingKept(onOpen: seq<Act>, onClose: seq<Act>, events: seq<Event>, text: string)
    requires text != [] && PossibleRun(Open(onOpen, onClose), events + [Readable(Received(text), None)])
    ensures Run(Open(onOpen, onClose), events + [Readable(Received(text), None)]).unread == []
  {
    hide Run, PossibleRun;
    var e, h := Readable(Received(text), None), ActsAll(onClose, [], onOpen);
    StoryIsKept(onOpen, onClose, events + [e]);
    HappensAllSnoc(onClose, h, events, e);
    Snoc(HappensAll(onClose, h, events) + [Got(text)], Popped);
  }

  /** A message that arrives in two reads is there as a whole. */
  lemma TwoReads()
    ensures var events := [Readable(Received("ab"), Some([])), Readable(Received("cd"), Some([]))];
            PossibleRun(NewConn([]), events) && Run(NewConn([]), events).unread == "abcd"
  {
    var e1, e2 := Readable(Received("ab"), Some([])), Readable(Received("cd"), Some([]));
    var c := NewConn([]);
    assert [e1, e2][1..] == [e2] && [e2][1..] == [];
    assert PossibleRun(Handle(c, e1), [e2]);
    UnreadIsAllRead([], [e1, e2]);
    assert Texts([e1, e2]) == "ab" + Texts([e2]) && Texts([e2]) == "cd" + Texts([]);
  }
}
