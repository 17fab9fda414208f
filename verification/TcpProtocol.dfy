/** A TCP connection as a state machine on values: sends, partial writes, half and full closes, and user callbacks
    that themselves send and close. */
module TcpProtocol {

  const MAX_WRITE_BUF := 1024 * 1024

  datatype ConnState = CONNECTING | HALF_CLOSE | FULL_CLOSE

  datatype Option<+T> = None | Some(value: T)

  /** `pending` is the write buffer and `unread` the read buffer; `accepted` and `written` are all bytes taken from
      the user and given to the socket; `shutWr` counts shutdowns of the write side and `early` records one with
      bytes still pending; `removals` counts requests to remove the connection; `failed` means that an assertion has
      thrown.  `onClose` is what the close callback does, the same for the whole life of the connection. */
  datatype Conn = Conn(
    state: ConnState, pending: string, unread: string, writeOn: bool, accepted: string, written: string,
    shutWr: nat, early: bool, removals: nat, failed: bool, onClose: seq<Act>)

  function NewConn(onClose: seq<Act>): Conn {
    Conn(CONNECTING, [], [], false, [], [], 0, false, 0, false, onClose)
  }

  /** What user code may do to the connection. */
  datatype Act = Send(msg: string) | HalfClose | FullClose | Pop(len: int) | PopAll

  /** The outcome of a write on the socket. */
  datatype Io = Count(n: nat) | TryAgain | Broken

  /** The outcome of a read: no bytes at the end of the stream. */
  datatype Incoming = Received(text: string) | ReadAgain | ReadBroken

  /** The acts of an event are those of the callback it calls; there may be no message callback. */
  datatype Event =
    | User(act: Act)
    | Readable(got: Incoming, onMessage: Option<seq<Act>>)
    | Writable(took: Io, onDrained: seq<Act>)

  function Fail(c: Conn): Conn { c.(failed := true) }

  /** The close callback runs on a connection that is already closed, where every act throws (see ClosedActFails),
      and a throw keeps the removal from being asked for. */
  function DoFullClose(c: Conn): Conn {
    if c.state == FULL_CLOSE then Fail(c)
    else if c.onClose != [] then Fail(c.(state := FULL_CLOSE))
    else c.(state := FULL_CLOSE, removals := c.removals + 1)
  }

  /** A pop of `len` bytes drops everything that has been read. */
  function DoPop(c: Conn, len: int): Conn {
    if c.state == FULL_CLOSE || !(0 <= len <= |c.unread|) then Fail(c) else c.(unread := [])
  }

  function ShutWrite(c: Conn): Conn {
    c.(shutWr := c.shutWr + 1, early := c.early || c.pending != [])
  }

  function DoSend(c: Conn, msg: string): Conn {
    if c.state != CONNECTING then Fail(c)
    else if |c.pending| + |msg| >= MAX_WRITE_BUF then DoFullClose(c)
    else c.(pending := c.pending + msg, accepted := c.accepted + msg, writeOn := true)
  }

  function DoHalfClose(c: Conn): Conn {
    if c.state != CONNECTING then Fail(c)
    else
      var d := c.(state := HALF_CLOSE);
      if c.pending == [] && !c.writeOn then ShutWrite(d) else d
  }

  function DoAct(c: Conn, act: Act): Conn {
    match act
    case Send(msg) => DoSend(c, msg)
    case HalfClose => DoHalfClose(c)
    case FullClose => DoFullClose(c)
    case Pop(len) => DoPop(c, len)
    case PopAll => DoPop(c, |c.unread|)
  }

  lemma ClosedActFails(c: Conn, act: Act)
    requires c.state == FULL_CLOSE
    ensures DoAct(c, act) == Fail(c)
  {
  }

  /** A user callback; an exception ends it. */
  function DoActs(c: Conn, acts: seq<Act>): Conn
    decreases |acts|
  {
    if acts == [] || c.failed then c else DoActs(DoAct(c, acts[0]), acts[1..])
  }

  /** A new connection, after its open callback. */
  function Open(onOpen: seq<Act>, onClose: seq<Act>): Conn { DoActs(NewConn(onClose), onOpen) }

  /** Without a message callback what has been read is dropped. */
  function HandleRead(c: Conn, got: Incoming, onMessage: Option<seq<Act>>): Conn {
    match got
    case Received(text) =>
      if text == [] then DoFullClose(c)
      else if onMessage.None? then c.(unread := [])
      else DoActs(c.(unread := c.unread + text), onMessage.value)
    case ReadAgain => c
    case ReadBroken => DoFullClose(c)
  }

  /** After the buffer has drained, the callback runs, and only the state is looked at again. */
  function AfterDrain(c: Conn): Conn {
    if !c.failed && c.state == HALF_CLOSE then ShutWrite(c) else c
  }

  function Written(c: Conn, n: nat): Conn
    requires n <= |c.pending|
  {
    c.(written := c.written + c.pending[..n], pending := c.pending[n..])
  }

  /** A write of zero bytes passes the assertion that should catch it. */
  function HandleWrite(c: Conn, took: Io, onDrained: seq<Act>): Conn
    requires took.Count? ==> took.n <= |c.pending|
  {
    if c.pending == [] then Fail(c)
    else
      match took
      case Count(n) =>
        var d := Written(c, n);
        if n > 0 && d.pending == [] then AfterDrain(DoActs(d.(writeOn := false), onDrained)) else d
      case TryAgain => c
      case Broken => DoFullClose(c)
  }

  predicate Possible(c: Conn, e: Event) {
    !c.failed && (e.Writable? ==> c.writeOn && (e.took.Count? ==> e.took.n <= |c.pending|))
  }

  function Handle(c: Conn, e: Event): Conn
    requires Possible(c, e)
  {
    match e
    case User(act) => DoAct(c, act)
    case Readable(got, onMessage) => HandleRead(c, got, onMessage)
    case Writable(took, onDrained) => HandleWrite(c, took, onDrained)
  }

  // ----- the invariant of every run

  /** Nothing is lost or reordered, the buffer is bounded, and a removal is asked for once the connection is fully
      closed, unless the close callback does anything with it. */
  ghost predicate Ok(c: Conn) {
    && c.written + c.pending == c.accepted
    && |c.pending| < MAX_WRITE_BUF
    && c.removals == (if c.state == FULL_CLOSE && c.onClose == [] then 1 else 0)
    && (c.state != FULL_CLOSE && c.pending != [] ==> c.writeOn)
  }

  lemma ActKeeps(c: Conn, act: Act)
    requires Ok(c)
    ensures Ok(DoAct(c, act))
  {
    if act.Send? {
      assert c.written + (c.pending + act.msg) == c.accepted + act.msg;
    }
  }

  lemma {:induction false} ActsKeep(c: Conn, acts: seq<Act>)
    requires Ok(c)
    ensures Ok(DoActs(c, acts))
    decreases |acts|
  {
    if acts != [] && !c.failed {
      ActKeeps(c, acts[0]);
      ActsKeep(DoAct(c, acts[0]), acts[1..]);
    }
  }

  lemma WrittenKeeps(c: Conn, n: nat)
    requires Ok(c) && n <= |c.pending|
    ensures Ok(Written(c, n))
  {
    assert c.written + c.pending[..n] + c.pending[n..] == c.written + c.pending;
  }

  lemma HandleKeeps(c: Conn, e: Event)
    requires Ok(c) && Possible(c, e)
    ensures Ok(Handle(c, e))
  {
    match e
    case User(act) => ActKeeps(c, act);
    case Readable(got, onMessage) =>
      if got.Received? && onMessage.Some? { ActsKeep(c.(unread := c.unread + got.text), onMessage.value); }
    case Writable(took, onDrained) =>
      if c.pending != [] && took.Count? {
        var d := Written(c, took.n);
        WrittenKeeps(c, took.n);
        if took.n > 0 && d.pending == [] {
          ActsKeep(d.(writeOn := false), onDrained);
        }
      }
  }

  predicate PossibleRun(c: Conn, events: seq<Event>)
    decreases |events|
  {
    events == [] || (Possible(c, events[0]) && PossibleRun(Handle(c, events[0]), events[1..]))
  }

  function Run(c: Conn, events: seq<Event>): Conn
    requires PossibleRun(c, events)
    decreases |events|
  {
    if events == [] then c else Run(Handle(c, events[0]), events[1..])
  }

  /** Over every run: the bytes given to the socket, then those still pending, are the accepted messages in order;
      the pending bytes stay below the limit, so `write_high` is never called; exactly one removal is requested when
      the connection is fully closed, none before, and none at all with a close callback that does anything. */
  lemma {:induction false} RunKeeps(c: Conn, events: seq<Event>)
    requires Ok(c) && PossibleRun(c, events)
    ensures Ok(Run(c, events))
    decreases |events|
  {
    if events != [] {
      HandleKeeps(c, events[0]);
      RunKeeps(Handle(c, events[0]), events[1..]);
    }
  }

  // ----- write interest

  predicate ActNonEmpty(act: Act) { act.Send? ==> act.msg != [] }

  predicate NonEmptySends(e: Event) {
    match e
    case User(act) => ActNonEmpty(act)
    case Readable(_, acts) => acts.Some? ==> forall a :: a in acts.value ==> ActNonEmpty(a)
    case Writable(_, acts) => forall a :: a in acts ==> ActNonEmpty(a)
  }

  /** Interest in writability is on exactly while there is something to write. */
  ghost predicate InterestExact(c: Conn) {
    c.state != FULL_CLOSE ==> (c.writeOn <==> c.pending != [])
  }

  lemma {:induction false} ActsInterest(c: Conn, acts: seq<Act>)
    requires InterestExact(c) && forall a :: a in acts ==> ActNonEmpty(a)
    ensures InterestExact(DoActs(c, acts))
    decreases |acts|
  {
    if acts != [] && !c.failed {
      assert ActNonEmpty(acts[0]);
      ActsInterest(DoAct(c, acts[0]), acts[1..]);
    }
  }

  lemma HandleInterest(c: Conn, e: Event)
    requires InterestExact(c) && Possible(c, e) && NonEmptySends(e)
    ensures InterestExact(Handle(c, e))
  {
    match e
    case User(act) =>
    case Readable(got, onMessage) =>
      if got.Received? && onMessage.Some? { ActsInterest(c.(unread := c.unread + got.text), onMessage.value); }
    case Writable(took, onDrained) =>
      if c.pending != [] && took.Count? && 0 < took.n && Written(c, took.n).pending == [] {
        ActsInterest(Written(c, took.n).(writeOn := false), onDrained);
      }
  }

  /** As long as no empty message is sent, write interest is on exactly while bytes are pending. */
  lemma {:induction false} RunInterest(c: Conn, events: seq<Event>)
    requires InterestExact(c) && PossibleRun(c, events)
    requires forall i :: 0 <= i < |events| ==> NonEmptySends(events[i])
    ensures InterestExact(Run(c, events))
    decreases |events|
  {
    if events != [] {
      HandleInterest(c, events[0]);
      RunInterest(Handle(c, events[0]), events[1..]);
    }
  }

  /** A send breaks the correspondence exactly when it is an accepted empty message on a drained connection;
      the next writable event then fails its assertion. */
  lemma EmptySendBreaks(c: Conn, msg: string)
    requires Ok(c) && InterestExact(c) && !c.failed && c.state == CONNECTING
    ensures !InterestExact(DoSend(c, msg)) <==> msg == [] && c.pending == []
    ensures msg == [] && c.pending == [] ==>
              Possible(DoSend(c, msg), Writable(TryAgain, [])) && HandleWrite(DoSend(c, msg), TryAgain, []).failed
  {
  }

  // ----- half-close drains first

  /** The callback only pops, never more than there is. */
  predicate OnlyPops(acts: seq<Act>, unread: nat)
    decreases |acts|
  {
    acts == [] ||
    match acts[0]
    case Pop(len) => 0 <= len <= unread && OnlyPops(acts[1..], 0)
    case PopAll => OnlyPops(acts[1..], 0)
    case _ => false
  }

  /** The callback sends something and then half-closes, staying below the buffer limit; in between and after it may
      pop. */
  predicate SendsThenHalfCloses(acts: seq<Act>, size: nat, unread: nat)
    decreases |acts|
  {
    acts != [] &&
    match acts[0]
    case Send(msg) => size + |msg| < MAX_WRITE_BUF && SendsThenHalfCloses(acts[1..], size + |msg|, unread)
    case HalfClose => size > 0 && OnlyPops(acts[1..], unread)
    case FullClose => false
    case Pop(len) => 0 <= len <= unread && SendsThenHalfCloses(acts[1..], size, 0)
    case PopAll => SendsThenHalfCloses(acts[1..], size, 0)
  }

  lemma {:induction false} HalfClosedActs(c: Conn, acts: seq<Act>)
    requires c.state == HALF_CLOSE && !c.failed
    ensures var d := DoActs(c, acts);
            if OnlyPops(acts, |c.unread|) then d == c.(unread := d.unread) else d.failed || d.state == FULL_CLOSE
    decreases |acts|
  {
    if acts != [] {
      var d := DoAct(c, acts[0]);
      if !d.failed {
        if d.state == HALF_CLOSE { HalfClosedActs(d, acts[1..]); } else { ClosedActs(d, acts[1..]); }
      }
    }
  }

  lemma {:induction false} ClosedActs(c: Conn, acts: seq<Act>)
    requires c.state == FULL_CLOSE
    ensures DoActs(c, acts).state == FULL_CLOSE
    decreases |acts|
  {
    if acts != [] && !c.failed {
      ClosedActs(DoAct(c, acts[0]), acts[1..]);
    }
  }

  lemma {:induction false} HalfClosesPending(c: Conn, acts: seq<Act>)
    requires Ok(c) && c.state == CONNECTING && !c.failed
    ensures var d := DoActs(c, acts);
            !d.failed && d.state == HALF_CLOSE && d.pending != [] <==>
            SendsThenHalfCloses(acts, |c.pending|, |c.unread|)
    decreases |acts|
  {
    if acts != [] {
      var d := DoAct(c, acts[0]);
      ActKeeps(c, acts[0]);
      match acts[0]
      case Send(msg) =>
        if d.state == CONNECTING { HalfClosesPending(d, acts[1..]); } else { ClosedActs(d, acts[1..]); }
      case HalfClose => HalfClosedActs(d, acts[1..]);
      case FullClose => ClosedActs(d, acts[1..]);
      case _ => if !d.failed { HalfClosesPending(d, acts[1..]); }
    }
  }

  /** Acts never shut the write side down with bytes pending. */
  lemma {:induction false} ActsNotEarly(c: Conn, acts: seq<Act>)
    ensures DoActs(c, acts).early == c.early
    decreases |acts|
  {
    if acts != [] && !c.failed {
      ActsNotEarly(DoAct(c, acts[0]), acts[1..]);
    }
  }

  /** The event drains the buffer, and its callback sends and then half-closes. */
  predicate ShutsEarly(c: Conn, e: Event) {
    && e.Writable? && e.took.Count? && e.took.n == |c.pending| && c.pending != []
    && c.state == CONNECTING && SendsThenHalfCloses(e.onDrained, 0, |c.unread|)
  }

  /** One event shuts the write side down with bytes pending if and only if it is such an event. */
  lemma EarlyExactly(c: Conn, e: Event)
    requires Ok(c) && Possible(c, e)
    ensures Handle(c, e).early <==> c.early || ShutsEarly(c, e)
  {
    match e
    case User(act) =>
    case Readable(got, onMessage) =>
      if got.Received? && onMessage.Some? { ActsNotEarly(c.(unread := c.unread + got.text), onMessage.value); }
    case Writable(took, onDrained) =>
      if c.pending != [] && took.Count? && took.n == |c.pending| {
        var d := Written(c, took.n).(writeOn := false);
        assert Ok(d) by {
          assert c.written + c.pending[..took.n] + c.pending[took.n..] == c.written + c.pending;
        }
        ActsNotEarly(d, onDrained);
        match d.state {
          case CONNECTING => HalfClosesPending(d, onDrained);
          case HALF_CLOSE => HalfClosedActs(d, onDrained);
          case FULL_CLOSE => ClosedActs(d, onDrained);
        }
      }
  }

  ghost predicate SomeShutsEarly(c: Conn, events: seq<Event>)
    requires PossibleRun(c, events)
    decreases |events|
  {
    events != [] && (ShutsEarly(c, events[0]) || SomeShutsEarly(Handle(c, events[0]), events[1..]))
  }

  /** Over every run: the write side is shut down only with an empty buffer, unless and only unless some drain
      callback sends and then half-closes. */
  lemma {:induction false} HalfCloseDrains(c: Conn, events: seq<Event>)
    requires Ok(c) && PossibleRun(c, events)
    ensures Run(c, events).early <==> c.early || SomeShutsEarly(c, events)
    decreases |events|
  {
    if events != [] {
      HandleKeeps(c, events[0]);
      EarlyExactly(c, events[0]);
      HalfCloseDrains(Handle(c, events[0]), events[1..]);
    }
  }

  /** A drain callback that sends and then half-closes cuts its own message off. */
  lemma DrainCallbackCutsOff()
    ensures var c := DoSend(NewConn([]), "a");
            var d := Handle(c, Writable(Count(1), [Send("b"), HalfClose]));
            && d.early && d.pending == "b" && d.written == "a" && d.shutWr == 1
  {
    var c := DoSend(NewConn([]), "a").(writeOn := false, written := "a", pending := []);
    var acts := [Send("b"), HalfClose];
    assert acts[1..] == [HalfClose] && acts[1..][1..] == [];
    assert DoActs(c, acts) == DoActs(DoAct(c, acts[0]), acts[1..]);
    assert DoActs(DoAct(c, acts[0]), acts[1..]) == DoActs(DoAct(DoAct(c, acts[0]), HalfClose), []);
    assert [] + "a" == "a" && "a"[..1] == "a" && "a"[1..] == [];
    assert Written(DoSend(NewConn([]), "a"), 1).(writeOn := false) == c;
  }

  /** What a half-closed connection owes: the write side is shut down as soon as nothing is pending. */
  ghost predicate ShutWhenDrained(c: Conn) {
    c.state == HALF_CLOSE ==> if c.pending == [] then c.shutWr >= 1 else c.shutWr == 0 || c.early
  }

  lemma {:induction false} ActsShut(c: Conn, acts: seq<Act>)
    requires InterestExact(c) && ShutWhenDrained(c) && (c.state == CONNECTING ==> c.shutWr == 0)
    requires forall a :: a in acts ==> ActNonEmpty(a)
    ensures var d := DoActs(c, acts);
            ShutWhenDrained(d) && (d.state == CONNECTING ==> d.shutWr == 0)
    decreases |acts|
  {
    if acts != [] && !c.failed {
      assert ActNonEmpty(acts[0]);
      ActsShut(DoAct(c, acts[0]), acts[1..]);
    }
  }

  lemma HandleShut(c: Conn, e: Event)
    requires Ok(c) && InterestExact(c) && ShutWhenDrained(c) && (c.state == CONNECTING ==> c.shutWr == 0)
    requires Possible(c, e) && NonEmptySends(e)
    ensures var d := Handle(c, e);
            d.failed || (ShutWhenDrained(d) && (d.state == CONNECTING ==> d.shutWr == 0))
  {
    match e
    case User(act) =>
    case Readable(got, onMessage) =>
      if got.Received? && onMessage.Some? { ActsShut(c.(unread := c.unread + got.text), onMessage.value); }
    case Writable(took, onDrained) =>
      if c.pending != [] && took.Count? && 0 < took.n && Written(c, took.n).pending == [] {
        DrainShut(Written(c, took.n).(writeOn := false), onDrained);
      }
  }

  lemma DrainShut(c: Conn, acts: seq<Act>)
    requires !c.failed && c.pending == [] && !c.writeOn && (c.state == CONNECTING ==> c.shutWr == 0)
    requires forall a :: a in acts ==> ActNonEmpty(a)
    ensures var d := AfterDrain(DoActs(c, acts));
            d.failed || (ShutWhenDrained(d) && (d.state == CONNECTING ==> d.shutWr == 0))
  {
    if c.state == HALF_CLOSE {
      HalfClosedActs(c, acts);
    } else {
      ActsShut(c, acts);
    }
  }

  lemma NothingAfterFailure(c: Conn, events: seq<Event>)
    requires c.failed && PossibleRun(c, events)
    ensures Run(c, events) == c
  {
  }

  /** Over every run without empty messages: a half-closed connection has its write side shut down as soon as, and,
      but for the case above, not before, its buffer is empty. */
  lemma {:induction false} RunShut(c: Conn, events: seq<Event>)
    requires Ok(c) && InterestExact(c) && ShutWhenDrained(c) && (c.state == CONNECTING ==> c.shutWr == 0)
    requires PossibleRun(c, events) && forall i :: 0 <= i < |events| ==> NonEmptySends(events[i])
    ensures var d := Run(c, events); d.failed || ShutWhenDrained(d)
    decreases |events|
  {
    if events != [] {
      var d := Handle(c, events[0]);
      HandleKeeps(c, events[0]);
      HandleInterest(c, events[0]);
      HandleShut(c, events[0]);
      if d.failed {
        NothingAfterFailure(d, events[1..]);
      } else {
        RunShut(d, events[1..]);
      }
    }
  }

  /** A connection starts its life, after its open callback, with all these invariants. */
  lemma OpenKeeps(onOpen: seq<Act>, onClose: seq<Act>)
    ensures var c := Open(onOpen, onClose);
            && Ok(c) && !c.early
            && ((forall a :: a in onOpen ==> ActNonEmpty(a)) ==>
                  InterestExact(c) && ShutWhenDrained(c) && (c.state == CONNECTING ==> c.shutWr == 0))
  {
    var c := NewConn(onClose);
    ActsKeep(c, onOpen);
    ActsNotEarly(c, onOpen);
    if forall a :: a in onOpen ==> ActNonEmpty(a) {
      ActsInterest(c, onOpen);
      ActsShut(c, onOpen);
    }
  }

  // ----- a full close cannot be repeated

  /** Reading on a connection that is already fully closed, as after a `shutdown` the socket keeps reporting the end
      of the stream, throws instead of asking for a second removal. */
  lemma FullCloseOnce(c: Conn, e: Event)
    requires Ok(c) && Possible(c, e) && c.state == FULL_CLOSE
    ensures Handle(c, e).removals == if c.onClose == [] then 1 else 0
    ensures e.Readable? ==> (Handle(c, e).failed <==>
              (e.got == Received([]) || e.got == ReadBroken ||
               (e.got.Received? && e.onMessage.Some? && e.onMessage.value != [])))
  {
    HandleKeeps(c, e);
    match e
    case User(act) =>
    case Readable(got, onMessage) =>
      if got.Received? && got.text != [] && onMessage.Some? && onMessage.value != [] {
        var d, acts := c.(unread := c.unread + got.text), onMessage.value;
        ClosedActs(d, acts);
        ClosedActFails(d, acts[0]);
        assert DoActs(DoAct(d, acts[0]), acts[1..]) == DoAct(d, acts[0]);
      }
    case Writable(took, onDrained) =>
      if took.Count? && c.pending != [] && 0 < took.n && Written(c, took.n).pending == [] {
        ClosedActs(Written(c, took.n).(writeOn := false), onDrained);
      }
  }

  /** A close callback that touches its connection throws, and the connection is never given back. */
  lemma CloseCallbackLeaks(onClose: seq<Act>)
    requires onClose != []
    ensures var c := Handle(NewConn(onClose), Readable(Received([]), None));
            c.failed && c.state == FULL_CLOSE && c.removals == 0 && c == DoActs(c.(failed := false), onClose)
  {
    var d := NewConn(onClose).(state := FULL_CLOSE);
    ClosedActFails(d, onClose[0]);
    assert DoActs(d, onClose) == DoActs(Fail(d), onClose[1..]) == Fail(d);
  }
}
