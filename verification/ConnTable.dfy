/** The connection table of the server: descriptors come from the kernel, connections are created and removed by
    callbacks queued on the main loop, and closing one goes through the loop of the connection first. */
module ConnTable {

  type Fd = nat

  const MAX_CONN_NUM := 20_000

  datatype ConnPhase = Live | FullyClosed

  /** `open` are the descriptors the kernel holds open for the server; `creating` the queued create callbacks;
      `leaving` the removal callbacks still on the loops of their connections; `removing` those that have reached the
      main loop. */
  datatype Server = Server(
    open: set<Fd>, connMap: map<Fd, ConnPhase>, creating: seq<Fd>, leaving: seq<Fd>, removing: seq<Fd>)

  const NEW_SERVER := Server({}, map[], [], [], [])

  datatype Step =
    | Accept(fd: Fd)
    | Create
    | FullClose(fd: Fd)
    | Forward(i: nat)
    | Remove

  /** The kernel hands out only descriptors that are closed; the other steps need their callback to be queued. */
  predicate Enabled(s: Server, step: Step) {
    match step
    case Accept(fd) => fd !in s.open
    case Create => s.creating != []
    case FullClose(fd) => fd in s.connMap && s.connMap[fd].Live?
    case Forward(i) => i < |s.leaving|
    case Remove => s.removing != []
  }

  /** What the code itself relies on: create_conn asserts that the key is new, remove_conn uses what it finds. */
  predicate Expected(s: Server, step: Step)
    requires Enabled(s, step)
  {
    match step
    case Create => s.creating[0] !in s.connMap
    case Remove => s.removing[0] in s.connMap
    case _ => true
  }

  function Do(s: Server, step: Step): Server
    requires Enabled(s, step)
  {
    match step
    case Accept(fd) => s.(open := s.open + {fd}, creating := s.creating + [fd])
    case Create =>
      var fd := s.creating[0];
      var t := s.(creating := s.creating[1..]);
      if |s.connMap| >= MAX_CONN_NUM then t.(open := s.open - {fd})
      else t.(connMap := s.connMap[fd := Live])
    case FullClose(fd) => s.(connMap := s.connMap[fd := FullyClosed], leaving := s.leaving + [fd])
    case Forward(i) =>
      s.(leaving := s.leaving[..i] + s.leaving[i + 1..], removing := s.removing + [s.leaving[i]])
    case Remove =>
      var fd := s.removing[0];
      s.(removing := s.removing[1..], connMap := s.connMap - {fd}, open := s.open - {fd})
  }

  predicate LegalRun(s: Server, steps: seq<Step>)
    decreases |steps|
  {
    steps == [] || (Enabled(s, steps[0]) && LegalRun(Do(s, steps[0]), steps[1..]))
  }

  function Run(s: Server, steps: seq<Step>): Server
    requires LegalRun(s, steps)
    decreases |steps|
  {
    if steps == [] then s else Run(Do(s, steps[0]), steps[1..])
  }

  // ----- the invariant

  ghost predicate Once(q: seq<Fd>) {
    forall fd :: multiset(q)[fd] <= 1
  }

  /** Every open descriptor waits to become a connection or is one; every fully closed connection, and no other,
      has exactly one removal under way. */
  ghost predicate Ok(s: Server) {
    && |s.connMap| <= MAX_CONN_NUM
    && Once(s.creating)
    && (forall fd :: fd in s.open <==> fd in s.creating || fd in s.connMap)
    && (forall fd :: fd in s.creating ==> fd !in s.connMap)
    && (forall fd :: multiset(s.leaving)[fd] + multiset(s.removing)[fd] ==
                     if fd in s.connMap && s.connMap[fd].FullyClosed? then 1 else 0)
  }

  lemma AcceptKeeps(s: Server, fd: Fd)
    requires Ok(s) && fd !in s.open
    ensures Ok(Do(s, Accept(fd)))
  {
    assert fd !in s.creating;
  }

  lemma FrontOf(q: seq<Fd>)
    requires q != []
    ensures forall fd :: multiset(q)[fd] == multiset(q[1..])[fd] + if fd == q[0] then 1 else 0
    ensures forall fd :: fd in q <==> fd == q[0] || fd in q[1..]
  {
    assert q == [q[0]] + q[1..];
  }

  lemma CreateKeeps(s: Server)
    requires Ok(s) && s.creating != []
    ensures Ok(Do(s, Create))
  {
    var fd, rest := s.creating[0], s.creating[1..];
    FrontOf(s.creating);
    assert fd !in rest by {
      assert multiset(s.creating)[fd] <= 1;
      assert multiset(rest)[fd] == 0;
    }
    assert fd in s.creating;
    assert |s.connMap[fd := Live]| == |s.connMap| + 1;
  }

  lemma FullCloseKeeps(s: Server, fd: Fd)
    requires Ok(s) && Enabled(s, FullClose(fd))
    ensures Ok(Do(s, FullClose(fd)))
  {
    assert s.connMap[fd := FullyClosed].Keys == s.connMap.Keys;
    assert |s.connMap[fd := FullyClosed]| == |s.connMap|;
  }

  lemma ForwardKeeps(s: Server, i: nat)
    requires Ok(s) && i < |s.leaving|
    ensures Ok(Do(s, Forward(i)))
  {
    var rest := s.leaving[..i] + s.leaving[i + 1..];
    assert s.leaving == s.leaving[..i] + [s.leaving[i]] + s.leaving[i + 1..];
    assert multiset(s.leaving) == multiset(rest) + multiset{s.leaving[i]};
  }

  lemma RemovalsAreClosed(s: Server, fd: Fd)
    requires Ok(s) && (fd in s.leaving || fd in s.removing)
    ensures fd in s.connMap && s.connMap[fd].FullyClosed?
    ensures multiset(s.leaving)[fd] + multiset(s.removing)[fd] == 1
  {
    assert multiset(s.leaving)[fd] > 0 || multiset(s.removing)[fd] > 0;
  }

  lemma RemoveKeeps(s: Server)
    requires Ok(s) && s.removing != []
    ensures Ok(Do(s, Remove))
  {
    var fd := s.removing[0];
    RemovalsAreClosed(s, fd);
    FrontOf(s.removing);
    assert |s.connMap - {fd}| <= |s.connMap| by {
      assert s.connMap.Keys == (s.connMap - {fd}).Keys + {fd};
    }
  }

  lemma StepKeeps(s: Server, step: Step)
    requires Ok(s) && Enabled(s, step)
    ensures Expected(s, step) && Ok(Do(s, step))
  {
    match step
    case Accept(fd) => AcceptKeeps(s, fd);
    case Create => CreateKeeps(s);
    case FullClose(fd) => FullCloseKeeps(s, fd);
    case Forward(i) => ForwardKeeps(s, i);
    case Remove => RemoveKeeps(s); RemovalsAreClosed(s, s.removing[0]);
  }

  predicate AllExpected(s: Server, steps: seq<Step>)
    requires LegalRun(s, steps)
    decreases |steps|
  {
    steps == [] || (Expected(s, steps[0]) && AllExpected(Do(s, steps[0]), steps[1..]))
  }

  lemma {:induction false} RunKeeps(s: Server, steps: seq<Step>)
    requires Ok(s) && LegalRun(s, steps)
    ensures Ok(Run(s, steps)) && AllExpected(s, steps)
    decreases |steps|
  {
    hide Ok, Do, Enabled, Expected;
    if steps != [] {
      StepKeeps(s, steps[0]);
      RunKeeps(Do(s, steps[0]), steps[1..]);
    }
  }

  /** Under every interleaving of accepts, creations, closes and removals: the table never exceeds its limit, a create
      callback never meets its own key, a removal always finds its entry, each closed connection has one removal under
      way, and no descriptor is lost. */
  lemma TableIsSafe(steps: seq<Step>)
    requires LegalRun(NEW_SERVER, steps)
    ensures var s := Run(NEW_SERVER, steps);
            && AllExpected(NEW_SERVER, steps)
            && |s.connMap| <= 20_000
            && (forall fd :: fd in s.open <==> fd in s.creating || fd in s.connMap)
            && (forall fd :: fd in s.connMap && s.connMap[fd].FullyClosed? ==>
                  multiset(s.leaving)[fd] + multiset(s.removing)[fd] == 1)
  {
    assert Ok(NEW_SERVER);
    RunKeeps(NEW_SERVER, steps);
  }

  // ----- who is served, told from the steps

  /** The descriptors accepted so far, in order. */
  function Accepted(steps: seq<Step>): seq<Fd> {
    if steps == [] then []
    else
      match steps[0]
      case Accept(fd) => [fd] + Accepted(steps[1..])
      case _ => Accepted(steps[1..])
  }

  function Creates(steps: seq<Step>): nat {
    if steps == [] then 0 else (if steps[0].Create? then 1 else 0) + Creates(steps[1..])
  }

  lemma CreatingStep(s: Server, step: Step)
    requires Enabled(s, step)
    ensures Do(s, step).creating ==
            match step
            case Accept(fd) => s.creating + [fd]
            case Create => s.creating[1..]
            case _ => s.creating
    ensures step.Create? ==> s.creating == [s.creating[0]] + Do(s, step).creating
    ensures [] + s.creating == s.creating
  {
  }

  /** The create callbacks that have run and those still queued are the accepted descriptors, in order. */
  lemma {:induction false} CreatingIs(s: Server, steps: seq<Step>) returns (served: seq<Fd>)
    requires LegalRun(s, steps)
    ensures |served| == Creates(steps) && served + Run(s, steps).creating == s.creating + Accepted(steps)
    decreases |steps|
  {
    if steps == [] {
      served := [];
      assert [] + s.creating == s.creating + [];
    } else {
      var step, rest := steps[0], Accepted(steps[1..]);
      CreatingStep(s, step);
      var first := if step.Create? then [s.creating[0]] else [];
      hide Do, Enabled;
      var more := CreatingIs(Do(s, step), steps[1..]);
      served := first + more;
      Join(first, more, Run(s, steps).creating);
      Join(first, Do(s, step).creating, rest);
      if step.Accept? { Join(s.creating, [step.fd], rest); }
    }
  }

  lemma Join(a: seq<Fd>, b: seq<Fd>, c: seq<Fd>)
    ensures a + b + c == a + (b + c)
  {
  }

  lemma {:induction false} RunSnoc(s: Server, steps: seq<Step>, step: Step)
    requires LegalRun(s, steps) && Enabled(Run(s, steps), step)
    ensures LegalRun(s, steps + [step]) && Run(s, steps + [step]) == Do(Run(s, steps), step)
    decreases |steps|
  {
    hide Do, Enabled;
    if steps == [] {
      assert [] + [step] == [step] && [step][1..] == [];
      assert LegalRun(Do(s, step), []) && Run(s, [step]) == Run(Do(s, step), []);
    } else {
      assert (steps + [step])[1..] == steps[1..] + [step];
      RunSnoc(Do(s, steps[0]), steps[1..], step);
    }
  }

  /** Connections are created in the order in which they were accepted: the next one gets its place in the table while
      fewer than 20000 are there, and is closed otherwise. */
  lemma NextIsServed(steps: seq<Step>)
    requires LegalRun(NEW_SERVER, steps) && Creates(steps) < |Accepted(steps)|
    ensures LegalRun(NEW_SERVER, steps + [Create])
    ensures var s, t, fd := Run(NEW_SERVER, steps), Run(NEW_SERVER, steps + [Create]), Accepted(steps)[Creates(steps)];
            if |s.connMap| < 20_000 then t.connMap == s.connMap[fd := Live] && t.open == s.open && fd in t.open
            else t.connMap == s.connMap && t.open == s.open - {fd}
  {
    hide Run, LegalRun;
    assert Ok(NEW_SERVER);
    RunKeeps(NEW_SERVER, steps);
    var served := CreatingIs(NEW_SERVER, steps);
    assert NEW_SERVER.creating + Accepted(steps) == Accepted(steps);
    var s := Run(NEW_SERVER, steps);
    assert (served + s.creating)[|served|] == s.creating[0];
    assert s.creating[0] in s.creating;
    RunSnoc(NEW_SERVER, steps, Create);
  }

  lemma StillLive(s: Server, fd: Fd, step: Step)
    requires Ok(s) && Enabled(s, step) && fd in s.connMap && s.connMap[fd].Live? && step != FullClose(fd)
    ensures fd in Do(s, step).connMap && Do(s, step).connMap[fd].Live?
  {
    if step.Remove? { RemovalsAreClosed(s, s.removing[0]); }
    if step.Create? { assert s.creating[0] in s.creating; }
  }

  /** A connection keeps its place until it is closed. */
  lemma {:induction false} StaysServed(s: Server, fd: Fd, steps: seq<Step>)
    requires Ok(s) && LegalRun(s, steps) && fd in s.connMap && s.connMap[fd].Live? && FullClose(fd) !in steps
    ensures var t := Run(s, steps); fd in t.connMap && t.connMap[fd].Live?
    decreases |steps|
  {
    hide Ok, Do, Enabled;
    if steps != [] {
      assert steps[0] in steps;
      StepKeeps(s, steps[0]);
      StillLive(s, fd, steps[0]);
      StaysServed(Do(s, steps[0]), fd, steps[1..]);
    }
  }
}
