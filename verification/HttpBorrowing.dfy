/** Parameters without a `=` of their own.  Such a parameter borrows the key length and the value of an earlier
    `=`, and its key can then be copied from behind the byte at hand: the only way in which a parse depends on how
    the bytes were cut into calls. */
module HttpBorrowing {
  import opened HttpTypes
  import opened HttpAutomaton
  import opened HttpSegments
  import opened HttpChunking
  import opened HttpGrammar
  import opened HttpMessages

  /** Within the target, a `=`, then a `?`, then the end of a parameter, without another `=` or a `&` in between. */
  ghost predicate BorrowsEquals(s: string) {
    exists b: nat, e: nat, f: nat, i: nat :: b < e < f < i < |s| && BorrowAt(s, b, e, f, i)
  }

  predicate BorrowAt(s: string, b: nat, e: nat, f: nat, i: nat)
    requires b < e < f < i < |s|
  {
    && s[b] == ' ' && s[e] == '=' && s[f] == '?' && (s[i] == '&' || s[i] == ' ')
    && (forall j :: 0 <= j < i && j != b ==> s[j] != ' ')
    && (forall j :: e < j < i ==> s[j] != '=' && s[j] != '&')
  }

  /** The place of the first copy from ahead. */
  lemma {:induction false} CopyPoint(p: Parser, s: string) returns (n: nat)
    requires CopiesAhead(p, s)
    ensures n < |s| && Run(p, s[..n]).Live() && CopyAt(Run(p, s[..n]), s[n], |s| - n - 1)
    decreases |s|
  {
    hide Step, CopyAt;
    if CopyAt(p, s[0], |s| - 1) {
      n := 0;
    } else {
      var m := CopyPoint(Step(p, s[0]), s[1..]);
      n := m + 1;
      assert s[..n] == [s[0]] + s[1..][..m];
      assert s[..n][1..] == s[1..][..m];
    }
  }

  /** Bytes that each come alone. */
  function Alone(n: nat): (A: seq<string>)
    ensures |A| == n && Nothing(A)
  {
    seq(n, _ => [])
  }

  lemma RunIsFeed(p: Parser, s: string)
    ensures Run(p, s) == Feed(p, s, Alone(|s|))
    decreases |s|
  {
    if s != [] && p.Live() {
      RunIsFeed(Step(p, s[0]), s[1..]);
      assert Alone(|s|)[1..] == Alone(|s| - 1);
    }
  }

  lemma BlankLeaves(p: Parser, ahead: string)
    requires p.Live() && p.state.StUrl?
    ensures var q := StepAhead(p, ' ', ahead); q.Live() ==> q.state == NEW_VERSION
  {
  }

  /** A parser that is still in the target has read no blank there. */
  lemma StillInTarget(p: Parser, t: string, A: seq<string>)
    requires AtTarget(p) && |A| == |t| && Feed(p, t, A).Live() && Feed(p, t, A).state.StUrl?
    ensures ' ' !in t
  {
    hide Feed, StepAhead;
    var n := WordSpan(t);
    assert t[..|t|] == t;
    if n < |t| {
      var q := Feed(p, t[..n], A[..n]);
      FeedCut(p, t, n, A);
      if !q.Live() { FeedDead(q, t[n..], A[n..]); }
      UrlKeeps(p, t[..n], A[..n]);
      FeedUnfold(q, t[n..], A[n..]);
      var r := StepAhead(q, ' ', A[n]);
      BlankLeaves(q, A[n]);
      if !r.Live() { FeedDead(r, t[n..][1..], A[n..][1..]); }
      FeedBehindTarget(r, t[n..][1..], A[n..][1..]);
      assert false;
    }
  }

  /** Without a borrowed `=` the parser copies nothing from ahead, so by HttpChunking.ChunkingExactly every way to
      cut the bytes into calls gives the same result. */
  lemma CopyNeedsBorrow(v0: Version, c0: int, s: string)
    requires CopiesAhead(Init(true, v0, c0), s)
    ensures BorrowsEquals(s)
  {
    hide Feed, Run, Step, StepAhead, CopiesAhead, UrlInv;
    var p := Init(true, v0, c0);
    var n := CopyPoint(p, s);
    var a, A := s[..n], Alone(n);
    RunIsFeed(p, a);
    var me := MethodSound(p, a, A);
    var d := RequestParts(me, [], V1_1, [], [], []);
    var m := d.ToTarget();
    assert a[..|m|] == m;
    BeforeTarget(v0, c0, d, A[..|m|]);
    FeedCut(p, a, |m|, A);
    var q, t, B := Feed(p, m, A[..|m|]), a[|m|..], A[|m|..];
    StillInTarget(q, t, B);
    UrlStart(q, true);
    UrlStays(q, |m|, true, t, B);
    var r := Feed(q, t, B);
    SeenGrows(q, t, B);
    assert r.seen == a;
    BorrowSeen(s, me, r, n);
  }

  lemma BorrowSeen(s: string, me: Method, r: Parser, n: nat)
    requires n < |s| && CopyAt(r, s[n], |s| - n - 1) && r.seen == s[..n]
    requires var m := MethodStr(me) + " "; m <= s[..n] && UrlInv(r, |m|, true)
    ensures BorrowsEquals(s)
  {
    hide EntriesOk;
    var u, b := r.state.url, |MethodStr(me)|;
    assert forall j :: 0 <= j < n ==> s[j] == r.seen[j];
    assert forall j :: 0 <= j <= b ==> s[j] == (MethodStr(me) + " ")[j];
    assert s[b] == ' ';
    assert BorrowAt(s, b, u.valOff - 1, u.keyOff - 1, n);
  }

  /** Chunking: cut into calls in whatever way, a response, and a request whose parameters all have a `=` of their
      own or whose path has none, leaves the parser as one call does. */
  lemma ChunkingInvariance(isRequest: bool, v0: Version, c0: int, chunks: seq<string>)
    requires isRequest ==> !BorrowsEquals(Concat(chunks))
    ensures CallAll(Init(isRequest, v0, c0), chunks) == Call(Init(isRequest, v0, c0), Concat(chunks))
  {
    hide CallAll, CopiesAhead, BorrowsEquals, Feed, Run;
    var p, s := Init(isRequest, v0, c0), Concat(chunks);
    if CopiesAhead(p, s) {
      CopyShows(p, s);
      if isRequest { CopyNeedsBorrow(v0, c0, s); } else { FeedBehindTarget(p, s, Suffixes(s)); }
      assert false;
    }
    ChunkingExactly(p, s);
  }

  // ----- what a borrowed key looks like

  /** A target with one parameter, which has no `=` of its own. */
  function BorrowTarget(a: string, b: string, c: string): string { a + "=" + b + "?" + c }

  /** The path up to a `=`. */
  lemma BorrowHead(p: Parser, a: string)
    requires AtTarget(p) && a != [] && Plain(a)
    ensures var n := |p.seen| + |a| + 1;
            Run(p, a + "=") == p.(seen := p.seen + (a + "="), path := Pos(|p.seen|, p.path.len),
                                  state := StUrl(UrlMatch(|a| + 1, -1, n, n, false)))
  {
    hide Run, StepAhead, Plain;
    var q := Step(p, a[0]);
    RunCons(p, a);
    PlainParts(a);
    UrlByte(p, a[0], []);
    PlainSeg(q, a[1..]);
    assert q.seen + a[1..] == p.seen + a;
    RunSnoc(p, a, '=');
    UrlByte(Run(p, a), '=', []);
    AppendAssoc(p.seen, a, "=");
  }

  /** Up to the blank the registers say: a key of the length of everything up to the `=`, and a value that starts
      behind it. */
  lemma BorrowSeg(p: Parser, a: string, b: string, c: string)
    requires AtTarget(p) && a != [] && Plain(a) && Plain(b) && Plain(c)
    ensures var t, n := BorrowTarget(a, b, c), |p.seen| + |a| + 1;
            Run(p, t) == p.(seen := p.seen + t, path := Pos(|p.seen|, |a| + 1 + |b|),
                            state := StUrl(UrlMatch(|t|, n + |b| + 1, n, n, true)))
  {
    hide Run, StepAhead, Plain;
    BorrowHead(p, a);
    var q := Run(p, a + "=");
    PlainSeg(q, b);
    var r := Run(q, b);
    RunSnoc(q, b, '?');
    UrlByte(r, '?', []);
    PlainSeg(Run(q, b + "?"), c);
    RunConcat(q, b + "?", c);
    RunConcat(p, a + "=", b + "?" + c);
    assert a + "=" + (b + "?" + c) == BorrowTarget(a, b, c);
    assert r.seen + ['?'] + c == p.seen + BorrowTarget(a, b, c);
  }

  lemma PlainParts(a: string)
    requires a != [] && Plain(a)
    ensures Plain(a[1..]) && a[0] != '?' && a[0] != '=' && a[0] != '&' && a[0] != ' '
  {
    assert a[0] in a;
  }

  lemma BlankRecords(p: Parser, ahead: string)
    requires p.Live() && p.state.StUrl? && p.state.url.hasQuery
    requires var u := p.state.url; u.keyOff >= 0 && u.keyLen >= 0 && u.valOff >= 0
    ensures var u, seen := p.state.url, p.seen + [' '];
            var key := Pos(u.keyOff, u.keyLen);
            if InBounds(key, |seen| + |ahead|) then
              StepAhead(p, ' ', ahead) ==
              p.(seen := seen, state := NEW_VERSION,
                 query := p.query[Slice(seen + ahead, key) := Pos(u.valOff, |p.seen| - u.valOff)])
            else StepAhead(p, ' ', ahead).fault.Overread?
  {
  }

  lemma BorrowedKey(seen: string, head: string, c: string, ahead: string, n: nat)
    requires seen == head + c + " " && n <= |c| + 1 + |ahead|
    ensures Slice(seen + ahead, Pos(|head|, n)) == (c + " " + ahead)[..n]
  {
    assert seen + ahead == head + (c + " " + ahead);
  }

  /** The blank: the key is copied from the target, the blank and what lies behind, if that is long enough. */
  lemma BorrowEnd(p: Parser, a: string, b: string, c: string, ahead: string)
    requires AtTarget(p) && a != [] && Plain(a) && Plain(b) && Plain(c)
    ensures var t, n := BorrowTarget(a, b, c), |p.seen| + |a| + 1;
            var q := StepAhead(Run(p, t), ' ', ahead);
            if n <= |c| + 1 + |ahead| then
              q == p.(seen := p.seen + (t + " "), state := NEW_VERSION, path := Pos(|p.seen|, |a| + 1 + |b|),
                      query := map[(c + " " + ahead)[..n] := Pos(n, |b| + 1 + |c|)])
            else q.fault.Overread?
  {
    hide Run, StepAhead, Plain, Slice;
    BorrowSeg(p, a, b, c);
    var t, n := BorrowTarget(a, b, c), |p.seen| + |a| + 1;
    BlankRecords(Run(p, t), ahead);
    assert p.seen + t + [' '] == p.seen + (t + " ");
    var head := p.seen + (a + "=" + b + "?");
    assert p.seen + (t + " ") == head + c + " ";
    if n <= |c| + 1 + |ahead| {
      BorrowedKey(p.seen + (t + " "), head, c, ahead, n);
    }
  }

  /** A whole request with such a target: it is read with the borrowed key, or goes astray, according to what lies
      behind the blank that ends the target. */
  lemma BorrowRead(v0: Version, c0: int, d: RequestParts, A: seq<string>, a: string, b: string, c: string)
    requires d.Ok() && |A| == |d.Text()| && d.target == BorrowTarget(a, b, c)
    requires a != [] && Plain(a) && Plain(b) && Plain(c)
    ensures |d.ToVersion()| <= |A|
    ensures var p := Feed(Init(true, v0, c0), d.Text(), A);
            var ahead, n := A[|d.ToVersion()| - 1], |d.ToTarget()| + |a| + 1;
            if n <= |c| + 1 + |ahead| then
              && ReadsRequest(p, AfterTarget(v0, c0, d, A), d)
              && p.path == Pos(|d.ToTarget()|, |a| + 1 + |b|)
              && p.query == map[(c + " " + ahead)[..n] := Pos(n, |b| + 1 + |c|)]
            else p.fault.Overread?
  {
    hide Run, Step, StepAhead, Feed, Plain, LineOk, KeyChars, MethodStr, BorrowTarget;
    TextSplit(d);
    var p, m, k := Init(true, v0, c0), d.ToTarget(), |d.ToVersion()|;
    assert k - 1 == |m| + |d.target|;
    BeforeTarget(v0, c0, d, A[..|m|]);
    var q := Run(p, m);
    BorrowSeg(q, a, b, c);
    FeedIsRun(q, d.target, A[|m|..k - 1]);
    FeedSnoc(q, d.target, ' ', A[|m|..k - 1], A[k - 1]);
    FeedConcat(p, m, d.target + " ", A[..|m|], A[|m|..k - 1] + [A[k - 1]]);
    assert A[..|m|] + (A[|m|..k - 1] + [A[k - 1]]) == A[..k];
    BorrowEnd(q, a, b, c, A[k - 1]);
    if |m| + |a| + 1 <= |c| + 1 + |A[k - 1]| {
      FromVersion(v0, c0, d, A);
    } else {
      FeedCut(p, d.Text(), k, A);
      assert d.Text()[..k] == d.ToVersion();
      FeedDead(AfterTarget(v0, c0, d, A), d.Text()[k..], A[k..]);
    }
  }

  const FLAG_HEAD := "GET /a=b?flag "
  const FLAG_REST := "HTTP/1.1\r\nHost: h\r\n\r\n"

  function FlagParts(): RequestParts {
    RequestParts(GET, BorrowTarget("/a", "b", "flag"), V1_1, [Line("Host", 1, "h")], "", "")
  }

  lemma FlagOk()
    ensures FlagParts().Ok()
  {
    hide Stoi, Blanks;
    var d := FlagParts();
    assert LineOk(d.lines[0]);
  }

  lemma FlagTail()
    ensures TailText([Line("Host", 1, "h")], "", "") == "Host: h\r\n\r\n"
  {
    var h := Line("Host", 1, "h");
    assert Blanks(1) == " ";
    assert LinesText([h]) == LineText(h) + LinesText([]) == "Host: h\r\n";
  }

  lemma FlagText()
    ensures FlagParts().Text() == FLAG_HEAD + FLAG_REST && FlagParts().ToVersion() == FLAG_HEAD
  {
    hide LinesText, TailText;
    var d := FlagParts();
    FlagTail();
    TextSplit(d);
    assert VersionStr(V1_1) + CRLF + "Host: h\r\n\r\n" == FLAG_REST;
  }

  lemma FlagRead(v0: Version, c0: int, A: seq<string>)
    requires |A| == |FLAG_HEAD + FLAG_REST|
    ensures var p := Feed(Init(true, v0, c0), FLAG_HEAD + FLAG_REST, A);
            && (A[13] == FLAG_REST ==>
                  && p.Live() && p.Completed() && p.seen == FLAG_HEAD + FLAG_REST
                  && p.query == map["flag HT" := Pos(7, 6)])
            && (A[13] == [] ==> p.fault.Overread?)
  {
    hide Feed, Stoi, LinesText, HeaderTable, TailText, RequestParts.Text, RequestParts.Ok;
    var d := FlagParts();
    FlagOk();
    FlagText();
    BorrowRead(v0, c0, d, A, "/a", "b", "flag");
    assert FinalLength(d.lines, 0) == FinalLength([], 0);
    assert ("flag" + " " + FLAG_REST)[..7] == "flag HT";
  }

  /** The cut matters: in one call this request completes, and the parameter `flag` is handed out as `flag HT` with
      the value `b?flag`.  Cut behind the second blank, the copy leaves the first chunk. */
  lemma CutMatters(v0: Version, c0: int)
    ensures var p := Init(true, v0, c0);
            var q := Call(p, FLAG_HEAD + FLAG_REST);
            && q.Live() && q.Completed()
            && q.query == map["flag HT" := Pos(7, 6)]
            && q.seen == FLAG_HEAD + FLAG_REST && Slice(q.seen, Pos(7, 6)) == "b?flag"
            && CallAll(p, [FLAG_HEAD, FLAG_REST]).fault.Overread?
  {
    hide Feed;
    var s, chunks := FLAG_HEAD + FLAG_REST, [FLAG_HEAD, FLAG_REST];
    assert Suffixes(s)[13] == FLAG_REST;
    FlagRead(v0, c0, Suffixes(s));
    CallsAreFeed(Init(true, v0, c0), chunks);
    assert chunks[1..] == [FLAG_REST] && Concat([FLAG_REST]) == FLAG_REST;
    assert Aheads(chunks)[13] == Suffixes(FLAG_HEAD)[13] == [];
    FlagRead(v0, c0, Aheads(chunks));
  }
}
