/** Whole messages: soundness and completeness of the parser for requests and responses, and the text behind
    the recorded slices. */
module HttpMessages {
  import opened HttpTypes
  import opened HttpNumbers
  import opened HttpAutomaton
  import opened HttpSegments
  import opened HttpChunking
  import opened HttpGrammar

  // ----- from the first header line to the end

  /** The slice recorded for a body of `n` bytes that starts at `off`, when `Content-Length` is `n`:
      a body of one byte is recorded with length 0. */
  function BodySlice(off: nat, n: nat): Pos {
    if n == 0 then Pos(0, 0) else Pos(off, if n == 1 then 0 else n)
  }

  function TailText(hs: seq<Line>, junk: string, body: string): string {
    LinesText(hs) + (junk + CRLF) + body
  }

  lemma TailSeg(p: Parser, hs: seq<Line>, junk: string, body: string)
    requires p.Live() && AtLine(p.state) && (forall h :: h in hs ==> LineOk(h)) && KeyChars(junk)
    requires p.body == Pos(0, 0)
    ensures var q := Run(p, TailText(hs, junk, body));
            && q == p.(seen := p.seen + TailText(hs, junk, body), state := StBody(|body|),
                       totalLen := FinalLength(hs, p.totalLen),
                       header := HeaderTable(|p.seen|, hs, p.header), body := q.body)
            && (q.Completed() ==> q.body == BodySlice(|q.seen| - |body|, |body|))
  {
    hide Run, Step, LineOk, KeyChars;
    var q1 := Run(p, LinesText(hs));
    LinesSeg(p, hs);
    var q2 := Run(q1, junk + CRLF);
    BlankSeg(q1, junk);
    RunConcat(p, LinesText(hs), junk + CRLF);
    BodySeg(q2, body);
    RunConcat(p, LinesText(hs) + (junk + CRLF), body);
    assert q1.seen + junk + CRLF == p.seen + (LinesText(hs) + (junk + CRLF));
    AppendAssoc(p.seen, LinesText(hs) + (junk + CRLF), body);
  }

  // ----- the length of the body

  /** The value of the last line with key `k`. */
  function LastValue(hs: seq<Line>, k: string): Option<string> {
    if hs == [] then None
    else if LastValue(hs[1..], k).Some? then LastValue(hs[1..], k)
    else if hs[0].key == k then Some(hs[0].value)
    else None
  }

  lemma {:induction false} FinalLengthIs(hs: seq<Line>, n: int)
    requires forall h :: h in hs ==> LineOk(h)
    ensures FinalLength(hs, n) ==
            match LastValue(hs, CONTENT_LENGTH)
            case Some(v) => if Stoi(v).Some? then Stoi(v).value else n
            case None => n
    ensures LastValue(hs, CONTENT_LENGTH).Some? ==> Stoi(LastValue(hs, CONTENT_LENGTH).value).Some?
    decreases |hs|
  {
    hide Stoi, KeyChars, ValueOk;
    if hs != [] {
      assert LineOk(hs[0]);
      FinalLengthIs(hs[1..], LineLength(hs[0], n));
    }
  }

  /** What `Content-Length` says of a body of `n` bytes: the last one counts, and without one the body is empty. */
  ghost predicate Announces(hs: seq<Line>, n: nat) {
    match LastValue(hs, CONTENT_LENGTH)
    case Some(v) => Denotes(v, n)
    case None => n == 0
  }

  lemma AnnouncesExactly(hs: seq<Line>, n: nat)
    requires forall h :: h in hs ==> LineOk(h)
    ensures Announces(hs, n) <==> FinalLength(hs, 0) == n
  {
    hide Stoi, Denotes, LineOk;
    FinalLengthIs(hs, 0);
    var v := LastValue(hs, CONTENT_LENGTH);
    if v.Some? { DenotesExactly(v.value, n); }
  }

  // ----- requests

  /** The pieces of a request as the parser distinguishes them. */
  datatype RequestParts = RequestParts(
    verb: Method, target: string, version: Version, lines: seq<Line>, junk: string, body: string)
  {
    ghost predicate Ok() {
      && ' ' !in target && Printable(version)
      && (forall h :: h in lines ==> LineOk(h)) && KeyChars(junk)
    }

    function ToTarget(): string { MethodStr(verb) + " " }

    function ToVersion(): string { ToTarget() + (target + " ") }

    function StartLine(): string
      requires Printable(version)
    {
      ToVersion() + (VersionStr(version) + CRLF)
    }

    function Text(): string
      requires Printable(version)
    {
      StartLine() + TailText(lines, junk, body)
    }
  }

  /** The parser right after the blank that ends the target, when `A` says what lies behind each byte. */
  function AfterTarget(v0: Version, c0: int, d: RequestParts, A: seq<string>): Parser
    requires |d.ToVersion()| <= |A|
  {
    Feed(Init(true, v0, c0), d.ToVersion(), A[..|d.ToVersion()|])
  }

  /** What a parser knows at the end of the text of `d`, given what it knew after the target. */
  ghost predicate ReadsRequest(p: Parser, q: Parser, d: RequestParts)
    requires Printable(d.version)
  {
    && p.Live() && p.isRequest
    && p.seen == d.Text()
    && p.state == StBody(|d.body|)
    && p.verb == d.verb && p.version == d.version
    && p.path == q.path && p.query == q.query
    && p.header == HeaderTable(|d.StartLine()|, d.lines, map[])
    && p.totalLen == FinalLength(d.lines, 0)
    && (p.Completed() ==> p.body == BodySlice(|p.seen| - |d.body|, |d.body|))
  }

  /** The parser that is about to read the target. */
  lemma BeforeTarget(v0: Version, c0: int, d: RequestParts, A: seq<string>)
    requires |A| == |d.ToTarget()|
    ensures Feed(Init(true, v0, c0), d.ToTarget(), A) == Run(Init(true, v0, c0), d.ToTarget()) ==
            Init(true, v0, c0).(seen := d.ToTarget(), verb := d.verb, state := NEW_URL)
  {
    hide Run, Step, Feed;
    var p := Init(true, v0, c0);
    MethodSeg(p, d.verb);
    assert p.seen + d.ToTarget() == d.ToTarget();
    FeedIsRun(p, d.ToTarget(), A);
  }

  lemma TextSplit(d: RequestParts)
    requires Printable(d.version)
    ensures d.Text() == d.ToVersion() + ((VersionStr(d.version) + CRLF) + TailText(d.lines, d.junk, d.body))
  {
    hide VersionStr, LinesText;
    AppendAssoc(d.ToVersion(), VersionStr(d.version) + CRLF, TailText(d.lines, d.junk, d.body));
  }

  /** From the blank after the target to the end. */
  lemma FromVersion(v0: Version, c0: int, d: RequestParts, A: seq<string>)
    requires d.Ok() && |A| == |d.Text()| && |d.ToVersion()| <= |A|
    requires var q := AfterTarget(v0, c0, d, A);
             q == Init(true, v0, c0).(seen := d.ToVersion(), verb := d.verb, state := NEW_VERSION,
                                      path := q.path, query := q.query)
    ensures ReadsRequest(Feed(Init(true, v0, c0), d.Text(), A), AfterTarget(v0, c0, d, A), d)
  {
    hide Run, Step, Feed, LineOk, KeyChars, VersionStr, TailText;
    var p, q := Init(true, v0, c0), AfterTarget(v0, c0, d, A);
    var v, tail := VersionStr(d.version) + CRLF, TailText(d.lines, d.junk, d.body);
    var n := |d.ToVersion()|;
    TextSplit(d);
    assert A == A[..n] + A[n..];
    FeedConcat(p, d.ToVersion(), v + tail, A[..n], A[n..]);
    FeedBehindTarget(q, v + tail, A[n..]);
    RequestVersionSeg(q, d.version);
    RunConcat(q, v, tail);
    AppendAssoc(q.seen, VersionStr(d.version), CRLF);
    TailSeg(Run(q, v), d.lines, d.junk, d.body);
  }

  /** Completeness: pieces whose target is a path in which every hidden parameter has a key, and parameters with their
      own `=`, are read back, slice by slice and however they are cut into calls; the run is complete exactly when
      `Content-Length` says so. */
  lemma RequestComplete(v0: Version, c0: int, d: RequestParts, A: seq<string>, path: string, qs: seq<Pair>)
    requires d.Ok() && |A| == |d.Text()|
    requires TargetOk(|d.ToTarget()|, path, qs) && d.target == TargetText(path, qs)
    ensures var p := Feed(Init(true, v0, c0), d.Text(), A);
            && |d.ToVersion()| <= |A| && ReadsRequest(p, AfterTarget(v0, c0, d, A), d)
            && p.path == Pos(|d.ToTarget()|, |path|)
            && p.query == TargetTable(|d.ToTarget()|, path, qs)
            && (p.Completed() <==> FinalLength(d.lines, 0) == |d.body|)
            && (p.Completed() <==> Announces(d.lines, |d.body|))
  {
    hide Run, Step, Feed, LineOk, KeyChars, TargetOk, TargetTable, Announces;
    AnnouncesExactly(d.lines, |d.body|);
    var p, m := Init(true, v0, c0), d.ToTarget();
    TextSplit(d);
    BeforeTarget(v0, c0, d, A[..|m|]);
    TargetSeg(Run(p, m), path, qs);
    RunConcat(p, m, d.target + " ");
    AppendAssoc(m, d.target, " ");
    FeedIsRun(p, d.ToVersion(), A[..|d.ToVersion()|]);
    FromVersion(v0, c0, d, A);
  }

  /** What a completed run reads behind the target. */
  lemma BehindTarget(q: Parser, s: string) returns (d: RequestParts)
    requires q.Live() && q.isRequest && q.state == NEW_VERSION
    requires Run(q, s).Live() && Run(q, s).state.StBody?
    ensures d.Ok() && d.target == [] && s == (VersionStr(d.version) + CRLF) + TailText(d.lines, d.junk, d.body)
  {
    hide Run, Step, LineOk, KeyChars, VersionStr;
    var ve := VersionSound(q, s);
    var v := VersionStr(ve) + CRLF;
    var t := s[|v|..];
    assert s == v + t;
    RequestVersionSeg(q, ve);
    RunConcat(q, v, t);
    var hs, junk, body := HeaderSound(Run(q, v), t);
    d := RequestParts(GET, [], ve, hs, junk, body);
  }

  /** The parameters that a target hides, when the parser survives it. */
  lemma TargetFit(p: Parser, target: string, A: seq<string>)
    requires AtTarget(p) && |A| == |target| + 1 && ' ' !in target && Feed(p, target + " ", A).Live()
    ensures || HoldsAmp(Feed(p, target + " ", A).query)
            || forall j :: 0 <= j < |target| && target[j] == '&' ==> KeyFits(|p.seen|, target, j)
  {
    hide Feed, StepAhead, KeyFits, UrlRegs;
    var n := |target|;
    var q := Feed(p, target, A[..n]);
    assert A == A[..n] + [A[n]] && target[..n] == target && A[..n][..n] == A[..n];
    FeedConcat(p, target, " ", A[..n], [A[n]]);
    if !q.Live() { FeedDead(q, " ", [A[n]]); }
    HiddenFit(p, target, A[..n], n);
    FeedSnoc(p, target, ' ', A[..n], A[n]);
    UrlKeeps(p, target, A[..n]);
    UrlEndFields(q, A[n]);
    if HoldsAmp(q.query) {
      var k :| k in q.query && '&' in k;
      assert k in Feed(p, target + " ", A).query;
    }
  }

  /** Soundness: a completed request splits into pieces, and the tables hold exactly those pieces, whatever lies
      behind each byte. */
  lemma RequestSound(v0: Version, c0: int, s: string, A: seq<string>) returns (d: RequestParts)
    requires |A| == |s|
    requires Feed(Init(true, v0, c0), s, A).Live() && Feed(Init(true, v0, c0), s, A).Completed()
    ensures d.Ok() && d.Text() == s && |d.ToVersion()| <= |s|
    ensures var p, q := Feed(Init(true, v0, c0), s, A), AfterTarget(v0, c0, d, A);
            && ReadsRequest(p, q, d) && |d.body| == p.totalLen && q.seen == d.ToVersion()
            && Announces(d.lines, |d.body|)
            && UrlResult(q, |d.ToTarget()|, Nothing(A))
            && (HoldsAmp(p.query) ||
                forall j :: 0 <= j < |d.target| && d.target[j] == '&' ==> KeyFits(|d.ToTarget()|, d.target, j))
    ensures forall path, qs :: TargetOk(|d.ToTarget()|, path, qs) && d.target == TargetText(path, qs) ==>
              var p := Feed(Init(true, v0, c0), s, A);
              && p.path == Pos(|d.ToTarget()|, |path|)
              && p.query == TargetTable(|d.ToTarget()|, path, qs)
  {
    hide Run, Step, Feed, LineOk, KeyChars, UrlResult, TargetOk, VersionStr, MethodStr, KeyFits, HoldsAmp, TargetTable,
         Announces;
    var p := Init(true, v0, c0);
    var me := MethodSound(p, s, A);
    d := RequestParts(me, [], V1_1, [], [], []);
    var m := d.ToTarget();
    BeforeTarget(v0, c0, d, A[..|m|]);
    var s1, A1 := s[|m|..], A[|m|..];
    assert s[..|m|] == m;
    FeedCut(p, s, |m|, A);
    var q1 := Feed(p, m, A[..|m|]);
    var target := TargetSound(q1, s1, A1, Nothing(A));
    var n := |target| + 1;
    assert s1[..n] == target + " ";
    FeedCut(q1, s1, n, A1);
    var q2 := Feed(q1, target + " ", A1[..n]);
    FeedBehindTarget(q2, s1[n..], A1[n..]);
    d := BehindTarget(q2, s1[n..]);
    d := d.(verb := me, target := target);
    TextSplit(d);
    assert s == d.ToVersion() + s1[n..];
    assert A[..|m| + n] == A[..|m|] + A1[..n];
    FeedConcat(p, m, target + " ", A[..|m|], A1[..n]);
    assert q2.seen == d.ToVersion();
    FromVersion(v0, c0, d, A);
    TargetFit(q1, target, A1[..n]);
    AnnouncesExactly(d.lines, |d.body|);
    forall path, qs | TargetOk(|m|, path, qs) && d.target == TargetText(path, qs)
      ensures Feed(p, s, A).path == Pos(|m|, |path|)
      ensures Feed(p, s, A).query == TargetTable(|m|, path, qs)
    {
      RequestComplete(v0, c0, d, A, path, qs);
    }
  }

  // ----- the text behind the tables

  lemma {:induction false} LastValueFrom(hs: seq<Line>, k: string) returns (h: Line)
    requires LastValue(hs, k).Some?
    ensures h in hs && h.key == k && h.value == LastValue(hs, k).value
  {
    if LastValue(hs[1..], k).Some? {
      h := LastValueFrom(hs[1..], k);
    } else {
      h := hs[0];
    }
  }

  /** A slice inside a piece of text is that part of the piece. */
  lemma SliceInside(seen: string, off: nat, t: string, a: nat, v: string)
    requires off + |t| <= |seen| && seen[off..off + |t|] == t
    requires a + |v| <= |t| && t[a..a + |v|] == v
    ensures InBounds(Pos(off + a, |v|), |seen|) && Slice(seen, Pos(off + a, |v|)) == v
  {
    forall i | 0 <= i < |v| ensures seen[off + a + i] == v[i] {
      assert v[i] == t[a..a + |v|][i] == t[a + i] == seen[off..off + |t|][a + i];
    }
  }

  lemma ValueInLine(h: Line)
    ensures |h.key| + 1 + h.pad + |h.value| <= |LineText(h)|
    ensures LineText(h)[|h.key| + 1 + h.pad..|h.key| + 1 + h.pad + |h.value|] == h.value
  {
    assert LineText(h) == (h.key + ":" + Blanks(h.pad)) + (h.value + CRLF);
    SliceAt(h.key + ":" + Blanks(h.pad), h.value, CRLF);
  }

  /** Every key of the header table is the key of a line, and its slice is the value of the last such line. */
  lemma {:induction false} HeaderTexts(seen: string, off: nat, hs: seq<Line>, table: map<string, Pos>, k: string)
    requires off + |LinesText(hs)| <= |seen| && seen[off..off + |LinesText(hs)|] == LinesText(hs)
    ensures var t := HeaderTable(off, hs, table);
            match LastValue(hs, k)
            case Some(v) => k in t && InBounds(t[k], |seen|) && Slice(seen, t[k]) == v
            case None => (k in t <==> k in table) && (k in t ==> t[k] == table[k])
    decreases |hs|
  {
    if hs != [] {
      hide LineText, Slice;
      var h, n := hs[0], |LineText(hs[0])|;
      var next := table[h.key := Pos(off + |h.key| + 1 + h.pad, |h.value|)];
      SubText(seen, off, LineText(h), LinesText(hs[1..]));
      HeaderTexts(seen, off + n, hs[1..], next, k);
      ValueInLine(h);
      SliceInside(seen, off, LineText(h), |h.key| + 1 + h.pad, h.value);
    }
  }

  lemma SubText(seen: string, off: nat, a: string, b: string)
    requires off + |a + b| <= |seen| && seen[off..off + |a + b|] == a + b
    ensures seen[off..off + |a|] == a
    ensures seen[off + |a|..off + |a| + |b|] == b
  {
    assert seen[off..off + |a|] == seen[off..off + |a + b|][..|a|];
    assert seen[off + |a|..off + |a| + |b|] == seen[off..off + |a + b|][|a|..];
  }

  function LastParam(qs: seq<Pair>, k: string): Option<string> {
    if qs == [] then None
    else if LastParam(qs[1..], k).Some? then LastParam(qs[1..], k)
    else if qs[0].0 == k then Some(qs[0].1)
    else None
  }

  /** Every key of the query table is the key of a parameter, and its slice is the value of the last such one. */
  lemma {:induction false} QueryTexts(seen: string, off: nat, qs: seq<Pair>, table: map<string, Pos>, k: string)
    requires qs != [] ==>
               off + |QueryText(qs)| <= |seen| && seen[off..off + |QueryText(qs)|] == QueryText(qs)
    ensures var t := QueryTable(off, qs, table);
            match LastParam(qs, k)
            case Some(v) => k in t && InBounds(t[k], |seen|) && Slice(seen, t[k]) == v
            case None => (k in t <==> k in table) && (k in t ==> t[k] == table[k])
    decreases |qs|
  {
    if qs != [] {
      hide Slice, PairText;
      var kv, n := qs[0], |PairText(qs[0])|;
      var next := table[kv.0 := Pos(off + |kv.0| + 1, |kv.1|)];
      if |qs| > 1 {
        assert QueryText(qs) == (PairText(kv) + "&") + QueryText(qs[1..]);
        SubText(seen, off, PairText(kv) + "&", QueryText(qs[1..]));
        SubText(seen, off, PairText(kv), "&");
      }
      assert seen[off..off + n] == PairText(kv);
      QueryTexts(seen, off + n + 1, qs[1..], next, k);
      ValueInPair(kv);
      SliceInside(seen, off, PairText(kv), |kv.0| + 1, kv.1);
    }
  }

  lemma ValueInPair(kv: Pair)
    ensures |kv.0| + 1 + |kv.1| == |PairText(kv)|
    ensures PairText(kv)[|kv.0| + 1..|kv.0| + 1 + |kv.1|] == kv.1
  {
  }

  // ----- reading the message out

  ghost predicate TableReadable(table: map<string, Pos>, n: nat) {
    forall k :: k in table ==> InBounds(table[k], n)
  }

  /** Every slice of a request lies inside the bytes received. */
  ghost predicate RequestReadable(p: Parser) {
    && InBounds(p.path, |p.seen|) && InBounds(p.body, |p.seen|)
    && TableReadable(p.query, |p.seen|) && TableReadable(p.header, |p.seen|)
  }

  /** `get_request_message`: the text behind every slice. */
  function GetRequest(p: Parser): Request
    requires RequestReadable(p)
  {
    Request(p.verb, Slice(p.seen, p.path), Texts(p.seen, p.query), p.version, Texts(p.seen, p.header),
            Slice(p.seen, p.body))
  }

  /** A completed request never reads outside the bytes received. */
  lemma CompletedReadable(v0: Version, c0: int, s: string, A: seq<string>)
    requires |A| == |s|
    requires Feed(Init(true, v0, c0), s, A).Live() && Feed(Init(true, v0, c0), s, A).Completed()
    ensures RequestReadable(Feed(Init(true, v0, c0), s, A))
  {
    hide Feed, LineOk, KeyChars, TargetOk, VersionStr, MethodStr, LinesText, HoldsAmp;
    var p := Feed(Init(true, v0, c0), s, A);
    var d := RequestSound(v0, c0, s, A);
    var q := AfterTarget(v0, c0, d, A);
    forall k | k in p.query ensures InBounds(p.query[k], |p.seen|) {
      assert EntryOk(q.seen, k, q.query[k], Nothing(A));
    }
    HeaderReadable(p, d);
  }

  lemma HeaderReadable(p: Parser, d: RequestParts)
    requires Printable(d.version) && p.seen == d.Text()
    requires p.header == HeaderTable(|d.StartLine()|, d.lines, map[])
    ensures TableReadable(p.header, |p.seen|)
  {
    hide LinesText;
    var off := |d.StartLine()|;
    AppendAssoc(LinesText(d.lines), d.junk + CRLF, d.body);
    SliceAt(d.StartLine(), LinesText(d.lines), (d.junk + CRLF) + d.body);
    forall k | k in p.header ensures InBounds(p.header[k], |p.seen|) {
      HeaderTexts(p.seen, off, d.lines, map[], k);
    }
  }

  /** Parse a complete text as a request, when `A` says what lies behind each byte: None when the parser refuses it or
      waits for more. */
  function ParseRequest(v0: Version, c0: int, s: string, A: seq<string>): Option<Request>
    requires |A| == |s|
  {
    var p := Feed(Init(true, v0, c0), s, A);
    if p.Live() && p.Completed() then
      CompletedReadable(v0, c0, s, A);
      Some(GetRequest(p))
    else None
  }
}
