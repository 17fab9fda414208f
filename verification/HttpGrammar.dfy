/** The language the parser accepts: every completed run splits into the pieces of a message, and every message put
    together from such pieces is accepted.  In front of the blank that ends the target the runs are those of
    `Feed`, with any bytes visible behind the current one; behind it nothing is read ahead, and `Run` will do. */
module HttpGrammar {
  import opened HttpTypes
  import opened HttpAutomaton
  import opened HttpSegments
  import opened HttpChunking

  // ----- framing

  /** Once complete, a longer input is never complete again: at most one prefix of a stream is a message. */
  lemma PrefixFree(p: Parser, a: string, b: string, A: seq<string>, B: seq<string>)
    requires |A| == |a| && |B| == |b| && b != []
    requires Feed(p, a, A).Live() && Feed(p, a, A).Completed()
    ensures !Feed(p, a + b, A + B).Completed()
  {
    hide Run, Step, Feed;
    var q := Feed(p, a, A);
    FeedConcat(p, a, b, A, B);
    FeedBehindTarget(q, b, B);
    if q.state.idx > 0 {
      BodyTail(q, b);
    } else if q.state.idx == 0 {
      BodySeg(q, b);
    } else {
      BodyCount(q, b);
    }
  }

  lemma {:induction false} BodyCount(p: Parser, b: string)
    requires p.Live() && p.state.StBody?
    ensures var q := Run(p, b); q.Live() && q.state == StBody(p.state.idx + |b|) && q.totalLen == p.totalLen
    decreases |b|
  {
    if b != [] {
      BodyCount(Step(p, b[0]), b[1..]);
    }
  }

  // ----- the header block

  /** Length of the longest prefix of `s` past `i` that the key state keeps. */
  function KeySpan(s: string, i: nat): (n: nat)
    requires i <= |s| && KeyChars(s[..i])
    ensures i <= n <= |s| && KeyChars(s[..n])
    ensures n < |s| ==> s[n] == '\r' || (n > 0 && s[n] == ':')
    decreases |s| - i
  {
    if i < |s| && s[i] != '\r' && (i == 0 || s[i] != ':') then
      assert s[..i + 1] == s[..i] + [s[i]];
      assert i > 0 ==> s[..i + 1][1..] == s[..i][1..] + [s[i]];
      KeySpan(s, i + 1)
    else i
  }

  function BlankSpan(s: string): (n: nat)
    ensures n <= |s| && s[..n] == Blanks(n)
    ensures n < |s| ==> s[n] != ' '
  {
    if s != [] && s[0] == ' ' then
      var n := BlankSpan(s[1..]);
      assert s[..n + 1] == [' '] + s[1..][..n];
      n + 1
    else 0
  }

  function ValueSpan(s: string): (n: nat)
    ensures n <= |s| && '\r' !in s[..n]
    ensures n < |s| ==> s[n] == '\r'
  {
    if s != [] && s[0] != '\r' then
      var n := ValueSpan(s[1..]);
      assert s[..n + 1] == [s[0]] + s[1..][..n];
      n + 1
    else 0
  }

  /** A run that changes the state object has a first byte, and survives it. */
  lemma Advance(p: Parser, s: string)
    requires p.Live() && Run(p, s).Live() && Run(p, s) != p
    ensures s != [] && Step(p, s[0]).Live() && Run(p, s) == Run(Step(p, s[0]), s[1..])
  {
  }

  /** From state End, the next byte must be the line feed. */
  lemma EndStep(p: Parser, c: char)
    requires p.Live() && p.state.StHeader? && p.state.hdr.part.End? && Step(p, c).Live()
    ensures c == '\n'
  {
  }

  /** A value whose `Content-Length` is not a number stops the parser. */
  lemma ValueEndLive(p: Parser, k: string, v: string, pad: nat)
    requires p.Live() && p.state.StHeader? && p.state.hdr.part.Value?
    requires p.state.hdr.keyLen == |k| && p.state.hdr.keyOff >= 0
    requires p.state.hdr.valOff == p.state.hdr.keyOff + |k| + 1 + pad
    requires |p.seen| == p.state.hdr.valOff + |v|
    requires p.seen[p.state.hdr.keyOff..p.state.hdr.keyOff + |k|] == k
    requires p.seen[p.state.hdr.valOff..] == v
    requires Step(p, '\r').Live()
    ensures k == CONTENT_LENGTH ==> Stoi(v).Some?
  {
    hide Stoi;
    var seen := p.seen + ['\r'];
    assert Slice(seen, Pos(p.state.hdr.keyOff, |k|)) == k;
    assert Slice(seen, Pos(p.state.hdr.valOff, |v|)) == v;
  }

  /** The pieces at the front of a header block: a header line, or the line that ends the block. */
  datatype Front = HeaderLine(line: Line) | LastLine(junk: string)

  function FrontText(f: Front): string {
    match f
    case HeaderLine(h) => LineText(h)
    case LastLine(junk) => junk + CRLF
  }

  ghost predicate FrontOk(f: Front) {
    match f
    case HeaderLine(h) => LineOk(h)
    case LastLine(junk) => KeyChars(junk)
  }

  /** After `junk`, a carriage return: the block ends here. */
  lemma LastFront(p: Parser, s: string, n: nat)
    requires p.Live() && AtLine(p.state)
    requires Run(p, s).Live() && Run(p, s).state.StBody?
    requires n < |s| && KeyChars(s[..n]) && s[n] == '\r'
    ensures n + 1 < |s| && s[n + 1] == '\n'
  {
    hide Run, Step;
    var k := s[..n];
    var q := Run(p, k);
    if n > 0 { KeySeg(p, k); } else { RunNil(p); }
    RunConcat(p, k, s[n..]);
    assert k + s[n..] == s;
    Advance(q, s[n..]);
    EndEntered(q);
    Advance(Step(q, '\r'), s[n..][1..]);
    EndStep(Step(q, '\r'), s[n..][1..][0]);
  }

  lemma EndEntered(p: Parser)
    requires p.Live() && p.state.StHeader? && p.state.hdr.part.Key?
    ensures Step(p, '\r').Live() && Step(p, '\r').state.StHeader? && Step(p, '\r').state.hdr.part.End?
  {
  }

  lemma ColonStep(p: Parser)
    requires p.Live() && p.state.StHeader? && p.state.hdr.part.Key? && p.state.hdr.idx > 0
    ensures Step(p, ':').Live() && Step(p, ':').state.StHeader? && Step(p, ':').state.hdr.part.Split?
  {
  }

  lemma KeyAndPad(p: Parser, k: string, m: nat)
    requires p.Live() && AtLine(p.state) && k != [] && KeyChars(k)
    ensures Run(p, k + ":" + Blanks(m)).state.StHeader?
  {
    hide Run, Step, KeyChars;
    KeySeg(p, k);
    RunSnoc(p, k, ':');
    ColonStep(Run(p, k));
    PadSeg(Run(p, k + ":"), m);
    RunConcat(p, k + ":", Blanks(m));
  }

  /** After a key and its colon the run goes on to a value that ends in a carriage return. */
  lemma ValueFound(p: Parser, s: string, k: string, m: nat, r: string) returns (v: string)
    requires p.Live() && AtLine(p.state) && k != [] && KeyChars(k)
    requires s == k + ":" + Blanks(m) + r && (r != [] ==> r[0] != ' ')
    requires Run(p, s).Live() && Run(p, s).state.StBody?
    ensures ValueOk(v) && v + "\r" <= r
  {
    hide Run, Step, KeyChars;
    assert r == [] ==> s == k + ":" + Blanks(m);
    KeyAndPad(p, k, m);
    if r == [] { assert false; }
    var w := 1 + ValueSpan(r[1..]);
    v := r[..w];
    assert v[1..] == r[1..][..w - 1];
    assert w == |r| ==> s == k + ":" + Blanks(m) + v;
    LineHead(p, Line(k, m, v));
    if w == |r| { assert false; }
    assert r[w] == r[1..][w - 1];
    assert r == v + "\r" + r[w + 1..];
  }

  /** The carriage return and the line feed that end a value. */
  lemma ValueClosed(p: Parser, s: string, h: Line, rest: string)
    requires p.Live() && AtLine(p.state) && h.key != [] && KeyChars(h.key) && ValueOk(h.value)
    requires s == (h.key + ":" + Blanks(h.pad) + h.value) + ("\r" + rest)
    requires Run(p, s).Live() && Run(p, s).state.StBody?
    ensures LineOk(h) && "\n" <= rest
  {
    hide Run, Step, Stoi, KeyChars, ValueOk;
    var t := h.key + ":" + Blanks(h.pad) + h.value;
    var q := Run(p, t);
    LineHead(p, h);
    RunConcat(p, t, "\r" + rest);
    Advance(q, "\r" + rest);
    assert ("\r" + rest)[1..] == rest;
    assert q.seen[|p.seen|..|p.seen| + |h.key|] == h.key;
    assert q.seen[|p.seen| + |h.key| + 1 + h.pad..] == h.value;
    ValueEndLive(q, h.key, h.value, h.pad);
    ValueEnd(q, h);
    Advance(Step(q, '\r'), rest);
    EndStep(Step(q, '\r'), rest[0]);
  }

  lemma CutTwice(s: string, n: nat, m: nat)
    requires n < |s| && m <= |s| - n - 1
    ensures s == s[..n] + [s[n]] + s[n + 1..][..m] + s[n + 1..][m..]
  {
  }

  lemma CutEnd(t: string, r: string, v: string)
    requires v + "\r" <= r
    ensures t + r == t + v + ("\r" + r[|v| + 1..])
  {
    assert r[|v|] == (v + "\r")[|v|];
    assert r == v + ("\r" + r[|v| + 1..]);
  }

  lemma CloseLine(t: string, rest: string)
    requires "\n" <= rest
    ensures t + CRLF <= t + ("\r" + rest)
  {
    assert t + ("\r" + rest) == (t + CRLF) + rest[1..];
  }

  /** After a key and its colon: a value, a carriage return, a line feed. */
  lemma LineFront(p: Parser, s: string, n: nat) returns (h: Line)
    requires p.Live() && AtLine(p.state)
    requires Run(p, s).Live() && Run(p, s).state.StBody?
    requires 0 < n < |s| && KeyChars(s[..n]) && s[n] == ':'
    ensures LineOk(h) && LineText(h) <= s
  {
    hide Run, Step, Stoi, KeyChars, ValueOk, LineOk, Blanks;
    var k := s[..n];
    var m := BlankSpan(s[n + 1..]);
    var r := s[n + 1..][m..];
    CutTwice(s, n, m);
    var v := ValueFound(p, s, k, m, r);
    h := Line(k, m, v);
    var rest := r[|v| + 1..];
    var t := k + ":" + Blanks(m);
    CutEnd(t, r, v);
    ValueClosed(p, s, h, rest);
    CloseLine(t + v, rest);
  }

  lemma KeyOnly(p: Parser, k: string)
    requires p.Live() && AtLine(p.state) && KeyChars(k)
    ensures Run(p, k).state.StHeader?
  {
    hide Run, Step, KeyChars;
    if k == [] { RunNil(p); } else { KeySeg(p, k); }
  }

  /** One line of a header block that is read to its end. */
  lemma FrontSound(p: Parser, s: string) returns (f: Front)
    requires p.Live() && AtLine(p.state)
    requires Run(p, s).Live() && Run(p, s).state.StBody?
    ensures FrontOk(f) && FrontText(f) <= s
  {
    hide Run, Step;
    var n := KeySpan(s, 0);
    assert n == |s| ==> s == s[..n];
    KeyOnly(p, s[..n]);
    if n == |s| { assert false; }
    if s[n] == '\r' {
      LastFront(p, s, n);
      f := LastLine(s[..n]);
      assert s == s[..n] + CRLF + s[n + 2..];
    } else {
      var h := LineFront(p, s, n);
      f := HeaderLine(h);
    }
  }

  /** Soundness of the header block and the body behind it. */
  lemma {:induction false} HeaderSound(p: Parser, s: string) returns (hs: seq<Line>, junk: string, body: string)
    requires p.Live() && AtLine(p.state)
    requires Run(p, s).Live() && Run(p, s).state.StBody?
    ensures s == LinesText(hs) + (junk + CRLF) + body
    ensures (forall h :: h in hs ==> LineOk(h)) && KeyChars(junk)
    decreases |s|
  {
    hide Run, Step, LineOk, KeyChars, LineText;
    var f := FrontSound(p, s);
    var t := FrontText(f);
    match f {
      case LastLine(j) =>
        hs, junk, body := [], j, s[|t|..];
        assert s == t + body;
      case HeaderLine(h) =>
        LineSeg(p, h);
        RunConcat(p, t, s[|t|..]);
        assert s == t + s[|t|..];
        LineTextNonEmpty(h);
        var hs';
        hs', junk, body := HeaderSound(Run(p, t), s[|t|..]);
        hs := [h] + hs';
        assert LinesText(hs) == t + LinesText(hs');
    }
  }

  lemma LineTextNonEmpty(h: Line)
    ensures |LineText(h)| > 0
  {
  }

  // ----- the request line

  lemma SlashStepLive(p: Parser, i: nat, c: char)
    requires p.Live() && p.state.StVersion? && p.state.idx == i < 5 && Step(p, c).Live()
    ensures c == HTTP_SLASH[i]
  {
  }

  lemma {:induction false} SlashSound(p: Parser, s: string, i: nat)
    requires p.Live() && p.state.StVersion? && p.state.idx == i <= 5
    requires Run(p, s).Live() && !Run(p, s).state.StVersion?
    ensures HTTP_SLASH[i..] <= s
    decreases 5 - i
  {
    hide Run, Step;
    if i < 5 {
      Advance(p, s);
      SlashStepLive(p, i, s[0]);
      SlashStep(p, i);
      SlashSound(Step(p, s[0]), s[1..], i + 1);
      assert HTTP_SLASH[i..] == [HTTP_SLASH[i]] + HTTP_SLASH[i + 1..];
      assert s == [s[0]] + s[1..];
    }
  }

  /** The three bytes after `HTTP/`. */
  lemma VersionDigits(p: Parser, a: char, b: char, c: char) returns (ve: Version)
    requires p.Live() && p.state.StVersion? && p.state.idx == 5
    requires Step(p, a).Live() && Step(Step(p, a), b).Live() && Step(Step(Step(p, a), b), c).Live()
    ensures Printable(ve) && VersionStr(ve) == HTTP_SLASH + [a, b, c]
    ensures var q := Step(Step(Step(p, a), b), c);
            q.state.StVersion? && q.state.idx == 8 && q.isRequest == p.isRequest
  {
    ve := if a == '0' then V0_9 else if c == '0' then V1_0 else V1_1;
  }

  lemma StillVersion(p: Parser, c: char)
    requires p.Live() && p.state.StVersion? && 5 <= p.state.idx < 8
    ensures Step(p, c).state.StVersion? && Step(p, c).state.idx == p.state.idx + 1
  {
  }

  lemma VersionSound(p: Parser, s: string) returns (ve: Version)
    requires p.Live() && p.state == NEW_VERSION
    requires Run(p, s).Live() && !Run(p, s).state.StVersion?
    ensures Printable(ve)
    ensures VersionStr(ve) + (if p.isRequest then CRLF else " ") <= s
  {
    hide Run, Step;
    SlashSound(p, s, 0);
    HttpSlashSeg(p, 0);
    assert s[..5] == HTTP_SLASH == HTTP_SLASH[0..];
    RunConcat(p, s[..5], s[5..]);
    assert s == s[..5] + s[5..];
    var q, t := Run(p, s[..5]), s[5..];
    Advance(q, t);
    var q1, t1 := Step(q, t[0]), t[1..];
    StillVersion(q, t[0]);
    Advance(q1, t1);
    var q2, t2 := Step(q1, t1[0]), t1[1..];
    StillVersion(q1, t1[0]);
    Advance(q2, t2);
    var q3, t3 := Step(q2, t2[0]), t2[1..];
    StillVersion(q2, t2[0]);
    ve := VersionDigits(q, t[0], t1[0], t2[0]);
    assert s == VersionStr(ve) + t3;
    VersionEnd(q3, t3);
  }

  lemma EighthStep(p: Parser, c: char)
    requires p.Live() && p.state.StVersion? && p.state.idx == 8 && Step(p, c).Live()
    ensures c == if p.isRequest then '\r' else ' '
    ensures p.isRequest ==> Step(p, c) == p.(seen := p.seen + [c], state := StVersion(9, p.state.prefix0))
  {
  }

  lemma NinthStep(p: Parser, c: char)
    requires p.Live() && p.state.StVersion? && p.state.idx == 9 && Step(p, c).Live()
    ensures c == '\n'
  {
  }

  lemma VersionEnd(p: Parser, s: string)
    requires p.Live() && p.state.StVersion? && p.state.idx == 8
    requires Run(p, s).Live() && !Run(p, s).state.StVersion?
    ensures (if p.isRequest then CRLF else " ") <= s
  {
    hide Run, Step;
    Advance(p, s);
    EighthStep(p, s[0]);
    if p.isRequest {
      Advance(Step(p, s[0]), s[1..]);
      NinthStep(Step(p, s[0]), s[1..][0]);
    }
  }

  // ----- the status line of a response

  /** One byte of a status code that the parser survives. */
  lemma CodeStepLive(p: Parser, c: char)
    requires p.Live() && p.state.StCode? && 0 <= p.state.idx <= 3 && Step(p, c).Live()
    ensures p.state.idx < 3 ==> IsDigit(c) && p.code != -1
    ensures p.state.idx < 3 ==>
              var StCode(i, d0, d1, d2) := p.state;
              var d := DigitValue(c);
              Step(p, c) == p.(seen := p.seen + [c],
                state := if i == 0 then StCode(1, d, d1, d2) else if i == 1 then StCode(2, d0, d, d2)
                         else StCode(3, d0, d1, d))
    ensures p.state.idx == 3 ==>
              var StCode(i, d0, d1, d2) := p.state;
              && c == ' ' && ReasonPhrase(d0 * 100 + d1 * 10 + d2).Some?
  {
    hide ReasonPhrase;
  }

  lemma CodeRange(code: int)
    requires ReasonPhrase(code).Some?
    ensures 100 <= code < 1000
  {
  }

  /** Three digits spell the number they make. */
  lemma CodeSpelled(a: char, b: char, c: char)
    requires IsDigit(a) && IsDigit(b) && IsDigit(c)
    requires 100 <= DigitValue(a) * 100 + DigitValue(b) * 10 + DigitValue(c) < 1000
    ensures CodeText(DigitValue(a) * 100 + DigitValue(b) * 10 + DigitValue(c)) == [a, b, c]
  {
    ThreeDigits(DigitValue(a), DigitValue(b), DigitValue(c));
  }

  lemma ThreeDigits(x: int, y: int, z: int)
    requires 0 <= x < 10 && 0 <= y < 10 && 0 <= z < 10
    ensures var n := x * 100 + y * 10 + z; n / 100 == x && n / 10 % 10 == y && n % 10 == z
  {
  }

  /** The code state is left only after the three digits of a code of the table and a blank. */
  lemma CodeSound(p: Parser, s: string) returns (code: int)
    requires p.Live() && p.state == NEW_CODE
    requires Run(p, s).Live() && !Run(p, s).state.StCode?
    ensures ReasonPhrase(code).Some? && 100 <= code < 1000 && CodeText(code) + " " <= s && p.code != -1
  {
    hide Run, Step, ReasonPhrase, IsDigit, DigitValue;
    Advance(p, s);
    CodeStepLive(p, s[0]);
    var p1, s1 := Step(p, s[0]), s[1..];
    Advance(p1, s1);
    CodeStepLive(p1, s1[0]);
    var p2, s2 := Step(p1, s1[0]), s1[1..];
    Advance(p2, s2);
    CodeStepLive(p2, s2[0]);
    var p3, s3 := Step(p2, s2[0]), s2[1..];
    Advance(p3, s3);
    CodeStepLive(p3, s3[0]);
    code := DigitValue(s[0]) * 100 + DigitValue(s[1]) * 10 + DigitValue(s[2]);
    CodeRange(code);
    CodeSpelled(s[0], s[1], s[2]);
    assert s == [s[0], s[1], s[2]] + " " + s3[1..];
  }

  /** The rest of a status line before the line feed that ends it: that is the first one behind a carriage return. */
  ghost predicate DetailText(t: string) {
    '\r' in t && forall i, j :: 0 <= i < j < |t| && t[i] == '\r' ==> t[j] != '\n'
  }

  lemma {:induction false} DetailKept(p: Parser, t: string)
    requires p.Live() && p.state == NEW_DETAIL && forall i, j :: 0 <= i < j < |t| && t[i] == '\r' ==> t[j] != '\n'
    ensures Run(p, t) == p.(seen := p.seen + t, state := StDetail(|t|, '\r' in t))
    decreases |t|
  {
    hide Run, Step;
    if t == [] {
      RunNil(p);
      assert p.seen + t == p.seen;
    } else {
      var n := |t| - 1;
      var r, c := t[..n], t[n];
      assert t == r + [c];
      DetailKept(p, r);
      RunSnoc(p, r, c);
      assert '\r' in r ==> c != '\n';
      DetailStep(Run(p, r), c);
      AppendAssoc(p.seen, r, [c]);
    }
  }

  lemma DetailStep(p: Parser, c: char)
    requires p.Live() && p.state.StDetail? && (p.state.sawCR ==> c != '\n')
    ensures Step(p, c) == p.(seen := p.seen + [c], state := StDetail(p.state.idx + 1, p.state.sawCR || c == '\r'))
  {
  }

  lemma DetailEnd(p: Parser, t: string)
    requires p.Live() && p.state == NEW_DETAIL && DetailText(t)
    ensures Run(p, t + "\n") == p.(seen := p.seen + (t + "\n"), state := NEW_HEADER,
                                   detail := Pos(|p.seen| + 1, |t| + 1))
  {
    hide Run;
    DetailKept(p, t);
    RunSnoc(p, t, '\n');
    AppendAssoc(p.seen, t, "\n");
  }

  /** Bytes in front of the line feed that ends the status line; all, when there is none. */
  function DetailSpan(s: string, sawCR: bool): (n: nat)
    ensures n <= |s|
    ensures sawCR ==> '\n' !in s[..n]
    ensures forall i, j :: 0 <= i < j < n && s[i] == '\r' ==> s[j] != '\n'
    ensures n < |s| ==> s[n] == '\n' && (sawCR || '\r' in s[..n])
  {
    if s == [] || (sawCR && s[0] == '\n') then 0
    else
      var n := DetailSpan(s[1..], sawCR || s[0] == '\r');
      assert s[..n + 1] == [s[0]] + s[1..][..n];
      n + 1
  }

  /** The detail state is left only at such a line feed. */
  lemma DetailSound(p: Parser, s: string) returns (t: string)
    requires p.Live() && p.state == NEW_DETAIL
    requires Run(p, s).Live() && !Run(p, s).state.StDetail?
    ensures DetailText(t) && t + "\n" <= s
  {
    hide Run, Step;
    var n := DetailSpan(s, false);
    t := s[..n];
    assert n == |s| ==> t == s;
    DetailKept(p, t);
    if n == |s| { assert false; }
    assert s == t + "\n" + s[n + 1..];
  }

  /** A method reads nothing ahead. */
  lemma MethodAhead(p: Parser, c: char, ahead: string)
    requires p.state.StMethod?
    ensures StepAhead(p, c, ahead) == Step(p, c)
  {
  }

  lemma MethodStepLive(p: Parser, i: nat, c: char)
    requires p.Live() && p.state == StMethod(i) && 1 <= i <= |MethodStr(p.verb)| && Step(p, c).Live()
    ensures c == if i < |MethodStr(p.verb)| then MethodStr(p.verb)[i] else ' '
  {
  }

  lemma {:induction false} MethodTailSound(p: Parser, s: string, A: seq<string>, i: nat)
    requires p.Live() && p.state == StMethod(i) && 1 <= i <= |MethodStr(p.verb)|
    requires |A| == |s| && Feed(p, s, A).Live() && !Feed(p, s, A).state.StMethod?
    ensures MethodStr(p.verb)[i..] + " " <= s
    decreases |MethodStr(p.verb)| - i
  {
    hide Feed, Step, StepAhead, MethodStr;
    var m := MethodStr(p.verb);
    FeedAdvance(p, s, A);
    MethodAhead(p, s[0], A[0]);
    MethodStepLive(p, i, s[0]);
    MethodStep(p, i);
    assert s == [s[0]] + s[1..];
    if i < |m| {
      MethodTailSound(Step(p, s[0]), s[1..], A[1..], i + 1);
      assert m[i..] + " " == [m[i]] + (m[i + 1..] + " ");
    }
  }

  lemma MethodFirst(p: Parser, c: char) returns (me: Method)
    requires p.Live() && p.state == StMethod(0) && Step(p, c).Live()
    ensures Step(p, c) == p.(seen := p.seen + [c], verb := me, state := StMethod(1))
    ensures MethodStr(me)[0] == c
  {
    me := if c == 'G' then GET else POST;
  }

  lemma MethodSound(p: Parser, s: string, A: seq<string>) returns (me: Method)
    requires p.Live() && p.state == StMethod(0)
    requires |A| == |s| && Feed(p, s, A).Live() && !Feed(p, s, A).state.StMethod?
    ensures MethodStr(me) + " " <= s
  {
    hide Feed, Step, StepAhead;
    FeedAdvance(p, s, A);
    MethodAhead(p, s[0], A[0]);
    me := MethodFirst(p, s[0]);
    var m := MethodStr(me);
    MethodTailSound(Step(p, s[0]), s[1..], A[1..], 1);
    assert m + " " == [m[0]] + (m[1..] + " ");
    assert s == [s[0]] + s[1..];
  }

  // ----- the target

  /** A recorded parameter: its value holds no `=`, `&` or blank, and unless the value holds a `?` (a parameter that
      has borrowed the `=` of an earlier one) its key holds no `&`, `?` or blank.  When nothing can be read ahead
      (`near`), a key holds no blank but perhaps as its last byte. */
  ghost predicate EntryOk(s: string, k: string, v: Pos, near: bool) {
    && InBounds(v, |s|)
    && (near ==> forall i :: 0 <= i < |k| - 1 ==> k[i] != ' ')
    && (forall i :: v.off <= i < v.off + v.len ==> s[i] != '=' && s[i] != '&' && s[i] != ' ')
    && ((exists i :: v.off <= i < v.off + v.len && s[i] == '?') || ('&' !in k && '?' !in k && ' ' !in k))
  }

  ghost predicate EntriesOk(s: string, table: map<string, Pos>, near: bool) {
    forall k :: k in table ==> EntryOk(s, k, table[k], near)
  }

  /** What the fields of the URL state mean, when the target began at `base`. */
  ghost predicate UrlInv(p: Parser, base: nat, near: bool) {
    && p.state.StUrl?
    && var u, s := p.state.url, p.seen;
    && u.idx >= 0 && |s| == base + u.idx
    && (forall i :: base <= i < |s| ==> s[i] != ' ')
    && (u.hasQuery ==>
          && base < u.keyOff <= |s| && (s[u.keyOff - 1] == '?' || s[u.keyOff - 1] == '&')
          && (forall i :: u.keyOff <= i < |s| ==> s[i] != '?' && s[i] != '&')
          && base <= p.path.off + p.path.len < |s| && s[p.path.off + p.path.len] == '?'
          && (forall i :: p.path.off + p.path.len < i < |s| ==> s[i] != '?'))
    && (!u.hasQuery ==>
          && u.keyOff == -1 && p.query == map[]
          && (forall i :: base <= i < |s| ==> s[i] != '?' && s[i] != '&'))
    && (u.keyLen == -1 <==> u.valOff == -1)
    && (u.valOff != -1 ==>
          && base < u.valOff <= |s| && u.keyLen >= 0 && s[u.valOff - 1] == '='
          && (forall i :: u.valOff <= i < |s| ==> s[i] != '=' && s[i] != '&')
          && (u.hasQuery ==> if u.valOff > u.keyOff then u.keyLen == u.valOff - 1 - u.keyOff
                             else u.valOff < u.keyOff && s[u.keyOff - 1] == '?'))
    && p.path.off == (if u.idx > 0 && Plain([s[base]]) then base else 0)
    && EntriesOk(s, p.query, near)
  }

  lemma EntriesGrow(s: string, c: char, table: map<string, Pos>, near: bool)
    requires EntriesOk(s, table, near)
    ensures EntriesOk(s + [c], table, near)
  {
    forall k | k in table ensures EntryOk(s + [c], k, table[k], near) {
      var v := table[k];
      assert EntryOk(s, k, v, near);
      if exists i :: v.off <= i < v.off + v.len && s[i] == '?' {
        var i :| v.off <= i < v.off + v.len && s[i] == '?';
        assert (s + [c])[i] == '?';
      }
    }
  }

  /** The parameter that ends at the end of `p.seen`, when the next byte makes the parser record it. */
  lemma NewEntry(p: Parser, base: nat, near: bool, c: char, ahead: string)
    requires UrlInv(p, base, near) && p.state.url.hasQuery && p.state.url.valOff != -1 && (c == '&' || c == ' ')
    requires near ==> ahead == []
    requires var u := p.state.url; InBounds(Pos(u.keyOff, u.keyLen), |p.seen| + 1 + |ahead|)
    ensures var u, s := p.state.url, p.seen + [c];
            EntryOk(s, Slice(s + ahead, Pos(u.keyOff, u.keyLen)), Pos(u.valOff, |p.seen| - u.valOff), near)
  {
    var u, s := p.state.url, p.seen + [c];
    var k := Slice(s + ahead, Pos(u.keyOff, u.keyLen));
    if u.valOff > u.keyOff {
      forall i | 0 <= i < |k| ensures k[i] != '?' && k[i] != '&' && k[i] != ' ' {
        assert k[i] == p.seen[u.keyOff + i];
      }
    } else {
      assert s[u.keyOff - 1] == '?';
    }
    if near {
      forall i | 0 <= i < |k| - 1 ensures k[i] != ' ' {
        assert k[i] == p.seen[u.keyOff + i];
      }
    }
  }

  lemma UrlStep(p: Parser, base: nat, near: bool, c: char, ahead: string)
    requires p.Live() && UrlInv(p, base, near) && c != ' ' && StepAhead(p, c, ahead).Live()
    requires near ==> ahead == []
    ensures UrlInv(StepAhead(p, c, ahead), base, near)
  {
    hide StepAhead, EntriesOk, EntryOk, Slice;
    UrlByte(p, c, ahead);
    var s := p.seen + [c];
    assert EntriesOk(s, StepAhead(p, c, ahead).query, near) by { EntriesStay(p, base, near, c, ahead); }
    assert forall i :: 0 <= i < |p.seen| ==> s[i] == p.seen[i];
    assert Plain([c]) <==> c != '?' && c != '=' && c != '&';
  }

  lemma EntriesStay(p: Parser, base: nat, near: bool, c: char, ahead: string)
    requires p.Live() && UrlInv(p, base, near) && c != ' ' && StepAhead(p, c, ahead).Live()
    requires near ==> ahead == []
    ensures EntriesOk(p.seen + [c], StepAhead(p, c, ahead).query, near)
  {
    hide StepAhead, EntriesOk, EntryOk;
    UrlByte(p, c, ahead);
    EntriesGrow(p.seen, c, p.query, near);
    if c == '&' {
      var u, s := p.state.url, p.seen + [c];
      NewEntry(p, base, near, c, ahead);
      EntryAdded(s, p.query, Slice(s + ahead, Pos(u.keyOff, u.keyLen)), Pos(u.valOff, |p.seen| - u.valOff), near);
    }
  }

  lemma EntryAdded(s: string, table: map<string, Pos>, k: string, v: Pos, near: bool)
    requires EntriesOk(s, table, near) && EntryOk(s, k, v, near)
    ensures EntriesOk(s, table[k := v], near)
  {
  }

  /** Nothing can be read ahead. */
  predicate Nothing(A: seq<string>) { forall i :: 0 <= i < |A| ==> A[i] == [] }

  lemma {:induction false} UrlStays(p: Parser, base: nat, near: bool, t: string, A: seq<string>)
    requires |A| == |t| && (near ==> Nothing(A))
    requires p.Live() && UrlInv(p, base, near) && ' ' !in t && Feed(p, t, A).Live()
    ensures UrlInv(Feed(p, t, A), base, near)
    decreases |t|
  {
    hide StepAhead, UrlInv;
    if t != [] {
      UrlStep(p, base, near, t[0], A[0]);
      UrlStays(StepAhead(p, t[0], A[0]), base, near, t[1..], A[1..]);
    }
  }

  /** What the parser has recorded when the blank ends the target that began at `base`. */
  ghost predicate UrlResult(p: Parser, base: nat, near: bool) {
    && EntriesOk(p.seen, p.query, near)
    && var e := p.path.off + p.path.len;
    && base <= e < |p.seen|
    && (base + 1 < |p.seen| && Plain([p.seen[base]]) ==> p.path.off == base)
    && (base + 1 == |p.seen| || !Plain([p.seen[base]]) ==> p.path.off == 0)
    && (forall i :: e < i < |p.seen| ==> p.seen[i] != '?')
    && (if p.query == map[] then
          && e == |p.seen| - 1
          && (forall i :: base <= i < e ==> p.seen[i] != '?' && p.seen[i] != '&')
        else p.seen[e] == '?')
  }

  /** What the blank does to the fields of the URL state. */
  lemma UrlEndFields(p: Parser, ahead: string)
    requires p.Live() && p.state.StUrl? && StepAhead(p, ' ', ahead).Live()
    ensures var q, u, l := StepAhead(p, ' ', ahead), p.state.url, |p.seen| + 1;
            q == p.(seen := p.seen + [' '], state := NEW_VERSION, path := q.path, query := q.query) &&
            if u.hasQuery then
              && u.valOff != -1 && InBounds(Pos(u.keyOff, u.keyLen), l + |ahead|) && q.path == p.path
              && q.query == p.query[Slice(q.seen + ahead, Pos(u.keyOff, u.keyLen)) :=
                                      Pos(u.valOff, l - 1 - u.valOff)]
            else
              q.path == Pos(p.path.off, l - p.path.off - 1) && q.query == p.query
  {
  }

  lemma UrlEnd(p: Parser, base: nat, near: bool, ahead: string)
    requires p.Live() && UrlInv(p, base, near) && StepAhead(p, ' ', ahead).Live()
    requires near ==> ahead == []
    ensures var q := StepAhead(p, ' ', ahead);
            && UrlResult(q, base, near)
            && q == p.(seen := p.seen + [' '], state := NEW_VERSION, path := q.path, query := q.query)
  {
    hide StepAhead, EntriesOk, EntryOk, Plain;
    UrlEndFields(p, ahead);
    var u, s := p.state.url, p.seen + [' '];
    EntriesGrow(p.seen, ' ', p.query, near);
    assert forall i :: 0 <= i < |p.seen| ==> s[i] == p.seen[i];
    if u.hasQuery {
      NewEntry(p, base, near, ' ', ahead);
      var k := Slice(s + ahead, Pos(u.keyOff, u.keyLen));
      EntryAdded(s, p.query, k, Pos(u.valOff, |p.seen| - u.valOff), near);
      assert k in StepAhead(p, ' ', ahead).query;
    }
  }

  function WordSpan(s: string): (n: nat)
    ensures n <= |s| && ' ' !in s[..n]
    ensures n < |s| ==> s[n] == ' '
  {
    if s != [] && s[0] != ' ' then
      var n := WordSpan(s[1..]);
      assert s[..n + 1] == [s[0]] + s[1..][..n];
      n + 1
    else 0
  }

  /** The parser has just read the method and its blank. */
  predicate AtTarget(p: Parser) {
    p.Live() && p.state == NEW_URL && p.path.off == 0 && p.query == map[]
  }

  lemma UrlStart(p: Parser, near: bool)
    requires AtTarget(p)
    ensures UrlInv(p, |p.seen|, near)
  {
  }

  /** The parser survives the target and the blank behind it. */
  lemma TargetLive(p: Parser, s: string, A: seq<string>, n: nat)
    requires AtTarget(p) && |A| == |s| && n == WordSpan(s)
    requires Feed(p, s, A).Live() && !Feed(p, s, A).state.StUrl?
    ensures n < |s| && Feed(p, s[..n], A[..n]).Live() && Feed(p, s[..n], A[..n]).state.StUrl?
    ensures StepAhead(Feed(p, s[..n], A[..n]), ' ', A[n]).Live()
    ensures Feed(p, s[..n] + " ", A[..n + 1]) == StepAhead(Feed(p, s[..n], A[..n]), ' ', A[n])
  {
    hide Feed, StepAhead;
    var q := Feed(p, s[..n], A[..n]);
    assert s == s[..n] + s[n..] && A == A[..n] + A[n..];
    FeedConcat(p, s[..n], s[n..], A[..n], A[n..]);
    if !q.Live() { FeedDead(q, s[n..], A[n..]); }
    UrlKeeps(p, s[..n], A[..n]);
    FeedAdvance(q, s[n..], A[n..]);
    FeedSnoc(p, s[..n], ' ', A[..n], A[n]);
    assert A[..n] + [A[n]] == A[..n + 1];
  }

  /** The target is everything up to the first blank. */
  lemma TargetSound(p: Parser, s: string, A: seq<string>, near: bool) returns (target: string)
    requires AtTarget(p) && |A| == |s| && (near ==> Nothing(A))
    requires Feed(p, s, A).Live() && !Feed(p, s, A).state.StUrl?
    ensures ' ' !in target && target + " " <= s
    ensures var q := Feed(p, target + " ", A[..|target| + 1]);
            && q == p.(seen := p.seen + (target + " "), state := NEW_VERSION, path := q.path, query := q.query)
            && UrlResult(q, |p.seen|, near)
  {
    hide Feed, StepAhead, UrlInv, UrlResult;
    var n := WordSpan(s);
    target := s[..n];
    TargetLive(p, s, A, n);
    var q := Feed(p, target, A[..n]);
    UrlStart(p, near);
    UrlStays(p, |p.seen|, near, target, A[..n]);
    UrlEnd(q, |p.seen|, near, A[n]);
    SeenGrows(p, target, A[..n]);
    UrlKeeps(p, target, A[..n]);
    assert s == target + " " + s[n + 1..];
    assert p.seen + target + " " == p.seen + (target + " ");
  }

  lemma {:induction false} UrlKeeps(p: Parser, t: string, A: seq<string>)
    requires |A| == |t| && p.Live() && p.state.StUrl? && ' ' !in t && Feed(p, t, A).Live()
    ensures var q := Feed(p, t, A);
            q == p.(seen := q.seen, state := q.state, path := q.path, query := q.query) && q.state.StUrl?
    decreases |t|
  {
    hide StepAhead;
    if t != [] {
      UrlByte(p, t[0], A[0]);
      UrlKeeps(StepAhead(p, t[0], A[0]), t[1..], A[1..]);
    }
  }

  // ----- parameters in front of the last `?`

  ghost predicate HoldsAmp(table: map<string, Pos>) { exists k :: k in table && '&' in k }

  /** One byte of a target, with the registers it leaves. */
  lemma ScanStep(p: Parser, base: nat, t: string, n: nat, ahead: string)
    requires n < |t| && t[n] != ' ' && |p.seen| == base + n && UrlRegs(p.state, base, ScanTo(base, t, n))
    requires p.Live() && StepAhead(p, t[n], ahead).Live()
    ensures var q := StepAhead(p, t[n], ahead);
            && UrlRegs(q.state, base, ScanTo(base, t, n + 1))
            && (HoldsAmp(p.query) ==> HoldsAmp(q.query))
            && (t[n] == '&' ==> KeyFits(base, t, n) || HoldsAmp(q.query))
  {
    hide StepAhead;
    UrlByte(p, t[n], ahead);
    var q, u := StepAhead(p, t[n], ahead), p.state.url;
    if HoldsAmp(p.query) {
      var k :| k in p.query && '&' in k;
      assert k in q.query;
    }
    if t[n] == '&' {
      var s := ScanTo(base, t, n);
      var k := Slice(q.seen + ahead, Pos(u.keyOff, u.keyLen));
      assert k in q.query;
      if s.start + s.len > n {
        assert k[n - s.start] == (q.seen + ahead)[base + n] == '&';
      }
    }
  }

  /** A target that the parser has survived hides only parameters whose keys fit, unless a `&` has got into a key. */
  lemma {:induction false} HiddenFit(p: Parser, t: string, A: seq<string>, n: nat)
    requires AtTarget(p) && |A| == |t| && n <= |t| && ' ' !in t
    requires Feed(p, t[..n], A[..n]).Live()
    ensures var q := Feed(p, t[..n], A[..n]);
            && |q.seen| == |p.seen| + n && UrlRegs(q.state, |p.seen|, ScanTo(|p.seen|, t, n))
            && (HoldsAmp(q.query) || forall j :: 0 <= j < n && t[j] == '&' ==> KeyFits(|p.seen|, t, j))
    decreases n
  {
    hide Feed, StepAhead, KeyFits, HoldsAmp, UrlRegs;
    if n == 0 {
      FeedNil(p, A[..0]);
      assert UrlRegs(p.state, |p.seen|, ScanTo(|p.seen|, t, 0)) by { StartRegs(p, t); }
    } else {
      var s, S := t[..n - 1], A[..n - 1];
      var q := Feed(p, s, S);
      assert t[..n] == s + [t[n - 1]] && A[..n] == S + [A[n - 1]];
      if !q.Live() {
        FeedConcat(p, s, [t[n - 1]], S, [A[n - 1]]);
        FeedDead(q, [t[n - 1]], [A[n - 1]]);
        assert false;
      }
      HiddenFit(p, t, A, n - 1);
      FeedSnoc(p, s, t[n - 1], S, A[n - 1]);
      assert t[n - 1] in t;
      ScanStep(q, |p.seen|, t, n - 1, A[n - 1]);
    }
  }
}
