/** Responses: what comes back when the parser reads a written response. */
module HttpResponses {
  import opened HttpTypes
  import opened HttpNumbers
  import opened HttpAutomaton
  import opened HttpSegments
  import opened HttpChunking
  import opened HttpGrammar
  import opened HttpMessages
  import opened HttpWriter
  import opened HttpRoundTrip

  // ----- the language of responses

  /** The pieces of a response as the parser distinguishes them; `detail` runs up to the line feed. */
  datatype ResponseParts = ResponseParts(
    version: Version, code: int, detail: string, lines: seq<Line>, junk: string, body: string)
  {
    ghost predicate Ok() {
      && Printable(version) && 100 <= code < 1000 && ReasonPhrase(code).Some? && DetailText(detail)
      && (forall h :: h in lines ==> LineOk(h)) && KeyChars(junk)
    }

    function ToDetail(): string
      requires Printable(version) && 100 <= code < 1000
    {
      VersionStr(version) + " " + (CodeText(code) + " ")
    }

    function Text(): string
      requires Printable(version) && 100 <= code < 1000
    {
      ToDetail() + (detail + "\n") + TailText(lines, junk, body)
    }
  }

  /** What a parser knows at the end of the text of `d`. */
  ghost predicate ReadsResponse(p: Parser, d: ResponseParts)
    requires Printable(d.version) && 100 <= d.code < 1000
  {
    && p.Live() && p.seen == d.Text() && p.state == StBody(|d.body|)
    && p.version == d.version && p.code == d.code
    && p.detail == Pos(|d.ToDetail()| + 1, |d.detail| + 1)
    && p.header == HeaderTable(|d.ToDetail()| + |d.detail| + 1, d.lines, map[])
    && p.totalLen == FinalLength(d.lines, 0)
    && (p.Completed() <==> Announces(d.lines, |d.body|))
    && (p.Completed() ==> p.body == BodySlice(|p.seen| - |d.body|, |d.body|))
  }

  /** Completeness: the pieces of a response are read back, slice by slice, unless `code` started at -1. */
  lemma ResponseComplete(v0: Version, c0: int, d: ResponseParts, A: seq<string>)
    requires d.Ok() && c0 != -1 && |A| == |d.Text()|
    ensures ReadsResponse(Feed(Init(false, v0, c0), d.Text(), A), d)
  {
    hide Run, Step, Feed, LineOk, KeyChars, VersionStr, CodeText, ReasonPhrase, TailText, DetailText, Announces,
         FinalLength;
    var p, v, c, t := Init(false, v0, c0), VersionStr(d.version) + " ", CodeText(d.code) + " ", d.detail + "\n";
    FeedBehindTarget(p, d.Text(), A);
    ResponseVersionSeg(p, d.version);
    assert p.seen + VersionStr(d.version) + " " == v;
    var q := Run(p, v);
    CodeSeg(q, d.code);
    AppendAssoc(q.seen, CodeText(d.code), " ");
    RunConcat(p, v, c);
    var r := Run(p, v + c);
    DetailEnd(r, d.detail);
    RunConcat(p, v + c, t);
    TailSeg(Run(r, t), d.lines, d.junk, d.body);
    RunConcat(p, v + c + t, TailText(d.lines, d.junk, d.body));
    AnnouncesExactly(d.lines, |d.body|);
  }

  /** Soundness: a completed response splits into a version, a code of the table, a phrase, header lines and exactly
      the announced body, and the tables hold those pieces; any other code is refused. */
  lemma ResponseSound(v0: Version, c0: int, s: string, A: seq<string>) returns (d: ResponseParts)
    requires |A| == |s|
    requires Feed(Init(false, v0, c0), s, A).Live() && Feed(Init(false, v0, c0), s, A).Completed()
    ensures d.Ok() && c0 != -1 && d.Text() == s
    ensures ReadsResponse(Feed(Init(false, v0, c0), s, A), d) && Announces(d.lines, |d.body|)
  {
    hide Run, Step, Feed, LineOk, KeyChars, VersionStr, CodeText, ReasonPhrase, TailText, DetailText, Announces;
    var p := Init(false, v0, c0);
    FeedBehindTarget(p, s, A);
    var ve := VersionSound(p, s);
    var v := VersionStr(ve) + " ";
    var s1 := s[|v|..];
    assert s == v + s1;
    RunConcat(p, v, s1);
    ResponseVersionSeg(p, ve);
    var q := Run(p, v);
    var code := CodeSound(q, s1);
    var c := CodeText(code) + " ";
    var s2 := s1[|c|..];
    assert s1 == c + s2;
    RunConcat(q, c, s2);
    CodeSeg(q, code);
    var r := Run(q, c);
    var t := DetailSound(r, s2);
    var s3 := s2[|t| + 1..];
    assert s2 == (t + "\n") + s3;
    RunConcat(r, t + "\n", s3);
    DetailEnd(r, t);
    var hs, junk, body := HeaderSound(Run(r, t + "\n"), s3);
    d := ResponseParts(ve, code, t, hs, junk, body);
    assert s3 == TailText(hs, junk, body) by { TailIs(hs, junk, body); }
    assert d.Text() == s by { JoinFour(v, c, t + "\n", s3); }
    ResponseComplete(v0, c0, d, A);
  }

  lemma TailIs(hs: seq<Line>, junk: string, body: string)
    ensures TailText(hs, junk, body) == LinesText(hs) + (junk + CRLF) + body
  {
  }

  // ----- the round trip

  /** The parser after the status line of a table code: refused when the uninitialised `code` was -1. */
  lemma StatusSeg(v0: Version, c0: int, m: Response)
    requires Printable(m.version) && ReasonPhrase(m.code).Some?
    ensures var p := Run(Init(false, v0, c0), StatusLine(m));
            var t := ReasonText(m.code);
            if c0 == -1 then !p.Live()
            else p == Init(false, v0, c0).(
                   seen := StatusLine(m), version := m.version, code := m.code, state := NEW_HEADER,
                   detail := Pos(|StatusLine(m)| - |t| - 1, |t| + 2))
  {
    hide Run, Step, Feed, ReasonPhrase, VersionStr, ToString, CodeText;
    var p := Init(false, v0, c0);
    var v, t := VersionStr(m.version) + " ", ReasonText(m.code);
    CodeRange(m.code);
    ToStringOfCode(m.code);
    assert PhraseOk(ReasonPhrase(m.code));
    ResponseVersionSeg(p, m.version);
    assert p.seen + VersionStr(m.version) + " " == v;
    var q := Run(p, v);
    var c := CodeText(m.code) + " ";
    RunConcat(p, v, c);
    RunConcat(p, v + c, t + CRLF);
    assert StatusLine(m) == v + c + (t + CRLF);
    CodeSeg(q, m.code);
    if c0 == -1 {
      RunDead(Run(q, c), t + CRLF);
    } else {
      AppendAssoc(q.seen, CodeText(m.code), " ");
      DetailSeg(Run(q, c), t);
      AppendAssoc(v + c, t, CRLF);
    }
  }

  ghost predicate ResponseReadable(p: Parser) {
    && InBounds(p.detail, |p.seen|) && InBounds(p.body, |p.seen|) && TableReadable(p.header, |p.seen|)
  }

  /** `get_response_message`: the text behind every slice. */
  function GetResponse(p: Parser): Response
    requires ResponseReadable(p)
  {
    Response(p.version, p.code, Slice(p.seen, p.detail), Texts(p.seen, p.header), Slice(p.seen, p.body))
  }

  /** What a caller gets from a parser that was fed `s`, when `A` says what lies behind each byte; slices outside
      the bytes received yield no response. */
  ghost function ParseResponse(v0: Version, c0: int, s: string, A: seq<string>): Option<Response>
    requires |A| == |s|
  {
    var p := Feed(Init(false, v0, c0), s, A);
    if p.Live() && p.Completed() && ResponseReadable(p) then Some(GetResponse(p)) else None
  }

  /** The responses that survive, but for the reason phrase. */
  ghost predicate ResponseWellFormed(m: Response) {
    HeaderOk(m.header) && |m.body| >= 2 && LengthIs(m.header, |m.body|)
  }

  /** The text recorded as reason phrase: it lacks the first byte of the phrase and runs over the line end
      into the first header. */
  function ShiftedPhrase(code: int, next: char): string {
    var t := ReasonText(code);
    (if t == [] then [] else t[1..]) + CRLF + [next]
  }

  lemma DetailSlice(a: string, t: string, rest: string)
    requires t != [] && rest != []
    ensures var s := a + (t + CRLF) + rest;
            var d := Pos(|a| + 1, |t| + 2);
            InBounds(d, |s|) && Slice(s, d) == t[1..] + CRLF + [rest[0]]
  {
    assert a + (t + CRLF) + rest == (a + [t[0]]) + ((t[1..] + CRLF + [rest[0]]) + rest[1..]);
    SliceAt(a + [t[0]], t[1..] + CRLF + [rest[0]], rest[1..]);
  }

  /** The rest of the message after the status line, when it has a body. */
  lemma ResponseTail(m: Response, hs: seq<Pair>)
    requires Printable(m.version) && m.body != []
    ensures ResponseText(m, hs) == StatusLine(m) + TailText(HeaderLines(hs), [], m.body)
  {
    hide LinesText, StatusLine, HeaderLines;
    assert [] + CRLF == CRLF;
    JoinTail(StatusLine(m), LinesText(HeaderLines(hs)), CRLF, m.body);
  }

  /** Where the pieces behind a status line lie. */
  lemma TailLayout(a: string, l: string, c: string, b: string)
    ensures var s := a + (l + c + b);
            && s[|a|..|a| + |l|] == l
            && s[|s| - |b|..] == b
  {
  }

  /** The parser at the end of a written response whose headers are well formed. */
  lemma ResponseRead(v0: Version, c0: int, m: Response, hs: seq<Pair>)
    requires Printable(m.version) && ReasonPhrase(m.code).Some? && Enumerates(hs, m.header)
    requires HeaderOk(m.header) && (CONTENT_LENGTH in m.header ==> Stoi(m.header[CONTENT_LENGTH]).Some?)
    requires c0 != -1 && m.body != []
    ensures var s := ResponseText(m, hs);
            var p := Run(Init(false, v0, c0), s);
            && p.Live() && p.seen == s && p.state == StBody(|m.body|) && p.totalLen == FinalLength(HeaderLines(hs), 0)
            && p.version == m.version && p.code == m.code
            && TableReadable(p.header, |s|) && Texts(s, p.header) == m.header
            && p.detail == Pos(|StatusLine(m)| - |ReasonText(m.code)| - 1, |ReasonText(m.code)| + 2)
            && (p.Completed() ==> p.body == BodySlice(|s| - |m.body|, |m.body|))
            && |m.body| <= |s| && s[|s| - |m.body|..] == m.body
  {
    hide Run, Step, Feed, ReasonPhrase, ReasonText, StatusLine, LinesText, HeaderLines, HeaderTable, ResponseText,
         LineOk, KeyChars, ValueOk, Stoi, Enumerates;
    ResponseTail(m, hs);
    StatusSeg(v0, c0, m);
    HeaderLinesOk(hs, m.header);
    var p, tail := Init(false, v0, c0), TailText(HeaderLines(hs), [], m.body);
    assert KeyChars([]) by { KeyCharsEmpty(); }
    TailSeg(Run(p, StatusLine(m)), HeaderLines(hs), [], m.body);
    RunConcat(p, StatusLine(m), tail);
    TailLayout(StatusLine(m), LinesText(HeaderLines(hs)), [] + CRLF, m.body);
    HeaderBack(ResponseText(m, hs), |StatusLine(m)|, hs, m.header);
  }

  lemma NextByte(m: Response, hs: seq<Pair>)
    requires Printable(m.version) && ReasonPhrase(m.code).Some? && m.body != []
    ensures var s, t := ResponseText(m, hs), ReasonText(m.code);
            var d := Pos(|StatusLine(m)| - |t| - 1, |t| + 2);
            && |StatusLine(m)| < |s|
            && InBounds(d, |s|) && Slice(s, d) == ShiftedPhrase(m.code, s[|StatusLine(m)|])
  {
    hide ReasonPhrase, VersionStr, ToString, LinesText, HeaderLines, Slice;
    var t := ReasonText(m.code);
    assert PhraseOk(ReasonPhrase(m.code));
    var rest := LinesText(HeaderLines(hs)) + BodyText(m.body);
    var a := VersionStr(m.version) + " " + (ToString(m.code) + " ");
    AppendAssoc(StatusLine(m), LinesText(HeaderLines(hs)), BodyText(m.body));
    DetailSlice(a, t, rest);
    assert ResponseText(m, hs) == a + (t + CRLF) + rest;
  }

  /** A response of the code table: version, code, headers and body come back if and only if it is well formed and
      the uninitialised `code` of the parser was not -1.  Whenever they do, the recorded reason phrase is the shifted
      slice, never the phrase itself. */
  lemma ResponseRoundTrip(v0: Version, c0: int, m: Response, hs: seq<Pair>, A: seq<string>)
    requires Printable(m.version) && ReasonPhrase(m.code).Some? && Enumerates(hs, m.header)
    requires |A| == |ResponseText(m, hs)|
    ensures (exists detail :: ParseResponse(v0, c0, ResponseText(m, hs), A) == Some(m.(detail := detail))) <==>
            ResponseWellFormed(m) && c0 != -1
    ensures forall detail :: ParseResponse(v0, c0, ResponseText(m, hs), A) == Some(m.(detail := detail)) ==>
              && |StatusLine(m)| < |ResponseText(m, hs)|
              && detail == ShiftedPhrase(m.code, ResponseText(m, hs)[|StatusLine(m)|])
              && detail != ReasonPhrase(m.code).value
  {
    hide Run, Step, Feed, ReasonPhrase, StatusLine, ResponseText, HeaderOk, Stoi, Enumerates, HeaderLines;
    var s := ResponseText(m, hs);
    if ResponseWellFormed(m) && c0 != -1 {
      ResponseComesBack(v0, c0, m, hs, A);
      NextByte(m, hs);
      assert ParseResponse(v0, c0, s, A) == Some(m.(detail := ShiftedPhrase(m.code, s[|StatusLine(m)|])));
    }
    forall detail | ParseResponse(v0, c0, s, A) == Some(m.(detail := detail))
      ensures ResponseWellFormed(m) && c0 != -1
      ensures |StatusLine(m)| < |s| && detail == ShiftedPhrase(m.code, s[|StatusLine(m)|])
      ensures detail != ReasonPhrase(m.code).value
    {
      ResponseNeeds(v0, c0, m, hs, A, detail);
      ResponseComesBack(v0, c0, m, hs, A);
      NextByte(m, hs);
      assert PhraseOk(ReasonPhrase(m.code));
      assert |detail| == |ReasonPhrase(m.code).value| + 2;
    }
  }

  lemma ResponseComesBack(v0: Version, c0: int, m: Response, hs: seq<Pair>, A: seq<string>)
    requires Printable(m.version) && ReasonPhrase(m.code).Some? && Enumerates(hs, m.header)
    requires |A| == |ResponseText(m, hs)|
    requires ResponseWellFormed(m) && c0 != -1
    ensures |StatusLine(m)| < |ResponseText(m, hs)|
    ensures ParseResponse(v0, c0, ResponseText(m, hs), A) ==
            Some(m.(detail := ShiftedPhrase(m.code, ResponseText(m, hs)[|StatusLine(m)|])))
  {
    hide Run, Step, Feed, ReasonPhrase, ReasonText, StatusLine, ResponseText, HeaderOk, Stoi, Enumerates, HeaderLines,
         ShiftedPhrase, Slice, BodySlice;
    FeedBehindTarget(Init(false, v0, c0), ResponseText(m, hs), A);
    LengthExactly(m.header, |m.body|);
    HeaderLinesOk(hs, m.header);
    LengthOfHeader(hs, m.header);
    ResponseRead(v0, c0, m, hs);
    NextByte(m, hs);
    LastSlice(ResponseText(m, hs), m.body);
  }

  lemma LastSlice(s: string, b: string)
    requires 2 <= |b| <= |s| && s[|s| - |b|..] == b
    ensures InBounds(BodySlice(|s| - |b|, |b|), |s|) && Slice(s, BodySlice(|s| - |b|, |b|)) == b
  {
  }

  /** The header block of a text that the parser completes from `p` on. */
  lemma HeadersBehind(p: Parser, a: string, s: string)
    requires p.Live() && AtLine(p.state) && p.header == map[] && p.body == Pos(0, 0) && p.seen == a && p.totalLen == 0
    requires var q := Run(p, s); q.Live() && q.Completed() && TableReadable(q.header, |q.seen|)
    ensures var q := Run(p, s);
            && HeaderOk(Texts(q.seen, q.header))
            && (CONTENT_LENGTH in q.header ==> Stoi(Slice(q.seen, q.header[CONTENT_LENGTH])).Some?)
            && q.totalLen >= 0
  {
    hide Run, Step, LinesText, HeaderTable, KeyChars, ValueOk, Stoi, Slice, LineOk, FinalLength;
    var q := Run(p, s);
    var hs, junk, body := HeaderSound(p, s);
    TailSeg(p, hs, junk, body);
    TailLayout(a, LinesText(hs), junk + CRLF, body);
    forall k | k in q.header
      ensures k != [] && KeyChars(k) && ValueOk(Slice(q.seen, q.header[k]))
      ensures k == CONTENT_LENGTH ==> Stoi(Slice(q.seen, q.header[k])).Some?
    {
      HeaderTexts(q.seen, |a|, hs, map[], k);
      var h := LastValueFrom(hs, k);
      LineParts(h);
    }
  }

  lemma LineParts(h: Line)
    requires LineOk(h)
    ensures h.key != [] && KeyChars(h.key) && ValueOk(h.value)
    ensures h.key == CONTENT_LENGTH ==> Stoi(h.value).Some?
  {
  }

  lemma ResponseNeeds(v0: Version, c0: int, m: Response, hs: seq<Pair>, A: seq<string>, detail: string)
    requires Printable(m.version) && ReasonPhrase(m.code).Some? && Enumerates(hs, m.header)
    requires |A| == |ResponseText(m, hs)|
    requires ParseResponse(v0, c0, ResponseText(m, hs), A) == Some(m.(detail := detail))
    ensures ResponseWellFormed(m) && c0 != -1
  {
    hide Run, Step, Feed, ReasonPhrase, ReasonText, StatusLine, LinesText, HeaderLines, Stoi, Enumerates, HeaderOk;
    var s := ResponseText(m, hs);
    var p, rest := Init(false, v0, c0), LinesText(HeaderLines(hs)) + BodyText(m.body);
    FeedBehindTarget(p, s, A);
    AppendAssoc(StatusLine(m), LinesText(HeaderLines(hs)), BodyText(m.body));
    StatusSeg(v0, c0, m);
    RunConcat(p, StatusLine(m), rest);
    LivePrefix(p, StatusLine(m), rest);
    HeadersBehind(Run(p, StatusLine(m)), StatusLine(m), rest);
    SeenGrows(p, s, A);
    assert p.seen + s == s;
    LengthExactly(m.header, |m.body|);
    HeaderLinesOk(hs, m.header);
    LengthOfHeader(hs, m.header);
    if m.body == [] {
      ResponseNoBlankLine(v0, c0, m, hs);
      assert false;
    }
    ResponseRead(v0, c0, m, hs);
  }

  /** Without a body the written text stops before the blank line, and the parser waits for more. */
  lemma ResponseNoBlankLine(v0: Version, c0: int, m: Response, hs: seq<Pair>)
    requires Printable(m.version) && ReasonPhrase(m.code).Some? && m.body == []
    requires c0 != -1 && forall h :: h in HeaderLines(hs) ==> LineOk(h)
    ensures var p := Run(Init(false, v0, c0), ResponseText(m, hs)); p.Live() && !p.Completed()
  {
    hide Run, Step, Feed, ReasonPhrase, ReasonText, StatusLine, LinesText, HeaderLines, LineOk, HeaderTable,
         FinalLength;
    var p := Init(false, v0, c0);
    StatusSeg(v0, c0, m);
    LinesSeg(Run(p, StatusLine(m)), HeaderLines(hs));
    RunConcat(p, StatusLine(m), LinesText(HeaderLines(hs)));
    assert ResponseText(m, hs) == StatusLine(m) + LinesText(HeaderLines(hs));
  }

  lemma ErrorKeyOk()
    ensures KeyChars("User-Agent") && "User-Agent" != CONTENT_LENGTH
  {
  }

  lemma ErrorValueOk()
    ensures ValueOk("simple server")
  {
  }

  lemma ErrorLinesOk()
    ensures forall h :: h in HeaderLines(ERROR_HEADER) ==> LineOk(h)
  {
    hide Stoi, KeyChars, ValueOk;
    ErrorKeyOk();
    ErrorValueOk();
    assert HeaderLines(ERROR_HEADER) == [Line("User-Agent", 1, "simple server")];
  }

  /** The error responses of the server carry no body, so no parser of this library ever completes one. */
  lemma ErrorResponseNeverCompletes(v0: Version, c0: int, code: int, A: seq<string>)
    requires (code == 400 || code == 404) && c0 != -1
    requires |A| == |ResponseText(ErrorResponse(code), ERROR_HEADER)|
    ensures var p := Feed(Init(false, v0, c0), ResponseText(ErrorResponse(code), ERROR_HEADER), A);
            p.Live() && !p.Completed()
  {
    hide Run, Step, Feed, ReasonText, ResponseText, LineOk;
    FeedBehindTarget(Init(false, v0, c0), ResponseText(ErrorResponse(code), ERROR_HEADER), A);
    ErrorLinesOk();
    ResponseNoBlankLine(v0, c0, ErrorResponse(code), ERROR_HEADER);
  }
}
