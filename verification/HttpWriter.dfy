/** The message writer: the text it hands to its callback, and the class that produces it. */
module HttpWriter {
  import opened HttpTypes
  import opened HttpSegments

  /** `ps` lists the entries of `m`, each once, in some order: the order an unordered map is iterated in. */
  ghost predicate Enumerates(ps: seq<Pair>, m: map<string, string>) {
    && (forall i, j :: 0 <= i < j < |ps| ==> ps[i].0 != ps[j].0)
    && (forall i :: 0 <= i < |ps| ==> ps[i].0 in m && m[ps[i].0] == ps[i].1)
    && (forall k :: k in m ==> exists i :: 0 <= i < |ps| && ps[i].0 == k)
  }

  /** The writer puts one blank after the colon. */
  function HeaderLines(hs: seq<Pair>): seq<Line> {
    if hs == [] then [] else [Line(hs[0].0, 1, hs[0].1)] + HeaderLines(hs[1..])
  }

  /** No blank line is written in front of an empty body. */
  function BodyText(body: string): string {
    if body == [] then [] else CRLF + body
  }

  function RequestLine(m: Request, qs: seq<Pair>): string
    requires Printable(m.version)
  {
    MethodStr(m.verb) + " " + (TargetText(m.path, qs) + " ") + (VersionStr(m.version) + CRLF)
  }

  function RequestText(m: Request, qs: seq<Pair>, hs: seq<Pair>): string
    requires Printable(m.version)
  {
    RequestLine(m, qs) + LinesText(HeaderLines(hs)) + BodyText(m.body)
  }

  /** The phrase the table gives; the empty one for a code outside it. */
  function ReasonText(code: int): string {
    var phrase := ReasonPhrase(code);
    if phrase.Some? then phrase.value else ""
  }

  function StatusLine(m: Response): string
    requires Printable(m.version)
  {
    VersionStr(m.version) + " " + (ToString(m.code) + " ") + (ReasonText(m.code) + CRLF)
  }

  function ResponseText(m: Response, hs: seq<Pair>): string
    requires Printable(m.version)
  {
    StatusLine(m) + LinesText(HeaderLines(hs)) + BodyText(m.body)
  }

  const ERROR_HEADER: seq<Pair> := [("User-Agent", "simple server")]

  /** The answer to a request that is refused: version 1.0, the phrase of the table, one header, no body. */
  function ErrorResponse(code: int): Response {
    Response(V1_0, code, ReasonText(code), map["User-Agent" := "simple server"], [])
  }

  function JoinedPairs(qs: seq<Pair>): string {
    if qs == [] then [] else JoinedPairs(qs[..|qs| - 1]) + PairText(qs[|qs| - 1]) + "&"
  }

  /** Replacing the trailing `&` leaves the pairs joined by `&`. */
  lemma {:induction false} JoinedIsQueryText(qs: seq<Pair>)
    requires qs != []
    ensures JoinedPairs(qs) == QueryText(qs) + "&"
    decreases |qs|
  {
    if |qs| > 1 {
      JoinedFront(qs);
      JoinedIsQueryText(qs[1..]);
      assert PairText(qs[0]) + "&" + (QueryText(qs[1..]) + "&") == QueryText(qs) + "&";
    } else {
      assert JoinedPairs(qs[..0]) == "";
    }
  }

  lemma {:induction false} JoinedFront(qs: seq<Pair>)
    requires qs != []
    ensures JoinedPairs(qs) == PairText(qs[0]) + "&" + JoinedPairs(qs[1..])
    decreases |qs|
  {
    var n := |qs| - 1;
    if n > 0 {
      hide PairText;
      JoinedFront(qs[..n]);
      assert qs[..n][1..] == qs[1..][..n - 1];
      assert JoinedPairs(qs[1..]) == JoinedPairs(qs[..n][1..]) + PairText(qs[n]) + "&";
    } else {
      assert JoinedPairs(qs[..0]) == "" && JoinedPairs(qs[1..]) == "";
    }
  }

  lemma {:induction false} HeaderLinesAppend(hs: seq<Pair>, kv: Pair)
    ensures LinesText(HeaderLines(hs + [kv])) == LinesText(HeaderLines(hs)) + (kv.0 + ": " + kv.1 + CRLF)
    decreases |hs|
  {
    if hs == [] {
      assert Blanks(1) == " ";
      assert hs + [kv] == [kv];
      assert HeaderLines([kv]) == [Line(kv.0, 1, kv.1)];
      assert LineText(Line(kv.0, 1, kv.1)) == kv.0 + ": " + kv.1 + CRLF;
    } else {
      hide LineText;
      assert (hs + [kv])[1..] == hs[1..] + [kv];
      HeaderLinesAppend(hs[1..], kv);
    }
  }

  class MessageWriter {
    /** Everything the callback has been given so far. */
    var output: string

    constructor ()
      ensures output == []
    {
      output := [];
    }

    method Emit(s: string)
      modifies this
      ensures output == old(output) + s
    {
      output := output + s;
    }

    method WriteRequest(me: Request, query: seq<Pair>, header: seq<Pair>)
      requires Printable(me.version) && Enumerates(query, me.query) && Enumerates(header, me.header)
      modifies this
      ensures output == old(output) + RequestText(me, query, header)
    {
      hide TargetText, VersionStr, MethodStr, LinesText, BodyText;
      var line := MethodStr(me.verb) + " ";
      var target := WriteTarget(me.path, query);
      line := line + target;
      line := line + (VersionStr(me.version) + CRLF);
      Emit(line);
      WriteHeaderBody(header, me.body);
      assert output == old(output) + RequestText(me, query, header);
    }

    /** The path and the parameters; the `&` after the last parameter becomes the blank after the target. */
    method WriteTarget(path: string, query: seq<Pair>) returns (target: string)
      ensures target == TargetText(path, query) + " "
    {
      hide PairText;
      target := path;
      if |query| != 0 {
        target := target + "?";
        for i := 0 to |query|
          invariant target == path + "?" + JoinedPairs(query[..i])
        {
          assert query[..i + 1][..i] == query[..i];
          target := target + (PairText(query[i]) + "&");
        }
        assert query[..|query|] == query;
        JoinedIsQueryText(query);
        target := target[|target| - 1 := ' '];
      } else {
        target := target + " ";
      }
    }

    method WriteResponse(me: Response, header: seq<Pair>)
      requires Printable(me.version) && Enumerates(header, me.header)
      modifies this
      ensures output == old(output) + ResponseText(me, header)
    {
      var line := VersionStr(me.version) + " ";
      line := line + (ToString(me.code) + " ");
      line := line + (ReasonText(me.code) + CRLF);
      Emit(line);
      WriteHeaderBody(header, me.body);
    }

    method WriteHeaderBody(header: seq<Pair>, body: string)
      modifies this
      ensures output == old(output) + LinesText(HeaderLines(header)) + BodyText(body)
    {
      var text := "";
      for i := 0 to |header|
        invariant text == LinesText(HeaderLines(header[..i]))
        invariant output == old(output)
      {
        assert header[..i + 1] == header[..i] + [header[i]];
        HeaderLinesAppend(header[..i], header[i]);
        text := text + (header[i].0 + ": " + header[i].1 + CRLF);
      }
      assert header[..|header|] == header;
      Emit(text);
      if |body| != 0 {
        Emit(CRLF);
        Emit(body);
        AppendAssoc(old(output) + text, CRLF, body);
      } else {
        assert output == output + BodyText(body);
      }
    }

    /** Only 400 and 404 are written this way. */
    method WriteErrorResponse(code: int)
      requires code == 400 || code == 404
      modifies this
      ensures ReasonPhrase(code).Some?
      ensures output == old(output) + ResponseText(ErrorResponse(code), ERROR_HEADER)
    {
      hide ResponseText;
      assert ERROR_HEADER[0].0 == "User-Agent";
      WriteResponse(ErrorResponse(code), ERROR_HEADER);
    }
  }
}
