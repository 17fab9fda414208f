/** Messages in full, byte by byte: the other theorems speak of a writer and a parser that agree, these of what they
    agree on. */
module HttpExamples {
  import opened HttpTypes
  import opened HttpNumbers
  import opened HttpSegments
  import opened HttpMessages
  import opened HttpWriter
  import opened HttpRoundTrip

  const FORM := "POST /a?k=v HTTP/1.1\r\n" + "Content-Length: 10\r\n" + "\r\n0123456789"

  const QUERY: seq<Pair> := [("k", "v")]
  const HEADER: seq<Pair> := [("Content-Length", "10")]

  function Form(): Request {
    Request(POST, "/a", map["k" := "v"], V1_1, map["Content-Length" := "10"], "0123456789")
  }

  lemma OneLine(key: string, value: string)
    ensures LinesText(HeaderLines([(key, value)])) == key + ": " + value + "\r\n"
  {
    assert Blanks(1) == " ";
    assert HeaderLines([(key, value)]) == [Line(key, 1, value)];
    assert LinesText([Line(key, 1, value)]) == LineText(Line(key, 1, value)) + LinesText([]);
  }

  lemma FormLine()
    ensures RequestLine(Form(), QUERY) == "POST /a?k=v HTTP/1.1\r\n"
  {
  }

  lemma FormBody()
    ensures BodyText("0123456789") == "\r\n0123456789"
  {
  }

  lemma FormText()
    ensures RequestText(Form(), QUERY, HEADER) == FORM
  {
    hide LinesText, HeaderLines, RequestLine, BodyText;
    OneLine("Content-Length", "10");
    HeaderLineText();
    FormLine();
    FormBody();
  }

  lemma HeaderLineText()
    ensures "Content-Length" + ": " + "10" + "\r\n" == "Content-Length: 10\r\n"
  {
  }

  lemma KeyIsOk()
    ensures KeyChars("Content-Length")
  {
  }

  lemma FormIsWellFormed()
    ensures WellFormed(Form())
  {
    hide KeyChars, Denotes, QueryOk;
    KeyIsOk();
    Numerals();
    LengthExactly(Form().header, 10);
    assert QueryOk(("k", "v")) by { ParameterOk(); }
    PathIsOk(TargetBase(POST));
  }

  lemma ParameterOk()
    ensures QueryOk(("k", "v"))
  {
  }

  lemma PathIsOk(base: nat)
    ensures PathOk(base, "/a")
    ensures forall i :: 0 <= i < 2 ==> "/a"[i] != '&'
  {
  }

  /** This text is a posted form with a body of ten bytes, however it is cut into calls. */
  lemma FormIsParsed(v0: Version, c0: int, A: seq<string>)
    requires |A| == |FORM|
    ensures ParseRequest(v0, c0, FORM, A) == Some(Form())
  {
    hide ParseRequest, RequestText, WellFormed;
    FormText();
    FormIsWellFormed();
    assert QUERY[0].0 == "k" && HEADER[0].0 == "Content-Length";
    RequestRoundTrip(v0, c0, Form(), QUERY, HEADER, A);
  }

  lemma BadRequestLine()
    ensures StatusLine(ErrorResponse(400)) == "HTTP/1.0 400 Bad Request\r\n"
  {
    hide ToString;
    CodeTexts();
  }

  lemma NotFoundLine()
    ensures StatusLine(ErrorResponse(404)) == "HTTP/1.0 404 Not Found\r\n"
  {
    hide ToString;
    CodeTexts();
  }

  /** The two answers to a request that is refused. */
  lemma ErrorTexts()
    ensures ResponseText(ErrorResponse(400), ERROR_HEADER) ==
            "HTTP/1.0 400 Bad Request\r\n" + "User-Agent: simple server\r\n"
    ensures ResponseText(ErrorResponse(404), ERROR_HEADER) ==
            "HTTP/1.0 404 Not Found\r\n" + "User-Agent: simple server\r\n"
  {
    OneLine("User-Agent", "simple server");
    AgentLine();
    BadRequestLine();
    NotFoundLine();
    hide LinesText, HeaderLines, StatusLine, ReasonText;
    AppendNothing("HTTP/1.0 400 Bad Request\r\n" + "User-Agent: simple server\r\n");
    AppendNothing("HTTP/1.0 404 Not Found\r\n" + "User-Agent: simple server\r\n");
  }

  lemma AgentLine()
    ensures "User-Agent" + ": " + "simple server" + "\r\n" == "User-Agent: simple server\r\n"
  {
  }

  lemma AppendNothing(s: string)
    ensures s + [] == s
  {
  }

  lemma CodeTexts()
    ensures ToString(400) == "400" && ToString(404) == "404"
  {
    ToStringOfCode(400);
    ToStringOfCode(404);
  }
}
