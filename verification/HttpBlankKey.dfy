/** A request that is not well formed and comes back all the same, in one call: why HttpRoundTrip.RequestRoundTrip
    asks for keys without blanks. */
module HttpBlankKey {
  import opened HttpTypes
  import opened HttpAutomaton
  import opened HttpSegments
  import opened HttpGrammar
  import opened HttpMessages
  import opened HttpBorrowing
  import opened HttpWriter
  import opened HttpRoundTrip

  const KEY := "c HTTP/1.1\r\nA: b"

  /** Its one key holds a blank, and its path holds a `=` to borrow. */
  function BlankKey(): Request {
    Request(GET, "/xxxxxxxxxx=b", map[KEY := "b?c"], V1_1, map["A" := "b=b?c HTTP/1.1", "Content-Length" := "2"], "hi")
  }

  const QUERY: seq<Pair> := [(KEY, "b?c")]
  const HEADER: seq<Pair> := [("A", "b=b?c HTTP/1.1"), ("Content-Length", "2")]

  const LINE := Line("A", 1, "b=b?c HTTP/1.1")
  const LENGTH := Line("Content-Length", 1, "2")

  /** The pieces the parser makes of it: the target ends inside the key, and the rest of the key reads as a version
      and the start of a header line. */
  function Pieces(): RequestParts {
    RequestParts(GET, BorrowTarget("/xxxxxxxxxx", "b", "c"), V1_1, [LINE, LINE, LENGTH], "", "hi")
  }

  lemma LinesOfHeader()
    ensures HeaderLines(HEADER) == [LINE, LENGTH]
  {
    assert HeaderLines(HEADER[1..]) == [LENGTH] + HeaderLines([]);
  }

  lemma LineWritten()
    ensures LineText(LINE) == "A: b=b?c HTTP/1.1\r\n"
  {
    assert Blanks(1) == " ";
  }

  /** The parameter, the blank, the version and the line end, read as a one-byte target, a version and a header
      line. */
  lemma KeyReadAgain()
    ensures QueryText(QUERY) + " " + "HTTP/1.1\r\n" == "c " + ("HTTP/1.1\r\n" + LineText(LINE))
  {
    LineWritten();
  }

  lemma Regroup(g: string, t: string, q: string, v: string, x: string, line: string, l: string, e: string, b: string)
    requires q + " " + v == x + (v + line)
    ensures g + (t + "?" + q + " ") + v + l + (e + b) == g + (t + "?" + x) + (v + ((line + l) + ([] + e) + b))
  {
    var whole := g + (t + "?") + (q + " " + v) + l + e + b;
    assert g + (t + "?" + q + " ") + v + l + (e + b) == whole;
    assert whole == g + (t + "?" + x) + (v + ((line + l) + ([] + e) + b));
  }

  const HEAD := "GET /xxxxxxxxxx=b?c "

  lemma VersionLine()
    ensures VersionStr(V1_1) + CRLF == "HTTP/1.1\r\n"
  {
  }

  lemma SameTarget()
    ensures Pieces().ToVersion() == HEAD == "GET " + ("/xxxxxxxxxx=b" + "?" + "c ")
  {
  }

  lemma SameText()
    ensures RequestText(BlankKey(), QUERY, HEADER) == Pieces().Text()
  {
    hide LineText, HeaderLines, QueryText;
    var d, l, v := Pieces(), LinesText([LINE, LENGTH]), "HTTP/1.1\r\n";
    assert [LINE, LINE, LENGTH] == [LINE] + [LINE, LENGTH];
    assert LinesText(d.lines) == LineText(LINE) + l;
    hide LinesText;
    LinesOfHeader();
    VersionLine();
    hide VersionStr;
    assert RequestLine(BlankKey(), QUERY) == "GET " + ("/xxxxxxxxxx=b" + "?" + QueryText(QUERY) + " ") + v;
    TextSplit(d);
    SameTarget();
    hide RequestParts.ToVersion, RequestLine;
    assert d.Text() == "GET " + ("/xxxxxxxxxx=b" + "?" + "c ") + (v + ((LineText(LINE) + l) + ([] + CRLF) + "hi"));
    KeyReadAgain();
    Regroup("GET ", "/xxxxxxxxxx=b", QueryText(QUERY), v, "c ", LineText(LINE), l, CRLF, "hi");
  }

  lemma TwoIsNumber()
    ensures Stoi("2") == Some(2)
  {
    assert SkipSpaces("2") == "2";
    assert ReadDigits("2", 0) == ReadDigits("2"[1..], 2) == 2;
  }

  lemma LineIsOk()
    ensures LineOk(LINE)
  {
    hide Stoi;
    assert KeyChars("A") && "A" != CONTENT_LENGTH;
  }

  lemma LengthKeyIsOk()
    ensures KeyChars(CONTENT_LENGTH)
  {
  }

  lemma LengthIsOk()
    ensures LineOk(LENGTH)
  {
    hide Stoi, KeyChars;
    TwoIsNumber();
    LengthKeyIsOk();
  }

  lemma PiecesOk()
    ensures Pieces().Ok()
  {
    hide LineOk;
    LineIsOk();
    LengthIsOk();
  }

  lemma PiecesLength()
    ensures FinalLength([LINE, LINE, LENGTH], 0) == 2
  {
    hide Stoi;
    TwoIsNumber();
    assert FinalLength([LINE, LINE, LENGTH][1..], 0) == FinalLength([LINE, LENGTH][1..], 0)
        == FinalLength([LENGTH][1..], 2);
  }

  /** The slices in the target. */
  lemma TargetSlices(seen: string)
    requires HEAD <= seen
    ensures InBounds(Pos(4, 13), |seen|) && Slice(seen, Pos(4, 13)) == "/xxxxxxxxxx=b"
    ensures InBounds(Pos(16, 3), |seen|) && Slice(seen, Pos(16, 3)) == "b?c"
  {
    assert seen[..20] == HEAD;
    assert seen[4..17] == HEAD[4..17];
    assert seen[16..19] == HEAD[16..19];
  }

  lemma LastValues(k: string)
    ensures LastValue([LINE, LINE, LENGTH], k) == if k in BlankKey().header then Some(BlankKey().header[k]) else None
  {
    assert LastValue([LENGTH], k) == if k == LENGTH.key then Some(LENGTH.value) else None;
    assert [LINE, LINE, LENGTH][1..] == [LINE, LENGTH] && [LINE, LENGTH][1..] == [LENGTH];
  }

  lemma HeaderSlices(p: Parser)
    requires p.seen == Pieces().Text() && p.header == HeaderTable(|Pieces().StartLine()|, Pieces().lines, map[])
    ensures TableReadable(p.header, |p.seen|) && Texts(p.seen, p.header) == BlankKey().header
    ensures InBounds(Pos(|p.seen| - 2, 2), |p.seen|) && Slice(p.seen, Pos(|p.seen| - 2, 2)) == "hi"
  {
    hide HeaderTable, LinesText, VersionStr, LastValue, Slice;
    var d := Pieces();
    Layout(d.ToTarget(), d.target, VersionStr(V1_1) + CRLF, LinesText(d.lines), [] + CRLF, "hi");
    forall k ensures k in p.header <==> k in BlankKey().header
             ensures k in p.header ==>
                       InBounds(p.header[k], |p.seen|) && Slice(p.seen, p.header[k]) == BlankKey().header[k]
    {
      HeaderTexts(p.seen, |d.StartLine()|, d.lines, map[], k);
      LastValues(k);
    }
    SliceInside(p.seen, |p.seen| - 2, "hi", 0, "hi");
  }

  /** What lies behind the blank begins with the rest of the key. */
  lemma KeyCopiedAhead(rest: string)
    requires "HTTP/1.1\r\n" + LineText(LINE) <= rest
    ensures |rest| >= 14 && ("c" + " " + rest)[..16] == KEY
  {
    hide LineText;
    KeyReadAgain();
    var t := QueryText(QUERY) + " " + "HTTP/1.1\r\n";
    assert t == "c " + ("HTTP/1.1\r\n" + LineText(LINE));
    assert KEY <= t;
    assert t <= "c" + " " + rest;
  }

  lemma RestStarts()
    ensures HEAD <= Pieces().Text() && "HTTP/1.1\r\n" + LineText(LINE) <= Pieces().Text()[|HEAD|..]
  {
    hide LineText;
    var d, v := Pieces(), "HTTP/1.1\r\n";
    TextSplit(d);
    SameTarget();
    VersionLine();
    hide RequestParts.ToVersion, VersionStr;
    var l := LinesText([LINE, LENGTH]);
    assert [LINE, LINE, LENGTH][1..] == [LINE, LENGTH];
    assert LinesText(d.lines) == LineText(LINE) + l;
    hide LinesText;
    assert d.Text() == HEAD + ((v + LineText(LINE)) + (l + ([] + CRLF) + "hi"));
  }

  lemma BlankKeyRead(v0: Version, c0: int)
    ensures var s := Pieces().Text();
            var p := Feed(Init(true, v0, c0), s, Suffixes(s));
            && p.Live() && p.Completed() && p.seen == s && p.verb == GET && p.version == V1_1
            && p.path == Pos(4, 13) && p.query == map[KEY := Pos(16, 3)]
            && p.header == HeaderTable(|Pieces().StartLine()|, Pieces().lines, map[])
            && p.body == Pos(|s| - 2, 2) && HEAD <= s
  {
    hide Feed, LineText, LinesText, HeaderTable, RequestParts.Text, RequestParts.Ok, FinalLength;
    var d := Pieces();
    var s := d.Text();
    SameTarget();
    PiecesOk();
    PiecesLength();
    RestStarts();
    KeyCopiedAhead(s[|HEAD|..]);
    hide RequestParts.ToVersion;
    BorrowRead(v0, c0, d, Suffixes(s), "/xxxxxxxxxx", "b", "c");
    assert Suffixes(s)[|HEAD| - 1] == s[|HEAD|..];
  }

  lemma NotWellFormed()
    ensures !WellFormed(BlankKey())
  {
    hide PathOk, HiddenAgain, HeaderOk, LengthIs;
    var m := BlankKey();
    assert KEY in m.query && KEY[1] == ' ';
    assert !QueryOk((KEY, m.query[KEY]));
  }

  lemma ParameterText(seen: string, table: map<string, Pos>)
    requires table == map[KEY := Pos(16, 3)] && InBounds(Pos(16, 3), |seen|) && Slice(seen, Pos(16, 3)) == "b?c"
    ensures Texts(seen, table) == BlankKey().query
  {
    assert KEY in table;
  }

  /** Written and handed over in one call, it comes back unchanged. */
  lemma BlankKeyComesBack(v0: Version, c0: int)
    ensures var s := RequestText(BlankKey(), QUERY, HEADER);
            ParseRequest(v0, c0, s, Suffixes(s)) == Some(BlankKey())
    ensures !WellFormed(BlankKey())
  {
    hide Feed, RequestText, LineText, LinesText, HeaderTable, RequestParts.Text, Slice, WellFormed, Texts;
    var s := Pieces().Text();
    SameText();
    BlankKeyRead(v0, c0);
    var p := Feed(Init(true, v0, c0), s, Suffixes(s));
    TargetSlices(s);
    HeaderSlices(p);
    CompletedReadable(v0, c0, s, Suffixes(s));
    ParameterText(s, p.query);
    NotWellFormed();
  }
}
