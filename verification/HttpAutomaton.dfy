/** The incremental HTTP parser as a function on values.  It copies only keys; of everything else it records
    `(offset, length)` pairs into the bytes received.

    A key is copied from memory without a bound at the bytes counted so far, so what a step does can depend on the bytes
    that lie behind the current one in the same chunk.  `StepAhead` sees them; `Feed` runs it over a byte string; `Step`
    and `Run` are the special case in which every byte comes alone. */
module HttpAutomaton {
  import opened HttpTypes

  /** A slice of the received bytes. */
  datatype Pos = Pos(off: int, len: int)

  datatype Part = Key | Split | Value | End

  /** Fields of the URL state. */
  datatype UrlMatch = UrlMatch(idx: int, keyOff: int, keyLen: int, valOff: int, hasQuery: bool)

  /** Fields of the header state. */
  datatype HeaderMatch = HeaderMatch(
    idx: int, part: Part, emptyLine: bool, keyOff: int, keyLen: int, valOff: int)

  /** The seven state objects of the source with their fields.  Two fields that the source always rewrites
      before reading them (`now_value_len`, twice) are left out. */
  datatype State =
    | StMethod(idx: int)
    | StUrl(url: UrlMatch)
    | StVersion(idx: int, prefix0: bool)
    | StCode(idx: int, d0: int, d1: int, d2: int)
    | StDetail(idx: int, sawCR: bool)
    | StHeader(hdr: HeaderMatch)
    | StBody(idx: int)

  /** How a run can end besides a mismatch: an exception or a failed assertion, or a copy from memory outside the
      message and the chunk at hand, whose outcome the program text does not determine. */
  datatype Fault = NoFault | Thrown | Overread

  /** The parser object.  `seen` is the text at `begin_ptr[0..now_len]`. */
  datatype Parser = Parser(
    isRequest: bool, isMatch: bool, fault: Fault, totalLen: int, seen: string, state: State,
    verb: Method, path: Pos, query: map<string, Pos>, version: Version, code: int, detail: Pos,
    header: map<string, Pos>, body: Pos)
  {
    predicate Live() { isMatch && fault.NoFault? }

    predicate Completed() { state.StBody? && state.idx == totalLen }

    function Mismatch(): Parser { this.(isMatch := false) }

    function Throw(): Parser { this.(fault := Thrown) }

    function Stray(): Parser { this.(fault := Overread) }

    function Goto(st: State): Parser { this.(state := st) }
  }

  const NEW_URL := StUrl(UrlMatch(0, -1, -1, -1, false))
  const NEW_VERSION := StVersion(0, true)
  const NEW_CODE := StCode(0, 0, 0, 0)
  const NEW_DETAIL := StDetail(0, false)
  const NEW_HEADER := StHeader(HeaderMatch(0, Key, false, 0, 0, 0))
  const NEW_BODY := StBody(0)

  /** A new parser.  The source leaves `version` and `code` uninitialised, so both are arguments here. */
  function Init(isRequest: bool, version: Version, code: int): Parser {
    Parser(isRequest, true, NoFault, 0, [], if isRequest then StMethod(0) else NEW_VERSION,
           GET, Pos(0, 0), map[], version, code, Pos(0, 0), map[], Pos(0, 0))
  }

  predicate InBounds(q: Pos, n: int) { 0 <= q.off && 0 <= q.len && q.off + q.len <= n }

  function Slice(s: string, q: Pos): string
    requires InBounds(q, |s|)
  {
    s[q.off..q.off + q.len]
  }

  // In every Step* function `p.seen` already ends with the byte `c`, and l == |p.seen| is `now_len`.

  function StepMethod(p: Parser, c: char): (q: Parser)
    requires p.state.StMethod?
    ensures q.seen == p.seen && q.isRequest == p.isRequest
  {
    var i := p.state.idx;
    var next := StMethod(i + 1);
    if i == 0 then
      if c == 'G' then p.(verb := GET, state := next)
      else if c == 'P' then p.(verb := POST, state := next)
      else p.Goto(next).Mismatch()
    else if 0 <= i < |MethodStr(p.verb)| then
      if c == MethodStr(p.verb)[i] then p.Goto(next) else p.Goto(next).Mismatch()
    else if c == ' ' then p.Goto(NEW_URL)
    else p.Goto(next).Mismatch()
  }

  /** Record a query parameter and move on to state `next`.  The key is `string(begin_ptr + key.off, key.len)`: a
      negative length throws, and a copy that leaves the message and the chunk goes astray. */
  function RecordQuery(p: Parser, key: Pos, val: Pos, next: State, ahead: string): (q: Parser)
    ensures q.seen == p.seen && q.isRequest == p.isRequest
  {
    if key.len < 0 then p.Throw()
    else if !InBounds(key, |p.seen + ahead|) then p.Stray()
    else p.(query := p.query[Slice(p.seen + ahead, key) := val], state := next)
  }

  function StepUrl(p: Parser, c: char, ahead: string): (q: Parser)
    requires p.state.StUrl?
    ensures q.seen == p.seen && q.isRequest == p.isRequest
  {
    var l := |p.seen|;
    var u := p.state.url;
    var next := u.(idx := u.idx + 1);
    if c == '?' then
      p.(path := Pos(p.path.off, l - p.path.off - 1), state := StUrl(next.(keyOff := l, hasQuery := true)))
    else if c == '=' then
      p.Goto(StUrl(next.(keyLen := l - u.keyOff - 1, valOff := l)))
    else if c == '&' then
      RecordQuery(p, Pos(u.keyOff, u.keyLen), Pos(u.valOff, l - 1 - u.valOff),
                  StUrl(next.(keyOff := l, keyLen := -1, valOff := -1)), ahead)
    else if c == ' ' then
      if !u.hasQuery then
        p.(path := Pos(p.path.off, l - p.path.off - 1), state := NEW_VERSION)
      else if u.keyOff == -1 || u.keyLen == -1 || u.valOff == -1 then p.Throw()
      else RecordQuery(p, Pos(u.keyOff, u.keyLen), Pos(u.valOff, l - u.valOff - 1), NEW_VERSION, ahead)
    else if u.idx == 0 then p.(path := Pos(l - 1, p.path.len), state := StUrl(next))
    else p.Goto(StUrl(next))
  }

  const HTTP_SLASH := "HTTP/"

  function StepVersion(p: Parser, c: char): (q: Parser)
    requires p.state.StVersion?
    ensures q.seen == p.seen && q.isRequest == p.isRequest
  {
    var i := p.state.idx;
    var next := p.Goto(StVersion(i + 1, p.state.prefix0));
    if 0 <= i < 5 then if c == HTTP_SLASH[i] then next else next.Mismatch()
    else if i == 5 then
      if c == '0' then p.Goto(StVersion(6, true))
      else if c == '1' then p.Goto(StVersion(6, false))
      else next.Mismatch()
    else if i == 6 then if c == '.' then next else next.Mismatch()
    else if i == 7 then
      if p.state.prefix0 && c == '9' then next.(version := V0_9)
      else if !p.state.prefix0 && c == '0' then next.(version := V1_0)
      else if !p.state.prefix0 && c == '1' then next.(version := V1_1)
      else next.Mismatch()
    else if i == 8 then
      if p.isRequest && c == '\r' then next
      else if !p.isRequest && c == ' ' then p.Goto(NEW_CODE)
      else next.Mismatch()
    else if i == 9 && p.isRequest && c == '\n' then p.Goto(NEW_HEADER)
    else next.Mismatch()
  }

  function LookUpCode(d0: int, d1: int, d2: int): int {
    var code := d0 * 100 + d1 * 10 + d2;
    if ReasonPhrase(code).Some? then code else -1
  }

  function StepCode(p: Parser, c: char): (q: Parser)
    requires p.state.StCode?
    ensures q.seen == p.seen && q.isRequest == p.isRequest
  {
    var StCode(i, d0, d1, d2) := p.state;
    var next := StCode(i + 1, d0, d1, d2);
    var r :=
      if IsDigit(c) && i < 3 then
        p.Goto(if i == 0 then StCode(1, DigitValue(c), d1, d2)
               else if i == 1 then StCode(2, d0, DigitValue(c), d2)
               else StCode(i + 1, d0, d1, DigitValue(c)))
      else if i == 3 && c == ' ' then
        var code := LookUpCode(d0, d1, d2);
        p.(code := code, state := if code == -1 then next else NEW_DETAIL)
      else p.Goto(next).Mismatch();
    if r.code == -1 then r.Mismatch() else r
  }

  /** The slice stored here is the one the source computes; it is not the reason phrase
      (see HttpResponses.ResponseRoundTrip). */
  function StepDetail(p: Parser, c: char): (q: Parser)
    requires p.state.StDetail?
    ensures q.seen == p.seen && q.isRequest == p.isRequest
  {
    var i := p.state.idx;
    var l := |p.seen|;
    if c == '\r' then p.Goto(StDetail(i + 1, true))
    else if p.state.sawCR && c == '\n' then p.(detail := Pos(l - i, i + 1), state := NEW_HEADER)
    else p.Goto(StDetail(i + 1, p.state.sawCR))
  }

  /** A header value has ended: record it, take the body length from `Content-Length`, move on to `next`. */
  function RecordHeader(p: Parser, key: Pos, val: Pos, next: State): (r: Parser)
    ensures r.seen == p.seen && r.isRequest == p.isRequest
  {
    if !InBounds(key, |p.seen|) || !InBounds(val, |p.seen|) then p.Stray()
    else
      var k := Slice(p.seen, key);
      var q := p.(header := p.header[k := val]);
      if k == "Content-Length" then
        var n := Stoi(Slice(p.seen, val));
        if n.Some? then q.(totalLen := n.value, state := next) else q.Throw()
      else q.Goto(next)
  }

  function StepHeader(p: Parser, c: char): (q: Parser)
    requires p.state.StHeader?
    ensures q.seen == p.seen && q.isRequest == p.isRequest
  {
    var l := |p.seen|;
    var h := p.state.hdr;
    var next := h.(idx := h.idx + 1);
    match h.part
    case Key =>
      if c == '\r' then p.Goto(StHeader(next.(part := End, emptyLine := true)))
      else if h.idx == 0 then p.Goto(StHeader(next.(keyOff := l - 1)))
      else if c == ':' then p.Goto(StHeader(next.(part := Split, keyLen := l - h.keyOff - 1)))
      else p.Goto(StHeader(next))
    case Split =>
      if c != ' ' then p.Goto(StHeader(next.(part := Value, valOff := l - 1))) else p.Goto(StHeader(next))
    case Value =>
      if c == '\r' then
        RecordHeader(p, Pos(h.keyOff, h.keyLen), Pos(h.valOff, l - h.valOff - 1), StHeader(next.(part := End)))
      else p.Goto(StHeader(next))
    case End =>
      if c == '\n' && h.emptyLine then p.Goto(NEW_BODY)
      else if c == '\n' then p.Goto(StHeader(next.(part := Key, idx := 0)))
      else p.Goto(StHeader(next)).Mismatch()
  }

  function StepBody(p: Parser, c: char): (q: Parser)
    requires p.state.StBody?
    ensures q.seen == p.seen && q.isRequest == p.isRequest
  {
    var l := |p.seen|;
    var i := p.state.idx;
    var next := p.Goto(StBody(i + 1));
    if i == 0 then next.(body := Pos(l - 1, p.body.len))
    else if i == p.totalLen - 1 then next.(body := Pos(p.body.off, l - p.body.off))
    else next
  }

  /** One byte of input, with `ahead` behind it in the chunk: count it, then let the current state match it. */
  function StepAhead(p0: Parser, c: char, ahead: string): (q: Parser)
    ensures q.seen == p0.seen + [c] && q.isRequest == p0.isRequest
  {
    var p := p0.(seen := p0.seen + [c]);
    match p.state
    case StMethod(_) => StepMethod(p, c)
    case StUrl(_) => StepUrl(p, c, ahead)
    case StVersion(_, _) => StepVersion(p, c)
    case StCode(_, _, _, _) => StepCode(p, c)
    case StDetail(_, _) => StepDetail(p, c)
    case StHeader(_) => StepHeader(p, c)
    case StBody(_) => StepBody(p, c)
  }

  /** One byte that comes alone. */
  function Step(p: Parser, c: char): (q: Parser)
    ensures q.seen == p.seen + [c] && q.isRequest == p.isRequest
  {
    StepAhead(p, c, [])
  }

  /** Feed the bytes of `s`; behind byte i the bytes `ahead[i]` can be seen.  A parser that has failed takes no
      more. */
  function Feed(p: Parser, s: string, ahead: seq<string>): Parser
    requires |ahead| == |s|
    decreases |s|
  {
    if s == [] || !p.Live() then p else Feed(StepAhead(p, s[0], ahead[0]), s[1..], ahead[1..])
  }

  /** What lies behind each byte of a chunk. */
  function Suffixes(s: string): (t: seq<string>)
    ensures |t| == |s|
  {
    seq(|s|, i requires 0 <= i < |s| => s[i + 1..])
  }

  /** One call of the parser: a chunk in one piece. */
  function Call(p: Parser, chunk: string): Parser {
    Feed(p, chunk, Suffixes(chunk))
  }

  /** Feed the bytes of `s` one by one. */
  function Run(p: Parser, s: string): Parser
    decreases |s|
  {
    if s == [] || !p.Live() then p else Run(Step(p, s[0]), s[1..])
  }

  /** The text behind a table of slices. */
  function Texts(seen: string, table: map<string, Pos>): map<string, string>
    requires forall k :: k in table ==> InBounds(table[k], |seen|)
  {
    map k | k in table :: Slice(seen, table[k])
  }
}
