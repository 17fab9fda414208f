/** The parser object: it is handed chunks of memory, keeps only offsets into them, and reads the text behind the
    offsets through `beginPtr`, which every call moves to where the first byte of the message now lies. */
module HttpParser {
  import opened HttpTypes
  import opened HttpAutomaton
  import opened HttpSegments
  import opened HttpChunking
  import opened HttpGrammar
  import opened HttpMessages

  /** What a call to the parser does: return its verdict, leave by an exception or a failed assertion, or copy from
      memory outside the message and the chunk. */
  datatype Outcome = Returned(match_: bool) | Threw | Strayed

  lemma CutInside(s: string, b: nat, n: nat, o: nat, k: nat)
    requires b + n <= |s| && o + k <= n
    ensures s[b..b + n][o..o + k] == s[b + o..b + o + k]
  {
    var t, u := s[b..b + n][o..o + k], s[b + o..b + o + k];
    forall i | 0 <= i < k ensures t[i] == u[i] {
      assert s[b..b + n][o + i] == s[b + o + i];
    }
  }

  lemma CutNext(s: string, b: nat, i: nat)
    requires b + i < |s|
    ensures s[b..b + i + 1] == s[b..b + i] + [s[b + i]]
  {
  }

  lemma IsLive(p: Parser)
    ensures p.Live() <==> p.isMatch && p.fault.NoFault?
  {
  }

  lemma CallDead(p: Parser, c: string)
    requires !p.Live()
    ensures Call(p, c) == p
  {
    FeedDead(p, c, Suffixes(c));
  }

  lemma NothingFed(p: Parser, s: string)
    ensures Feed(p, s[..0], Suffixes(s)[..0]) == p
  {
  }

  lemma OneMoreFed(p: Parser, s: string, i: nat)
    requires i < |s| && Feed(p, s[..i], Suffixes(s)[..i]).Live()
    ensures Feed(p, s[..i + 1], Suffixes(s)[..i + 1]) == StepAhead(Feed(p, s[..i], Suffixes(s)[..i]), s[i], s[i + 1..])
  {
    hide Feed, StepAhead;
    var A := Suffixes(s);
    FeedSnoc(p, s[..i], s[i], A[..i], A[i]);
    assert s[..i + 1] == s[..i] + [s[i]] && A[..i + 1] == A[..i] + [A[i]];
  }

  lemma DeadEarly(p: Parser, s: string, i: nat)
    requires i <= |s| && !Feed(p, s[..i], Suffixes(s)[..i]).Live()
    ensures Call(p, s) == Feed(p, s[..i], Suffixes(s)[..i])
  {
    hide Feed;
    FeedCut(p, s, i, Suffixes(s));
    FeedDead(Feed(p, s[..i], Suffixes(s)[..i]), s[i..], Suffixes(s)[i..]);
  }

  lemma AllFed(p: Parser, s: string)
    ensures Call(p, s) == Feed(p, s[..|s|], Suffixes(s)[..|s|])
  {
    assert s[..|s|] == s && Suffixes(s)[..|s|] == Suffixes(s);
  }

  /** Recording a parameter and moving on are two things. */
  lemma RecordThenGo(p: Parser, key: Pos, val: Pos, next: State, ahead: string)
    requires p.fault.NoFault?
    ensures var q := RecordQuery(p, key, val, p.state, ahead);
            && RecordQuery(p, key, val, next, ahead) == (if q.fault.NoFault? then q.Goto(next) else q)
            && q.isMatch == p.isMatch
  {
  }

  class MessageParser {
    const isRequest: bool
    var isMatch: bool
    var fault: Fault
    var totalLen: int
    var nowLen: nat
    var nowChar: char
    var beginPtr: int
    var state: State
    var nextState: Option<State>
    var verb: Method
    var path: Pos
    var query: map<string, Pos>
    var version: Version
    var code: int
    var detail: Pos
    var header: map<string, Pos>
    var body: Pos
    /** The bytes received, which lie at `beginPtr` in memory. */
    ghost var seen: string

    ghost predicate Valid()
      reads this
    {
      nowLen == |seen|
    }

    ghost function View(): Parser
      reads this
    {
      Parser(isRequest, isMatch, fault, totalLen, seen, state, verb, path, query, version, code, detail, header, body)
    }

    /** The view once the state the last match asked for has replaced the current one. */
    ghost function Committed(): Parser
      reads this
    {
      if isMatch && nextState.Some? then View().Goto(nextState.value) else View()
    }

    /** The bytes received lie at `at` in `mem`. */
    ghost predicate Holds(mem: array<char>, at: int)
      reads this, mem
    {
      Valid() && 0 <= at && at + nowLen <= mem.Length && mem[at..at + nowLen] == seen
    }

    /** `version` and `code` are left uninitialised by the source; their first values are arguments here. */
    constructor (isRequest: bool, version: Version, code: int)
      ensures Valid() && View() == Init(isRequest, version, code) && nextState == None
    {
      this.isRequest := isRequest;
      isMatch, fault, totalLen, nowLen, nowChar, beginPtr := true, NoFault, 0, 0, '\0', 0;
      state := if isRequest then StMethod(0) else NEW_VERSION;
      nextState := None;
      verb, path, query, detail, header, body := GET, Pos(0, 0), map[], Pos(0, 0), map[], Pos(0, 0);
      this.version, this.code := version, code;
      seen := [];
    }

    method MatchMethod()
      requires state.StMethod? && nextState == None && View().Live()
      modifies this`isMatch, this`state, this`nextState, this`verb
      ensures Committed() == StepMethod(old(View()), nowChar)
    {
      isMatch := true;
      var i := state.idx;
      var name := MethodStr(verb);
      if i == 0 {
        if nowChar == 'G' {
          verb := GET;
        } else if nowChar == 'P' {
          verb := POST;
        } else {
          isMatch := false;
        }
      } else if 0 <= i < |name| {
        if nowChar != name[i] { isMatch := false; }
      } else if nowChar == ' ' {
        nextState := Some(NEW_URL);
      } else {
        isMatch := false;
      }
      state := StMethod(i + 1);
    }

    method MatchUrl(mem: array<char>, end: nat)
      requires state.StUrl? && nextState == None && View().Live() && Holds(mem, beginPtr)
      requires beginPtr + nowLen <= end <= mem.Length
      modifies this`fault, this`state, this`nextState, this`path, this`query
      ensures Committed() == StepUrl(old(View()), nowChar, mem[beginPtr + nowLen..end])
    {
      hide RecordQuery;
      var l, u := nowLen, state.url;
      var next := u.(idx := u.idx + 1);
      if nowChar == '?' {
        path := Pos(path.off, l - path.off - 1);
        next := next.(keyOff := l, hasQuery := true);
      } else if nowChar == '=' {
        next := next.(keyLen := l - u.keyOff - 1, valOff := l);
      } else if nowChar == '&' {
        MatchAmpersand(mem, end, u);
        return;
      } else if nowChar == ' ' {
        if u.hasQuery { MatchBlank(mem, end, u); return; }
        path := Pos(path.off, l - path.off - 1);
        nextState := Some(NEW_VERSION);
      } else if u.idx == 0 {
        path := Pos(l - 1, path.len);
      }
      state := StUrl(next);
    }

    /** The `&` that ends a parameter. */
    method MatchAmpersand(mem: array<char>, end: nat, u: UrlMatch)
      requires state == StUrl(u) && nextState == None && View().Live() && Holds(mem, beginPtr)
      requires beginPtr + nowLen <= end <= mem.Length
      modifies this`fault, this`state, this`nextState, this`path, this`query
      ensures Committed() == StepUrl(old(View()), '&', mem[beginPtr + nowLen..end])
    {
      hide RecordQuery;
      var key, val := Pos(u.keyOff, u.keyLen), Pos(u.valOff, nowLen - 1 - u.valOff);
      var next := StUrl(UrlMatch(u.idx + 1, nowLen, -1, -1, u.hasQuery));
      RecordThenGo(View(), key, val, next, mem[beginPtr + nowLen..end]);
      var ok := RecordKey(mem, end, key, val);
      if ok { state := next; }
    }

    /** The blank that ends the last parameter. */
    method MatchBlank(mem: array<char>, end: nat, u: UrlMatch)
      requires state == StUrl(u) && u.hasQuery && nextState == None && View().Live() && Holds(mem, beginPtr)
      requires beginPtr + nowLen <= end <= mem.Length
      modifies this`fault, this`state, this`nextState, this`path, this`query
      ensures Committed() == StepUrl(old(View()), ' ', mem[beginPtr + nowLen..end])
    {
      hide RecordQuery;
      if u.keyOff == -1 || u.keyLen == -1 || u.valOff == -1 { fault := Thrown; return; }
      var key, val := Pos(u.keyOff, u.keyLen), Pos(u.valOff, nowLen - u.valOff - 1);
      RecordThenGo(View(), key, val, NEW_VERSION, mem[beginPtr + nowLen..end]);
      var ok := RecordKey(mem, end, key, val);
      if !ok { return; }
      nextState := Some(NEW_VERSION);
      state := StUrl(u.(idx := u.idx + 1));
    }

    /** Copy a key from memory, as far as the chunk reaches, and record its parameter. */
    method RecordKey(mem: array<char>, end: nat, key: Pos, val: Pos) returns (ok: bool)
      requires fault.NoFault? && Holds(mem, beginPtr) && beginPtr + nowLen <= end <= mem.Length
      modifies this`fault, this`query
      ensures View() == RecordQuery(old(View()), key, val, state, mem[beginPtr + nowLen..end])
      ensures ok == fault.NoFault?
    {
      if key.len < 0 { fault := Thrown; return false; }
      var s := ReadString(mem, end, key);
      assert seen + mem[beginPtr + nowLen..end] == mem[beginPtr..end];
      if s == None { fault := Overread; return false; }
      query := query[s.value := val];
      return true;
    }

    /** The text at a slice, or None where reading it would leave the memory up to `end`. */
    method ReadString(mem: array<char>, end: nat, q: Pos) returns (s: Option<string>)
      requires 0 <= beginPtr <= end <= mem.Length
      ensures s == if InBounds(q, end - beginPtr) then Some(Slice(mem[beginPtr..end], q)) else None
    {
      if InBounds(q, end - beginPtr) {
        s := Some(mem[beginPtr + q.off..beginPtr + q.off + q.len]);
        CutInside(mem[..], beginPtr, end - beginPtr, q.off, q.len);
      } else {
        s := None;
      }
    }

    method MatchVersion()
      requires state.StVersion? && nextState == None && View().Live()
      modifies this`isMatch, this`state, this`nextState, this`version
      ensures Committed() == StepVersion(old(View()), nowChar)
    {
      var i, c, prefix0 := state.idx, nowChar, state.prefix0;
      match i {
        case 0 => if c != 'H' { isMatch := false; }
        case 1 => if c != 'T' { isMatch := false; }
        case 2 => if c != 'T' { isMatch := false; }
        case 3 => if c != 'P' { isMatch := false; }
        case 4 => if c != '/' { isMatch := false; }
        case 5 =>
          if c == '0' { prefix0 := true; } else if c == '1' { prefix0 := false; } else { isMatch := false; }
        case 6 => if c != '.' { isMatch := false; }
        case 7 =>
          if prefix0 && c == '9' { version := V0_9; }
          else if !prefix0 && c == '0' { version := V1_0; }
          else if !prefix0 && c == '1' { version := V1_1; }
          else { isMatch := false; }
        case 8 =>
          if isRequest && c == '\r' {
          } else if !isRequest && c == ' ' {
            nextState := Some(NEW_CODE);
          } else {
            isMatch := false;
          }
        case 9 => if isRequest && c == '\n' { nextState := Some(NEW_HEADER); } else { isMatch := false; }
        case _ => isMatch := false;
      }
      state := StVersion(i + 1, prefix0);
    }

    method MatchCode()
      requires state.StCode? && nextState == None && View().Live()
      modifies this`isMatch, this`state, this`nextState, this`code
      ensures Committed() == StepCode(old(View()), nowChar)
    {
      hide ReasonPhrase;
      var StCode(i, d0, d1, d2) := state;
      var c := nowChar;
      if IsDigit(c) && i < 3 {
        if i == 0 { d0 := DigitValue(c); } else if i == 1 { d1 := DigitValue(c); } else { d2 := DigitValue(c); }
      } else if i == 3 && c == ' ' {
        code := LookUpCode(d0, d1, d2);
        nextState := Some(NEW_DETAIL);
      } else {
        isMatch := false;
      }
      if code == -1 { isMatch := false; }
      state := StCode(i + 1, d0, d1, d2);
    }

    method MatchDetail()
      requires state.StDetail? && nextState == None && Valid() && View().Live()
      modifies this`state, this`nextState, this`detail
      ensures Committed() == StepDetail(old(View()), nowChar)
    {
      var i, sawCR, l := state.idx, state.sawCR, nowLen;
      if nowChar == '\r' {
        sawCR := true;
      } else if sawCR && nowChar == '\n' {
        detail := Pos(l - i, i + 1);
        nextState := Some(NEW_HEADER);
      }
      state := StDetail(i + 1, sawCR);
    }

    method MatchHeader(mem: array<char>)
      requires state.StHeader? && nextState == None && View().Live() && Holds(mem, beginPtr)
      modifies this`isMatch, this`fault, this`totalLen, this`state, this`nextState, this`header
      ensures Committed() == StepHeader(old(View()), nowChar)
    {
      hide Stoi, Slice, InBounds;
      var l, c, h := nowLen, nowChar, state.hdr;
      var next := h.(idx := h.idx + 1);
      match h.part {
        case Key =>
          if c == '\r' {
            next := next.(part := End, emptyLine := true);
          } else if h.idx == 0 {
            next := next.(keyOff := l - 1);
          } else if c == ':' {
            next := next.(part := Split, keyLen := l - h.keyOff - 1);
          }
        case Split =>
          if c != ' ' { next := next.(part := Value, valOff := l - 1); }
        case Value =>
          if c == '\r' {
            MatchValueEnd(mem, h);
            return;
          }
        case End =>
          if c == '\n' && h.emptyLine {
            nextState := Some(NEW_BODY);
          } else if c == '\n' {
            next := next.(part := Key, idx := 0);
          } else {
            isMatch := false;
          }
      }
      state := StHeader(next);
    }

    /** The carriage return after a value: record the header. */
    method MatchValueEnd(mem: array<char>, h: HeaderMatch)
      requires state == StHeader(h) && nextState == None && View().Live() && Holds(mem, beginPtr)
      modifies this`fault, this`totalLen, this`state, this`header
      ensures nextState == None
      ensures View() == RecordHeader(old(View()), Pos(h.keyOff, h.keyLen), Pos(h.valOff, nowLen - h.valOff - 1),
                                     StHeader(h.(idx := h.idx + 1, part := End)))
    {
      hide Stoi, Slice, InBounds;
      var at := Pos(h.valOff, nowLen - h.valOff - 1);
      var key := ReadString(mem, beginPtr + nowLen, Pos(h.keyOff, h.keyLen));
      var value := ReadString(mem, beginPtr + nowLen, at);
      if key == None || value == None { fault := Overread; return; }
      header := header[key.value := at];
      if key.value == "Content-Length" {
        var n := Stoi(value.value);
        if n == None { fault := Thrown; return; }
        totalLen := n.value;
      }
      state := StHeader(h.(idx := h.idx + 1, part := End));
    }

    method MatchBody()
      requires state.StBody? && nextState == None && Valid() && View().Live()
      modifies this`state, this`body
      ensures Committed() == StepBody(old(View()), nowChar)
    {
      var l, i := nowLen, state.idx;
      if i == 0 {
        body := Pos(l - 1, body.len);
      } else if i == totalLen - 1 {
        body := Pos(body.off, l - body.off);
      }
      state := StBody(i + 1);
    }

    /** The current state object matches the byte that has just been counted; the chunk ends at `end`. */
    method Match(mem: array<char>, end: nat, ghost before: Parser)
      requires nextState == None && View().Live() && Holds(mem, beginPtr) && beginPtr + nowLen <= end <= mem.Length
      requires View() == before.(seen := before.seen + [nowChar])
      modifies this`isMatch, this`fault, this`totalLen, this`state, this`nextState, this`verb, this`path, this`query,
               this`version, this`code, this`detail, this`header, this`body
      ensures Committed() == StepAhead(before, nowChar, mem[beginPtr + nowLen..end])
    {
      hide StepMethod, StepUrl, StepVersion, StepCode, StepDetail, StepHeader, StepBody;
      match state {
        case StMethod(_) => MatchMethod();
        case StUrl(_) => MatchUrl(mem, end);
        case StVersion(_, _) => MatchVersion();
        case StCode(_, _, _, _) => MatchCode();
        case StDetail(_, _) => MatchDetail();
        case StHeader(_) => MatchHeader(mem);
        case StBody(_) => MatchBody();
      }
    }

    /** `is_completed` */
    predicate IsCompleted()
      reads this
      ensures IsCompleted() == View().Completed()
    {
      state.StBody? && state.idx == totalLen
    }

    /** One round of the loop: count the byte at `at`, match it, replace the state object. */
    method MatchByte(mem: array<char>, at: nat, end: nat)
      requires nextState == None && View().Live() && Holds(mem, beginPtr)
      requires beginPtr + nowLen == at < end <= mem.Length
      modifies this
      ensures View() == StepAhead(old(View()), mem[at], mem[at + 1..end]) && Valid()
      ensures View().Live() <==> isMatch && fault.NoFault?
      ensures View().Live() ==>
                nextState == None && beginPtr == old(beginPtr) && nowLen == old(nowLen) + 1 && Holds(mem, beginPtr)
    {
      hide StepAhead;
      ghost var before := View();
      CutNext(mem[..], beginPtr, nowLen);
      nowChar := mem[at];
      nowLen := nowLen + 1;
      seen := seen + [nowChar];
      Match(mem, end, before);
      Commit();
    }

    /** Replace the state object, if the match asked for it. */
    method Commit()
      modifies this`state, this`nextState
      ensures View() == old(Committed()) && (isMatch ==> nextState == None)
    {
      if isMatch && nextState.Some? {
        state := nextState.value;
        nextState := None;
      }
    }

    /** Feed the `len` bytes at `str`.  The chunk must directly follow the bytes received before, wherever in memory
        they are by now: between two calls the whole message may have been moved, or copied to another array. */
    method ParserMessage(mem: array<char>, str: nat, len: nat) returns (r: Outcome)
      requires Valid() && fault.NoFault? && str + len <= mem.Length
      requires isMatch ==> nextState == None && Holds(mem, str - nowLen)
      modifies this
      ensures View() == Call(old(View()), mem[str..str + len])
      ensures Valid() && r == if fault.Thrown? then Threw else if fault.Overread? then Strayed else Returned(isMatch)
      ensures View().Live() ==> nextState == None && Holds(mem, beginPtr)
    {
      hide Feed, StepAhead, Parser.Live, Suffixes, Call;
      ghost var before, bytes := View(), mem[str..str + len];
      IsLive(before);
      if !isMatch {
        CallDead(before, bytes);
        return Returned(false);
      }
      beginPtr := str - nowLen;
      NothingFed(before, bytes);
      for i := 0 to len
        invariant Valid() && nextState == None && View().Live() && isMatch && fault.NoFault?
        invariant beginPtr + nowLen == str + i && Holds(mem, beginPtr)
        invariant View() == Feed(before, bytes[..i], Suffixes(bytes)[..i])
      {
        assert bytes[i] == mem[str + i] && bytes[i + 1..] == mem[str + i + 1..str + len];
        OneMoreFed(before, bytes, i);
        MatchByte(mem, str + i, str + len);
        if !fault.NoFault? || !isMatch {
          IsLive(View());
          DeadEarly(before, bytes, i + 1);
          return if fault.Thrown? then Threw else if fault.Overread? then Strayed else Returned(false);
        }
      }
      AllFed(before, bytes);
      return Returned(true);
    }

    /** `get_request_message`, from the memory that holds the message now. */
    method GetRequestMessage(mem: array<char>) returns (m: Request)
      requires isRequest && IsCompleted() && RequestReadable(View()) && Holds(mem, beginPtr)
      ensures m == GetRequest(View())
    {
      var text := mem[beginPtr..beginPtr + nowLen];
      m := Request(verb, Slice(text, path), Texts(text, query), version, Texts(text, header), Slice(text, body));
    }
  }

  // ----- a message received in several reads

  /** Each read leaves everything received so far in an array of its own. */
  ghost predicate Growing(bufs: seq<array<char>>)
    reads bufs
  {
    forall i :: 0 < i < |bufs| ==> bufs[i - 1][..] <= bufs[i][..]
  }

  /** Where the bytes of read `i` begin. */
  function ReadStart(bufs: seq<array<char>>, i: nat): nat
    requires i < |bufs|
  {
    if i == 0 then 0 else bufs[i - 1].Length
  }

  /** The bytes of the first `n` reads, read by read. */
  ghost function Chunks(bufs: seq<array<char>>, n: nat): seq<string>
    requires n <= |bufs| && Growing(bufs)
    reads bufs
    decreases n
  {
    if n == 0 then [] else
      assert n > 1 ==> bufs[n - 2][..] <= bufs[n - 1][..];
      Chunks(bufs, n - 1) + [bufs[n - 1][ReadStart(bufs, n - 1)..]]
  }

  lemma {:induction false} CallLast(p: Parser, chunks: seq<string>, c: string)
    ensures CallAll(p, chunks + [c]) == Call(CallAll(p, chunks), c)
    ensures Concat(chunks + [c]) == Concat(chunks) + c
    decreases |chunks|
  {
    hide Call;
    if chunks == [] {
      assert ([] + [c])[1..] == [];
      assert Concat([c]) == c + [];
    } else {
      assert (chunks + [c])[1..] == chunks[1..] + [c];
      CallLast(Call(p, chunks[0]), chunks[1..], c);
    }
  }

  lemma {:induction false} ChunksConcat(bufs: seq<array<char>>, n: nat)
    requires 0 < n <= |bufs| && Growing(bufs)
    ensures Concat(Chunks(bufs, n)) == bufs[n - 1][..]
    decreases n
  {
    var c := bufs[n - 1][ReadStart(bufs, n - 1)..];
    CallLast(Init(true, V1_1, 0), Chunks(bufs, n - 1), c);
    if n > 1 {
      ChunksConcat(bufs, n - 1);
      assert bufs[n - 2][..] <= bufs[n - 1][..];
      assert bufs[n - 1][..] == bufs[n - 2][..] + c;
    }
  }

  /** What a caller gets from the parser `p`. */
  ghost function ReadOut(p: Parser): Option<Request> {
    if p.Live() && p.Completed() && RequestReadable(p) then Some(GetRequest(p)) else None
  }

  /** What a whole text yields in one call, and what its chunks yield. */
  lemma ReadsAgree(v0: Version, c0: int, chunks: seq<string>)
    ensures var s := Concat(chunks);
            var q := CallAll(Init(true, v0, c0), chunks);
            && (q.Live() && q.Completed() ==> RequestReadable(q))
            && q.isRequest
            && (q.Live() ==> q.seen == s)
            && ReadOut(q) == ParseRequest(v0, c0, s, Aheads(chunks))
            && (!CopiesAhead(Init(true, v0, c0), s) ==> ReadOut(q) == ParseRequest(v0, c0, s, Suffixes(s)))
  {
    hide Feed, CallAll, CopiesAhead, RequestReadable, GetRequest;
    var p, s, A := Init(true, v0, c0), Concat(chunks), Aheads(chunks);
    CallsAreFeed(p, chunks);
    SeenGrows(p, s, A);
    assert p.seen + s == s;
    var q := Feed(p, s, A);
    if q.Live() && q.Completed() { CompletedReadable(v0, c0, s, A); }
    if !CopiesAhead(p, s) {
      ChunkingExactly(p, s);
      assert CallAll(p, chunks) == Call(p, s);
      if q.Live() && q.Completed() { CompletedReadable(v0, c0, s, Suffixes(s)); }
    }
  }

  lemma {:induction false} CallsDead(p: Parser, chunks: seq<string>)
    requires !p.Live()
    ensures CallAll(p, chunks) == p
    decreases |chunks|
  {
    if chunks != [] {
      CallDead(p, chunks[0]);
      CallsDead(p, chunks[1..]);
    }
  }

  lemma {:induction false} ChunksDead(p: Parser, bufs: seq<array<char>>, n: nat, k: nat)
    requires n <= k <= |bufs| && Growing(bufs) && !CallAll(p, Chunks(bufs, n)).Live()
    ensures CallAll(p, Chunks(bufs, k)) == CallAll(p, Chunks(bufs, n))
    decreases k
  {
    hide Call, Parser.Live;
    if n < k {
      ChunksDead(p, bufs, n, k - 1);
      var c := bufs[k - 1][ReadStart(bufs, k - 1)..];
      CallLast(p, Chunks(bufs, k - 1), c);
      var q := CallAll(p, Chunks(bufs, n));
      CallDead(q, c);
    }
  }

  /** The parser after one more read. */
  lemma OneMoreRead(v0: Version, c0: int, bufs: seq<array<char>>, i: nat)
    requires i < |bufs| && Growing(bufs)
    ensures var p, mem, start := Init(true, v0, c0), bufs[i], ReadStart(bufs, i);
            var q := CallAll(p, Chunks(bufs, i + 1));
            && start <= mem.Length && (i > 0 ==> mem[..start] == bufs[i - 1][..])
            && q == Call(CallAll(p, Chunks(bufs, i)), mem[start..])
            && (q.Live() ==> q.seen == mem[..])
            && (!q.Live() ==> CallAll(p, Chunks(bufs, |bufs|)) == q)
  {
    hide Call, CallAll, ParseRequest, CopiesAhead, Parser.Live, Init;
    var p, mem, start := Init(true, v0, c0), bufs[i], ReadStart(bufs, i);
    assert i > 0 ==> bufs[i - 1][..] <= mem[..];
    CallLast(p, Chunks(bufs, i), mem[start..]);
    ChunksConcat(bufs, i + 1);
    ReadsAgree(v0, c0, Chunks(bufs, i + 1));
    if !CallAll(p, Chunks(bufs, i + 1)).Live() { ChunksDead(p, bufs, i + 1, |bufs|); }
  }

  lemma NoCalls(p: Parser, bufs: seq<array<char>>)
    requires Growing(bufs)
    ensures CallAll(p, Chunks(bufs, 0)) == p
  {
  }

  /** One call for each read, until the parser fails. */
  method FeedReads(parser: MessageParser, bufs: seq<array<char>>) returns (live: bool)
    requires bufs != [] && Growing(bufs) && parser.isRequest && parser.seen == [] && parser.nextState == None
    requires parser.Valid() && parser.View() == Init(true, parser.version, parser.code)
    modifies parser
    ensures parser.View() == CallAll(old(parser.View()), Chunks(bufs, |bufs|))
    ensures live <==> parser.View().Live()
    ensures live ==> parser.Holds(bufs[|bufs| - 1], parser.beginPtr)
  {
    hide Call, CallAll, Chunks, Growing;
    ghost var v0, c0, init := parser.version, parser.code, parser.View();
    NoCalls(init, bufs);
    for i := 0 to |bufs|
      invariant parser.Valid() && parser.View() == CallAll(init, Chunks(bufs, i)) && parser.View().Live()
      invariant parser.nextState == None && parser.seen == if i == 0 then [] else bufs[i - 1][..]
      invariant i > 0 ==> parser.Holds(bufs[i - 1], parser.beginPtr)
    {
      var mem, start := bufs[i], ReadStart(bufs, i);
      OneMoreRead(v0, c0, bufs, i);
      assert mem[start..start + (mem.Length - start)] == mem[start..];
      var r := parser.ParserMessage(mem, start, mem.Length - start);
      if r != Returned(true) { return false; }
    }
    return true;
  }

  /** A message received in any number of reads, and moved in memory between them, is parsed as its chunks say; as one
      piece, if the whole text makes the parser copy nothing from ahead. */
  method ParseReads(v0: Version, c0: int, bufs: seq<array<char>>) returns (m: Option<Request>)
    requires bufs != [] && Growing(bufs)
    ensures m == ReadOut(CallAll(Init(true, v0, c0), Chunks(bufs, |bufs|)))
    ensures var whole := bufs[|bufs| - 1][..];
            !CopiesAhead(Init(true, v0, c0), whole) ==> m == ParseRequest(v0, c0, whole, Suffixes(whole))
  {
    hide Call, Feed, GetRequest, RequestReadable, CopiesAhead, ParseRequest, CallAll, Chunks, Growing;
    var parser := new MessageParser(true, v0, c0);
    ChunksConcat(bufs, |bufs|);
    ReadsAgree(v0, c0, Chunks(bufs, |bufs|));
    var live := FeedReads(parser, bufs);
    if !live || !parser.IsCompleted() { return None; }
    var request := parser.GetRequestMessage(bufs[|bufs| - 1]);
    m := Some(request);
  }
}
