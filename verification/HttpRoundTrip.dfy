/** The parser undoes the writer: exactly which messages survive being written and parsed. */
module HttpRoundTrip {
  import opened HttpTypes
  import opened HttpNumbers
  import opened HttpAutomaton
  import opened HttpSegments
  import opened HttpChunking
  import opened HttpGrammar
  import opened HttpMessages
  import opened HttpBorrowing
  import opened HttpWriter

  // ----- header maps

  ghost predicate HeaderOk(header: map<string, string>) {
    forall k :: k in header ==> k != [] && KeyChars(k) && ValueOk(header[k])
  }

  /** `Content-Length` is present and its value denotes `n`, digit by digit. */
  ghost predicate LengthIs(header: map<string, string>, n: int) {
    CONTENT_LENGTH in header && Denotes(header[CONTENT_LENGTH], n)
  }

  lemma LengthExactly(header: map<string, string>, n: int)
    ensures LengthIs(header, n) <==> CONTENT_LENGTH in header && Stoi(header[CONTENT_LENGTH]) == Some(n)
  {
    hide Stoi, Denotes;
    if CONTENT_LENGTH in header { DenotesExactly(header[CONTENT_LENGTH], n); }
  }

  lemma {:induction false} LinesOf(hs: seq<Pair>)
    ensures |HeaderLines(hs)| == |hs|
    ensures forall i :: 0 <= i < |hs| ==> HeaderLines(hs)[i] == Line(hs[i].0, 1, hs[i].1)
    decreases |hs|
  {
    if hs != [] {
      LinesOf(hs[1..]);
      forall i | 0 <= i < |hs| ensures HeaderLines(hs)[i] == Line(hs[i].0, 1, hs[i].1) {
        if i > 0 { assert HeaderLines(hs)[i] == HeaderLines(hs[1..])[i - 1]; }
      }
    }
  }

  ghost predicate DistinctKeys(ps: seq<Pair>) {
    forall i, j :: 0 <= i < j < |ps| ==> ps[i].0 != ps[j].0
  }

  lemma {:induction false} LastOfDistinct(hs: seq<Pair>, k: string)
    requires DistinctKeys(hs)
    ensures forall i :: 0 <= i < |hs| && hs[i].0 == k ==> LastValue(HeaderLines(hs), k) == Some(hs[i].1)
    ensures (forall i :: 0 <= i < |hs| ==> hs[i].0 != k) ==> LastValue(HeaderLines(hs), k) == None
    decreases |hs|
  {
    if hs != [] {
      LastOfDistinct(hs[1..], k);
      assert HeaderLines(hs)[1..] == HeaderLines(hs[1..]);
      forall i | 0 <= i < |hs| && hs[i].0 == k ensures LastValue(HeaderLines(hs), k) == Some(hs[i].1) {
        if i > 0 {
          assert hs[1..][i - 1].0 == k;
        } else {
          forall j | 0 <= j < |hs[1..]| ensures hs[1..][j].0 != k { assert hs[1..][j] == hs[j + 1]; }
        }
      }
    }
  }

  /** A header map printed in any order reads back as itself. */
  lemma LastOfHeader(hs: seq<Pair>, header: map<string, string>, k: string)
    requires Enumerates(hs, header)
    ensures LastValue(HeaderLines(hs), k) == if k in header then Some(header[k]) else None
  {
    LastOfDistinct(hs, k);
    if k in header {
      var i :| 0 <= i < |hs| && hs[i].0 == k;
    }
  }

  lemma {:induction false} LastParamOfDistinct(qs: seq<Pair>, k: string)
    requires DistinctKeys(qs)
    ensures forall i :: 0 <= i < |qs| && qs[i].0 == k ==> LastParam(qs, k) == Some(qs[i].1)
    ensures (forall i :: 0 <= i < |qs| ==> qs[i].0 != k) ==> LastParam(qs, k) == None
    decreases |qs|
  {
    if qs != [] {
      LastParamOfDistinct(qs[1..], k);
      forall i | 0 <= i < |qs| && qs[i].0 == k ensures LastParam(qs, k) == Some(qs[i].1) {
        if i > 0 {
          assert qs[1..][i - 1].0 == k;
        } else {
          forall j | 0 <= j < |qs[1..]| ensures qs[1..][j].0 != k { assert qs[1..][j] == qs[j + 1]; }
        }
      }
    }
  }

  lemma LastOfQuery(qs: seq<Pair>, query: map<string, string>, k: string)
    requires Enumerates(qs, query)
    ensures LastParam(qs, k) == if k in query then Some(query[k]) else None
  {
    LastParamOfDistinct(qs, k);
    if k in query {
      var i :| 0 <= i < |qs| && qs[i].0 == k;
    }
  }

  lemma HeaderLinesOk(hs: seq<Pair>, header: map<string, string>)
    requires Enumerates(hs, header) && HeaderOk(header)
    requires CONTENT_LENGTH in header ==> Stoi(header[CONTENT_LENGTH]).Some?
    ensures forall h :: h in HeaderLines(hs) ==> LineOk(h)
  {
    hide Stoi, KeyChars, ValueOk;
    LinesOf(hs);
    forall h | h in HeaderLines(hs) ensures LineOk(h) {
      var i :| 0 <= i < |hs| && HeaderLines(hs)[i] == h;
      assert hs[i].0 in header;
    }
  }

  /** The body length a parser takes from a printed header map: 0 without a `Content-Length`. */
  lemma LengthOfHeader(hs: seq<Pair>, header: map<string, string>)
    requires Enumerates(hs, header) && forall h :: h in HeaderLines(hs) ==> LineOk(h)
    ensures CONTENT_LENGTH in header ==> Stoi(header[CONTENT_LENGTH]) == Some(FinalLength(HeaderLines(hs), 0))
    ensures CONTENT_LENGTH !in header ==> FinalLength(HeaderLines(hs), 0) == 0
  {
    hide Stoi, LineOk;
    LastOfHeader(hs, header, CONTENT_LENGTH);
    FinalLengthIs(HeaderLines(hs), 0);
  }

  /** What the header table holds is what was printed. */
  lemma HeaderBack(seen: string, off: nat, hs: seq<Pair>, header: map<string, string>)
    requires Enumerates(hs, header)
    requires off + |LinesText(HeaderLines(hs))| <= |seen|
    requires seen[off..off + |LinesText(HeaderLines(hs))|] == LinesText(HeaderLines(hs))
    ensures var t := HeaderTable(off, HeaderLines(hs), map[]);
            TableReadable(t, |seen|) && Texts(seen, t) == header
  {
    hide HeaderTable, LinesText, HeaderLines, LastValue, Enumerates, Slice;
    var t := HeaderTable(off, HeaderLines(hs), map[]);
    forall k ensures k in t <==> k in header
             ensures k in t ==> InBounds(t[k], |seen|) && Slice(seen, t[k]) == header[k]
    {
      HeaderTexts(seen, off, HeaderLines(hs), map[], k);
      LastOfHeader(hs, header, k);
    }
  }

  /** What the query table holds is what was printed, when everything recorded before is recorded again. */
  lemma QueryBack(seen: string, off: nat, qs: seq<Pair>, query: map<string, string>, table: map<string, Pos>)
    requires Enumerates(qs, query) && table.Keys <= query.Keys
    requires qs != [] ==> off + |QueryText(qs)| <= |seen| && seen[off..off + |QueryText(qs)|] == QueryText(qs)
    ensures var t := QueryTable(off, qs, table);
            TableReadable(t, |seen|) && Texts(seen, t) == query
  {
    hide QueryTable, QueryText, LastParam, Enumerates, Slice;
    var t := QueryTable(off, qs, table);
    forall k ensures k in t <==> k in query
             ensures k in t ==> InBounds(t[k], |seen|) && Slice(seen, t[k]) == query[k]
    {
      QueryTexts(seen, off, qs, table, k);
      LastOfQuery(qs, query, k);
    }
  }

  // ----- requests

  /** Where the target of a request begins. */
  function TargetBase(me: Method): nat { |MethodStr(me) + " "| }

  /** Every parameter that the path hides has a key, and it is the key of a parameter that follows. */
  ghost predicate HiddenAgain(base: nat, path: string, query: map<string, string>)
    requires PathOk(base, path)
  {
    forall j :: 0 <= j < |path| && path[j] == '&' ==> HiddenKey(base, path, j) in query
  }

  /** The requests that survive: a caller can check this before writing. */
  ghost predicate WellFormed(m: Request) {
    && PathOk(TargetBase(m.verb), m.path) && HiddenAgain(TargetBase(m.verb), m.path, m.query)
    && (m.query == map[] ==> '?' !in m.path)
    && (forall k :: k in m.query ==> QueryOk((k, m.query[k])))
    && HeaderOk(m.header)
    && |m.body| >= 2
    && LengthIs(m.header, |m.body|)
  }

  lemma HiddenSubset(base: nat, path: string, query: map<string, string>)
    requires PathOk(base, path)
    ensures HiddenTable(base, path, |path|).Keys <= query.Keys <==> HiddenAgain(base, path, query)
  {
    hide HiddenTable, HiddenKey, KeyFits, Plain;
    forall k ensures k in HiddenTable(base, path, |path|) <==>
             exists j :: 0 <= j < |path| && path[j] == '&' && KeyFits(base, path, j) && HiddenKey(base, path, j) == k
    {
      HiddenKeys(base, path, |path|, k);
    }
  }

  /** The pieces of a written request that has a body. */
  function Written(m: Request, qs: seq<Pair>, hs: seq<Pair>): RequestParts {
    RequestParts(m.verb, TargetText(m.path, qs), m.version, HeaderLines(hs), [], m.body)
  }

  lemma WrittenText(m: Request, qs: seq<Pair>, hs: seq<Pair>)
    requires Printable(m.version) && m.body != []
    ensures RequestText(m, qs, hs) == Written(m, qs, hs).Text()
  {
    hide TargetText, LinesText, VersionStr, MethodStr;
    var d := Written(m, qs, hs);
    assert [] + CRLF == CRLF;
    JoinTail(d.StartLine(), LinesText(d.lines), CRLF, m.body);
  }

  lemma JoinTail(a: string, b: string, c: string, e: string)
    ensures a + b + (c + e) == a + (b + c + e)
  {
  }

  lemma EmptyQuery(qs: seq<Pair>, query: map<string, string>)
    requires Enumerates(qs, query)
    ensures qs == [] <==> query == map[]
  {
    if qs != [] {
      assert qs[0].0 in query;
    }
  }

  lemma ParamsOk(qs: seq<Pair>, query: map<string, string>)
    requires Enumerates(qs, query) && forall k :: k in query ==> QueryOk((k, query[k]))
    ensures forall kv :: kv in qs ==> QueryOk(kv)
  {
    hide QueryOk;
    forall kv | kv in qs ensures QueryOk(kv) {
      var i :| 0 <= i < |qs| && qs[i] == kv;
      assert kv == (kv.0, query[kv.0]);
    }
  }

  /** A well-formed request comes back whole, whatever order its maps were printed in. */
  lemma RoundTripHolds(v0: Version, c0: int, m: Request, qs: seq<Pair>, hs: seq<Pair>, A: seq<string>)
    requires Printable(m.version) && Enumerates(qs, m.query) && Enumerates(hs, m.header)
    requires WellFormed(m) && |A| == |RequestText(m, qs, hs)|
    ensures ParseRequest(v0, c0, RequestText(m, qs, hs), A) == Some(m)
  {
    hide Run, Step, Feed, LineOk, KeyChars, PathOk, QueryOk, ValueOk, VersionStr, MethodStr, Stoi, LinesText, QueryText,
         TargetTable, HeaderTable, HeaderLines, HiddenAgain;
    var d := Written(m, qs, hs);
    EmptyQuery(qs, m.query);
    ParamsOk(qs, m.query);
    LengthExactly(m.header, |m.body|);
    HeaderLinesOk(hs, m.header);
    LengthOfHeader(hs, m.header);
    WrittenText(m, qs, hs);
    var base := TargetBase(m.verb);
    assert TargetOk(base, m.path, qs);
    assert ' ' !in d.target by { TargetNoBlank(base, m.path, qs); }
    assert KeyChars([]) by { KeyCharsEmpty(); }
    RequestComplete(v0, c0, d, A, m.path, qs);
    var p := Feed(Init(true, v0, c0), d.Text(), A);
    CompletedReadable(v0, c0, d.Text(), A);
    SlicesBack(p, m, qs, hs);
  }

  lemma KeyCharsEmpty()
    ensures KeyChars([])
  {
  }

  /** Where the pieces of a target lie. */
  lemma TargetSlices(seen: string, off: nat, path: string, qs: seq<Pair>)
    requires var t := TargetText(path, qs); off + |t| <= |seen| && seen[off..off + |t|] == t
    ensures InBounds(Pos(off, |path|), |seen|) && Slice(seen, Pos(off, |path|)) == path
    ensures qs != [] ==>
              var n := off + |path| + 1;
              n + |QueryText(qs)| <= |seen| && seen[n..n + |QueryText(qs)|] == QueryText(qs)
  {
    hide QueryText;
    TargetLayout(path, qs);
    SliceInside(seen, off, TargetText(path, qs), 0, path);
    if qs != [] {
      SliceInside(seen, off, TargetText(path, qs), |path| + 1, QueryText(qs));
    }
  }

  /** The slices of a written request, read out. */
  lemma SlicesBack(p: Parser, m: Request, qs: seq<Pair>, hs: seq<Pair>)
    requires Printable(m.version) && Enumerates(qs, m.query) && Enumerates(hs, m.header) && |m.body| >= 2
    requires TargetOk(TargetBase(m.verb), m.path, qs) && HiddenAgain(TargetBase(m.verb), m.path, m.query)
    requires var d := Written(m, qs, hs);
             && p.seen == d.Text()
             && p.path == Pos(|d.ToTarget()|, |m.path|)
             && p.query == TargetTable(|d.ToTarget()|, m.path, qs)
             && p.header == HeaderTable(|d.StartLine()|, d.lines, map[])
             && p.body == BodySlice(|p.seen| - |m.body|, |m.body|)
    ensures RequestReadable(p)
    ensures Slice(p.seen, p.path) == m.path && Slice(p.seen, p.body) == m.body
    ensures Texts(p.seen, p.query) == m.query && Texts(p.seen, p.header) == m.header
  {
    hide QueryText, QueryTable, HeaderTable, HeaderLines, LinesText, VersionStr, MethodStr, Enumerates, TargetText,
         HiddenAgain, HiddenTable, KeyFits;
    var d := Written(m, qs, hs);
    var a, t, v, l := d.ToTarget(), d.target, VersionStr(m.version) + CRLF, LinesText(d.lines);
    Layout(a, t, v, l, [] + CRLF, m.body);
    TargetSlices(p.seen, |a|, m.path, qs);
    HiddenSubset(|a|, m.path, m.query);
    QueryBack(p.seen, |a| + |m.path| + 1, qs, m.query, HiddenTable(|a|, m.path, |m.path|));
    HeaderBack(p.seen, |d.StartLine()|, hs, m.header);
  }

  /** Where the pieces of a message lie. */
  lemma Layout(a: string, t: string, v: string, l: string, c: string, b: string)
    ensures var s := a + (t + " ") + v + (l + c + b);
            var n := |a + (t + " ") + v|;
            && s[|a|..|a| + |t|] == t
            && s[n..n + |l|] == l
            && s[|s| - |b|..] == b
  {
  }

  lemma TargetLayout(path: string, qs: seq<Pair>)
    ensures var t := TargetText(path, qs);
            && |path| <= |t| && t[0..|path|] == path
            && (qs != [] ==> |path| + 1 + |QueryText(qs)| <= |t| &&
                             t[|path| + 1..|path| + 1 + |QueryText(qs)|] == QueryText(qs))
  {
  }

  lemma {:induction false} QueryNoBlank(qs: seq<Pair>)
    requires qs != [] && forall kv :: kv in qs ==> QueryOk(kv)
    ensures ' ' !in QueryText(qs) && '?' !in QueryText(qs)
    decreases |qs|
  {
    assert QueryOk(qs[0]);
    if |qs| > 1 { QueryNoBlank(qs[1..]); }
  }

  lemma TargetNoBlank(base: nat, path: string, qs: seq<Pair>)
    requires TargetOk(base, path, qs)
    ensures ' ' !in TargetText(path, qs)
  {
    if qs != [] { QueryNoBlank(qs); }
  }

  // ----- only well-formed requests survive

  /** Every header the parser hands out could have been written. */
  lemma HeaderImage(p: Parser, d: RequestParts)
    requires d.Ok() && p.seen == d.Text() && TableReadable(p.header, |p.seen|)
    requires p.header == HeaderTable(|d.StartLine()|, d.lines, map[])
    ensures HeaderOk(Texts(p.seen, p.header))
    ensures CONTENT_LENGTH in p.header ==> Stoi(Slice(p.seen, p.header[CONTENT_LENGTH])).Some?
  {
    hide LinesText, HeaderTable, KeyChars, ValueOk, Stoi, Slice, VersionStr;
    var l := LinesText(d.lines);
    Layout(d.ToTarget(), d.target, VersionStr(d.version) + CRLF, l, d.junk + CRLF, d.body);
    forall k | k in p.header
      ensures k != [] && KeyChars(k) && ValueOk(Slice(p.seen, p.header[k]))
      ensures k == CONTENT_LENGTH ==> Stoi(Slice(p.seen, p.header[k])).Some?
    {
      HeaderTexts(p.seen, |d.StartLine()|, d.lines, map[], k);
      var h := LastValueFrom(d.lines, k);
      assert LineOk(h);
    }
  }

  /** The text `s` holds a written target at `base`; `q` is the parser that has read it as `target`. */
  ghost predicate TargetRead(s: string, base: nat, q: Parser, near: bool, target: string, path: string, qs: seq<Pair>) {
    && base >= 4 && (s != [] ==> Plain(s[..1]) && s[0] != ' ')
    && |q.seen| == base + |target| + 1 <= |s|
    && (forall i :: 0 <= i < |q.seen| ==> q.seen[i] == s[i])
    && (forall i :: 0 <= i < |target| ==> s[base + i] == target[i])
    && s[base + |target|] == ' ' && ' ' !in target
    && base + |TargetText(path, qs)| < |s|
    && (forall i :: 0 <= i < |TargetText(path, qs)| ==> s[base + i] == TargetText(path, qs)[i])
    && s[base + |TargetText(path, qs)|] == ' '
    && UrlResult(q, base, near)
    && InBounds(q.path, |s|) && Slice(s, q.path) == path
  }

  lemma TargetStarts(path: string, qs: seq<Pair>)
    ensures path != [] ==> TargetText(path, qs) != [] && TargetText(path, qs)[0] == path[0]
  {
  }

  lemma PathStart(s: string, base: nat, q: Parser, near: bool, target: string, path: string, qs: seq<Pair>)
    requires TargetRead(s, base, q, near, target, path, qs)
    ensures q.path.off == base && path != [] && Plain(path[..1])
    ensures forall i :: 0 <= i < |path| ==> path[i] == s[base + i] && path[i] != ' '
    ensures |path| <= |target|
  {
    hide EntriesOk, TargetText;
    TargetStarts(path, qs);
    assert path != [] ==> path[..1] == [s[base]];
    assert |path| > 0 ==> path[0] == s[q.path.off];
    forall i | 0 <= i < |path| ensures path[i] == s[base + i] && path[i] != ' ' {
      assert path[i] == s[base + i] == target[i];
    }
  }

  lemma {:induction false} ScanPrefix(base: nat, t: string, u: string, n: nat)
    requires n <= |t| && n <= |u| && t[..n] == u[..n]
    ensures ScanTo(base, t, n) == ScanTo(base, u, n)
    decreases n
  {
    if n > 0 {
      assert t[..n - 1] == t[..n][..n - 1] == u[..n - 1];
      assert t[n - 1] == t[..n][n - 1] == u[n - 1];
      ScanPrefix(base, t, u, n - 1);
    }
  }

  /** Every parameter hidden in the path of a request that comes back has a key. */
  lemma PathImage(s: string, base: nat, q: Parser, near: bool, target: string, path: string, qs: seq<Pair>)
    requires TargetRead(s, base, q, near, target, path, qs) && !HoldsAmp(q.query)
    requires forall j :: 0 <= j < |target| && target[j] == '&' ==> KeyFits(base, target, j)
    requires qs == [] <==> q.query == map[]
    ensures PathOk(base, path) && (qs == [] ==> '?' !in path)
  {
    hide EntriesOk, HoldsAmp, ScanTo;
    PathStart(s, base, q, near, target, path, qs);
    forall i | 0 <= i < |path| ensures path[i] == target[i] {
      assert path[i] == s[base + i] == target[i];
    }
    forall j | 0 <= j < |path| && path[j] == '&' ensures KeyFits(base, path, j) {
      ScanPrefix(base, path, target, j);
      assert KeyFits(base, target, j);
    }
    if qs == [] {
      forall i | 0 <= i < |path| ensures path[i] != '?' {
        assert path[i] == q.seen[base + i];
      }
    }
  }

  lemma {:induction false} InQueryText(qs: seq<Pair>, kv: Pair, c: char)
    requires kv in qs && c in kv.1
    ensures c in QueryText(qs)
    decreases |qs|
  {
    if qs[0] == kv {
      assert c in PairText(kv);
    } else {
      InQueryText(qs[1..], kv, c);
    }
  }

  /** When values hold no blank, and keys none but the last byte, every blank is followed by `=`. */
  ghost predicate BlankAtEnd(kv: Pair) {
    ' ' !in kv.1 && forall i :: 0 <= i < |kv.0| - 1 ==> kv.0[i] != ' '
  }

  lemma {:induction false} BlankThenEquals(qs: seq<Pair>, n: nat)
    requires qs != [] && forall kv :: kv in qs ==> BlankAtEnd(kv)
    requires n < |QueryText(qs)| && QueryText(qs)[n] == ' '
    ensures n + 1 < |QueryText(qs)| && QueryText(qs)[n + 1] == '='
    decreases |qs|
  {
    var kv := qs[0];
    assert BlankAtEnd(kv);
    var t := PairText(kv);
    assert forall i :: 0 <= i < |kv.1| ==> t[|kv.0| + 1 + i] == kv.1[i];
    assert forall i :: 0 <= i < |t| ==> QueryText(qs)[i] == t[i];
    if n < |t| {
      assert n < |kv.0|;
      assert n == |kv.0| - 1;
    } else {
      assert QueryText(qs) == t + "&" + QueryText(qs[1..]);
      BlankThenEquals(qs[1..], n - |t| - 1);
    }
  }

  /** If the first blank lies inside the written target, the byte after it is `=`. */
  lemma TargetCut(s: string, base: nat, q: Parser, near: bool, target: string, path: string, qs: seq<Pair>)
    requires TargetRead(s, base, q, near, target, path, qs) && ' ' !in path && |path| <= |target|
    requires forall kv :: kv in qs ==> BlankAtEnd(kv)
    requires |target| < |TargetText(path, qs)|
    ensures base + |target| + 1 < |s| && s[base + |target| + 1] == '='
  {
    hide UrlResult, BlankAtEnd;
    var t := TargetText(path, qs);
    var n := |target| - |path| - 1;
    assert t[|target|] == ' ';
    assert QueryText(qs)[n] == ' ';
    BlankThenEquals(qs, n);
    assert t[|target| + 1] == QueryText(qs)[n + 1];
  }

  /** The parser has read the whole written target as the target. */
  lemma TargetWhole(s: string, base: nat, q: Parser, near: bool, target: string, path: string, qs: seq<Pair>)
    requires TargetRead(s, base, q, near, target, path, qs) && ' ' !in path && |path| <= |target|
    requires forall kv :: kv in qs ==> BlankAtEnd(kv)
    requires base + |target| + 1 < |s| && s[base + |target| + 1] == 'H'
    ensures |target| == |TargetText(path, qs)|
  {
    hide UrlResult, BlankAtEnd;
    var t := TargetText(path, qs);
    forall j | base <= j < base + |target| ensures s[j] != ' ' {
      assert s[j] == s[base + (j - base)] == target[j - base];
    }
    if |target| < |t| {
      TargetCut(s, base, q, near, target, path, qs);
      assert false;
    }
  }

  lemma EntryBytes(s: string, q: Parser, near: bool, k: string, v: string)
    requires k in q.query && EntryOk(q.seen, k, q.query[k], near) && |q.seen| <= |s|
    requires forall i :: 0 <= i < |q.seen| ==> q.seen[i] == s[i]
    requires InBounds(q.query[k], |s|) && Slice(s, q.query[k]) == v
    ensures '=' !in v && '&' !in v && ' ' !in v
    ensures '?' !in v ==> '&' !in k && '?' !in k && ' ' !in k
  {
    var u := q.query[k];
    forall i | 0 <= i < |v| ensures v[i] != '=' && v[i] != '&' && v[i] != ' ' {
      assert v[i] == q.seen[u.off + i];
    }
    if '?' !in v {
      forall i | u.off <= i < u.off + u.len ensures q.seen[i] != '?' {
        assert v[i - u.off] == q.seen[i];
      }
    }
  }

  /** The parameters the parser hands out are those of the written query. */
  ghost predicate QueryRead(s: string, q: Parser, qs: seq<Pair>, query: map<string, string>) {
    && Enumerates(qs, query)
    && q.query.Keys == query.Keys
    && forall k :: k in query ==> InBounds(q.query[k], |s|) && Slice(s, q.query[k]) == query[k]
  }

  /** No key holds a blank. */
  predicate NoBlankKeys(query: map<string, string>) { forall k :: k in query ==> ' ' !in k }

  lemma QueryBytes(s: string, base: nat, q: Parser, near: bool, target: string, path: string, qs: seq<Pair>,
                   query: map<string, string>)
    requires TargetRead(s, base, q, near, target, path, qs) && QueryRead(s, q, qs, query)
    requires near || NoBlankKeys(query)
    ensures forall kv :: kv in qs ==>
              && BlankAtEnd(kv) && '=' !in kv.1 && '&' !in kv.1
              && ('?' !in kv.1 ==> '&' !in kv.0 && '?' !in kv.0 && ' ' !in kv.0)
  {
    PairsOf(qs, query);
    hide Enumerates, Slice;
    forall kv | kv in qs
      ensures BlankAtEnd(kv) && '=' !in kv.1 && '&' !in kv.1
      ensures '?' !in kv.1 ==> '&' !in kv.0 && '?' !in kv.0 && ' ' !in kv.0
    {
      assert EntryOk(q.seen, kv.0, q.query[kv.0], near);
      EntryBytes(s, q, near, kv.0, kv.1);
    }
  }

  /** No parameter holds a `?`: the last one of the target ends the path. */
  lemma NoQuestion(s: string, base: nat, q: Parser, near: bool, target: string, path: string, qs: seq<Pair>, kv: Pair)
    requires TargetRead(s, base, q, near, target, path, qs) && q.path.off == base && kv in qs
    requires |target| == |TargetText(path, qs)|
    ensures '?' !in kv.1
  {
    forall i | 0 <= i < |kv.1| ensures kv.1[i] != '?' {
      InQueryText(qs, kv, kv.1[i]);
      var n :| 0 <= n < |QueryText(qs)| && QueryText(qs)[n] == kv.1[i];
      assert TargetText(path, qs)[|path| + 1 + n] == kv.1[i];
      assert q.seen[base + |path| + 1 + n] == kv.1[i];
    }
  }

  lemma QueryImage(s: string, base: nat, q: Parser, near: bool, target: string, path: string, qs: seq<Pair>,
                   query: map<string, string>)
    requires TargetRead(s, base, q, near, target, path, qs) && QueryRead(s, q, qs, query)
    requires near || NoBlankKeys(query)
    requires base + |target| + 1 < |s| && s[base + |target| + 1] == 'H'
    ensures (forall k :: k in query ==> QueryOk((k, query[k]))) && !HoldsAmp(q.query)
    ensures target == TargetText(path, qs)
  {
    PathStart(s, base, q, near, target, path, qs);
    QueryBytes(s, base, q, near, target, path, qs, query);
    TargetWhole(s, base, q, near, target, path, qs);
    assert target == TargetText(path, qs) by {
      forall i | 0 <= i < |target| ensures target[i] == TargetText(path, qs)[i] {
        assert s[base + i] == target[i];
      }
    }
    PairsOf(qs, query);
    hide TargetRead, Enumerates;
    forall k | k in query ensures QueryOk((k, query[k])) {
      NoQuestion(s, base, q, near, target, path, qs, (k, query[k]));
    }
  }

  lemma PairsOf(qs: seq<Pair>, query: map<string, string>)
    requires Enumerates(qs, query)
    ensures forall kv :: kv in qs ==> kv.0 in query && query[kv.0] == kv.1
    ensures forall k :: k in query ==> (k, query[k]) in qs
  {
    forall k | k in query ensures (k, query[k]) in qs {
      var i :| 0 <= i < |qs| && qs[i].0 == k;
      assert qs[i] == (k, query[k]);
    }
  }

  // ----- the request round trip

  /** A target and its blank inside a text. */
  lemma TargetAt(s: string, a: string, t: string, rest: string)
    requires s == a + (t + " ") + rest
    ensures |a| + |t| + 1 + |rest| == |s|
    ensures forall i :: 0 <= i < |t| ==> s[|a| + i] == t[i]
    ensures s[|a| + |t|] == ' '
    ensures rest != [] ==> s[|a| + |t| + 1] == rest[0]
  {
  }

  lemma VersionStarts(ve: Version)
    requires Printable(ve)
    ensures |VersionStr(ve)| == 8 && VersionStr(ve)[0] == 'H'
  {
  }

  lemma MethodStarts(me: Method)
    ensures |MethodStr(me)| >= 3 && Plain(MethodStr(me)[..1]) && MethodStr(me)[0] != ' '
  {
  }

  lemma TargetReadHolds(s: string, q: Parser, near: bool, d: RequestParts, m: Request, qs: seq<Pair>, hs: seq<Pair>)
    requires Printable(m.version) && d.Ok() && d.verb == m.verb
    requires d.Text() == s && RequestText(m, qs, hs) == s
    requires q.seen == d.ToVersion() && UrlResult(q, |d.ToTarget()|, near)
    requires InBounds(q.path, |s|) && Slice(s, q.path) == m.path
    ensures TargetRead(s, |d.ToTarget()|, q, near, d.target, m.path, qs)
    ensures |d.ToVersion()| < |s| && s[|d.ToVersion()|] == 'H'
  {
    hide UrlResult, MethodStr, VersionStr, TargetText, LinesText, HeaderLines, BodyText, Plain, Slice;
    var a, t := d.ToTarget(), TargetText(m.path, qs);
    MethodStarts(m.verb);
    VersionStarts(d.version);
    assert s[..1] == MethodStr(m.verb)[..1];
    var rest := (VersionStr(d.version) + CRLF) + TailText(d.lines, d.junk, d.body);
    TextSplit(d);
    TargetAt(s, a, d.target, rest);
    var rest' := (VersionStr(m.version) + CRLF) + (LinesText(HeaderLines(hs)) + BodyText(m.body));
    JoinFour(a + (t + " "), VersionStr(m.version) + CRLF, LinesText(HeaderLines(hs)), BodyText(m.body));
    TargetAt(s, a, t, rest');
    hide TailText;
    assert rest[0] == 'H' && rest' != [];
    PrefixBytes(s, d.ToVersion(), rest);
  }

  lemma PrefixBytes(s: string, a: string, rest: string)
    requires s == a + rest
    ensures |a| <= |s| && forall i :: 0 <= i < |a| ==> a[i] == s[i]
  {
  }

  lemma JoinFour(a: string, b: string, c: string, e: string)
    ensures a + b + c + e == a + (b + (c + e))
  {
  }

  lemma {:induction false} TableGrows(off: nat, qs: seq<Pair>, table: map<string, Pos>)
    ensures table.Keys <= QueryTable(off, qs, table).Keys
    decreases |qs|
  {
    if qs != [] {
      hide PairText;
      TableGrows(off + |PairText(qs[0])| + 1, qs[1..], table[qs[0].0 := Pos(off + |qs[0].0| + 1, |qs[0].1|)]);
    }
  }

  lemma HiddenKept(base: nat, path: string, qs: seq<Pair>, query: map<string, string>)
    requires TargetOk(base, path, qs) && TargetTable(base, path, qs).Keys == query.Keys
    ensures HiddenAgain(base, path, query)
  {
    hide KeyFits, HiddenTable, QueryTable, HiddenAgain;
    TableGrows(base + |path| + 1, qs, HiddenTable(base, path, |path|));
    HiddenSubset(base, path, query);
  }

  /** The target of a request that came back was well formed. */
  lemma TargetNeeds(m: Request, qs: seq<Pair>, s: string, q: Parser, near: bool, target: string)
    requires Enumerates(qs, m.query) && (near || NoBlankKeys(m.query))
    requires TargetRead(s, TargetBase(m.verb), q, near, target, m.path, qs) && QueryRead(s, q, qs, m.query)
    requires var n := TargetBase(m.verb) + |target| + 1; n < |s| && s[n] == 'H'
    requires HoldsAmp(q.query) ||
             forall j :: 0 <= j < |target| && target[j] == '&' ==> KeyFits(TargetBase(m.verb), target, j)
    ensures TargetOk(TargetBase(m.verb), m.path, qs) && target == TargetText(m.path, qs)
    ensures forall k :: k in m.query ==> QueryOk((k, m.query[k]))
    ensures m.query == map[] ==> '?' !in m.path
  {
    hide MethodStr, TargetText, QueryText, PathOk, QueryOk, TargetRead, HoldsAmp, KeyFits;
    EmptyQuery(qs, m.query);
    assert q.query.Keys == m.query.Keys;
    assert qs == [] <==> q.query == map[];
    hide Enumerates;
    QueryImage(s, TargetBase(m.verb), q, near, target, m.path, qs, m.query);
    PathImage(s, TargetBase(m.verb), q, near, target, m.path, qs);
    ParamsOk(qs, m.query);
  }

  /** A request that comes back was well formed, if no key holds a blank or nothing could be read ahead. */
  lemma RoundTripNeeds(v0: Version, c0: int, m: Request, qs: seq<Pair>, hs: seq<Pair>, A: seq<string>)
    requires Printable(m.version) && Enumerates(qs, m.query) && Enumerates(hs, m.header)
    requires |A| == |RequestText(m, qs, hs)| && (NoBlankKeys(m.query) || Nothing(A))
    requires ParseRequest(v0, c0, RequestText(m, qs, hs), A) == Some(m)
    ensures WellFormed(m)
  {
    hide Feed, LineOk, KeyChars, UrlResult, TargetOk, MethodStr, VersionStr, LinesText, TargetText, Enumerates,
         QueryText, Stoi, PathOk, QueryOk, HeaderTable, HeaderLines, RequestText, TargetRead, Slice, ValueOk, HoldsAmp,
         KeyFits, TargetTable, HiddenAgain;
    var s := RequestText(m, qs, hs);
    var p := Feed(Init(true, v0, c0), s, A);
    CompletedReadable(v0, c0, s, A);
    var d := RequestSound(v0, c0, s, A);
    var q := AfterTarget(v0, c0, d, A);
    TargetReadHolds(s, q, Nothing(A), d, m, qs, hs);
    HeaderImage(p, d);
    assert |d.ToVersion()| == TargetBase(m.verb) + |d.target| + 1;
    TargetNeeds(m, qs, s, q, Nothing(A), d.target);
    HiddenKept(TargetBase(m.verb), m.path, qs, m.query);
    assert PathOk(TargetBase(m.verb), m.path) by { TargetPath(TargetBase(m.verb), m.path, qs); }
    BodyNeeds(v0, c0, m, qs, hs, A);
  }

  lemma TargetPath(base: nat, path: string, qs: seq<Pair>)
    requires TargetOk(base, path, qs)
    ensures PathOk(base, path)
  {
  }

  /** An empty body is written without the blank line, so the parser never completes it; a body of one byte is
      handed out empty; any other must be announced by `Content-Length`. */
  lemma BodyNeeds(v0: Version, c0: int, m: Request, qs: seq<Pair>, hs: seq<Pair>, A: seq<string>)
    requires Printable(m.version) && Enumerates(qs, m.query) && Enumerates(hs, m.header)
    requires TargetOk(TargetBase(m.verb), m.path, qs) && |A| == |RequestText(m, qs, hs)|
    requires HeaderOk(m.header) && (CONTENT_LENGTH in m.header ==> Stoi(m.header[CONTENT_LENGTH]).Some?)
    requires ParseRequest(v0, c0, RequestText(m, qs, hs), A) == Some(m)
    ensures |m.body| >= 2 && LengthIs(m.header, |m.body|)
  {
    hide Feed, LineOk, KeyChars, PathOk, QueryOk, ValueOk, VersionStr, MethodStr, Stoi, LinesText, QueryText,
         TargetTable, HeaderTable, HeaderLines, Enumerates;
    var d := Written(m, qs, hs);
    HeaderLinesOk(hs, m.header);
    LengthOfHeader(hs, m.header);
    LengthExactly(m.header, |m.body|);
    assert ' ' !in d.target by { TargetNoBlank(TargetBase(m.verb), m.path, qs); }
    assert KeyChars([]) by { KeyCharsEmpty(); }
    var s := RequestText(m, qs, hs);
    CompletedReadable(v0, c0, s, A);
    if m.body == [] {
      NoBlankLine(v0, c0, m, qs, hs, A);
      assert false;
    }
    WrittenText(m, qs, hs);
    RequestComplete(v0, c0, d, A, m.path, qs);
  }

  /** Without a body the written text stops before the blank line. */
  lemma NoBlankLine(v0: Version, c0: int, m: Request, qs: seq<Pair>, hs: seq<Pair>, A: seq<string>)
    requires Printable(m.version) && m.body == [] && |A| == |RequestText(m, qs, hs)|
    requires Written(m, qs, hs).Ok() && TargetOk(TargetBase(m.verb), m.path, qs)
    ensures var p := Feed(Init(true, v0, c0), RequestText(m, qs, hs), A); !(p.Live() && p.Completed())
  {
    hide Feed, LinesText, MethodStr, VersionStr, TargetText, HeaderLines, TargetTable, TargetOk, RequestParts.Ok,
         RequestText;
    var init, s, d := Init(true, v0, c0), RequestText(m, qs, hs), Written(m, qs, hs);
    assert d.Text() == s + CRLF by { EmptyTail(m, qs, hs); }
    var B := A + ["", ""];
    RequestComplete(v0, c0, d, B, m.path, qs);
    FeedConcat(init, s, CRLF, A, ["", ""]);
    if Feed(init, s, A).Live() && Feed(init, s, A).Completed() {
      var d' := RequestSound(v0, c0, s, A);
      FeedBehindTarget(Feed(init, s, A), CRLF, ["", ""]);
      BodyCount(Feed(init, s, A), CRLF);
      assert false;
    }
  }

  lemma EmptyTail(m: Request, qs: seq<Pair>, hs: seq<Pair>)
    requires Printable(m.version) && m.body == []
    ensures Written(m, qs, hs).Text() == RequestText(m, qs, hs) + CRLF
  {
    hide LinesText, TargetText, VersionStr, MethodStr;
    var l := LinesText(HeaderLines(hs));
    assert l + ([] + CRLF) + [] == l + CRLF;
    AppendAssoc(RequestLine(m, qs), l, CRLF);
  }

  /** The request round trip.  For any initial contents of the parser's uninitialised fields, whatever order the
      maps are printed in and whatever lies behind each byte, a well-formed request comes back unchanged.
      Conversely only well-formed requests do, if no parameter key holds a blank, or no byte is handed over together
      with the next one, or the parser copies no key from ahead. */
  lemma RequestRoundTrip(v0: Version, c0: int, m: Request, qs: seq<Pair>, hs: seq<Pair>, A: seq<string>)
    requires Printable(m.version) && Enumerates(qs, m.query) && Enumerates(hs, m.header)
    requires |A| == |RequestText(m, qs, hs)|
    ensures WellFormed(m) ==> ParseRequest(v0, c0, RequestText(m, qs, hs), A) == Some(m)
    ensures || NoBlankKeys(m.query) || Nothing(A)
            || (Within(A, RequestText(m, qs, hs)) && !CopiesAhead(Init(true, v0, c0), RequestText(m, qs, hs))) ==>
            (ParseRequest(v0, c0, RequestText(m, qs, hs), A) == Some(m) <==> WellFormed(m))
  {
    hide WellFormed, Enumerates, RequestText, Feed, Run, CopiesAhead;
    var s := RequestText(m, qs, hs);
    if WellFormed(m) {
      RoundTripHolds(v0, c0, m, qs, hs, A);
    }
    if ParseRequest(v0, c0, s, A) == Some(m) {
      if NoBlankKeys(m.query) || Nothing(A) {
        RoundTripNeeds(v0, c0, m, qs, hs, A);
      } else if Within(A, s) && !CopiesAhead(Init(true, v0, c0), s) {
        NoCopyFeed(Init(true, v0, c0), s, A);
        RunIsFeed(Init(true, v0, c0), s);
        RoundTripNeeds(v0, c0, m, qs, hs, Alone(|s|));
      }
    }
  }

  /** Two requests that do not come back: one without a body, and one whose body is a single byte. */
  lemma ShortBodiesAreLost(v0: Version, c0: int, A: seq<string>, B: seq<string>)
    requires |A| == |RequestText(Request(GET, "/", map[], V1_1, map[], []), [], [])|
    requires |B| == |RequestText(Request(POST, "/", map[], V1_1, map["Content-Length" := "1"], "x"), [],
                                 [("Content-Length", "1")])|
    ensures var hs := [("Content-Length", "1")];
            var header := map["Content-Length" := "1"];
            && ParseRequest(v0, c0, RequestText(Request(GET, "/", map[], V1_1, map[], []), [], []), A) !=
               Some(Request(GET, "/", map[], V1_1, map[], []))
            && ParseRequest(v0, c0, RequestText(Request(POST, "/", map[], V1_1, header, "x"), [], hs), B) !=
               Some(Request(POST, "/", map[], V1_1, header, "x"))
  {
    hide ParseRequest, RequestText;
    var hs := [("Content-Length", "1")];
    assert hs[0].0 == "Content-Length";
    RequestRoundTrip(v0, c0, Request(GET, "/", map[], V1_1, map[], []), [], [], A);
    RequestRoundTrip(v0, c0, Request(POST, "/", map[], V1_1, map["Content-Length" := "1"], "x"), [], hs, B);
  }
}
