/** What one `Run` of the parser does to each piece of a message: a method, a target, a version, a status
    code, a header line, a blank line, a body. */
module HttpSegments {
  import opened HttpTypes
  import opened HttpNumbers
  import opened HttpAutomaton

  /** Chunking: feeding a string in two pieces is feeding it whole. */
  lemma {:induction false} RunConcat(p: Parser, a: string, b: string)
    ensures Run(p, a + b) == Run(Run(p, a), b)
    decreases |a|
  {
    if a == [] {
      assert a + b == b;
    } else if p.Live() {
      assert (a + b)[1..] == a[1..] + b;
      RunConcat(Step(p, a[0]), a[1..], b);
    }
  }

  lemma RunOne(p: Parser, c: char)
    requires p.Live()
    ensures Run(p, [c]) == Step(p, c)
  {
    assert Run(p, [c]) == Run(Step(p, c), [c][1..]);
  }

  lemma AppendAssoc(a: string, b: string, c: string)
    ensures a + b + c == a + (b + c)
  {
  }

  lemma SliceAt(a: string, b: string, c: string)
    ensures (a + (b + c))[|a|..|a| + |b|] == b
  {
  }

  lemma RunNil(p: Parser)
    ensures Run(p, []) == p
  {
  }

  lemma RunCons(p: Parser, s: string)
    requires p.Live() && s != []
    ensures Run(p, s) == Run(Step(p, s[0]), s[1..])
  {
  }

  lemma RunSnoc(p: Parser, s: string, c: char)
    requires Run(p, s).Live()
    ensures Run(p, s + [c]) == Step(Run(p, s), c)
  {
    RunConcat(p, s, [c]);
    RunOne(Run(p, s), c);
  }

  /** A parser that is live at the end was live after every prefix. */
  lemma LivePrefix(p: Parser, a: string, b: string)
    requires Run(p, a + b).Live()
    ensures Run(p, a).Live()
  {
    RunConcat(p, a, b);
  }

  // ----- method

  lemma MethodStep(p: Parser, i: nat)
    requires p.Live() && p.state == StMethod(i) && 1 <= i <= |MethodStr(p.verb)|
    ensures i < |MethodStr(p.verb)| ==>
              Step(p, MethodStr(p.verb)[i]) == p.(seen := p.seen + [MethodStr(p.verb)[i]], state := StMethod(i + 1))
    ensures i == |MethodStr(p.verb)| ==> Step(p, ' ') == p.(seen := p.seen + [' '], state := NEW_URL)
  {
  }

  lemma {:induction false} MethodTail(p: Parser, i: nat)
    requires p.Live() && p.state == StMethod(i) && 1 <= i <= |MethodStr(p.verb)|
    ensures Run(p, MethodStr(p.verb)[i..] + " ") ==
            p.(seen := p.seen + (MethodStr(p.verb)[i..] + " "), state := NEW_URL)
    decreases |MethodStr(p.verb)| - i
  {
    hide Run, Step, MethodStr;
    var m := MethodStr(p.verb);
    var s := m[i..] + " ";
    MethodStep(p, i);
    if i == |m| {
      assert s == [' '];
      RunOne(p, ' ');
    } else {
      var q := Step(p, m[i]);
      RunCons(p, s);
      assert s[0] == m[i] && s[1..] == m[i + 1..] + " ";
      MethodTail(q, i + 1);
      AppendAssoc(p.seen, [m[i]], m[i + 1..] + " ");
      assert s == [m[i]] + (m[i + 1..] + " ");
    }
  }

  lemma MethodSeg(p: Parser, me: Method)
    requires p.Live() && p.state == StMethod(0)
    ensures Run(p, MethodStr(me) + " ") == p.(seen := p.seen + MethodStr(me) + " ", verb := me, state := NEW_URL)
  {
    hide Run;
    var m := MethodStr(me);
    var s := m + " ";
    var q := Step(p, m[0]);
    RunCons(p, s);
    assert q == p.(seen := p.seen + [m[0]], verb := me, state := StMethod(1));
    assert s[0] == m[0] && s[1..] == m[1..] + " ";
    MethodTail(q, 1);
    assert q.seen + (m[1..] + " ") == p.seen + m + " ";
  }

  // ----- target

  /** No byte of `t` means anything to the URL state. */
  predicate Plain(t: string) { '?' !in t && '=' !in t && '&' !in t && ' ' !in t }

  lemma {:induction false} PlainSeg(p: Parser, t: string)
    requires p.Live() && p.state.StUrl? && p.state.url.idx > 0 && Plain(t)
    ensures Run(p, t) == p.(seen := p.seen + t, state := StUrl(p.state.url.(idx := p.state.url.idx + |t|)))
    decreases |t|
  {
    if t == [] {
      assert p.seen + t == p.seen;
    } else {
      var q := Step(p, t[0]);
      PlainSeg(q, t[1..]);
      assert q.seen + t[1..] == p.seen + t;
    }
  }

  /** The registers of the URL state after part of a target that begins at `base`: where the current parameter
      starts, the last `=` since the last `&`, and the key length taken at that `=`.  A `?` moves the start alone,
      so a parameter without a `=` of its own borrows the key length and the value of the one before it; a `=` in
      front of any `?` takes the length from the start of the message. */
  datatype Scan = Scan(start: int, eq: int, len: int)

  function ScanTo(base: nat, t: string, n: nat): (s: Scan)
    requires n <= |t|
    ensures -1 <= s.start <= n && -1 <= s.eq < n && -1 <= s.len && (s.eq == -1 <==> s.len == -1)
    decreases n
  {
    if n == 0 then Scan(-1, -1, -1)
    else
      var s := ScanTo(base, t, n - 1);
      match t[n - 1]
      case '?' => s.(start := n)
      case '=' => Scan(s.start, n - 1, if s.start < 0 then base + n else n - 1 - s.start)
      case '&' => Scan(n, -1, -1)
      case _ => s
  }

  /** The parameter that the `&` at `j` ends has begun, behind a `?` or a `&`; it has a `=`, its own or a borrowed
      one; and its key ends before the `&`. */
  predicate KeyFits(base: nat, t: string, j: nat)
    requires j <= |t|
  {
    var s := ScanTo(base, t, j);
    0 <= s.start && 0 <= s.len && s.start + s.len <= j
  }

  /** A path that starts with a byte the URL state keeps, holds no blank, and in which every parameter that it hides
      (text in front of a `&`) has a key. */
  predicate PathOk(base: nat, path: string) {
    && path != [] && Plain(path[..1]) && ' ' !in path
    && forall j :: 0 <= j < |path| && path[j] == '&' ==> KeyFits(base, path, j)
  }

  /** The key of the parameter that the `&` at `j` ends. */
  function HiddenKey(base: nat, path: string, j: nat): string
    requires j <= |path| && KeyFits(base, path, j)
  {
    var s := ScanTo(base, path, j);
    path[s.start..s.start + s.len]
  }

  /** The parameters hidden in the first `n` bytes of a path that begins at `base`. */
  function HiddenTable(base: nat, path: string, n: nat): map<string, Pos>
    requires n <= |path| && forall j :: 0 <= j < n && path[j] == '&' ==> KeyFits(base, path, j)
    decreases n
  {
    if n == 0 then map[]
    else
      var table := HiddenTable(base, path, n - 1);
      if path[n - 1] != '&' then table
      else
        var eq := ScanTo(base, path, n - 1).eq;
        table[HiddenKey(base, path, n - 1) := Pos(base + eq + 1, n - 1 - (eq + 1))]
  }

  lemma {:induction false} HiddenKeys(base: nat, path: string, n: nat, k: string)
    requires n <= |path| && forall j :: 0 <= j < n && path[j] == '&' ==> KeyFits(base, path, j)
    ensures k in HiddenTable(base, path, n) <==>
            exists j :: 0 <= j < n && path[j] == '&' && KeyFits(base, path, j) && HiddenKey(base, path, j) == k
    decreases n
  {
    if n > 0 {
      HiddenKeys(base, path, n - 1, k);
    }
  }

  /** Without a `?` nothing is hidden. */
  lemma {:induction false} NothingHidden(base: nat, path: string, n: nat)
    requires n <= |path| && forall j :: 0 <= j < n && path[j] == '&' ==> KeyFits(base, path, j)
    requires forall j :: 0 <= j < n ==> path[j] != '?'
    ensures ScanTo(base, path, n).start == -1 && HiddenTable(base, path, n) == map[]
    ensures forall j :: 0 <= j < n ==> path[j] != '&'
    decreases n
  {
    if n > 0 {
      NothingHidden(base, path, n - 1);
    }
  }

  /** The fields of the URL state after a path that began at `base`. */
  ghost predicate UrlRegs(st: State, base: nat, s: Scan) {
    && st.StUrl?
    && st.url.keyOff == (if s.start < 0 then -1 else base + s.start)
    && st.url.valOff == (if s.eq < 0 then -1 else base + s.eq + 1)
    && st.url.keyLen == s.len
  }

  /** What a byte other than a blank does to the fields of the URL state. */
  lemma UrlByte(p: Parser, c: char, ahead: string)
    requires p.Live() && p.state.StUrl? && c != ' '
    ensures var q, u, l := StepAhead(p, c, ahead), p.state.url, |p.seen| + 1;
            if c == '&' && !InBounds(Pos(u.keyOff, u.keyLen), l + |ahead|) then !q.Live()
            else
              && q == p.(seen := p.seen + [c], state := q.state, path := q.path, query := q.query) && q.state.StUrl?
              && if c == '?' then
                   && q.state.url == UrlMatch(u.idx + 1, l, u.keyLen, u.valOff, true)
                   && q.path == Pos(p.path.off, l - p.path.off - 1) && q.query == p.query
                 else if c == '=' then
                   && q.state.url == UrlMatch(u.idx + 1, u.keyOff, l - u.keyOff - 1, l, u.hasQuery)
                   && q.path == p.path && q.query == p.query
                 else if c == '&' then
                   && q.state.url == UrlMatch(u.idx + 1, l, -1, -1, u.hasQuery) && q.path == p.path
                   && q.query == p.query[Slice(q.seen + ahead, Pos(u.keyOff, u.keyLen)) :=
                                           Pos(u.valOff, l - 1 - u.valOff)]
                 else
                   && q.state.url == u.(idx := u.idx + 1) && q.query == p.query
                   && q.path == if u.idx == 0 then Pos(l - 1, p.path.len) else p.path
  {
  }

  /** The key of a hidden parameter, where the parser copies it. */
  lemma KeyCopied(seen: string, base: nat, path: string, n: nat, rest: string)
    requires n <= |path| && |seen| == base + n && seen[base..] == path[..n] && KeyFits(base, path, n)
    ensures var s := ScanTo(base, path, n);
            && InBounds(Pos(base + s.start, s.len), |seen + rest|)
            && Slice(seen + rest, Pos(base + s.start, s.len)) == HiddenKey(base, path, n)
  {
    var s := ScanTo(base, path, n);
    hide ScanTo;
    var k := Slice(seen + rest, Pos(base + s.start, s.len));
    forall i | 0 <= i < s.len ensures k[i] == path[s.start + i] {
      assert k[i] == seen[base + s.start + i] == seen[base..][s.start + i];
    }
  }

  /** One byte of a path. */
  lemma PathStep(p: Parser, base: nat, path: string, n: nat)
    requires p.Live() && n < |path| && path[n] != ' ' && (n == 0 ==> Plain(path[..1]))
    requires UrlRegs(p.state, base, ScanTo(base, path, n)) && p.state.url.idx == n
    requires |p.seen| == base + n && p.seen[base..] == path[..n]
    requires path[n] == '&' ==> KeyFits(base, path, n)
    ensures var q := Step(p, path[n]);
            var s := ScanTo(base, path, n);
            && q == p.(seen := p.seen + [path[n]], path := q.path, state := q.state, query := q.query)
            && UrlRegs(q.state, base, ScanTo(base, path, n + 1)) && q.state.url.idx == n + 1
            && (q.state.url.hasQuery <==> p.state.url.hasQuery || path[n] == '?')
            && q.path.off == (if n == 0 then |p.seen| else p.path.off)
            && q.query == if path[n] != '&' then p.query
                          else p.query[HiddenKey(base, path, n) := Pos(base + s.eq + 1, n - (s.eq + 1))]
  {
    hide StepAhead, KeyFits, HiddenKey, Slice;
    UrlByte(p, path[n], []);
    if n == 0 { assert path[0] in path[..1]; }
    if path[n] == '&' {
      KeyCopied(p.seen, base, path, n, [path[n]]);
      assert p.seen + [path[n]] + [] == p.seen + [path[n]];
      FitsStart(base, path, n);
    }
  }

  lemma FitsStart(base: nat, path: string, n: nat)
    requires n <= |path| && KeyFits(base, path, n)
    ensures 0 <= ScanTo(base, path, n).start && 0 <= ScanTo(base, path, n).eq
  {
  }

  lemma {:induction false} PathSeg(p: Parser, path: string, n: nat)
    requires p.Live() && p.state == NEW_URL && PathOk(|p.seen|, path) && n <= |path| && p.query == map[]
    ensures var q := Run(p, path[..n]);
            && q == p.(seen := p.seen + path[..n], path := q.path, state := q.state,
                       query := HiddenTable(|p.seen|, path, n))
            && UrlRegs(q.state, |p.seen|, ScanTo(|p.seen|, path, n)) && q.state.url.idx == n
            && (q.state.url.hasQuery <==> '?' in path[..n])
            && (n > 0 ==> q.path.off == |p.seen|)
    decreases n
  {
    hide Run, Step, KeyFits, UrlRegs, ScanTo, HiddenKey, Plain;
    if n == 0 {
      RunNil(p);
      assert p.seen + path[..0] == p.seen;
      assert UrlRegs(p.state, |p.seen|, ScanTo(|p.seen|, path, 0)) by { StartRegs(p, path); }
    } else {
      var c := path[n - 1];
      PathSeg(p, path, n - 1);
      var q := Run(p, path[..n - 1]);
      assert path[..n] == path[..n - 1] + [c];
      assert c in path;
      assert q.seen[|p.seen|..] == path[..n - 1];
      RunSnoc(p, path[..n - 1], c);
      PathStep(q, |p.seen|, path, n - 1);
      AppendAssoc(p.seen, path[..n - 1], [c]);
    }
  }

  lemma StartRegs(p: Parser, t: string)
    requires p.state == NEW_URL
    ensures UrlRegs(p.state, |p.seen|, ScanTo(|p.seen|, t, 0))
  {
  }

  type Pair = (string, string)

  /** A key may hold `=`: the last one before the value separates the two. */
  predicate QueryOk(kv: Pair) {
    ' ' !in kv.0 && '&' !in kv.0 && '?' !in kv.0 && Plain(kv.1)
  }

  lemma {:induction false} KeyRest(p: Parser, k: string)
    requires p.Live() && p.state.StUrl? && p.state.url.idx > 0
    requires ' ' !in k && '&' !in k && '?' !in k
    ensures var q := Run(p, k);
            && q == p.(seen := p.seen + k, state := q.state)
            && q.state.StUrl? && q.state.url.idx > 0
            && q.state.url.keyOff == p.state.url.keyOff
            && q.state.url.hasQuery == p.state.url.hasQuery
    decreases |k|
  {
    if k == [] {
      assert p.seen + k == p.seen;
    } else {
      var q := Step(p, k[0]);
      KeyRest(q, k[1..]);
      assert q.seen + k[1..] == p.seen + k;
    }
  }

  function PairText(kv: Pair): string { kv.0 + "=" + kv.1 }

  lemma PairSeg(p: Parser, kv: Pair)
    requires p.Live() && p.state.StUrl? && p.state.url.idx > 0 && QueryOk(kv)
    requires p.state.url.hasQuery && p.state.url.keyOff == |p.seen|
    ensures var q := Run(p, PairText(kv));
            && q == p.(seen := p.seen + PairText(kv), state := q.state)
            && q.state.StUrl? && q.state.url.idx > 0 && q.state.url.hasQuery
            && q.state.url.keyOff == |p.seen| && q.state.url.keyLen == |kv.0|
            && q.state.url.valOff == |p.seen| + |kv.0| + 1
  {
    hide Run;
    var q1 := Run(p, kv.0);
    KeyRest(p, kv.0);
    var q2 := Step(q1, '=');
    RunSnoc(p, kv.0, '=');
    PlainSeg(q2, kv.1);
    RunConcat(p, kv.0 + "=", kv.1);
    assert q2.seen + kv.1 == p.seen + PairText(kv);
  }

  /** `k=v` pairs joined by `&`. */
  function QueryText(qs: seq<Pair>): string
    requires qs != []
  {
    if |qs| == 1 then PairText(qs[0]) else PairText(qs[0]) + "&" + QueryText(qs[1..])
  }

  /** Where the values of the pairs lie when the text of `qs` starts at `off`; a repeated key keeps its last value. */
  function QueryTable(off: nat, qs: seq<Pair>, table: map<string, Pos>): map<string, Pos>
    decreases |qs|
  {
    if qs == [] then table
    else QueryTable(off + |PairText(qs[0])| + 1, qs[1..],
                    table[qs[0].0 := Pos(off + |qs[0].0| + 1, |qs[0].1|)])
  }

  /** The byte after a parameter records it: `&` starts the next one, a blank ends the target. */
  lemma PairEnd(p: Parser, kv: Pair, c: char)
    requires p.Live() && p.state.StUrl? && p.state.url.hasQuery && (c == '&' || c == ' ')
    requires p.state.url.keyLen == |kv.0| && p.state.url.keyOff >= 0
    requires p.state.url.valOff == p.state.url.keyOff + |kv.0| + 1
    requires |p.seen| == p.state.url.valOff + |kv.1|
    requires p.seen[p.state.url.keyOff..p.state.url.keyOff + |kv.0|] == kv.0
    ensures var next := p.(seen := p.seen + [c],
                           query := p.query[kv.0 := Pos(p.state.url.valOff, |kv.1|)]);
            Step(p, c) == if c == ' ' then next.Goto(NEW_VERSION)
                          else next.Goto(StUrl(UrlMatch(p.state.url.idx + 1, |p.seen| + 1, -1, -1, true)))
  {
    assert Slice(p.seen + [c] + [], Pos(p.state.url.keyOff, |kv.0|)) == kv.0;
  }

  /** One parameter together with the byte after it. */
  lemma ParamSeg(p: Parser, kv: Pair, c: char)
    requires p.Live() && p.state.StUrl? && p.state.url.idx > 0 && QueryOk(kv) && (c == '&' || c == ' ')
    requires p.state.url.hasQuery && p.state.url.keyOff == |p.seen|
    ensures var t := PairText(kv) + [c];
            var q := Run(p, t);
            && q == p.(seen := p.seen + t, state := q.state,
                       query := p.query[kv.0 := Pos(|p.seen| + |kv.0| + 1, |kv.1|)])
            && (if c == ' ' then q.state == NEW_VERSION
                else q.state.StUrl? && q.state.url.idx > 0 && q.state.url.hasQuery && q.state.url.keyOff == |q.seen|)
  {
    hide Run, Step, QueryOk;
    var t := PairText(kv);
    var q := Run(p, t);
    PairSeg(p, kv);
    assert q.seen[|p.seen|..|p.seen| + |kv.0|] == kv.0 by {
      SliceAt(p.seen, kv.0, "=" + kv.1);
      assert kv.0 + ("=" + kv.1) == t;
    }
    RunSnoc(p, t, c);
    PairEnd(q, kv, c);
    AppendAssoc(p.seen, t, [c]);
  }

  lemma {:induction false} QuerySeg(p: Parser, qs: seq<Pair>)
    requires qs != [] && forall kv :: kv in qs ==> QueryOk(kv)
    requires p.Live() && p.state.StUrl? && p.state.url.idx > 0
    requires p.state.url.hasQuery && p.state.url.keyOff == |p.seen|
    ensures Run(p, QueryText(qs) + " ") ==
            p.(seen := p.seen + (QueryText(qs) + " "), state := NEW_VERSION,
               query := QueryTable(|p.seen|, qs, p.query))
    decreases |qs|
  {
    hide Run, Step, QueryOk;
    assert qs[0] in qs;
    if |qs| == 1 {
      ParamSeg(p, qs[0], ' ');
      assert QueryTable(|p.seen|, qs, p.query)
          == QueryTable(|p.seen| + |PairText(qs[0])| + 1, [],
                        p.query[qs[0].0 := Pos(|p.seen| + |qs[0].0| + 1, |qs[0].1|)]);
    } else {
      var t := PairText(qs[0]) + "&";
      var q := Run(p, t);
      ParamSeg(p, qs[0], '&');
      QuerySeg(q, qs[1..]);
      RunConcat(p, t, QueryText(qs[1..]) + " ");
      assert QueryText(qs) + " " == t + (QueryText(qs[1..]) + " ");
      assert q.seen + (QueryText(qs[1..]) + " ") == p.seen + (QueryText(qs) + " ");
    }
  }

  function TargetText(path: string, qs: seq<Pair>): string {
    if qs == [] then path else path + "?" + QueryText(qs)
  }

  /** A target whose path and parameters the parser can tell apart again. */
  predicate TargetOk(base: nat, path: string, qs: seq<Pair>) {
    && PathOk(base, path)
    && (qs == [] ==> '?' !in path)
    && forall kv :: kv in qs ==> QueryOk(kv)
  }

  /** The query table after a target that begins at `base`: what the path hides, then the parameters. */
  function TargetTable(base: nat, path: string, qs: seq<Pair>): map<string, Pos>
    requires TargetOk(base, path, qs)
  {
    QueryTable(base + |path| + 1, qs, HiddenTable(base, path, |path|))
  }

  lemma TargetSeg(p: Parser, path: string, qs: seq<Pair>)
    requires p.Live() && p.state == NEW_URL && TargetOk(|p.seen|, path, qs) && p.query == map[]
    ensures Run(p, TargetText(path, qs) + " ") ==
            p.(seen := p.seen + TargetText(path, qs) + " ", state := NEW_VERSION,
               path := Pos(|p.seen|, |path|), query := TargetTable(|p.seen|, path, qs))
  {
    hide Run, QueryOk, HiddenTable, KeyFits;
    var q := Run(p, path);
    PathSeg(p, path, |path|);
    assert path[..|path|] == path;
    if qs == [] {
      RunSnoc(p, path, ' ');
    } else {
      var r := Step(q, '?');
      RunSnoc(p, path, '?');
      QuerySeg(r, qs);
      assert TargetText(path, qs) + " " == (path + "?") + (QueryText(qs) + " ");
      RunConcat(p, path + "?", QueryText(qs) + " ");
      assert r.seen + (QueryText(qs) + " ") == p.seen + TargetText(path, qs) + " ";
    }
  }

  // ----- version, status code, reason phrase

  lemma SlashStep(p: Parser, i: nat)
    requires p.Live() && i < 5 && p.state.StVersion? && p.state.idx == i
    ensures Step(p, HTTP_SLASH[i]) ==
            p.(seen := p.seen + [HTTP_SLASH[i]], state := StVersion(i + 1, p.state.prefix0))
  {
  }

  lemma {:induction false} HttpSlashSeg(p: Parser, i: nat)
    requires p.Live() && i <= 5 && p.state.StVersion? && p.state.idx == i
    ensures Run(p, HTTP_SLASH[i..]) == p.(seen := p.seen + HTTP_SLASH[i..], state := StVersion(5, p.state.prefix0))
    decreases 5 - i
  {
    hide Run, Step;
    if i == 5 {
      RunNil(p);
      assert p.seen + HTTP_SLASH[i..] == p.seen;
    } else {
      SlashStep(p, i);
      RunCons(p, HTTP_SLASH[i..]);
      HttpSlashSeg(Step(p, HTTP_SLASH[i]), i + 1);
      AppendAssoc(p.seen, [HTTP_SLASH[i]], HTTP_SLASH[i + 1..]);
      assert HTTP_SLASH[i..] == [HTTP_SLASH[i]] + HTTP_SLASH[i + 1..];
    }
  }

  lemma VersionSeg(p: Parser, ve: Version)
    requires p.Live() && p.state == NEW_VERSION && Printable(ve)
    ensures var q := Run(p, VersionStr(ve));
            q == p.(seen := p.seen + VersionStr(ve), version := ve, state := q.state)
            && q.state.StVersion? && q.state.idx == 8
  {
    hide Run;
    var s := VersionStr(ve);
    HttpSlashSeg(p, 0);
    assert HTTP_SLASH[0..] == HTTP_SLASH == s[..5];
    RunSnoc(p, s[..5], s[5]);
    assert s[..6] == s[..5] + [s[5]];
    RunSnoc(p, s[..6], s[6]);
    assert s[..7] == s[..6] + [s[6]];
    RunSnoc(p, s[..7], s[7]);
    assert s == s[..7] + [s[7]];
  }

  lemma RequestVersionSeg(p: Parser, ve: Version)
    requires p.Live() && p.state == NEW_VERSION && Printable(ve) && p.isRequest
    ensures Run(p, VersionStr(ve) + CRLF) ==
            p.(seen := p.seen + VersionStr(ve) + CRLF, version := ve, state := NEW_HEADER)
  {
    hide Run;
    var s := VersionStr(ve);
    VersionSeg(p, ve);
    RunSnoc(p, s, '\r');
    RunSnoc(p, s + ['\r'], '\n');
    assert s + CRLF == s + ['\r'] + ['\n'];
  }

  lemma ResponseVersionSeg(p: Parser, ve: Version)
    requires p.Live() && p.state == NEW_VERSION && Printable(ve) && !p.isRequest
    ensures Run(p, VersionStr(ve) + " ") ==
            p.(seen := p.seen + VersionStr(ve) + " ", version := ve, state := NEW_CODE)
  {
    hide Run;
    VersionSeg(p, ve);
    RunSnoc(p, VersionStr(ve), ' ');
  }

  /** The three digits of a status code. */
  function CodeText(code: int): string
    requires 100 <= code < 1000
  {
    [('0' as int + code / 100) as char, ('0' as int + code / 10 % 10) as char, ('0' as int + code % 10) as char]
  }

  lemma ToStringOfCode(code: int)
    requires 100 <= code < 1000
    ensures ToString(code) == CodeText(code)
  {
    assert Decimal(code / 10 / 10) == [('0' as int + code / 100) as char];
    assert Decimal(code / 10) == Decimal(code / 10 / 10) + [('0' as int + code / 10 % 10) as char];
  }

  lemma CodeDigits(code: int)
    requires 100 <= code < 1000
    ensures forall c :: c in CodeText(code) ==> IsDigit(c)
    ensures DigitValue(CodeText(code)[0]) == code / 100
    ensures DigitValue(CodeText(code)[1]) == code / 10 % 10
    ensures DigitValue(CodeText(code)[2]) == code % 10
    ensures code / 100 * 100 + code / 10 % 10 * 10 + code % 10 == code
  {
  }

  lemma RunDead(p: Parser, s: string)
    requires !p.Live()
    ensures Run(p, s) == p
  {
  }

  /** A status code of the table is read back; a parser whose uninitialised `code` happens to be -1 refuses it. */
  lemma CodeSeg(p: Parser, code: int)
    requires p.Live() && p.state == NEW_CODE && 100 <= code < 1000 && ReasonPhrase(code).Some?
    ensures p.code != -1 ==>
              Run(p, CodeText(code) + " ") ==
              p.(seen := p.seen + CodeText(code) + " ", code := code, state := NEW_DETAIL)
    ensures p.code == -1 ==> !Run(p, CodeText(code) + " ").Live()
  {
    hide Run;
    hide ReasonPhrase;
    var s := CodeText(code);
    if p.code == -1 {
      RunCons(p, s + " ");
      RunDead(Step(p, s[0]), (s + " ")[1..]);
    } else {
      RunOne(p, s[0]);
      RunSnoc(p, [s[0]], s[1]);
      RunSnoc(p, [s[0]] + [s[1]], s[2]);
      assert s == [s[0]] + [s[1]] + [s[2]];
      CodeDigits(code);
      RunSnoc(p, s, ' ');
    }
  }

  /** The reason phrase runs to the first line feed after a carriage return.  What is recorded is a slice that
      starts one byte late and ends one byte past the line feed. */
  lemma {:induction false} DetailSeg(p: Parser, t: string)
    requires p.Live() && p.state.StDetail? && !p.state.sawCR && '\r' !in t && p.state.idx >= 0
    ensures Run(p, t + CRLF) ==
            p.(seen := p.seen + t + CRLF, state := NEW_HEADER,
               detail := Pos(|p.seen| - p.state.idx + 1, p.state.idx + |t| + 2))
    decreases |t|
  {
    if t == [] {
      RunOne(p, '\r');
      RunSnoc(p, ['\r'], '\n');
      assert t + CRLF == ['\r'] + ['\n'];
      assert p.seen + t + CRLF == p.seen + ['\r'] + ['\n'];
    } else {
      var q := Step(p, t[0]);
      assert (t + CRLF)[0] == t[0] && (t + CRLF)[1..] == t[1..] + CRLF;
      DetailSeg(q, t[1..]);
      assert q.seen + t[1..] + CRLF == p.seen + t + CRLF;
    }
  }

  // ----- header lines

  /** One header line: a key, a colon, `pad` blanks, a value. */
  datatype Line = Line(key: string, pad: nat, value: string)

  function Blanks(n: nat): string { seq(n, _ => ' ') }

  function LineText(h: Line): string { h.key + ":" + Blanks(h.pad) + h.value + CRLF }

  /** No carriage return, and no colon except possibly as the first byte. */
  predicate KeyChars(k: string) { '\r' !in k && (k != [] ==> ':' !in k[1..]) }

  predicate ValueOk(v: string) { v != [] && v[0] != ' ' && '\r' !in v[1..] }

  const CONTENT_LENGTH := "Content-Length"

  /** The header lines the parser takes as written. */
  predicate LineOk(h: Line) {
    && h.key != [] && KeyChars(h.key)
    && ValueOk(h.value)
    && (h.key == CONTENT_LENGTH ==> Stoi(h.value).Some?)
  }

  /** The parser is at the first byte of a header line. */
  predicate AtLine(st: State) {
    st.StHeader? && st.hdr.part.Key? && st.hdr.idx == 0 && !st.hdr.emptyLine
  }

  lemma {:induction false} KeyTail(p: Parser, t: string)
    requires p.Live() && p.state.StHeader? && p.state.hdr.part.Key? && p.state.hdr.idx > 0
    requires '\r' !in t && ':' !in t
    ensures Run(p, t) == p.(seen := p.seen + t, state := StHeader(p.state.hdr.(idx := p.state.hdr.idx + |t|)))
    decreases |t|
  {
    if t == [] {
      assert p.seen + t == p.seen;
    } else {
      var q := Step(p, t[0]);
      KeyTail(q, t[1..]);
      assert q.seen + t[1..] == p.seen + t;
    }
  }

  lemma KeyFirst(p: Parser, c: char)
    requires p.Live() && AtLine(p.state) && c != '\r'
    ensures Step(p, c) == p.(seen := p.seen + [c], state := StHeader(p.state.hdr.(idx := 1, keyOff := |p.seen|)))
  {
  }

  lemma KeySeg(p: Parser, k: string)
    requires p.Live() && AtLine(p.state) && k != [] && KeyChars(k)
    ensures Run(p, k) == p.(seen := p.seen + k, state := StHeader(p.state.hdr.(idx := |k|, keyOff := |p.seen|)))
  {
    hide Run, Step;
    assert k[0] in k;
    var q := Step(p, k[0]);
    KeyFirst(p, k[0]);
    RunCons(p, k);
    KeyTail(q, k[1..]);
    assert q.seen + k[1..] == p.seen + k;
  }

  lemma {:induction false} PadSeg(p: Parser, n: nat)
    requires p.Live() && p.state.StHeader? && p.state.hdr.part.Split?
    ensures Run(p, Blanks(n)) ==
            p.(seen := p.seen + Blanks(n), state := StHeader(p.state.hdr.(idx := p.state.hdr.idx + n)))
    decreases n
  {
    if n == 0 {
      assert p.seen + Blanks(n) == p.seen;
    } else {
      var q := Step(p, ' ');
      assert Blanks(n)[0] == ' ' && Blanks(n)[1..] == Blanks(n - 1);
      PadSeg(q, n - 1);
      assert q.seen + Blanks(n - 1) == p.seen + Blanks(n);
    }
  }

  lemma {:induction false} ValueTail(p: Parser, t: string)
    requires p.Live() && p.state.StHeader? && p.state.hdr.part.Value? && '\r' !in t
    ensures Run(p, t) == p.(seen := p.seen + t, state := StHeader(p.state.hdr.(idx := p.state.hdr.idx + |t|)))
    decreases |t|
  {
    if t == [] {
      assert p.seen + t == p.seen;
    } else {
      var q := Step(p, t[0]);
      ValueTail(q, t[1..]);
      assert q.seen + t[1..] == p.seen + t;
    }
  }

  /** Up to the end of the value, before the carriage return. */
  lemma LineHead(p: Parser, h: Line)
    requires p.Live() && AtLine(p.state) && h.key != [] && KeyChars(h.key) && ValueOk(h.value)
    ensures var t := h.key + ":" + Blanks(h.pad) + h.value;
            var q := Run(p, t);
            && q == p.(seen := p.seen + t, state := q.state)
            && q.state.StHeader?
            && q.state.hdr.part.Value? && !q.state.hdr.emptyLine
            && q.state.hdr.keyOff == |p.seen| && q.state.hdr.keyLen == |h.key|
            && q.state.hdr.valOff == |p.seen| + |h.key| + 1 + h.pad
  {
    hide Run;
    var q1 := Run(p, h.key);
    KeySeg(p, h.key);
    var q2 := Step(q1, ':');
    RunSnoc(p, h.key, ':');
    var q3 := Run(q2, Blanks(h.pad));
    PadSeg(q2, h.pad);
    RunConcat(p, h.key + ":", Blanks(h.pad));
    var q4 := Step(q3, h.value[0]);
    RunSnoc(p, h.key + ":" + Blanks(h.pad), h.value[0]);
    var t := h.key + ":" + Blanks(h.pad) + [h.value[0]];
    ValueTail(q4, h.value[1..]);
    RunConcat(p, t, h.value[1..]);
    assert t + h.value[1..] == h.key + ":" + Blanks(h.pad) + h.value;
    assert q4.seen + h.value[1..] == p.seen + (h.key + ":" + Blanks(h.pad) + h.value);
  }

  function LineLength(h: Line, n: int): int {
    if h.key == CONTENT_LENGTH && Stoi(h.value).Some? then Stoi(h.value).value else n
  }

  /** The carriage return after a value records it. */
  lemma ValueEnd(p: Parser, h: Line)
    requires p.Live() && p.state.StHeader? && p.state.hdr.part.Value? && LineOk(h)
    requires p.state.hdr.keyLen == |h.key| && p.state.hdr.keyOff >= 0
    requires p.state.hdr.valOff == p.state.hdr.keyOff + |h.key| + 1 + h.pad
    requires |p.seen| == p.state.hdr.valOff + |h.value|
    requires p.seen[p.state.hdr.keyOff..p.state.hdr.keyOff + |h.key|] == h.key
    requires p.seen[p.state.hdr.valOff..] == h.value
    ensures Step(p, '\r') ==
            p.(seen := p.seen + ['\r'], header := p.header[h.key := Pos(p.state.hdr.valOff, |h.value|)],
               totalLen := LineLength(h, p.totalLen),
               state := StHeader(p.state.hdr.(idx := p.state.hdr.idx + 1, part := End)))
  {
    hide Stoi;
    var seen := p.seen + ['\r'];
    assert Slice(seen, Pos(p.state.hdr.keyOff, |h.key|)) == h.key;
    assert Slice(seen, Pos(p.state.hdr.valOff, |h.value|)) == h.value;
  }

  lemma LineFeed(p: Parser)
    requires p.Live() && p.state.StHeader? && p.state.hdr.part.End? && !p.state.hdr.emptyLine
    ensures Step(p, '\n') == p.(seen := p.seen + ['\n'], state := StHeader(p.state.hdr.(idx := 0, part := Key)))
  {
  }

  lemma LineSeg(p: Parser, h: Line)
    requires p.Live() && AtLine(p.state) && LineOk(h)
    ensures var q := Run(p, LineText(h));
            && q == p.(seen := p.seen + LineText(h), state := q.state, totalLen := LineLength(h, p.totalLen),
                       header := p.header[h.key := Pos(|p.seen| + |h.key| + 1 + h.pad, |h.value|)])
            && AtLine(q.state)
            && (if h.key == CONTENT_LENGTH then Denotes(h.value, q.totalLen) else q.totalLen == p.totalLen)
  {
    hide Run, Step, Stoi, Denotes;
    var t := h.key + ":" + Blanks(h.pad) + h.value;
    var q := Run(p, t);
    if h.key == CONTENT_LENGTH { DenotesExactly(h.value, LineLength(h, p.totalLen)); }
    LineHead(p, h);
    RunSnoc(p, t, '\r');
    var r := Step(q, '\r');
    assert q.seen[|p.seen|..|p.seen| + |h.key|] == h.key;
    assert q.seen[|p.seen| + |h.key| + 1 + h.pad..] == h.value;
    ValueEnd(q, h);
    RunSnoc(p, t + ['\r'], '\n');
    LineFeed(r);
    assert LineText(h) == t + ['\r'] + ['\n'];
    assert r.seen + ['\n'] == p.seen + LineText(h);
  }

  function LinesText(hs: seq<Line>): string {
    if hs == [] then [] else LineText(hs[0]) + LinesText(hs[1..])
  }

  /** Where the header values lie when the text of `hs` starts at `off`; a repeated key keeps its last value. */
  function HeaderTable(off: nat, hs: seq<Line>, table: map<string, Pos>): map<string, Pos>
    decreases |hs|
  {
    if hs == [] then table
    else HeaderTable(off + |LineText(hs[0])|, hs[1..],
                     table[hs[0].key := Pos(off + |hs[0].key| + 1 + hs[0].pad, |hs[0].value|)])
  }

  /** The body length after the lines `hs`: that of the last `Content-Length`, else `n`. */
  function FinalLength(hs: seq<Line>, n: int): int {
    if hs == [] then n else FinalLength(hs[1..], LineLength(hs[0], n))
  }

  lemma {:induction false} LinesSeg(p: Parser, hs: seq<Line>)
    requires p.Live() && AtLine(p.state) && forall h :: h in hs ==> LineOk(h)
    ensures var q := Run(p, LinesText(hs));
            && q == p.(seen := p.seen + LinesText(hs), state := q.state, totalLen := FinalLength(hs, p.totalLen),
                       header := HeaderTable(|p.seen|, hs, p.header))
            && AtLine(q.state)
    decreases |hs|
  {
    hide Run, Step, Stoi, Denotes, LineText, LineOk;
    if hs == [] {
      RunNil(p);
      assert p.seen + LinesText(hs) == p.seen;
    } else {
      var q := Run(p, LineText(hs[0]));
      LineSeg(p, hs[0]);
      LinesSeg(q, hs[1..]);
      RunConcat(p, LineText(hs[0]), LinesText(hs[1..]));
      assert q.seen + LinesText(hs[1..]) == p.seen + LinesText(hs);
    }
  }

  /** The line that ends the header: its bytes before the carriage return are ignored. */
  lemma BlankSeg(p: Parser, junk: string)
    requires p.Live() && AtLine(p.state) && KeyChars(junk)
    ensures Run(p, junk + CRLF) == p.(seen := p.seen + junk + CRLF, state := NEW_BODY)
  {
    hide Run;
    var q := Run(p, junk);
    if junk != [] {
      KeySeg(p, junk);
    } else {
      RunNil(p);
      assert p.seen + junk == p.seen;
    }
    RunSnoc(p, junk, '\r');
    RunSnoc(p, junk + ['\r'], '\n');
    assert junk + CRLF == junk + ['\r'] + ['\n'];
    assert p.seen + junk + CRLF == p.seen + junk + ['\r'] + ['\n'];
  }

  // ----- body

  lemma {:induction false} BodyTail(p: Parser, b: string)
    requires p.Live() && p.state.StBody? && p.state.idx >= 1
    ensures Run(p, b) ==
            p.(seen := p.seen + b, state := StBody(p.state.idx + |b|),
               body := if p.state.idx < p.totalLen <= p.state.idx + |b|
                       then Pos(p.body.off, |p.seen| + p.totalLen - p.state.idx - p.body.off) else p.body)
    decreases |b|
  {
    if b == [] {
      assert p.seen + b == p.seen;
    } else {
      var q := Step(p, b[0]);
      BodyTail(q, b[1..]);
      assert q.seen + b[1..] == p.seen + b;
    }
  }

  /** The body: its start is taken from the first byte, its length only if `2 <= totalLen`. */
  lemma BodySeg(p: Parser, b: string)
    requires p.Live() && p.state == NEW_BODY
    ensures Run(p, b) ==
            p.(seen := p.seen + b, state := StBody(|b|),
               body := if b == [] then p.body
                       else Pos(|p.seen|, if 2 <= p.totalLen <= |b| then p.totalLen else p.body.len))
  {
    hide Run;
    if b == [] {
      RunNil(p);
      assert p.seen + b == p.seen;
    } else {
      var q := Step(p, b[0]);
      RunCons(p, b);
      BodyTail(q, b[1..]);
      assert q.seen + b[1..] == p.seen + b;
    }
  }
}
