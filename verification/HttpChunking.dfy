/** Calls and chunks: which byte strings the parser reads alike however they are cut into calls.  A key may be
    copied from behind the current byte; then, and only then, the cut matters. */
module HttpChunking {
  import opened HttpTypes
  import opened HttpAutomaton
  import opened HttpSegments

  lemma {:induction false} FeedConcat(p: Parser, a: string, b: string, A: seq<string>, B: seq<string>)
    requires |A| == |a| && |B| == |b|
    ensures Feed(p, a + b, A + B) == Feed(Feed(p, a, A), b, B)
    decreases |a|
  {
    if a == [] {
      assert a + b == b && A + B == B;
    } else if p.Live() {
      assert (a + b)[1..] == a[1..] + b && (A + B)[1..] == A[1..] + B;
      FeedConcat(StepAhead(p, a[0], A[0]), a[1..], b, A[1..], B);
    }
  }

  lemma FeedCut(p: Parser, s: string, n: nat, A: seq<string>)
    requires |A| == |s| && n <= |s|
    ensures Feed(p, s, A) == Feed(Feed(p, s[..n], A[..n]), s[n..], A[n..])
  {
    assert s == s[..n] + s[n..] && A == A[..n] + A[n..];
    FeedConcat(p, s[..n], s[n..], A[..n], A[n..]);
  }

  lemma FeedNil(p: Parser, A: seq<string>)
    requires |A| == 0
    ensures Feed(p, [], A) == p
  {
  }

  /** A run that changes the state object has a first byte, and survives it. */
  lemma FeedAdvance(p: Parser, s: string, A: seq<string>)
    requires |A| == |s| && p.Live() && Feed(p, s, A).Live() && Feed(p, s, A) != p
    ensures s != [] && StepAhead(p, s[0], A[0]).Live()
    ensures Feed(p, s, A) == Feed(StepAhead(p, s[0], A[0]), s[1..], A[1..])
  {
  }

  lemma FeedSnoc(p: Parser, s: string, c: char, A: seq<string>, a: string)
    requires |A| == |s| && Feed(p, s, A).Live()
    ensures Feed(p, s + [c], A + [a]) == StepAhead(Feed(p, s, A), c, a)
  {
    FeedConcat(p, s, [c], A, [a]);
  }

  lemma FeedDead(p: Parser, s: string, A: seq<string>)
    requires |A| == |s| && !p.Live()
    ensures Feed(p, s, A) == p
  {
  }

  /** The parser never un-counts a byte: it has seen exactly a prefix of what it was fed. */
  lemma {:induction false} SeenGrows(p: Parser, s: string, A: seq<string>)
    requires |A| == |s|
    ensures var q := Feed(p, s, A);
            && p.seen <= q.seen <= p.seen + s
            && (q.Live() ==> q.seen == p.seen + s)
            && q.isRequest == p.isRequest
    decreases |s|
  {
    if s == [] {
      assert p.seen + s == p.seen;
    } else if p.Live() {
      SeenGrows(StepAhead(p, s[0], A[0]), s[1..], A[1..]);
      assert p.seen + [s[0]] + s[1..] == p.seen + s;
    }
  }

  /** With `n` bytes behind it in the chunk, the byte `c` makes the parser copy a key that reaches past `c`. */
  predicate CopyAt(p: Parser, c: char, n: nat) {
    && p.state.StUrl?
    && var u := p.state.url;
    && (c == '&' || (c == ' ' && u.hasQuery && u.keyOff != -1 && u.keyLen != -1 && u.valOff != -1))
    && 0 <= u.keyOff && 0 <= u.keyLen
    && |p.seen| + 1 < u.keyOff + u.keyLen <= |p.seen| + 1 + n
  }

  lemma StepSees(p: Parser, c: char, ahead: string)
    requires p.Live()
    ensures StepAhead(p, c, ahead) == Step(p, c) <==> !CopyAt(p, c, |ahead|)
    ensures CopyAt(p, c, |ahead|) ==> Step(p, c).fault.Overread? && StepAhead(p, c, ahead).Live()
  {
    if p.state.StUrl? && 0 <= p.state.url.keyOff && 0 <= p.state.url.keyLen {
      var u, seen := p.state.url, p.seen + [c];
      if u.keyOff + u.keyLen <= |seen| {
        assert Slice(seen + ahead, Pos(u.keyOff, u.keyLen)) == Slice(seen + [], Pos(u.keyOff, u.keyLen));
      }
    }
  }

  /** Where the parser does not go astray byte by byte, it does not matter what lies behind a byte. */
  lemma {:induction false} FeedIsRun(p: Parser, s: string, A: seq<string>)
    requires |A| == |s| && !Run(p, s).fault.Overread?
    ensures Feed(p, s, A) == Run(p, s)
    decreases |s|
  {
    hide Step, StepAhead, CopyAt;
    if s != [] && p.Live() {
      StepSees(p, s[0], A[0]);
      FeedIsRun(Step(p, s[0]), s[1..], A[1..]);
    }
  }

  /** Only the target can be read ahead of. */
  lemma {:induction false} FeedBehindTarget(p: Parser, s: string, A: seq<string>)
    requires |A| == |s| && !p.state.StMethod? && !p.state.StUrl?
    ensures Feed(p, s, A) == Run(p, s) && !Run(p, s).state.StMethod? && !Run(p, s).state.StUrl?
    decreases |s|
  {
    hide Step, StepAhead;
    if s != [] && p.Live() {
      StepSees(p, s[0], A[0]);
      StaysBehindTarget(p, s[0]);
      FeedBehindTarget(Step(p, s[0]), s[1..], A[1..]);
    }
  }

  lemma StaysBehindTarget(p: Parser, c: char)
    requires !p.state.StMethod? && !p.state.StUrl?
    ensures !Step(p, c).state.StMethod? && !Step(p, c).state.StUrl?
  {
    hide ReasonPhrase, StepUrl, StepMethod, StepVersion, StepHeader;
    var q := p.(seen := p.seen + [c]);
    match p.state {
      case StVersion(_, _) => VersionStays(q, c);
      case StCode(_, _, _, _) => assert Step(p, c) == StepCode(q, c);
      case StDetail(_, _) => assert Step(p, c) == StepDetail(q, c);
      case StHeader(_) => HeaderStays(q, c);
      case StBody(_) => assert Step(p, c) == StepBody(q, c);
    }
  }

  lemma VersionStays(p: Parser, c: char)
    requires p.state.StVersion?
    ensures var st := StepVersion(p, c).state; st.StVersion? || st == NEW_CODE || st == NEW_HEADER
  {
  }

  lemma HeaderStays(p: Parser, c: char)
    requires p.state.StHeader?
    ensures var st := StepHeader(p, c).state; st.StHeader? || st == NEW_BODY
  {
    hide Stoi, Slice, InBounds;
  }

  // ----- chunks

  function Concat(chunks: seq<string>): string {
    if chunks == [] then [] else chunks[0] + Concat(chunks[1..])
  }

  /** One call for each chunk. */
  function CallAll(p: Parser, chunks: seq<string>): Parser
    decreases |chunks|
  {
    if chunks == [] then p else CallAll(Call(p, chunks[0]), chunks[1..])
  }

  /** What lies behind each byte, chunk by chunk. */
  function Aheads(chunks: seq<string>): (t: seq<string>)
    ensures |t| == |Concat(chunks)|
  {
    if chunks == [] then [] else Suffixes(chunks[0]) + Aheads(chunks[1..])
  }

  lemma {:induction false} CallsAreFeed(p: Parser, chunks: seq<string>)
    ensures CallAll(p, chunks) == Feed(p, Concat(chunks), Aheads(chunks))
    decreases |chunks|
  {
    if chunks != [] {
      hide Feed;
      CallsAreFeed(Call(p, chunks[0]), chunks[1..]);
      FeedConcat(p, chunks[0], Concat(chunks[1..]), Suffixes(chunks[0]), Aheads(chunks[1..]));
    } else {
      FeedNil(p, []);
    }
  }

  /** No more lies behind a byte than the rest of the string. */
  ghost predicate Within(A: seq<string>, s: string) {
    |A| == |s| && forall i :: 0 <= i < |s| ==> |A[i]| < |s| - i
  }

  lemma {:induction false} AheadsWithin(chunks: seq<string>)
    ensures Within(Aheads(chunks), Concat(chunks))
    decreases |chunks|
  {
    if chunks != [] {
      AheadsWithin(chunks[1..]);
    }
  }

  /** Read in one call, `s` makes the parser copy a key from behind the byte it is matching. */
  predicate CopiesAhead(p: Parser, s: string)
    decreases |s|
  {
    s != [] && p.Live() && (CopyAt(p, s[0], |s| - 1) || CopiesAhead(Step(p, s[0]), s[1..]))
  }

  /** Without such a copy it does not matter what lies behind a byte. */
  lemma {:induction false} NoCopyFeed(p: Parser, s: string, A: seq<string>)
    requires Within(A, s) && !CopiesAhead(p, s)
    ensures Feed(p, s, A) == Run(p, s)
    decreases |s|
  {
    hide Step, StepAhead;
    if s != [] && p.Live() {
      StepSees(p, s[0], A[0]);
      NoCopyFeed(Step(p, s[0]), s[1..], A[1..]);
    }
  }

  lemma {:induction false} CopyShows(p: Parser, s: string)
    requires CopiesAhead(p, s)
    ensures Call(p, s) != Run(p, s)
    decreases |s|
  {
    hide Step, StepAhead, Feed;
    var c, t, A := s[0], s[1..], Suffixes(s);
    assert A[0] == t && A[1..] == Suffixes(t);
    FeedUnfold(p, s, A);
    StepSees(p, c, t);
    if CopyAt(p, c, |t|) {
      var q := StepAhead(p, c, t);
      FeedUnfold(q, t, A[1..]);
      SeenGrows(StepAhead(q, t[0], A[1..][0]), t[1..], A[1..][1..]);
      assert |Call(p, s).seen| >= |p.seen| + 2;
      RunDead(Step(p, c), t);
    } else {
      CopyShows(Step(p, c), t);
    }
  }

  lemma FeedUnfold(p: Parser, s: string, A: seq<string>)
    requires |A| == |s| && p.Live() && s != []
    ensures Feed(p, s, A) == Feed(StepAhead(p, s[0], A[0]), s[1..], A[1..])
  {
  }

  /** Every byte in a chunk of its own. */
  function Singles(s: string): seq<string> {
    if s == [] then [] else [[s[0]]] + Singles(s[1..])
  }

  lemma OneByte(p: Parser, c: char)
    ensures Call(p, [c]) == if p.Live() then Step(p, c) else p
  {
    hide StepAhead;
    var A := Suffixes([c]);
    assert A[0] == [] && A[1..] == [] && [c][1..] == [];
    if p.Live() { FeedUnfold(p, [c], A); }
  }

  lemma {:induction false} SinglesRun(p: Parser, s: string)
    ensures Concat(Singles(s)) == s && CallAll(p, Singles(s)) == Run(p, s)
    decreases |s|
  {
    if s != [] {
      hide StepAhead;
      var c := s[0];
      assert s == [c] + s[1..];
      OneByte(p, c);
      SinglesRun(Call(p, [c]), s[1..]);
      assert Singles(s)[0] == [c] && Singles(s)[1..] == Singles(s[1..]);
      if !p.Live() { RunDead(p, s[1..]); }
    }
  }

  /** Chunking, exactly: every way to cut `s` into calls leaves the parser as one call does, in state, tables and
      verdict, if and only if the one call copies no key from ahead. */
  lemma ChunkingExactly(p: Parser, s: string)
    ensures (forall chunks :: Concat(chunks) == s ==> CallAll(p, chunks) == Call(p, s)) <==> !CopiesAhead(p, s)
    ensures !CopiesAhead(p, s) ==> Call(p, s) == Run(p, s)
  {
    hide Run, Step, StepAhead, Feed, CopiesAhead, Call, CallAll, Concat, Suffixes;
    if CopiesAhead(p, s) {
      CopyShows(p, s);
      SinglesRun(p, s);
    } else {
      WholeIsRun(p, s);
      forall chunks | Concat(chunks) == s ensures CallAll(p, chunks) == Call(p, s) {
        CallsAreFeed(p, chunks);
        AheadsWithin(chunks);
        NoCopyFeed(p, s, Aheads(chunks));
      }
    }
  }

  lemma WholeIsRun(p: Parser, s: string)
    requires !CopiesAhead(p, s)
    ensures Call(p, s) == Run(p, s)
  {
    NoCopyFeed(p, s, Suffixes(s));
  }
}
