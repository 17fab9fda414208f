/** The logger's block lists on values: what is written, buffered, flushed and dropped. */
module LogStream {

  const BUF_BLOCK_NUM := 256

  /** The texts of the blocks in `buf_list`, the number of blocks in `empty_buf_list`, everything written to files. */
  datatype Log = Log(bufs: seq<string>, empties: nat, file: string)

  function Stream(bufs: seq<string>): string {
    if bufs == [] then [] else Stream(bufs[..|bufs| - 1]) + bufs[|bufs| - 1]
  }

  /** Everything logged so far that has not been dropped, in order. */
  function Everything(s: Log): string { s.file + Stream(s.bufs) }

  function Min(a: int, b: int): int { if a < b then a else b }

  /** Bytes free in the last block; none when there is no block. */
  function Room(bufs: seq<string>, cap: nat): int {
    if bufs == [] then 0 else cap - |bufs[|bufs| - 1]|
  }

  /** The blocks with one more empty block, unless the last one has room. */
  function Opened(bufs: seq<string>, cap: nat): seq<string> {
    if Room(bufs, cap) == 0 then bufs + [[]] else bufs
  }

  function Extended(bufs: seq<string>, text: string): seq<string>
    requires bufs != []
  {
    bufs[|bufs| - 1 := bufs[|bufs| - 1] + text]
  }

  ghost predicate Fits(bufs: seq<string>, cap: nat) {
    forall i :: 0 <= i < |bufs| ==> |bufs[i]| <= cap
  }

  /** All blocks but the last are full, and the last one is not empty. */
  ghost predicate Packed(bufs: seq<string>, cap: nat) {
    && (forall i :: 0 <= i < |bufs| - 1 ==> |bufs[i]| == cap)
    && (bufs != [] ==> 0 < |bufs[|bufs| - 1]| <= cap)
  }

  /** The write loop: every round copies from the start of the log, whatever has been written already. */
  function WriteLoop(bufs: seq<string>, cap: nat, log: string, remain: int): seq<string>
    requires cap > 0 && Fits(bufs, cap) && (remain > 0 ==> log != [])
    decreases remain
  {
    if remain <= 0 then bufs
    else
      var ready := Opened(bufs, cap);
      var n := Min(Room(ready, cap), |log|);
      WriteLoop(Extended(ready, log[..n]), cap, log, remain - n)
  }

  function Write(s: Log, cap: nat, log: string): Log
    requires cap > 0 && Fits(s.bufs, cap)
  {
    var bufs := WriteLoop(s.bufs, cap, log, |log|);
    s.(bufs := bufs, empties := Spare(s.empties, |bufs| - |s.bufs|))
  }

  /** Recycled blocks left over when `taken` more blocks were needed. */
  function Spare(empties: nat, taken: int): nat {
    if taken <= 0 then empties else if taken >= empties then 0 else empties - taken
  }

  /** As written: lists are cut to the difference from the limit, not to the limit. */
  function Trim(s: Log): Log {
    var a := |s.bufs| + s.empties;
    if a <= BUF_BLOCK_NUM then s
    else
      s.(empties := Min(s.empties, a - BUF_BLOCK_NUM),
         bufs := if |s.bufs| > BUF_BLOCK_NUM then s.bufs[..|s.bufs| - BUF_BLOCK_NUM] else s.bufs)
  }

  function FlushFront(s: Log): Log {
    if s.bufs == [] then s
    else Log(s.bufs[1..], s.empties + 1, s.file + s.bufs[0])
  }

  function Flush(s: Log, full: bool): Log
    decreases |s.bufs|
  {
    var t := FlushFront(Trim(s));
    if t.bufs != [] && full then Flush(t, full) else t
  }

  // ----- writing

  lemma StreamSnoc(bufs: seq<string>, t: string)
    ensures Stream(bufs + [t]) == Stream(bufs) + t
  {
    assert (bufs + [t])[..|bufs|] == bufs;
  }

  lemma StreamExtended(bufs: seq<string>, t: string)
    requires bufs != []
    ensures Stream(Extended(bufs, t)) == Stream(bufs) + t
  {
    var n := |bufs| - 1;
    assert Extended(bufs, t)[..n] == bufs[..n];
    assert Stream(bufs[..n]) + (bufs[n] + t) == Stream(bufs[..n]) + bufs[n] + t;
  }

  /** One round of the loop: it copies the first `n` bytes of the log and keeps the blocks packed. */
  lemma Round(bufs: seq<string>, cap: nat, log: string)
    requires cap > 0 && Packed(bufs, cap) && log != []
    ensures var ready := Opened(bufs, cap);
            var n := Min(Room(ready, cap), |log|);
            var next := Extended(ready, log[..n]);
            && n > 0 && Packed(next, cap) && Fits(next, cap)
            && Stream(next) == Stream(bufs) + log[..n]
            && Room(ready, cap) == (if Room(bufs, cap) == 0 then cap else Room(bufs, cap))
            && Room(next, cap) == Room(ready, cap) - n
  {
    var ready := Opened(bufs, cap);
    if Room(bufs, cap) == 0 {
      StreamSnoc(bufs, []);
      assert Stream(bufs) + [] == Stream(bufs);
    }
    StreamExtended(ready, log[..Min(Room(ready, cap), |log|)]);
  }

  /** The bytes of the log that reach the file twice: its beginning, when it does not fit in the open block. */
  function Repeated(room: int, log: string): string {
    if 0 < room < |log| then log[..room] else []
  }

  /** What one log adds to the stream: itself, preceded by a copy of the part that filled up the open block. */
  lemma WriteAdds(bufs: seq<string>, cap: nat, log: string)
    requires cap > 0 && Packed(bufs, cap) && 0 < |log| <= cap
    ensures var next := WriteLoop(bufs, cap, log, |log|);
            && Packed(next, cap)
            && Stream(next) == Stream(bufs) + Repeated(Room(bufs, cap), log) + log
  {
    hide WriteLoop, Stream, Opened, Extended, Packed, Fits;
    var room := Room(bufs, cap);
    PackedFits(bufs, cap);
    Round(bufs, cap, log);
    var ready := Opened(bufs, cap);
    var n := Min(Room(ready, cap), |log|);
    var next := Extended(ready, log[..n]);
    LoopOnce(bufs, cap, log, |log|);
    if n < |log| {
      WriteAgain(next, cap, log, |log| - n);
    } else {
      LoopEnds(next, cap, log, 0);
      assert log[..n] == log;
      assert Stream(bufs) + [] == Stream(bufs);
    }
  }

  /** A second round finds the block full and writes the whole log into a new one. */
  lemma WriteAgain(bufs: seq<string>, cap: nat, log: string, remain: int)
    requires cap > 0 && Packed(bufs, cap) && Fits(bufs, cap) && 0 < remain <= |log| <= cap && Room(bufs, cap) == 0
    ensures var next := WriteLoop(bufs, cap, log, remain);
            Packed(next, cap) && Stream(next) == Stream(bufs) + log
  {
    hide WriteLoop, Stream, Opened, Extended, Packed, Fits;
    Round(bufs, cap, log);
    LoopOnce(bufs, cap, log, remain);
    assert log[..|log|] == log;
    LoopEnds(Extended(Opened(bufs, cap), log), cap, log, remain - |log|);
  }

  lemma LoopOnce(bufs: seq<string>, cap: nat, log: string, remain: int)
    requires cap > 0 && Packed(bufs, cap) && Fits(bufs, cap) && log != [] && remain > 0
    ensures var ready := Opened(bufs, cap);
            var n := Min(Room(ready, cap), |log|);
            n > 0 && Fits(Extended(ready, log[..n]), cap) &&
            WriteLoop(bufs, cap, log, remain) == WriteLoop(Extended(ready, log[..n]), cap, log, remain - n)
  {
    Round(bufs, cap, log);
  }

  lemma LoopBody(bufs: seq<string>, cap: nat, log: string, remain: int)
    requires cap > 0 && Fits(bufs, cap) && log != [] && remain > 0
    ensures var ready := Opened(bufs, cap);
            var n := Min(Room(ready, cap), |log|);
            n > 0 && ready != [] && Fits(Extended(ready, log[..n]), cap) &&
            WriteLoop(bufs, cap, log, remain) == WriteLoop(Extended(ready, log[..n]), cap, log, remain - n)
  {
  }

  lemma LoopEnds(bufs: seq<string>, cap: nat, log: string, remain: int)
    requires cap > 0 && Fits(bufs, cap) && remain <= 0
    ensures WriteLoop(bufs, cap, log, remain) == bufs
  {
  }

  /** The log reaches the stream unchanged if and only if it fits in the open block, or the open block is full. */
  lemma WriteConservesExactly(s: Log, cap: nat, log: string)
    requires cap > 0 && Packed(s.bufs, cap) && 0 < |log| <= cap
    ensures Everything(Write(s, cap, log)) == Everything(s) + log <==>
            Room(s.bufs, cap) == 0 || |log| <= Room(s.bufs, cap)
    ensures Packed(Write(s, cap, log).bufs, cap)
  {
    WriteAdds(s.bufs, cap, log);
    var extra := Repeated(Room(s.bufs, cap), log);
    assert |Everything(Write(s, cap, log))| == |Everything(s) + log| + |extra|;
    if extra == [] {
      assert s.file + (Stream(s.bufs) + [] + log) == s.file + Stream(s.bufs) + log;
    }
  }

  lemma {:induction false} LoopGrows(bufs: seq<string>, cap: nat, log: string, remain: int)
    requires cap > 0 && Fits(bufs, cap) && (remain > 0 ==> log != [])
    ensures |WriteLoop(bufs, cap, log, remain)| >= |bufs|
    decreases remain
  {
    if remain > 0 {
      hide WriteLoop, Fits;
      LoopBody(bufs, cap, log, remain);
      var ready := Opened(bufs, cap);
      var n := Min(Room(ready, cap), |log|);
      LoopGrows(Extended(ready, log[..n]), cap, log, remain - n);
    } else {
      LoopEnds(bufs, cap, log, remain);
    }
  }

  /** A write opens recycled blocks before it makes new ones. */
  lemma BlocksReused(s: Log, cap: nat, log: string)
    requires cap > 0 && Fits(s.bufs, cap) && log != []
    ensures var t := Write(s, cap, log);
            && |t.bufs| >= |s.bufs|
            && (if |t.bufs| <= |s.bufs| + s.empties then |t.bufs| + t.empties == |s.bufs| + s.empties
                else t.empties == 0)
  {
    LoopGrows(s.bufs, cap, log, |log|);
  }

  /** A log of three bytes that meets two free bytes is written as five. */
  lemma StraddlingLogRepeats()
    ensures Everything(Write(Log(["xx"], 0, []), 4, "abc")) == "xxababc"
  {
    WriteAdds(["xx"], 4, "abc");
    StreamSnoc([], "xx");
    assert [] + ["xx"] == ["xx"];
    assert "abc"[..2] == "ab";
  }

  // ----- flushing

  lemma {:induction false} StreamFront(bufs: seq<string>)
    requires bufs != []
    ensures Stream(bufs) == bufs[0] + Stream(bufs[1..])
    decreases |bufs|
  {
    var n := |bufs| - 1;
    if n > 0 {
      StreamFront(bufs[..n]);
      assert bufs[..n][1..] == bufs[1..][..n - 1];
      assert bufs[0] + Stream(bufs[1..][..n - 1]) + bufs[n] == bufs[0] + (Stream(bufs[1..][..n - 1]) + bufs[n]);
    } else {
      assert bufs[..0] == [] && bufs[1..] == [];
      assert Stream(bufs) == [] + bufs[0];
    }
  }

  lemma {:induction false} StreamAppend(a: seq<string>, b: seq<string>)
    ensures Stream(a + b) == Stream(a) + Stream(b)
    decreases |b|
  {
    if b == [] {
      assert a + b == a;
    } else {
      assert (a + b)[..|a + b| - 1] == a + b[..|b| - 1];
      StreamAppend(a, b[..|b| - 1]);
    }
  }

  /** Flushing the front block moves its bytes to the file. */
  lemma FrontConserves(s: Log)
    ensures Everything(FlushFront(s)) == Everything(s)
  {
    if s.bufs != [] {
      StreamFront(s.bufs);
      assert s.file + s.bufs[0] + Stream(s.bufs[1..]) == s.file + (s.bufs[0] + Stream(s.bufs[1..]));
    }
  }

  /** The texts that trimming drops: the last 256 blocks, when there are more than 256. */
  function Dropped(s: Log): seq<string> {
    if |s.bufs| > BUF_BLOCK_NUM then s.bufs[|s.bufs| - BUF_BLOCK_NUM..] else []
  }

  lemma TrimDropsSuffix(s: Log)
    ensures Everything(Trim(s)) + Stream(Dropped(s)) == Everything(s)
  {
    var t := Trim(s);
    assert t.bufs + Dropped(s) == s.bufs;
    StreamAppend(t.bufs, Dropped(s));
  }

  lemma {:induction false} StreamGrows(bufs: seq<string>, cap: nat)
    requires cap > 0 && Packed(bufs, cap)
    ensures |Stream(bufs)| >= |bufs|
    decreases |bufs|
  {
    if bufs != [] {
      var n := |bufs| - 1;
      assert n > 0 ==> |bufs[..n][n - 1]| == cap;
      StreamGrows(bufs[..n], cap);
    }
  }

  lemma FlushPacked(s: Log, cap: nat)
    requires cap > 0 && Packed(s.bufs, cap)
    ensures Packed(Flush(s, false).bufs, cap) && Packed(Dropped(s), cap)
  {
    var t := Trim(s);
    assert t.bufs <= s.bufs;
    assert Packed(t.bufs, cap);
  }

  /** One flush writes the front block, and nothing else, to the file, and recycles it; it keeps every byte if and
      only if at most 256 blocks are waiting, and otherwise drops the last 256 of them. */
  lemma FlushOneExactly(s: Log, cap: nat)
    requires cap > 0 && Packed(s.bufs, cap)
    ensures var t := Flush(s, false);
            && (Everything(t) == Everything(s) <==> |s.bufs| <= 256)
            && Everything(t) + Stream(Dropped(s)) == Everything(s)
            && Packed(t.bufs, cap)
    ensures var t := Flush(s, false);
            if s.bufs == [] then t.file == s.file && t.bufs == []
            else
              && t.file == s.file + s.bufs[0]
              && t.bufs == (if |s.bufs| <= 256 then s.bufs[1..] else s.bufs[1..|s.bufs| - 256])
              && t.empties == 1 + (if |s.bufs| + s.empties <= 256 || s.empties <= |s.bufs| + s.empties - 256
                                   then s.empties else |s.bufs| + s.empties - 256)
  {
    FrontConserves(Trim(s));
    TrimDropsSuffix(s);
    FlushPacked(s, cap);
    hide Stream, Packed, Everything;
    if |s.bufs| > BUF_BLOCK_NUM {
      StreamGrows(Dropped(s), cap);
    } else {
      assert Stream(Dropped(s)) == [] by { StreamOfNone(); }
    }
  }

  lemma StreamOfNone()
    ensures Stream([]) == []
  {
  }

  /** A full flush ends with nothing waiting; it has written a prefix of all that was logged, and all of it if and
      only if at most 256 blocks were waiting. */
  lemma {:induction false} FlushAllWrites(s: Log, cap: nat)
    requires cap > 0 && Packed(s.bufs, cap)
    ensures Flush(s, true).bufs == []
    ensures Flush(s, true).file <= Everything(s)
    ensures Flush(s, true).file == Everything(s) <==> |s.bufs| <= 256
    decreases |s.bufs|
  {
    var t := FlushFront(Trim(s));
    FlushOneExactly(s, cap);
    if |s.bufs| > BUF_BLOCK_NUM {
      assert |Everything(t)| < |Everything(s)|;
    }
    if t.bufs != [] {
      FlushAllWrites(t, cap);
    } else {
      assert t.file + [] == t.file;
    }
  }

  // ----- the limit on blocks

  /** After trimming at most 256 blocks remain exactly in these cases; the limit itself does not imply it. */
  lemma TrimBoundExactly(s: Log)
    ensures |Trim(s).bufs| + Trim(s).empties <= 256 <==>
            || |s.bufs| + s.empties <= 256
            || (|s.bufs| <= 256 && 2 * |s.bufs| + s.empties <= 512)
            || (|s.bufs| > 256 && |s.bufs| + s.empties <= 512)
  {
  }

  lemma TrimKeepsTooMany()
    ensures var s := Log(seq(600, _ => "x"), 0, []);
            |Trim(s).bufs| == 344
  {
  }

  // ----- whole runs

  datatype Op = Append(log: string) | FlushOne | FlushAll

  function Apply(s: Log, cap: nat, op: Op): Log
    requires cap > 0 && Fits(s.bufs, cap)
  {
    match op
    case Append(log) => Write(s, cap, log)
    case FlushOne => Flush(s, false)
    case FlushAll => Flush(s, true)
  }

  /** No log straddles a block boundary, and no flush meets more than 256 waiting blocks. */
  predicate Gentle(s: Log, cap: nat, op: Op) {
    match op
    case Append(log) => 0 < |log| <= cap && (Room(s.bufs, cap) == 0 || |log| <= Room(s.bufs, cap))
    case _ => |s.bufs| <= BUF_BLOCK_NUM
  }

  function Logged(op: Op): string { if op.Append? then op.log else [] }

  lemma PackedFits(bufs: seq<string>, cap: nat)
    requires Packed(bufs, cap)
    ensures Fits(bufs, cap)
  {
    forall i | 0 <= i < |bufs| ensures |bufs[i]| <= cap {
      if i < |bufs| - 1 { assert |bufs[i]| == cap; }
    }
  }

  lemma ApplyConserves(s: Log, cap: nat, op: Op)
    requires cap > 0 && Packed(s.bufs, cap) && Fits(s.bufs, cap) && Gentle(s, cap, op)
    ensures var t := Apply(s, cap, op);
            Everything(t) == Everything(s) + Logged(op) && Packed(t.bufs, cap) && s.file <= t.file
  {
    match op
    case Append(log) => WriteConservesExactly(s, cap, log);
    case FlushOne =>
      FlushOneExactly(s, cap);
      assert Everything(s) + [] == Everything(s);
    case FlushAll =>
      FlushAllWrites(s, cap);
      assert Everything(Flush(s, true)) == Flush(s, true).file + [] == Flush(s, true).file;
      assert Everything(s) + [] == Everything(s);
  }

  ghost predicate GentleRun(s: Log, cap: nat, ops: seq<Op>)
    requires cap > 0
    decreases |ops|
  {
    ops == [] || (Fits(s.bufs, cap) && Gentle(s, cap, ops[0]) && GentleRun(Apply(s, cap, ops[0]), cap, ops[1..]))
  }

  function AllLogged(ops: seq<Op>): string {
    if ops == [] then [] else Logged(ops[0]) + AllLogged(ops[1..])
  }

  ghost function Run(s: Log, cap: nat, ops: seq<Op>): Log
    requires cap > 0 && GentleRun(s, cap, ops)
    decreases |ops|
  {
    if ops == [] then s else Run(Apply(s, cap, ops[0]), cap, ops[1..])
  }

  /** Over such runs, what is in the files followed by what is buffered is everything logged, in order. */
  lemma {:induction false} RunConserves(s: Log, cap: nat, ops: seq<Op>)
    requires cap > 0 && Packed(s.bufs, cap) && GentleRun(s, cap, ops)
    ensures var t := Run(s, cap, ops);
            Everything(t) == Everything(s) + AllLogged(ops) && Packed(t.bufs, cap) && s.file <= t.file
    decreases |ops|
  {
    hide Everything, Apply, Packed, Fits, Gentle, Stream;
    if ops == [] {
      assert Everything(s) + [] == Everything(s);
    } else {
      ApplyConserves(s, cap, ops[0]);
      RunConserves(Apply(s, cap, ops[0]), cap, ops[1..]);
      var e, a, b := Everything(s), Logged(ops[0]), AllLogged(ops[1..]);
      assert e + a + b == e + (a + b);
    }
  }
}
