/** The growable byte window between the sockets and their users: bytes enter on the right and leave on the left. */
module ByteBuffer {

  const INIT_CAPACITY := 1024

  // ----- the queue of bytes it stands for

  datatype Op =
    | Push(text: string)          // append a text
    | ReadIn(text: string)        // append what a read delivered
    | WriteOut(n: nat)            // hand the first n bytes to a write
    | Pop(len: nat)               // the caller has used the first len bytes
    | PopAll                      // the caller has used everything

  predicate Legal(c: string, op: Op) {
    match op
    case WriteOut(n) => n <= |c|
    case Pop(len) => len <= |c|
    case _ => true
  }

  /** The contents after an operation.  `Pop` drops everything, whatever length it is given. */
  function After(c: string, op: Op): string
    requires Legal(c, op)
  {
    match op
    case Push(text) => c + text
    case ReadIn(text) => c + text
    case WriteOut(n) => c[n..]
    case Pop(_) => []
    case PopAll => []
  }

  function Entered(op: Op): string {
    match op
    case Push(text) => text
    case ReadIn(text) => text
    case _ => []
  }

  function Left(c: string, op: Op): string
    requires Legal(c, op)
  {
    match op
    case WriteOut(n) => c[..n]
    case Pop(len) => c[..len]
    case PopAll => c
    case _ => []
  }

  /** A buffer with all that ever entered and left it. */
  datatype History = History(contents: string, entered: string, left: string)

  predicate LegalRun(c: string, ops: seq<Op>)
    decreases |ops|
  {
    ops == [] || (Legal(c, ops[0]) && LegalRun(After(c, ops[0]), ops[1..]))
  }

  function Run(h: History, ops: seq<Op>): History
    requires LegalRun(h.contents, ops)
    decreases |ops|
  {
    if ops == [] then h
    else
      Run(History(After(h.contents, ops[0]), h.entered + Entered(ops[0]), h.left + Left(h.contents, ops[0])), ops[1..])
  }

  /** Every pop in the run asks for all there is. */
  predicate PopsWhole(c: string, ops: seq<Op>)
    requires LegalRun(c, ops)
    decreases |ops|
  {
    ops == [] || ((ops[0].Pop? ==> ops[0].len == |c|) && PopsWhole(After(c, ops[0]), ops[1..]))
  }

  /** Bytes are conserved in order over a run if and only if no pop asks for less than the whole contents. */
  lemma {:induction false} FifoExactly(h: History, ops: seq<Op>)
    requires LegalRun(h.contents, ops) && h.left + h.contents == h.entered
    ensures var t := Run(h, ops);
            t.left + t.contents == t.entered <==> PopsWhole(h.contents, ops)
    decreases |ops|
  {
    if ops != [] {
      var c, op := h.contents, ops[0];
      var next := History(After(c, op), h.entered + Entered(op), h.left + Left(c, op));
      if op.Pop? && op.len < |c| {
        LostForGood(next, ops[1..]);
      } else {
        assert next.left + next.contents == next.entered by {
          if op.WriteOut? {
            assert c == c[..op.n] + c[op.n..];
          } else if op.Pop? {
            assert c[..op.len] == c;
          }
        }
        FifoExactly(next, ops[1..]);
      }
    }
  }

  /** What a short pop drops is never made up for. */
  lemma {:induction false} LostForGood(h: History, ops: seq<Op>)
    requires LegalRun(h.contents, ops) && |h.left| + |h.contents| < |h.entered|
    ensures var t := Run(h, ops); |t.left| + |t.contents| < |t.entered|
    decreases |ops|
  {
    if ops != [] {
      var op := ops[0];
      LostForGood(History(After(h.contents, op), h.entered + Entered(op), h.left + Left(h.contents, op)), ops[1..]);
    }
  }

  // ----- the window

  /** What a read on the socket finds: an error, or bytes that have arrived (none at the end of the stream). */
  datatype Arrival = Error | Bytes(text: string)

  class Buffer {
    var buf: array<char>
    var leftReadPtr: nat
    var rightWritePtr: nat

    ghost predicate Valid()
      reads this
    {
      0 <= leftReadPtr <= rightWritePtr <= buf.Length && buf.Length >= INIT_CAPACITY
    }

    ghost function Contents(): string
      reads this, buf
      requires Valid()
    {
      buf[leftReadPtr..rightWritePtr]
    }

    constructor ()
      ensures Valid() && fresh(buf) && Contents() == [] && buf.Length == 1024
    {
      buf := new char[INIT_CAPACITY](_ => '\0');
      leftReadPtr, rightWritePtr := 0, 0;
    }

    function Size(): nat
      requires Valid()
      reads this, buf
      ensures Size() == |Contents()|
    {
      rightWritePtr - leftReadPtr
    }

    method Peek() returns (s: string)
      requires Valid()
      ensures s == Contents()
    {
      s := buf[leftReadPtr..rightWritePtr];
    }

    /** `vector::resize` to a larger size: a new array with the old bytes in front. */
    method Resize(capacity: nat)
      requires Valid() && capacity >= buf.Length
      modifies this`buf
      ensures Valid() && fresh(buf) && buf.Length == capacity
      ensures Contents() == old(Contents())
    {
      var bigger := new char[capacity](i requires 0 <= i < capacity reads this, buf =>
        if i < buf.Length then buf[i] else '\0');
      assert bigger[leftReadPtr..rightWritePtr] == buf[leftReadPtr..rightWritePtr];
      buf := bigger;
    }

    /** Copy the contents to the front, byte by byte from the left as `std::copy` does. */
    method MoveHead()
      requires Valid()
      modifies this`leftReadPtr, this`rightWritePtr, buf
      ensures Valid() && leftReadPtr == 0 && Contents() == old(Contents())
    {
      var size := rightWritePtr - leftReadPtr;
      ghost var bytes := buf[..];
      for i := 0 to size
        invariant leftReadPtr == old(leftReadPtr) && rightWritePtr == old(rightWritePtr)
        invariant forall k :: 0 <= k < i ==> buf[k] == bytes[leftReadPtr + k]
        invariant forall k :: i <= k < buf.Length ==> buf[k] == bytes[k]
      {
        buf[i] := buf[leftReadPtr + i];
      }
      assert buf[0..size] == bytes[leftReadPtr..rightWritePtr];
      leftReadPtr := 0;
      rightWritePtr := size;
    }

    method InsertTail(str: string)
      requires Valid() && rightWritePtr + |str| <= buf.Length
      modifies this`rightWritePtr, buf
      ensures Valid() && Contents() == old(Contents()) + str
    {
      ghost var bytes := buf[..];
      for i := 0 to |str|
        invariant rightWritePtr == old(rightWritePtr)
        invariant forall k :: 0 <= k < rightWritePtr ==> buf[k] == bytes[k]
        invariant forall k :: 0 <= k < i ==> buf[rightWritePtr + k] == str[k]
      {
        buf[rightWritePtr + i] := str[i];
      }
      assert buf[leftReadPtr..rightWritePtr] == bytes[leftReadPtr..rightWritePtr];
      rightWritePtr := rightWritePtr + |str|;
      assert buf[leftReadPtr..rightWritePtr] == bytes[leftReadPtr..old(rightWritePtr)] + str;
    }

    /** Append a text, moving the contents to the front or growing the array when the room on the right is short.
        A growing push ends with room for the contents, the text, and twice the room there was on the right. */
    method Push(str: string)
      requires Valid()
      modifies this, buf
      ensures Valid() && (buf == old(buf) || fresh(buf))
      ensures Contents() == After(old(Contents()), Op.Push(str))
      ensures var room := old(buf.Length - rightWritePtr);
              var size := |old(Contents())|;
              if |str| <= old(leftReadPtr) + room then buf == old(buf)
              else buf.Length == size + |str| + 2 * room && buf.Length < size + 3 * |str|
    {
      var n, remainRight, remainLeft := |str|, buf.Length - rightWritePtr, leftReadPtr;
      if n <= remainRight {
        InsertTail(str);
      } else if n <= remainLeft + remainRight {
        MoveHead();
        InsertTail(str);
      } else {
        var add := n - remainLeft + remainRight;
        Resize(buf.Length + add);
        MoveHead();
        InsertTail(str);
      }
    }

    /** Read from a socket into the room on the right, after doubling the array when that is below 512 bytes. */
    method PushFrom(arrival: Arrival) returns (n: int)
      requires Valid()
      modifies this, buf
      ensures Valid() && (buf == old(buf) || fresh(buf))
      ensures arrival.Error? ==> n == -1 && Contents() == old(Contents())
      ensures var room := buf.Length - old(rightWritePtr);
              && room >= 512
              && buf.Length == old(buf.Length) * (if old(buf.Length - rightWritePtr) < 512 then 2 else 1)
              && (arrival.Bytes? ==>
                    && n == (if |arrival.text| <= room then |arrival.text| else room)
                    && Contents() == After(old(Contents()), ReadIn(arrival.text[..n])))
    {
      var remainRight := buf.Length - rightWritePtr;
      if remainRight < INIT_CAPACITY / 2 {
        Resize(buf.Length * 2);
        remainRight := buf.Length - rightWritePtr;
      }
      match arrival {
        case Error => n := -1;
        case Bytes(text) =>
          n := if |text| <= remainRight then |text| else remainRight;
          InsertTail(text[..n]);
      }
    }

    /** Offer the contents to a socket that takes `result` bytes, or fails when that is negative. */
    method PopTo(result: int) returns (n: int)
      requires Valid() && result <= |Contents()|
      modifies this`leftReadPtr
      ensures Valid() && n == result
      ensures Contents() == if n > 0 then After(old(Contents()), WriteOut(n)) else old(Contents())
    {
      n := result;
      if n > 0 {
        leftReadPtr := leftReadPtr + n;
      }
    }

    /** As written, the whole contents are skipped, not `len` bytes. */
    method PopLen(len: int)
      requires Valid() && 0 <= len <= |Contents()|
      modifies this`leftReadPtr
      ensures Valid() && Contents() == After(old(Contents()), Pop(len))
    {
      var n := rightWritePtr - leftReadPtr;
      leftReadPtr := leftReadPtr + n;
    }

    method PopEverything()
      requires Valid()
      modifies this`leftReadPtr
      ensures Valid() && Contents() == After(old(Contents()), PopAll)
    {
      PopLen(rightWritePtr - leftReadPtr);
    }
  }

  /** A pop of one byte out of three loses the other two. */
  lemma ShortPopLoses()
    ensures var h := Run(History([], [], []), [Push("abc"), Pop(1)]);
            h.left == "a" && h.contents == [] && h.entered == "abc"
  {
    var h := History([] + "abc", [] + "abc", [] + []);
    assert Run(History([], [], []), [Push("abc"), Pop(1)]) == Run(h, [Push("abc"), Pop(1)][1..]);
    assert [Push("abc"), Pop(1)][1..] == [Pop(1)];
    assert Run(h, [Pop(1)]) == Run(History([], "abc" + [], "" + "abc"[..1]), [Pop(1)][1..]);
  }
}
