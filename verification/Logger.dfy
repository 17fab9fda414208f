/** The logger's blocks and lists as objects: blocks are filled in place and move between the two lists. */
module Logger {
  import opened LogStream

  class BufBlock {
    const capacity: nat
    const buf: array<char>
    var writen: nat

    ghost predicate Valid()
      reads this
    {
      buf.Length == capacity && writen <= capacity
    }

    function Text(): string
      requires Valid()
      reads this, buf
    {
      buf[..writen]
    }

    constructor (capacity: nat)
      ensures Valid() && fresh(buf) && this.capacity == capacity && writen == 0
    {
      this.capacity := capacity;
      buf := new char[capacity](_ => '\0');
      writen := 0;
    }

    /** Copy as much of the log as fits behind what is there. */
    method WriteBuf(log: string) returns (n: nat)
      requires Valid()
      modifies this, buf
      ensures Valid() && n == Min(capacity - old(writen), |log|)
      ensures Text() == old(Text()) + log[..n]
    {
      n := if capacity - writen < |log| then capacity - writen else |log|;
      ghost var before := buf[..];
      for i := 0 to n
        invariant writen == old(writen)
        invariant forall k :: 0 <= k < writen ==> buf[k] == before[k]
        invariant forall k :: 0 <= k < i ==> buf[writen + k] == log[k]
      {
        buf[writen + i] := log[i];
      }
      assert buf[..writen] == before[..writen];
      writen := writen + n;
      assert buf[..writen] == before[..old(writen)] + log[..n];
    }

    /** Hand the text to the file and start over. */
    method FlushBuf() returns (text: string)
      requires Valid()
      modifies this`writen
      ensures Valid() && text == old(Text()) && writen == 0
    {
      text := buf[..writen];
      writen := 0;
    }

    predicate IsFull()
      reads this
    {
      writen == capacity
    }
  }

  /** No block, and no array of a block, occurs twice. */
  ghost predicate Separate(blocks: seq<BufBlock>) {
    forall i, j :: 0 <= i < j < |blocks| ==> blocks[i] != blocks[j] && blocks[i].buf != blocks[j].buf
  }

  ghost function Arrays(blocks: seq<BufBlock>): set<array<char>> {
    set b <- blocks :: b.buf
  }

  ghost predicate AllValid(blocks: seq<BufBlock>, capacity: nat)
    reads blocks
  {
    forall i :: 0 <= i < |blocks| ==> blocks[i].Valid() && blocks[i].capacity == capacity
  }

  /** The texts of a list of blocks. */
  ghost function Texts(blocks: seq<BufBlock>, capacity: nat): (t: seq<string>)
    requires AllValid(blocks, capacity)
    reads blocks, Arrays(blocks)
    ensures |t| == |blocks| && Fits(t, capacity)
    ensures forall i :: 0 <= i < |t| ==> t[i] == blocks[i].Text()
  {
    if blocks == [] then []
    else Texts(blocks[..|blocks| - 1], capacity) + [blocks[|blocks| - 1].Text()]
  }

  ghost predicate Clean(blocks: seq<BufBlock>)
    reads blocks
  {
    forall i :: 0 <= i < |blocks| ==> blocks[i].writen == 0
  }

  ghost predicate Owned(blocks: seq<BufBlock>, repr: set<object>) {
    forall i :: 0 <= i < |blocks| ==> blocks[i] in repr && blocks[i].buf in repr
  }

  lemma SeparateParts(a: seq<BufBlock>, b: seq<BufBlock>)
    ensures Separate(a + b) ==> Separate(a) && Separate(b)
    ensures Separate(a + b) <==>
            Separate(a) && Separate(b) &&
            forall i, j :: 0 <= i < |a| && 0 <= j < |b| ==> a[i] != b[j] && a[i].buf != b[j].buf
  {
    if Separate(a + b) {
      forall i, j | 0 <= i < |a| && 0 <= j < |b| ensures a[i] != b[j] && a[i].buf != b[j].buf {
        assert (a + b)[i] == a[i] && (a + b)[|a| + j] == b[j];
      }
      forall i, j | 0 <= i < j < |a| ensures a[i] != a[j] && a[i].buf != a[j].buf {
        assert (a + b)[i] == a[i] && (a + b)[j] == a[j];
      }
      forall i, j | 0 <= i < j < |b| ensures b[i] != b[j] && b[i].buf != b[j].buf {
        assert (a + b)[|a| + i] == b[i] && (a + b)[|a| + j] == b[j];
      }
    }
  }

  lemma SeparatePrefixes(a: seq<BufBlock>, b: seq<BufBlock>, i: nat, j: nat)
    requires Separate(a + b) && i <= |a| && j <= |b|
    ensures Separate(a[..i] + b[..j])
  {
    SeparateParts(a, b);
    SeparateParts(a[..i], b[..j]);
  }

  /** The front block moves to the end of the other list. */
  lemma SeparateRotate(a: seq<BufBlock>, b: seq<BufBlock>)
    requires Separate(a + b) && a != []
    ensures Separate(a[1..] + (b + [a[0]])) && a[0] !in a[1..] && a[0] !in b
  {
    SeparateParts(a, b);
    SeparateParts(b, [a[0]]);
    SeparateParts(a[1..], b + [a[0]]);
  }

  lemma PartOf(blocks: seq<BufBlock>, capacity: nat, repr: set<object>, i: nat, j: nat)
    requires AllValid(blocks, capacity) && Owned(blocks, repr) && i <= j <= |blocks|
    ensures AllValid(blocks[i..j], capacity) && Owned(blocks[i..j], repr)
    ensures Clean(blocks) ==> Clean(blocks[i..j])
  {
  }

  lemma TextsSnoc(blocks: seq<BufBlock>, b: BufBlock, capacity: nat)
    requires AllValid(blocks, capacity) && b.Valid() && b.capacity == capacity
    ensures AllValid(blocks + [b], capacity)
    ensures Texts(blocks + [b], capacity) == Texts(blocks, capacity) + [b.Text()]
  {
    assert (blocks + [b])[..|blocks|] == blocks;
  }

  lemma OwnedFront(a: seq<BufBlock>, b: seq<BufBlock>, repr: set<object>)
    requires a != [] && Owned(a, repr) && Owned(b, repr)
    ensures Owned(b + [a[0]], repr)
  {
  }

  lemma FirstBlock(blocks: seq<BufBlock>, capacity: nat)
    requires AllValid(blocks, capacity) && blocks != []
    ensures blocks[0].Valid() && blocks[0].capacity == capacity
    ensures Texts(blocks, capacity)[0] == blocks[0].Text()
    ensures forall i :: 0 <= i < |blocks| - 1 ==>
              blocks[1..][i].Valid() && blocks[1..][i].Text() == Texts(blocks, capacity)[i + 1]
  {
  }

  lemma TextsPrefix(blocks: seq<BufBlock>, capacity: nat, i: nat)
    requires AllValid(blocks, capacity) && i <= |blocks|
    ensures AllValid(blocks[..i], capacity)
    ensures Texts(blocks[..i], capacity) == Texts(blocks, capacity)[..i]
  {
  }

  class Logger {
    const blockSize: nat
    var bufList: seq<BufBlock>
    var emptyBufList: seq<BufBlock>
    /** Everything written to files so far. */
    var file: string
    /** The blocks of both lists, and their arrays. */
    ghost var repr: set<object>

    ghost predicate Valid()
      reads this, bufList, emptyBufList
    {
      && blockSize > 0
      && Separate(bufList + emptyBufList)
      && AllValid(bufList, blockSize) && AllValid(emptyBufList, blockSize)
      && Clean(emptyBufList)
      && this !in repr && Owned(bufList, repr) && Owned(emptyBufList, repr)
    }

    ghost function View(): Log
      requires Valid()
      reads this, bufList, emptyBufList, Arrays(bufList)
    {
      Log(Texts(bufList, blockSize), |emptyBufList|, file)
    }

    constructor (blockSize: nat)
      requires blockSize > 0
      ensures Valid() && View() == Log([], 0, []) && repr == {}
    {
      this.blockSize := blockSize;
      bufList, emptyBufList, file, repr := [], [], [], {};
    }

    method AppendNew()
      requires Valid() && emptyBufList == []
      modifies this`bufList, this`repr
      ensures Valid() && fresh(repr - old(repr))
      ensures Texts(bufList, blockSize) == old(Texts(bufList, blockSize)) + [[]]
    {
      hide Texts, Clean;
      ghost var was := bufList;
      assert was + emptyBufList == was;
      var b := new BufBlock(blockSize);
      assert Separate(was + [b]) by { SeparateParts(was, [b]); }
      bufList := bufList + [b];
      repr := repr + {b, b.buf};
      assert bufList + emptyBufList == was + [b];
      TextsSnoc(was, b, blockSize);
    }

    method AppendRecycled()
      requires Valid() && emptyBufList != []
      modifies this`bufList, this`emptyBufList
      ensures Valid() && Texts(bufList, blockSize) == old(Texts(bufList, blockSize)) + [[]]
      ensures |emptyBufList| == old(|emptyBufList|) - 1
    {
      ghost var was := bufList;
      var b := emptyBufList[0];
      assert bufList + [b] + emptyBufList[1..] == bufList + emptyBufList;
      bufList := bufList + [b];
      emptyBufList := emptyBufList[1..];
      assert bufList[..|bufList| - 1] == was;
    }

    /** Make sure that the last block of the list has room, taking a recycled block before a new one. */
    method OpenBlock()
      requires Valid()
      modifies this`bufList, this`emptyBufList, this`repr
      ensures Valid() && bufList != [] && fresh(repr - old(repr))
      ensures Texts(bufList, blockSize) == Opened(old(Texts(bufList, blockSize)), blockSize)
      ensures |emptyBufList| == Spare(old(|emptyBufList|), |bufList| - old(|bufList|))
    {
      if bufList == [] || bufList[|bufList| - 1].IsFull() {
        if emptyBufList == [] {
          AppendNew();
        } else {
          AppendRecycled();
        }
      }
    }

    /** Write into the last block. */
    method FillLast(log: string) returns (n: nat)
      requires Valid() && bufList != []
      modifies bufList[|bufList| - 1], bufList[|bufList| - 1].buf
      ensures Valid()
      ensures n == Min(Room(old(Texts(bufList, blockSize)), blockSize), |log|)
      ensures Texts(bufList, blockSize) == Extended(old(Texts(bufList, blockSize)), log[..n])
    {
      ghost var texts := Texts(bufList, blockSize);
      var last := bufList[|bufList| - 1];
      SeparateParts(bufList, emptyBufList);
      n := last.WriteBuf(log);
      forall i | 0 <= i < |bufList| - 1 ensures Texts(bufList, blockSize)[i] == texts[i] {
        assert bufList[i] != last && bufList[i].buf != last.buf;
      }
      assert Texts(bufList, blockSize) == Extended(texts, log[..n]);
    }

    /** One round of the write loop. */
    method WriteRound(log: string) returns (n: nat)
      requires Valid()
      modifies this`bufList, this`emptyBufList, this`repr, repr
      ensures Valid() && fresh(repr - old(repr))
      ensures var ready := Opened(old(Texts(bufList, blockSize)), blockSize);
              && n == Min(Room(ready, blockSize), |log|)
              && Texts(bufList, blockSize) == Extended(ready, log[..n])
      ensures |bufList| >= old(|bufList|)
      ensures |emptyBufList| == Spare(old(|emptyBufList|), |bufList| - old(|bufList|))
    {
      hide Separate, Texts, AllValid;
      OpenBlock();
      n := FillLast(log);
    }

    /** The write loop of the source, which offers the whole log in every round. */
    method WriteBuf(log: string)
      requires Valid() && log != []
      modifies this`bufList, this`emptyBufList, this`repr, repr
      ensures Valid() && fresh(repr - old(repr))
      ensures View() == Write(old(View()), blockSize, log)
    {
      hide Opened, Extended, Fits, Separate, AllValid, Owned, WriteLoop, Texts;
      ghost var before, empties := Texts(bufList, blockSize), |emptyBufList|;
      var remain := |log|;
      while remain > 0
        invariant Valid() && fresh(repr - old(repr))
        invariant |bufList| >= |before| && |emptyBufList| == Spare(empties, |bufList| - |before|)
        invariant WriteLoop(Texts(bufList, blockSize), blockSize, log, remain) ==
                  WriteLoop(before, blockSize, log, |log|)
        decreases remain
      {
        LoopBody(Texts(bufList, blockSize), blockSize, log, remain);
        var n := WriteRound(log);
        remain := remain - n;
      }
      LoopEnds(Texts(bufList, blockSize), blockSize, log, remain);
    }

    /** `list::resize` to fewer blocks drops them from the end. */
    method ResizeBufs(k: nat)
      requires Valid() && k <= |bufList|
      modifies this`bufList
      ensures Valid() && bufList == old(bufList)[..k]
      ensures Texts(bufList, blockSize) == old(Texts(bufList, blockSize))[..k]
    {
      hide Separate, Texts, AllValid, Owned, Clean;
      SeparatePrefixes(bufList, emptyBufList, k, |emptyBufList|);
      TextsPrefix(bufList, blockSize, k);
      PartOf(bufList, blockSize, repr, 0, k);
      assert bufList[0..k] == bufList[..k] && emptyBufList[..|emptyBufList|] == emptyBufList;
      bufList := bufList[..k];
    }

    method ResizeEmpties(k: nat)
      requires Valid() && k <= |emptyBufList|
      modifies this`emptyBufList
      ensures Valid() && |emptyBufList| == k
    {
      hide Separate, AllValid, Owned, Clean;
      SeparatePrefixes(bufList, emptyBufList, |bufList|, k);
      PartOf(emptyBufList, blockSize, repr, 0, k);
      assert emptyBufList[0..k] == emptyBufList[..k] && bufList[..|bufList|] == bufList;
      emptyBufList := emptyBufList[..k];
    }

    /** Trimming as written. */
    method TrimLists()
      requires Valid()
      modifies this`bufList, this`emptyBufList
      ensures Valid() && View() == Trim(old(View()))
      ensures bufList <= old(bufList)
    {
      hide Separate, Texts, AllValid, Owned, Clean;
      var a := |bufList| + |emptyBufList|;
      if a > BUF_BLOCK_NUM {
        ResizeEmpties(if |emptyBufList| < a - BUF_BLOCK_NUM then |emptyBufList| else a - BUF_BLOCK_NUM);
        if |bufList| > BUF_BLOCK_NUM {
          ResizeBufs(|bufList| - BUF_BLOCK_NUM);
        }
      }
    }

    /** Flush the front block and recycle it; `isFull` goes on until the list is empty. */
    method FlushBuf(isFull: bool)
      requires Valid()
      modifies this, repr
      ensures Valid() && repr == old(repr)
      ensures View() == Flush(old(View()), isFull)
      decreases |bufList|
    {
      TrimLists();
      ghost var trimmed := View();
      if bufList != [] {
        FlushFirst();
      }
      if bufList != [] && isFull {
        FlushBuf(isFull);
      }
    }

    method FlushFirst()
      requires Valid() && bufList != []
      modifies this`bufList, this`emptyBufList, this`file, bufList[0]
      ensures Valid() && |bufList| == old(|bufList|) - 1
      ensures View() == FlushFront(old(View()))
    {
      hide Separate, Texts, AllValid, Owned, Clean;
      ghost var texts := Texts(bufList, blockSize);
      SeparateRotate(bufList, emptyBufList);
      PartOf(bufList, blockSize, repr, 1, |bufList|);
      OwnedFront(bufList, emptyBufList, repr);
      FirstBlock(bufList, blockSize);
      assert bufList[1..|bufList|] == bufList[1..];
      var front := bufList[0];
      var text := FlushBlock(front, bufList[1..], emptyBufList);
      file := file + text;
      RestOfTexts(bufList, texts, bufList[1..], blockSize);
      emptyBufList := emptyBufList + [front];
      bufList := bufList[1..];
    }
  }

  /** Flushing one block leaves the others as they are. */
  method FlushBlock(front: BufBlock, rest: seq<BufBlock>, recycled: seq<BufBlock>) returns (text: string)
    requires front.Valid() && front !in rest && front !in recycled
    requires AllValid(rest, front.capacity) && AllValid(recycled, front.capacity) && Clean(recycled)
    modifies front
    ensures text == old(front.Text())
    ensures AllValid(rest, front.capacity) && AllValid(recycled + [front], front.capacity) && Clean(recycled + [front])
    ensures forall i :: 0 <= i < |rest| ==> rest[i].Text() == old(rest[i].Text())
  {
    text := front.FlushBuf();
  }

  /** Texts of the blocks behind the front one, which the flush has not touched. */
  lemma RestOfTexts(blocks: seq<BufBlock>, texts: seq<string>, rest: seq<BufBlock>, capacity: nat)
    requires blocks != [] && rest == blocks[1..] && AllValid(rest, capacity) && |texts| == |blocks|
    requires forall i :: 0 <= i < |rest| ==> rest[i].Text() == texts[i + 1]
    ensures Texts(rest, capacity) == texts[1..]
  {
  }
}
