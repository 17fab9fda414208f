/** The connection object over its two buffers; every method follows the protocol step of the same name. */
module TcpConnection {
  import opened ByteBuffer
  import opened TcpProtocol

  class TcpConnection {
    var state: ConnState
    var writeBuf: Buffer
    var readBuf: Buffer
    var writeOn: bool
    var shutWr: nat
    var removals: nat
    var failed: bool
    ghost var accepted: string
    ghost var written: string
    ghost var early: bool
    /** What the close callback does. */
    const onClose: seq<Act>

    ghost predicate Valid()
      reads this, writeBuf, readBuf
    {
      writeBuf.Valid() && readBuf.Valid() && writeBuf != readBuf && writeBuf.buf != readBuf.buf
    }

    ghost function View(): Conn
      requires Valid()
      reads this, writeBuf, readBuf, writeBuf.buf, readBuf.buf
    {
      Conn(state, writeBuf.Contents(), readBuf.Contents(), writeOn, accepted, written, shutWr, early, removals, failed,
           onClose)
    }

    /** `onOpen` is what the open callback does. */
    constructor (onOpen: seq<Act>, onClose: seq<Act>)
      ensures Valid() && fresh(writeBuf) && fresh(readBuf) && fresh(writeBuf.buf) && fresh(readBuf.buf)
      ensures View() == Open(onOpen, onClose)
    {
      var w := new Buffer();
      var r := new Buffer();
      state, writeBuf, readBuf := CONNECTING, w, r;
      writeOn, shutWr, removals, failed := false, 0, 0, false;
      accepted, written, early := [], [], false;
      this.onClose := onClose;
      new;
      RunCallback(onOpen);
    }

    method ShutWriteSide()
      requires Valid()
      modifies this`shutWr, this`early
      ensures Valid() && View() == ShutWrite(old(View()))
    {
      early := early || writeBuf.Contents() != [];
      shutWr := shutWr + 1;
    }

    method CloseFully()
      requires Valid()
      modifies this`state, this`removals, this`failed
      ensures Valid() && View() == DoFullClose(old(View()))
    {
      if state == FULL_CLOSE {
        failed := true;
        return;
      }
      state := FULL_CLOSE;
      // the close callback: whatever it does to a closed connection throws
      if onClose != [] {
        failed := true;
        return;
      }
      removals := removals + 1;
    }

    method CloseHalf()
      requires Valid()
      modifies this`state, this`failed, this`shutWr, this`early
      ensures Valid() && View() == DoHalfClose(old(View()))
    {
      if state != CONNECTING {
        failed := true;
        return;
      }
      state := HALF_CLOSE;
      var size := writeBuf.Size();
      if size == 0 && !writeOn {
        ShutWriteSide();
      }
    }

    method SendData(msg: string)
      requires Valid()
      modifies this, writeBuf, writeBuf.buf
      ensures Valid() && View() == DoSend(old(View()), msg)
      ensures writeBuf == old(writeBuf) && readBuf == old(readBuf)
      ensures writeBuf.buf == old(writeBuf.buf) || fresh(writeBuf.buf)
    {
      if state != CONNECTING {
        failed := true;
        return;
      }
      var size := writeBuf.Size();
      if size + |msg| >= MAX_WRITE_BUF {
        CloseFully();
        return;
      }
      writeBuf.Push(msg);
      accepted := accepted + msg;
      writeOn := true;
    }

    /** `pop_data`, with a length or, with None, of everything. */
    method PopData(len: TcpProtocol.Option<int>)
      requires Valid()
      modifies this`failed, readBuf`leftReadPtr
      ensures Valid() && View() == DoPop(old(View()), if len.Some? then len.value else |old(View()).unread|)
    {
      var size := readBuf.Size();
      if state == FULL_CLOSE || (len.Some? && !(0 <= len.value <= size)) {
        failed := true;
      } else if len.Some? {
        readBuf.PopLen(len.value);
      } else {
        readBuf.PopEverything();
      }
    }

    /** A user callback, as the sequence of calls it makes. */
    method RunCallback(acts: seq<Act>)
      requires Valid()
      modifies this, writeBuf, writeBuf.buf, readBuf`leftReadPtr
      ensures Valid() && View() == DoActs(old(View()), acts)
      ensures writeBuf == old(writeBuf) && readBuf == old(readBuf) && readBuf.buf == old(readBuf.buf)
      ensures writeBuf.buf == old(writeBuf.buf) || fresh(writeBuf.buf)
      decreases |acts|
    {
      if acts == [] || failed { return; }
      match acts[0] {
        case Send(msg) => SendData(msg);
        case HalfClose => CloseHalf();
        case FullClose => CloseFully();
        case Pop(len) => PopData(Some(len));
        case PopAll => PopData(None);
      }
      RunCallback(acts[1..]);
    }

    /** `broken` tells an error to be ignored from one that ends the connection; `n` bytes have been read. */
    method HandleReadable(arrival: Arrival, broken: bool, onMessage: TcpProtocol.Option<seq<Act>>) returns (n: int)
      requires Valid() && !failed
      modifies this, writeBuf, writeBuf.buf, readBuf, readBuf.buf
      ensures Valid() && writeBuf == old(writeBuf) && readBuf == old(readBuf)
      ensures arrival.Error? <==> n < 0
      ensures arrival.Bytes? ==> n == |arrival.text| || 512 <= n < |arrival.text|
      ensures View() == HandleRead(old(View()),
                if arrival.Error? then (if broken then ReadBroken else ReadAgain) else Received(arrival.text[..n]),
                onMessage)
    {
      n := readBuf.PushFrom(arrival);
      if n > 0 {
        if onMessage.Some? {
          RunCallback(onMessage.value);
        } else {
          readBuf.PopEverything();
        }
      } else if n < 0 {
        if broken { CloseFully(); }
      } else {
        assert readBuf.Contents() == old(readBuf.Contents());
        CloseFully();
      }
    }

    /** Everything has been written. */
    method Drained(onDrained: seq<Act>)
      requires Valid()
      modifies this, writeBuf, writeBuf.buf, readBuf`leftReadPtr
      ensures Valid() && writeBuf == old(writeBuf) && readBuf == old(readBuf)
      ensures View() == AfterDrain(DoActs(old(View()).(writeOn := false), onDrained))
    {
      hide DoActs;
      writeOn := false;
      RunCallback(onDrained);
      if !failed && state == HALF_CLOSE { ShutWriteSide(); }
    }

    /** `result` bytes are taken by the socket; a negative result is an error, fatal when `broken`. */
    method HandleWritable(result: int, broken: bool, onDrained: seq<Act>)
      requires Valid() && !failed && result <= |writeBuf.Contents()|
      modifies this, writeBuf, writeBuf.buf, readBuf`leftReadPtr
      ensures Valid() && writeBuf == old(writeBuf) && readBuf == old(readBuf)
      ensures View() == HandleWrite(old(View()),
                if result >= 0 then Count(result) else if broken then Broken else TryAgain, onDrained)
    {
      hide DoActs, AfterDrain;
      var size := writeBuf.Size();
      if size == 0 {
        failed := true;
        return;
      }
      ghost var taken := if result > 0 then writeBuf.Contents()[..result] else [];
      var n := writeBuf.PopTo(result);
      written := written + taken;
      if n > 0 {
        size := writeBuf.Size();
        if size == 0 { Drained(onDrained); }
      } else if n < 0 {
        if broken { CloseFully(); }
      }
    }
  }
}
