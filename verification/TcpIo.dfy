/** The TCP IO handler. Asio's outstanding reads and writes and the executor's posted closes are fields;
    handlers for completions take what Asio and the message handler answer as parameters. */
module TcpIo {
  import opened Bytes
  import opened Framing
  import opened NetIpError
  import opened TcpIoProtocol
  import opened TcpIoRuns
  import WriteProtocol
  import IoCommon
  import Delimiter

  class TcpIo<!FS> {
    const frame: MsgFrame<FS>
    const ioCommon: IoCommon.IoCommon
    var socketOpen: bool
    var byteVec: Buf
    var pending: seq<PendingRead<FS>>
    var writesPending: nat
    var closesPosted: nat
    ghost var origin: seq<PendingRead<FS>>
    ghost var blocks: seq<Buf>
    ghost var delivered: seq<Buf>
    ghost var refused: bool
    ghost var starts: nat
    ghost var notices: seq<Error>

    ghost function State(): Handler<FS>
      reads this, ioCommon, ioCommon.outq
    {
      Handler(ioCommon.State(), socketOpen, byteVec, pending, writesPending, closesPosted,
              origin, blocks, delivered, refused, starts, notices)
    }

    ghost predicate Valid()
      reads this, ioCommon, ioCommon.outq
    {
      ioCommon.Valid() && Inv(frame, State())
    }

    constructor (frame: MsgFrame<FS>)
      ensures Valid() && State() == Fresh() && this.frame == frame
      ensures fresh(ioCommon) && fresh(ioCommon.outq)
    {
      this.frame := frame;
      ioCommon := new IoCommon.IoCommon();
      socketOpen, byteVec, pending, writesPending, closesPosted := true, [], [], 0, 0;
      origin, blocks, delivered, refused, starts, notices := [], [], [], false, 0, [];
    }

    method Close(err: Error)
      requires ioCommon.Valid()
      modifies this, ioCommon, ioCommon.outq
      ensures ioCommon.Valid()
      ensures State() == TcpIoProtocol.Close(old(State()), err)
    {
      var changed := ioCommon.SetIoStopped();
      if !changed {
        return; // a late completion: whoever closed it has notified
      }
      ioCommon.Clear();
      socketOpen := false;
      notices := notices + [err];
    }

    method StartIoSetup(endp: Error) returns (ok: bool)
      requires ioCommon.Valid()
      modifies this, ioCommon, ioCommon.outq
      ensures ioCommon.Valid()
      ensures ok == (!old(ioCommon.ioStarted) && endp == NoError)
      ensures State() == if old(ioCommon.ioStarted) then old(State())
                         else if endp != NoError then TcpIoProtocol.Close(SetStarted(old(State())), endp)
                         else SetStarted(old(State()))
    {
      var changed := ioCommon.SetIoStarted();
      if !changed {
        return false;
      }
      starts := starts + 1;
      if endp != NoError {
        Close(endp);
        return false;
      }
      return true;
    }

    method StartRead(r: PendingRead<FS>)
      modifies this`pending
      ensures pending == old(pending) + [r]
    {
      pending := pending + [r];
    }

    method StartIo(headerSize: nat, fs: FS, endp: Error) returns (ok: bool)
      requires Valid() && Enabled(State(), StartFramed(headerSize, fs, endp))
      modifies this, ioCommon, ioCommon.outq
      ensures Valid()
      ensures ok == (!old(ioCommon.ioStarted) && endp == NoError)
      ensures State() == Next(frame, old(State()), StartFramed(headerSize, fs, endp))
    {
      NextKeepsInv(frame, State(), StartFramed(headerSize, fs, endp));
      ok := StartIoSetup(endp);
      if !ok {
        return;
      }
      byteVec := Resize(byteVec, headerSize);
      var r := ReadExact(0, headerSize, headerSize, fs);
      StartRead(r);
      origin := origin + [r];
    }

    method StartIoUntil(delimiter: Buf, endp: Error) returns (ok: bool)
      requires Valid() && Enabled(State(), StartUntil(delimiter, endp))
      modifies this, ioCommon, ioCommon.outq
      ensures Valid()
      ensures ok == (!old(ioCommon.ioStarted) && endp == NoError)
      ensures State() == Next(frame, old(State()), StartUntil(delimiter, endp))
    {
      NextKeepsInv(frame, State(), StartUntil(delimiter, endp));
      ok := StartIoSetup(endp);
      if !ok {
        return;
      }
      StartRead(ReadUntil(delimiter));
      origin := origin + [ReadUntil(delimiter)];
    }

    method StopIo() returns (wasStarted: bool)
      requires Valid()
      modifies this, ioCommon, ioCommon.outq
      ensures Valid()
      ensures wasStarted == old(ioCommon.ioStarted)
      ensures State() == Next(frame, old(State()), Event.StopIo)
    {
      NextKeepsInv(frame, State(), Event.StopIo);
      wasStarted := ioCommon.ioStarted;
      if !wasStarted {
        // closing acts only on a started handler, and this one's socket is open all the same
        var changed := ioCommon.SetIoStarted();
        starts := starts + 1;
      }
      Close(TcpIoHandlerStopped);
    }

    method Send(buf: Buf) returns (ok: bool)
      requires Valid()
      modifies this, ioCommon, ioCommon.outq
      ensures Valid()
      ensures ok == old(ioCommon.ioStarted)
      ensures State() == Next(frame, old(State()), Event.Send(buf))
    {
      NextKeepsInv(frame, State(), Event.Send(buf));
      var status, write := ioCommon.StartWrite(buf);
      writesPending := writesPending + if write.Some? then 1 else 0;
      ok := status != WriteProtocol.IoStopped;
    }

    /** The outstanding read has filled its region with `bytes`. */
    method HandleRead(bytes: Buf, keep: bool)
      requires Valid() && Enabled(State(), ReadDone(bytes, keep))
      modifies this
      ensures Valid()
      ensures State() == Next(frame, old(State()), ReadDone(bytes, keep))
    {
      NextKeepsInv(frame, State(), ReadDone(bytes, keep));
      RegionIsTail();
      FillRegion(bytes, keep);
    }

    method FillRegion(bytes: Buf, keep: bool)
      requires Enabled(State(), ReadDone(bytes, keep)) && InBounds(FramerOf(byteVec, pending[0]))
      modifies this
      ensures State() == OnReadDone(frame, old(State()), bytes, keep)
    {
      var r := pending[0];
      pending := pending[1..];
      blocks := blocks + [bytes];
      byteVec := byteVec[..r.start] + bytes + byteVec[r.start + r.len..];
      FrameRead(r, bytes, keep);
    }

    /** Asks the frame what the bytes just read complete, and acts on it. */
    method FrameRead(r: PendingRead<FS>, bytes: Buf, keep: bool)
      requires r.ReadExact?
      modifies this
      ensures var o := AfterFilling(frame, old(byteVec), r.hdrSize, r.fs, bytes);
              State() == if o.msg.Some? && !keep then
                old(State()).(delivered := old(delivered) + [old(byteVec)], refused := true, closesPosted := old(closesPosted) + 1)
              else
                old(State()).(byteVec := o.framer.buf, pending := old(pending) + [ReadOf(o.framer)],
                              delivered := old(delivered) + Items(o.msg))
    {
      var (fs, nextReadSize) := frame(r.fs, bytes);
      if nextReadSize == 0 {
        delivered := delivered + [byteVec];
        if !keep {
          refused := true;
          closesPosted := closesPosted + 1;
          return;
        }
        byteVec := Resize(byteVec, r.hdrSize);
        StartRead(ReadExact(0, r.hdrSize, r.hdrSize, fs));
      } else {
        var oldSize := |byteVec|;
        byteVec := Resize(byteVec, oldSize + nextReadSize);
        StartRead(ReadExact(oldSize, nextReadSize, r.hdrSize, fs));
      }
    }

    lemma RegionIsTail()
      requires Valid() && pending != [] && pending[0].ReadExact?
      ensures pending[0].start + pending[0].len == |byteVec|
    {
      FeedConserves(frame, FirstFramer(origin[0]), blocks);
    }

    /** The read-until has appended bytes to the vector and goes on. */
    method BytesArrive(bytes: Buf)
      requires Valid() && Enabled(State(), Arrive(bytes))
      modifies this
      ensures Valid()
      ensures State() == Next(frame, old(State()), Arrive(bytes))
    {
      NextKeepsInv(frame, State(), Arrive(bytes));
      byteVec := byteVec + bytes;
      blocks := blocks + [bytes];
    }

    /** The read-until has found its delimiter; `numBytes` ends the first match. */
    method HandleReadUntil(numBytes: nat, keep: bool)
      requires Valid() && HasDelimiter(State())
      requires numBytes == Delimiter.FirstMatch(byteVec, pending[0].delim, 0).value + |pending[0].delim|
      modifies this
      ensures Valid()
      ensures State() == Next(frame, old(State()), UntilDone(keep))
    {
      NextKeepsInv(frame, State(), UntilDone(keep));
      TakeMessage(numBytes, keep);
    }

    method TakeMessage(numBytes: nat, keep: bool)
      requires HasDelimiter(State())
      requires numBytes == Delimiter.FirstMatch(byteVec, pending[0].delim, 0).value + |pending[0].delim|
      modifies this
      ensures State() == OnUntilDone(old(State()), keep)
    {
      var delim := pending[0].delim;
      pending := pending[1..];
      delivered := delivered + [byteVec[..numBytes]];
      if !keep {
        refused := true;
        closesPosted := closesPosted + 1;
        return;
      }
      byteVec := byteVec[numBytes..];
      StartRead(ReadUntil(delim));
    }

    method HandleReadError(err: Error)
      requires Valid() && Enabled(State(), ReadFailed(err))
      modifies this, ioCommon, ioCommon.outq
      ensures Valid()
      ensures State() == Next(frame, old(State()), ReadFailed(err))
    {
      NextKeepsInv(frame, State(), ReadFailed(err));
      pending := pending[1..];
      Close(err);
    }

    method HandleWrite(err: Error)
      requires Valid() && writesPending > 0
      modifies this, ioCommon, ioCommon.outq
      ensures Valid()
      ensures err == NoError ==> State() == Next(frame, old(State()), WriteDone)
      ensures err != NoError ==> State() == Next(frame, old(State()), WriteFailed(err))
    {
      if err != NoError {
        NextKeepsInv(frame, State(), WriteFailed(err));
        writesPending := writesPending - 1;
        Close(err);
        return;
      }
      NextKeepsInv(frame, State(), WriteDone);
      StartNextWrite();
    }

    method StartNextWrite()
      requires ioCommon.Valid() && writesPending > 0
      modifies this, ioCommon, ioCommon.outq
      ensures ioCommon.Valid()
      ensures State() == Next(frame, old(State()), WriteDone)
    {
      writesPending := writesPending - 1;
      var write := ioCommon.WriteNextElem();
      writesPending := writesPending + if write.Some? then 1 else 0;
    }

    /** The close posted after the message handler's refusal. */
    method RunPostedClose()
      requires Valid() && closesPosted > 0
      modifies this, ioCommon, ioCommon.outq
      ensures Valid()
      ensures State() == Next(frame, old(State()), PostedClose)
    {
      NextKeepsInv(frame, State(), PostedClose);
      closesPosted := closesPosted - 1;
      Close(MessageHandlerTerminated);
    }
  }
}
