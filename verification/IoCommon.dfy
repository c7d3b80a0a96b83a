/** The state shared by the senders and the executor thread. Each method is one critical section, so
    its contract is its effect in any interleaving. */
module IoCommon {
  import opened Bytes
  import opened WriteProtocol
  import OutputQueue

  class IoCommon {
    var ioStarted: bool
    var writeInProgress: bool
    const outq: OutputQueue.OutputQueue
    ghost var accepted: seq<Buf>
    ghost var handed: seq<Buf>

    ghost predicate Valid()
      reads this, outq
    {
      outq.Valid()
    }

    ghost function State(): IoState
      reads this, outq
    {
      IoState(ioStarted, writeInProgress, outq.outputQueue, accepted, handed)
    }

    constructor ()
      ensures Valid() && State() == IDLE && fresh(outq)
    {
      ioStarted := false;
      writeInProgress := false;
      outq := new OutputQueue.OutputQueue();
      accepted, handed := [], [];
    }

    method SetIoStarted() returns (changed: bool)
      requires Valid()
      modifies this
      ensures Valid()
      ensures changed == !old(ioStarted)
      ensures State() == old(State()).(started := true)
    {
      if ioStarted {
        return false;
      }
      ioStarted := true;
      return true;
    }

    method SetIoStopped() returns (changed: bool)
      requires Valid()
      modifies this
      ensures Valid()
      ensures changed == old(ioStarted)
      ensures State() == old(State()).(started := false)
    {
      if !ioStarted {
        return false;
      }
      ioStarted := false;
      return true;
    }

    method Clear()
      requires Valid()
      modifies this, outq
      ensures Valid()
      ensures State() == Cleared(old(State()))
    {
      outq.Clear();
      writeInProgress := false;
    }

    /** `write` is the element given to the functor that performs the write, if it was called. */
    method StartWrite(elem: Buf) returns (status: WriteStatus, write: Option<Buf>)
      requires Valid()
      modifies this, outq
      ensures Valid()
      ensures State() == OnSend(old(State()), elem)
      ensures handed == old(handed) + Items(write)
      ensures status == IoStopped <==> accepted == old(accepted)
      ensures status == WriteStarted <==> write == Some(elem)
    {
      if !ioStarted {
        Clear();
        return IoStopped, None;
      }
      accepted := accepted + [elem];
      if writeInProgress {
        outq.AddElement(elem);
        return Queued, None;
      }
      writeInProgress := true;
      handed := handed + [elem];
      return WriteStarted, Some(elem);
    }

    method WriteNextElem() returns (write: Option<Buf>)
      requires Valid()
      modifies this, outq
      ensures Valid()
      ensures State() == OnWritten(old(State()))
      ensures handed == old(handed) + Items(write)
    {
      if !ioStarted {
        Clear();
        return None;
      }
      write := outq.GetNextElement();
      if write == None {
        writeInProgress := false;
        return;
      }
      writeInProgress := true;
      handed := handed + [write.value];
    }
  }
}
