/** The output queue with its cached byte count, which is a 64-bit unsigned size. */
module OutputQueue {
  import opened Bytes

  const SIZE_MODULUS := 0x1_0000_0000_0000_0000

  datatype QueueStats = QueueStats(outputQueueSize: nat, bytesInOutputQueue: nat)

  /** The bytes waiting, counted without any wrap-around. */
  function TotalSize(elems: seq<Buf>): nat {
    if elems == [] then 0 else |elems[0]| + TotalSize(elems[1..])
  }

  lemma {:induction false} TotalSizeSnoc(elems: seq<Buf>, e: Buf)
    ensures TotalSize(elems + [e]) == TotalSize(elems) + |e|
  {
    if elems != [] {
      assert (elems + [e])[1..] == elems[1..] + [e];
      TotalSizeSnoc(elems[1..], e);
    }
  }

  class OutputQueue {
    var outputQueue: seq<Buf>
    var currentNumBytes: nat

    /** The cache agrees with the queue modulo the width of the size type. */
    ghost predicate Valid()
      reads this
    {
      currentNumBytes == TotalSize(outputQueue) % SIZE_MODULUS
    }

    constructor ()
      ensures Valid() && outputQueue == []
    {
      outputQueue := [];
      currentNumBytes := 0;
    }

    method GetNextElement() returns (elem: Option<Buf>)
      requires Valid()
      modifies this
      ensures Valid()
      ensures old(outputQueue) == Items(elem) + outputQueue
      ensures elem == None <==> old(outputQueue) == []
    {
      if outputQueue == [] {
        return None;
      }
      var e := outputQueue[0];
      outputQueue := outputQueue[1..];
      currentNumBytes := (currentNumBytes - |e|) % SIZE_MODULUS;
      return Some(e);
    }

    method AddElement(e: Buf)
      requires Valid()
      modifies this
      ensures Valid()
      ensures outputQueue == old(outputQueue) + [e]
    {
      TotalSizeSnoc(outputQueue, e);
      outputQueue := outputQueue + [e];
      currentNumBytes := (currentNumBytes + |e|) % SIZE_MODULUS;
    }

    /** The count is the true number of bytes whenever that number is representable, whatever sizes
        the queue went through before. */
    method GetQueueStats() returns (stats: QueueStats)
      requires Valid()
      ensures stats.outputQueueSize == |outputQueue|
      ensures stats.bytesInOutputQueue == TotalSize(outputQueue) % SIZE_MODULUS
      ensures TotalSize(outputQueue) < SIZE_MODULUS ==>
                stats.bytesInOutputQueue == TotalSize(outputQueue)
    {
      stats := QueueStats(|outputQueue|, currentNumBytes);
    }

    method Clear()
      modifies this
      ensures Valid() && outputQueue == []
    {
      outputQueue := [];
      currentNumBytes := 0;
    }
  }
}
