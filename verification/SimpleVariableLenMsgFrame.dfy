/** The message frame for a fixed size header followed by one body. */
module SimpleVariableLenMsgFrame {
  import opened Bytes
  import opened Framing

  /** The state is whether the header has been processed. */
  function VariableLenFrame(decode: Buf -> nat): MsgFrame<bool> {
    (hdrProcessed: bool, buf: Buf) =>
      if hdrProcessed then (false, 0) else (decode(buf) != 0, decode(buf))
  }

  class SimpleVariableLenMsgFrame {
    const decode: Buf -> nat
    var hdrProcessed: bool

    constructor (decode: Buf -> nat)
      ensures this.decode == decode && !hdrProcessed
    {
      this.decode := decode;
      hdrProcessed := false;
    }

    method Call(buf: Buf) returns (size: nat)
      modifies this
      ensures (hdrProcessed, size) == VariableLenFrame(decode)(old(hdrProcessed), buf)
    {
      if !hdrProcessed {
        size := decode(buf);
        hdrProcessed := size != 0;
        return;
      }
      hdrProcessed := false;
      return 0;
    }
  }
}
