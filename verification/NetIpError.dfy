/** Error codes as the callbacks see them. */
module NetIpError {

  /** NoError is an error code that tests false; a system or network error carries its value. */
  datatype Error =
    | NoError
    | MessageHandlerTerminated
    | TcpIoHandlerStopped
    | TcpAcceptorStopped
    | TcpAcceptorClosed
    | TcpConnectorStopped
    | TcpConnectorClosed
    | TcpConnectorResolvingAddresses
    | TcpConnectorConnecting
    | TcpConnectorConnected
    | TcpConnectorTimeout
    | TcpConnectorNoReconnectAttempted
    | SystemError(value: int)

  /** The codes that Asio reports. */
  predicate External(err: Error) {
    err == NoError || err.SystemError?
  }

  /** The two application callbacks; `h` identifies an IO handler. */
  datatype Callback =
    | ErrorCb(io: IoRef, err: Error)
    | StateCb(h: nat, count: nat, starting: bool)

  datatype IoRef = NoIo | Io(h: nat)

  /** The error callback that an error code causes where only real errors are reported. */
  function IfError(err: Error): seq<Callback> {
    if err == NoError then [] else [ErrorCb(NoIo, err)]
  }

  /** The error codes reported about an IO handler, or about none. */
  function Codes(log: seq<Callback>, io: IoRef): seq<Error> {
    if log == [] then [] else
    var before, last := Codes(log[..|log| - 1], io), log[|log| - 1];
    if last.ErrorCb? && last.io == io then before + [last.err] else before
  }

  lemma {:induction false} CodesAppend(a: seq<Callback>, b: seq<Callback>, io: IoRef)
    ensures Codes(a + b, io) == Codes(a, io) + Codes(b, io)
    decreases |b|
  {
    if b == [] {
      assert a + b == a;
    } else {
      var n := |b| - 1;
      CodesAppend(a, b[..n], io);
      assert (a + b)[..|a + b| - 1] == a + b[..n] && (a + b)[|a + b| - 1] == b[n];
    }
  }

  /** Callbacks about others. */
  lemma {:induction false} CodesOfOthers(a: seq<Callback>, b: seq<Callback>, io: IoRef)
    requires forall cb :: cb in b ==> !(cb.ErrorCb? && cb.io == io)
    ensures Codes(a + b, io) == Codes(a, io)
    decreases |b|
  {
    if b == [] {
      assert a + b == a;
    } else {
      var n := |b| - 1;
      assert b[n] in b;
      CodesOfOthers(a, b[..n], io);
      assert (a + b)[..|a + b| - 1] == a + b[..n] && (a + b)[|a + b| - 1] == b[n];
    }
  }

  /** An IO handler's last two callbacks: its code, and that it has closed. */
  lemma CodesOfClosed(a: seq<Callback>, h: nat, code: Error, count: nat, io: IoRef)
    ensures Codes(a + [ErrorCb(Io(h), code), StateCb(h, count, false)], io) ==
            if io == Io(h) then Codes(a, io) + [code] else Codes(a, io)
  {
    var log := a + [ErrorCb(Io(h), code)];
    assert a + [ErrorCb(Io(h), code), StateCb(h, count, false)] == log + [StateCb(h, count, false)];
    assert (log + [StateCb(h, count, false)])[..|log|] == log && log[..|a|] == a;
  }
}
