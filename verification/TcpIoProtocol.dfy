/** A TCP IO handler as a state machine. A step is one call into the handler: start_io, stop_io, a send, the
    completion of a read or write, or the posted close. */
module TcpIoProtocol {
  import opened Bytes
  import opened Framing
  import opened WriteProtocol
  import opened NetIpError
  import Delimiter

  /** An asynchronous read that has not completed, with what its completion handler captured. */
  datatype PendingRead<FS> =
    | ReadExact(start: nat, len: nat, hdrSize: nat, fs: FS)
    | ReadUntil(delim: Buf)

  datatype Handler<FS> = Handler(
    io: IoState,
    socketOpen: bool,
    byteVec: Buf,
    pending: seq<PendingRead<FS>>,
    writesPending: nat,
    closesPosted: nat,
    // histories
    origin: seq<PendingRead<FS>>,  // the first read of each successful start_io
    blocks: seq<Buf>,              // the bytes received, as they arrived in byteVec
    delivered: seq<Buf>,           // the messages given to the message handler
    refused: bool,                 // the message handler has returned false
    starts: nat,                   // times the started flag went from false to true
    notices: seq<Error>)           // notifier calls

  function Fresh<FS>(): Handler<FS> {
    Handler(IDLE, true, [], [], 0, 0, [], [], [], false, 0, [])
  }

  /** `endp` is the error code of reading the remote endpoint; `keep` is the message handler's answer, if it is called.
      Arrive: a read-until has put bytes into the vector and goes on; UntilDone: it has found its delimiter. */
  datatype Event<FS> =
    | StartFramed(hdrSize: nat, fs: FS, endp: Error)
    | StartUntil(delim: Buf, endp: Error)
    | StopIo
    | ReadDone(bytes: Buf, keep: bool)
    | Arrive(bytes: Buf)
    | UntilDone(keep: bool)
    | ReadFailed(err: Error)
    | Send(elem: Buf)
    | WriteDone
    | WriteFailed(err: Error)
    | PostedClose

  predicate HasDelimiter<FS>(h: Handler<FS>) {
    h.pending != [] && h.pending[0].ReadUntil? && Delimiter.FirstMatch(h.byteVec, h.pending[0].delim, 0).Some?
  }

  /** What Asio promises: a closed socket has no remote endpoint, a read fills its region exactly, and a
      read-until searches what is buffered before it reads on. Completions may come late, after a close. */
  predicate Enabled<FS>(h: Handler<FS>, e: Event<FS>) {
    match e
    case StartFramed(_, _, endp) => endp == NoError ==> h.socketOpen
    case StartUntil(delim, endp) => delim != [] && (endp == NoError ==> h.socketOpen)
    case ReadDone(bytes, _) => h.pending != [] && h.pending[0].ReadExact? && |bytes| == h.pending[0].len
    case Arrive(bytes) => h.pending != [] && h.pending[0].ReadUntil? && !HasDelimiter(h)
    case UntilDone(_) => HasDelimiter(h)
    case ReadFailed(_) => h.pending != []
    case WriteDone => h.writesPending > 0
    case WriteFailed(_) => h.writesPending > 0
    case PostedClose => h.closesPosted > 0
    case StopIo => true
    case Send(_) => true
  }

  /** Closing a started handler discards its output, closes the socket and notifies once; closing any
      other handler does nothing. */
  function Close<FS>(h: Handler<FS>, err: Error): Handler<FS> {
    if !h.io.started then h else
    h.(io := Cleared(h.io.(started := false)), socketOpen := false, notices := h.notices + [err])
  }

  function SetStarted<FS>(h: Handler<FS>): Handler<FS> {
    if h.io.started then h else h.(io := h.io.(started := true), starts := h.starts + 1)
  }

  function Start<FS>(h: Handler<FS>, byteVec: Buf, read: PendingRead<FS>, endp: Error): Handler<FS> {
    if h.io.started then h
    else if endp != NoError then Close(SetStarted(h), endp)
    else SetStarted(h).(byteVec := byteVec, pending := h.pending + [read], origin := h.origin + [read])
  }

  /** The framer that an outstanding read belongs to. */
  function FramerOf<FS>(byteVec: Buf, r: PendingRead<FS>): Framer<FS>
    requires r.ReadExact?
  {
    Framer(byteVec, r.start, r.len, r.hdrSize, r.fs)
  }

  function ReadOf<FS>(f: Framer<FS>): PendingRead<FS> {
    ReadExact(f.start, f.len, f.hdrSize, f.fs)
  }

  function OnReadDone<FS>(frame: MsgFrame<FS>, h: Handler<FS>, bytes: Buf, keep: bool): Handler<FS>
    requires Enabled(h, ReadDone(bytes, keep))
  {
    var f := FramerOf(h.byteVec, h.pending[0]);
    var h1 := h.(pending := h.pending[1..], blocks := h.blocks + [bytes]);
    if !InBounds(f) then h1 else
    var o := OnRead(frame, f, bytes);
    if o.msg.Some? && !keep then
      h1.(byteVec := o.msg.value, delivered := h.delivered + Items(o.msg), refused := true,
          closesPosted := h.closesPosted + 1)
    else
      h1.(byteVec := o.framer.buf, pending := h1.pending + [ReadOf(o.framer)], delivered := h.delivered + Items(o.msg))
  }

  function OnUntilDone<FS>(h: Handler<FS>, keep: bool): Handler<FS>
    requires HasDelimiter(h)
  {
    var d := h.pending[0].delim;
    var end := Delimiter.FirstMatch(h.byteVec, d, 0).value + |d|;
    var h1 := h.(pending := h.pending[1..], delivered := h.delivered + [h.byteVec[..end]]);
    if !keep then h1.(refused := true, closesPosted := h.closesPosted + 1)
    else h1.(byteVec := h.byteVec[end..], pending := h1.pending + [ReadUntil(d)])
  }

  function Next<FS>(frame: MsgFrame<FS>, h: Handler<FS>, e: Event<FS>): Handler<FS>
    requires Enabled(h, e)
  {
    match e
    case StartFramed(n, fs, endp) => Start(h, Resize(h.byteVec, n), ReadExact(0, n, n, fs), endp)
    case StartUntil(delim, endp) => Start(h, h.byteVec, ReadUntil(delim), endp)
    case StopIo => Close(SetStarted(h), TcpIoHandlerStopped)
    case ReadDone(bytes, keep) => OnReadDone(frame, h, bytes, keep)
    case Arrive(bytes) => h.(byteVec := h.byteVec + bytes, blocks := h.blocks + [bytes])
    case UntilDone(keep) => OnUntilDone(h, keep)
    case ReadFailed(err) => Close(h.(pending := h.pending[1..]), err)
    case Send(b) =>
      var io := OnSend(h.io, b);
      h.(io := io, writesPending := h.writesPending + |io.handed| - |h.io.handed|)
    case WriteDone =>
      var io := OnWritten(h.io);
      h.(io := io, writesPending := h.writesPending - 1 + |io.handed| - |h.io.handed|)
    case WriteFailed(err) => Close(h.(writesPending := h.writesPending - 1), err)
    case PostedClose => Close(h.(closesPosted := h.closesPosted - 1), MessageHandlerTerminated)
  }

  predicate Valid<FS>(frame: MsgFrame<FS>, es: seq<Event<FS>>)
    decreases |es|, 0
  {
    es == [] ||
    (Valid(frame, es[..|es| - 1]) && Enabled(Run(frame, es[..|es| - 1]), es[|es| - 1]))
  }

  function Run<FS>(frame: MsgFrame<FS>, es: seq<Event<FS>>): Handler<FS>
    requires Valid(frame, es)
    decreases |es|, 1
  {
    if es == [] then Fresh() else Next(frame, Run(frame, es[..|es| - 1]), es[|es| - 1])
  }
}
