/** What holds after every run of a TCP IO handler. */
module TcpIoRuns {
  import opened Bytes
  import opened Framing
  import opened NetIpError
  import opened HandlerLife
  import opened TcpIoProtocol
  import opened SimpleVariableLenMsgFrame
  import opened MsgHandling
  import WriteProtocol
  import Delimiter

  /** The framer a framed start_io begins with. */
  function FirstFramer<FS>(r: PendingRead<FS>): Framer<FS>
    requires r.ReadExact?
  {
    Begin([], r.hdrSize, r.fs)
  }

  ghost predicate Lifecycle<FS>(h: Handler<FS>) {
    && (h.io.started ==> h.socketOpen)
    && (h.socketOpen && !h.io.started ==> h.starts == 0)
    && |h.notices| + (if h.io.started then 1 else 0) == h.starts
    && |h.pending| <= 1
    && |h.origin| <= 1
    && (h.starts == 0 ==> h.origin == [])
    && (h.origin == [] ==> h.pending == [] && h.delivered == [] && h.blocks == [] && !h.refused && h.byteVec == [])
    && (h.refused ==> h.pending == [])
  }

  ghost predicate FramedInv<FS>(frame: MsgFrame<FS>, h: Handler<FS>, r: PendingRead<FS>)
    requires r.ReadExact?
  {
    var f := FirstFramer(r);
    && r == ReadOf(f)
    && Fits(frame, f, h.blocks)
    && Feed(frame, f, h.blocks).msgs == h.delivered
    && (h.pending != [] ==> h.pending[0].ReadExact? && FramerOf(h.byteVec, h.pending[0]) == Feed(frame, f, h.blocks).framer)
  }

  ghost predicate DelimitedInv<FS>(h: Handler<FS>, d: Buf) {
    && d != []
    && (forall m :: m in h.delivered ==> Delimiter.IsMsg(m, d))
    && Concat(h.delivered) <= Concat(h.blocks)
    && (h.pending != [] ==> h.pending[0] == ReadUntil(d) && Concat(h.delivered) + h.byteVec == Concat(h.blocks))
  }

  ghost predicate ReadInv<FS>(frame: MsgFrame<FS>, h: Handler<FS>) {
    h.origin != [] ==>
      match h.origin[0]
      case ReadExact(_, _, _, _) => FramedInv(frame, h, h.origin[0])
      case ReadUntil(d) => DelimitedInv(h, d)
  }

  ghost predicate Inv<FS>(frame: MsgFrame<FS>, h: Handler<FS>) {
    Lifecycle(h) && ReadInv(frame, h)
  }

  lemma ReadDoneKeepsInv<FS>(frame: MsgFrame<FS>, h: Handler<FS>, bytes: Buf, keep: bool)
    requires Inv(frame, h) && Enabled(h, ReadDone(bytes, keep))
    ensures Inv(frame, OnReadDone(frame, h, bytes, keep))
  {
    var f := FirstFramer(h.origin[0]);
    var now := Feed(frame, f, h.blocks).framer;
    FeedConserves(frame, f, h.blocks);
    OnReadConserves(frame, now, bytes);
    FeedSnoc(frame, f, h.blocks, bytes);
  }

  lemma UntilDoneLifecycle<FS>(h: Handler<FS>, keep: bool)
    requires Lifecycle(h) && HasDelimiter(h)
    ensures Lifecycle(OnUntilDone(h, keep))
  {
  }

  /** Taking the front of the vector as one more message. */
  lemma TakeFront(delivered: seq<Buf>, v: Buf, all: Buf, d: Buf, end: nat)
    requires d != [] && Delimiter.FirstMatch(v, d, 0).Some? && end == Delimiter.FirstMatch(v, d, 0).value + |d| <= |v|
    requires (forall m :: m in delivered ==> Delimiter.IsMsg(m, d)) && Concat(delivered) + v == all
    ensures var now := delivered + [v[..end]];
            (forall m :: m in now ==> Delimiter.IsMsg(m, d)) && Concat(now) + v[end..] == all && Concat(now) <= all
  {
    Delimiter.UpToFirstMatchIsMsg(v, d);
    Delimiter.AllMsgs(delivered, [v[..end]], d);
    MoveFront(delivered, v, end);
  }

  lemma UntilDoneShape<FS>(h: Handler<FS>, keep: bool)
    requires HasDelimiter(h) && |h.pending| == 1
    ensures var h', d := OnUntilDone(h, keep), h.pending[0].delim;
            var end := Delimiter.FirstMatch(h.byteVec, d, 0).value + |d|;
            && h'.delivered == h.delivered + [h.byteVec[..end]] && h'.blocks == h.blocks
            && (if keep then h'.byteVec == h.byteVec[end..] && h'.pending == [ReadUntil(d)] else h'.pending == [])
  {
  }

  lemma UntilDoneDelimited<FS>(h: Handler<FS>, d: Buf, keep: bool)
    requires HasDelimiter(h) && DelimitedInv(h, d) && |h.pending| <= 1
    ensures DelimitedInv(OnUntilDone(h, keep), d)
  {
    var h' := OnUntilDone(h, keep);
    var end := Delimiter.FirstMatch(h.byteVec, d, 0).value + |d|;
    UntilDoneShape(h, keep);
    TakeFront(h.delivered, h.byteVec, Concat(h.blocks), d, end);
    DelimitedFrom(h', d, h.byteVec[end..]);
  }

  lemma DelimitedFrom<FS>(h: Handler<FS>, d: Buf, left: Buf)
    requires d != [] && (forall m :: m in h.delivered ==> Delimiter.IsMsg(m, d))
    requires Concat(h.delivered) <= Concat(h.blocks)
    requires h.pending != [] ==> h.pending[0] == ReadUntil(d) && h.byteVec == left && Concat(h.delivered) + left == Concat(h.blocks)
    ensures DelimitedInv(h, d)
  {
  }

  lemma UntilDoneKeepsInv<FS>(frame: MsgFrame<FS>, h: Handler<FS>, keep: bool)
    requires Inv(frame, h) && HasDelimiter(h)
    ensures Inv(frame, OnUntilDone(h, keep))
  {
    UntilDoneLifecycle(h, keep);
    UntilDoneDelimited(h, h.origin[0].delim, keep);
  }

  lemma ArriveKeepsInv<FS>(frame: MsgFrame<FS>, h: Handler<FS>, bytes: Buf)
    requires Inv(frame, h) && Enabled(h, Arrive(bytes))
    ensures Inv(frame, Next(frame, h, Arrive(bytes)))
  {
    ConcatSnoc(h.blocks, bytes);
    assert Concat(h.delivered) + (h.byteVec + bytes) == (Concat(h.delivered) + h.byteVec) + bytes;
  }

  lemma StartKeepsInv<FS>(frame: MsgFrame<FS>, h: Handler<FS>, e: Event<FS>)
    requires Inv(frame, h) && Enabled(h, e) && (e.StartFramed? || e.StartUntil?)
    ensures Inv(frame, Next(frame, h, e))
  {
  }

  /** Steps that neither read nor start keep what is known of the reading. */
  lemma OtherStepKeepsInv<FS>(frame: MsgFrame<FS>, h: Handler<FS>, e: Event<FS>)
    requires Inv(frame, h) && Enabled(h, e)
    requires e.StopIo? || e.ReadFailed? || e.Send? || e.WriteDone? || e.WriteFailed? || e.PostedClose?
    ensures Inv(frame, Next(frame, h, e))
  {
    ReadInvFrame(frame, h, Next(frame, h, e));
  }

  lemma ReadInvFrame<FS>(frame: MsgFrame<FS>, h: Handler<FS>, h': Handler<FS>)
    requires ReadInv(frame, h)
    requires h'.origin == h.origin && h'.blocks == h.blocks && h'.delivered == h.delivered && h'.byteVec == h.byteVec
    requires h'.pending == h.pending || h'.pending == []
    ensures ReadInv(frame, h')
  {
  }

  lemma NextKeepsInv<FS>(frame: MsgFrame<FS>, h: Handler<FS>, e: Event<FS>)
    requires Inv(frame, h) && Enabled(h, e)
    ensures Inv(frame, Next(frame, h, e))
  {
    match e
    case ReadDone(bytes, keep) => ReadDoneKeepsInv(frame, h, bytes, keep);
    case UntilDone(keep) => UntilDoneKeepsInv(frame, h, keep);
    case Arrive(bytes) => ArriveKeepsInv(frame, h, bytes);
    case StartFramed(_, _, _) => StartKeepsInv(frame, h, e);
    case StartUntil(_, _) => StartKeepsInv(frame, h, e);
    case _ => OtherStepKeepsInv(frame, h, e);
  }

  lemma {:induction false} RunKeepsInv<FS>(frame: MsgFrame<FS>, es: seq<Event<FS>>)
    requires Valid(frame, es)
    ensures Inv(frame, Run(frame, es))
    decreases |es|
  {
    if es != [] {
      RunKeepsInv(frame, es[..|es| - 1]);
      NextKeepsInv(frame, Run(frame, es[..|es| - 1]), es[|es| - 1]);
    }
  }

  /** In every run, repeated and misordered start_io and stop_io calls included, every transition to
      started is reported closed exactly once, and at most one read is outstanding. */
  lemma {:induction false} EveryStartReportedClosedOnce<FS>(frame: MsgFrame<FS>, es: seq<Event<FS>>)
    requires Valid(frame, es)
    ensures var h := Run(frame, es);
            |h.notices| + (if h.io.started then 1 else 0) == h.starts && |h.pending| <= 1
  {
    RunKeepsInv(frame, es);
  }

  /** A started handler is reading or, once refused, about to close; one that is not started holds no output. */
  ghost predicate Busy<FS>(h: Handler<FS>) {
    && (h.io.started && !h.refused ==> |h.pending| == 1)
    && (h.io.started && h.refused ==> h.closesPosted > 0)
    && (!h.io.started ==> h.io.queue == [] && !h.io.inProgress)
  }

  /** The outstanding framed read lies within the vector. */
  lemma ReadInBounds<FS>(frame: MsgFrame<FS>, h: Handler<FS>)
    requires Inv(frame, h) && h.pending != [] && h.pending[0].ReadExact?
    ensures InBounds(FramerOf(h.byteVec, h.pending[0]))
  {
    FeedConserves(frame, FirstFramer(h.origin[0]), h.blocks);
  }

  lemma BusyStep<FS>(frame: MsgFrame<FS>, h: Handler<FS>, e: Event<FS>)
    requires Inv(frame, h) && Busy(h) && Enabled(h, e)
    ensures Busy(Next(frame, h, e))
  {
    if e.ReadDone? {
      ReadInBounds(frame, h);
    }
  }

  lemma {:induction false} RunBusy<FS>(frame: MsgFrame<FS>, es: seq<Event<FS>>)
    requires Valid(frame, es)
    ensures Busy(Run(frame, es))
    decreases |es|
  {
    if es != [] {
      RunBusy(frame, es[..|es| - 1]);
      RunKeepsInv(frame, es[..|es| - 1]);
      BusyStep(frame, Run(frame, es[..|es| - 1]), es[|es| - 1]);
    }
  }

  /** Reading never stops by itself: in every run a started handler has exactly one read outstanding until its message handler
      refuses, and then its close is posted. */
  lemma {:induction false} StartedMeansReading<FS>(frame: MsgFrame<FS>, es: seq<Event<FS>>)
    requires Valid(frame, es) && Run(frame, es).io.started
    ensures if Run(frame, es).refused then Run(frame, es).closesPosted > 0 else |Run(frame, es).pending| == 1
  {
    RunBusy(frame, es);
  }

  /** A handler that is not started, closed or not, has nothing queued and no write marked in progress. */
  lemma {:induction false} NothingKeptWhenClosed<FS>(frame: MsgFrame<FS>, es: seq<Event<FS>>)
    requires Valid(frame, es) && !Run(frame, es).io.started
    ensures Run(frame, es).io.queue == [] && !Run(frame, es).io.inProgress
  {
    RunBusy(frame, es);
  }

  /** The step gives the message handler a message that it refuses. */
  predicate Refuses<FS>(frame: MsgFrame<FS>, h: Handler<FS>, e: Event<FS>)
    requires Enabled(h, e)
  {
    match e
    case ReadDone(bytes, keep) => !keep && frame(h.pending[0].fs, bytes).1 == 0
    case UntilDone(keep) => !keep
    case _ => false
  }

  predicate HasRefused<FS>(frame: MsgFrame<FS>, es: seq<Event<FS>>)
    requires Valid(frame, es)
    decreases |es|
  {
    es != [] &&
    var init, e := es[..|es| - 1], es[|es| - 1];
    HasRefused(frame, init) || Refuses(frame, Run(frame, init), e)
  }

  lemma RefusesStep<FS>(frame: MsgFrame<FS>, h: Handler<FS>, e: Event<FS>)
    requires Inv(frame, h) && Enabled(h, e)
    ensures Next(frame, h, e).refused <==> h.refused || Refuses(frame, h, e)
  {
    if e.ReadDone? {
      ReadInBounds(frame, h);
    }
  }

  /** It has refused if and only if it answered false to some message. */
  lemma {:induction false} RefusedExactly<FS>(frame: MsgFrame<FS>, es: seq<Event<FS>>)
    requires Valid(frame, es)
    ensures Run(frame, es).refused <==> HasRefused(frame, es)
    decreases |es|
  {
    if es != [] {
      RefusedExactly(frame, es[..|es| - 1]);
      RunKeepsInv(frame, es[..|es| - 1]);
      RefusesStep(frame, Run(frame, es[..|es| - 1]), es[|es| - 1]);
    }
  }

  /** The handler's write side, as the locked write protocol sees it. */
  function WriterOf<FS>(h: Handler<FS>): WriteProtocol.Writer {
    WriteProtocol.Writer(h.io, h.writesPending, h.starts > 0 && !h.io.started)
  }

  lemma SendKeepsWriter<FS>(frame: MsgFrame<FS>, h: Handler<FS>, b: Buf)
    requires Lifecycle(h) && WriteProtocol.Inv(WriterOf(h)) && Enabled(h, Send(b))
    ensures WriteProtocol.Inv(WriterOf(Next(frame, h, Send(b))))
  {
    WriteProtocol.InvStep(WriterOf(h), WriteProtocol.Event.Send(b));
  }

  lemma WriteDoneKeepsWriter<FS>(frame: MsgFrame<FS>, h: Handler<FS>)
    requires Lifecycle(h) && WriteProtocol.Inv(WriterOf(h)) && Enabled(h, WriteDone)
    ensures WriteProtocol.Inv(WriterOf(Next(frame, h, WriteDone)))
  {
    WriteProtocol.InvStep(WriterOf(h), WriteProtocol.Written);
  }

  lemma StartKeepsWriter<FS>(frame: MsgFrame<FS>, h: Handler<FS>, e: Event<FS>)
    requires Lifecycle(h) && WriteProtocol.Inv(WriterOf(h)) && Enabled(h, e) && (e.StartFramed? || e.StartUntil?)
    ensures WriteProtocol.Inv(WriterOf(Next(frame, h, e)))
  {
  }

  lemma OtherStepKeepsWriter<FS>(frame: MsgFrame<FS>, h: Handler<FS>, e: Event<FS>)
    requires Lifecycle(h) && WriteProtocol.Inv(WriterOf(h)) && Enabled(h, e)
    requires !e.Send? && !e.WriteDone? && !e.StartFramed? && !e.StartUntil?
    ensures WriteProtocol.Inv(WriterOf(Next(frame, h, e)))
  {
  }

  lemma StepKeepsWriter<FS>(frame: MsgFrame<FS>, h: Handler<FS>, e: Event<FS>)
    requires Lifecycle(h) && WriteProtocol.Inv(WriterOf(h)) && Enabled(h, e)
    ensures WriteProtocol.Inv(WriterOf(Next(frame, h, e)))
  {
    match e
    case Send(b) => SendKeepsWriter(frame, h, b);
    case WriteDone => WriteDoneKeepsWriter(frame, h);
    case StartFramed(_, _, _) => StartKeepsWriter(frame, h, e);
    case StartUntil(_, _) => StartKeepsWriter(frame, h, e);
    case _ => OtherStepKeepsWriter(frame, h, e);
  }

  /** In every run of the whole handler at most one write is outstanding, and what was written is a prefix, in order,
      of what was accepted. */
  lemma {:induction false} WritesStayInOrder<FS>(frame: MsgFrame<FS>, es: seq<Event<FS>>)
    requires Valid(frame, es)
    ensures WriteProtocol.Inv(WriterOf(Run(frame, es)))
    ensures Run(frame, es).writesPending <= 1 && Run(frame, es).io.handed <= Run(frame, es).io.accepted
    decreases |es|
  {
    if es != [] {
      WritesStayInOrder(frame, es[..|es| - 1]);
      RunKeepsInv(frame, es[..|es| - 1]);
      StepKeepsWriter(frame, Run(frame, es[..|es| - 1]), es[|es| - 1]);
    }
  }

  /** What a step means to the write side. */
  function WriterEvents<FS>(h: Handler<FS>, e: Event<FS>): seq<WriteProtocol.Event> {
    var closing := if h.io.started then [WriteProtocol.SetStopped, WriteProtocol.Clear] else [];
    var starting := if h.io.started then [] else [WriteProtocol.SetStarted];
    match e
    case StartFramed(_, _, endp) => StartEvents(h.io.started, endp)
    case StartUntil(_, endp) => StartEvents(h.io.started, endp)
    case StopIo => starting + [WriteProtocol.SetStopped, WriteProtocol.Clear]
    case ReadFailed(_) => closing
    case PostedClose => closing
    case Send(b) => [WriteProtocol.Event.Send(b)]
    case WriteDone => [WriteProtocol.Written]
    case WriteFailed(_) => [WriteProtocol.Event.WriteFailed] + if h.io.started then [WriteProtocol.Clear] else []
    case _ => []
  }

  function StartEvents(started: bool, endp: Error): seq<WriteProtocol.Event> {
    if started then []
    else if endp == NoError then [WriteProtocol.SetStarted]
    else [WriteProtocol.SetStarted, WriteProtocol.SetStopped, WriteProtocol.Clear]
  }

  function WriterRun<FS>(frame: MsgFrame<FS>, es: seq<Event<FS>>): seq<WriteProtocol.Event>
    requires Valid(frame, es)
  {
    if es == [] then [] else WriterRun(frame, es[..|es| - 1]) + WriterEvents(Run(frame, es[..|es| - 1]), es[|es| - 1])
  }

  /** The writer stands where the handler's write side does. */
  ghost predicate Writes<FS>(w: WriteProtocol.Writer, h: Handler<FS>) {
    w.io == h.io && w.outstanding == h.writesPending
  }

  lemma WriterSends<FS>(frame: MsgFrame<FS>, h: Handler<FS>, e: Event<FS>, w: WriteProtocol.Writer)
    requires Enabled(h, e) && Writes(w, h) && (e.Send? || e.WriteDone? || e.WriteFailed?)
    ensures Writes(WriteProtocol.WriteOn(w, WriterEvents(h, e)), Next(frame, h, e))
  {
    WriteProtocol.WriteOnThree(w, WriteProtocol.Event.WriteFailed, WriteProtocol.Clear, WriteProtocol.Clear);
  }

  lemma WriterStarts<FS>(frame: MsgFrame<FS>, h: Handler<FS>, e: Event<FS>, w: WriteProtocol.Writer)
    requires Enabled(h, e) && Writes(w, h) && (e.StartFramed? || e.StartUntil?)
    ensures Writes(WriteProtocol.WriteOn(w, WriterEvents(h, e)), Next(frame, h, e))
  {
    WriteProtocol.WriteOnThree(w, WriteProtocol.SetStarted, WriteProtocol.SetStopped, WriteProtocol.Clear);
  }

  lemma WriterCloses<FS>(frame: MsgFrame<FS>, h: Handler<FS>, e: Event<FS>, w: WriteProtocol.Writer)
    requires Enabled(h, e) && Writes(w, h) && (e.StopIo? || e.ReadFailed? || e.PostedClose?)
    ensures Writes(WriteProtocol.WriteOn(w, WriterEvents(h, e)), Next(frame, h, e))
  {
    WriteProtocol.WriteOnThree(w, WriteProtocol.SetStopped, WriteProtocol.Clear, WriteProtocol.Clear);
    WriteProtocol.WriteOnThree(w, WriteProtocol.SetStarted, WriteProtocol.SetStopped, WriteProtocol.Clear);
    if e.StopIo? {
      assert [] + [WriteProtocol.SetStopped, WriteProtocol.Clear] == [WriteProtocol.SetStopped, WriteProtocol.Clear];
      assert [WriteProtocol.SetStarted] + [WriteProtocol.SetStopped, WriteProtocol.Clear] ==
             [WriteProtocol.SetStarted, WriteProtocol.SetStopped, WriteProtocol.Clear];
    }
  }

  lemma WriterStep<FS>(frame: MsgFrame<FS>, h: Handler<FS>, e: Event<FS>, w: WriteProtocol.Writer)
    requires Enabled(h, e) && Writes(w, h)
    ensures Writes(WriteProtocol.WriteOn(w, WriterEvents(h, e)), Next(frame, h, e))
  {
    if e.Send? || e.WriteDone? || e.WriteFailed? {
      WriterSends(frame, h, e, w);
    } else if e.StartFramed? || e.StartUntil? {
      WriterStarts(frame, h, e, w);
    } else if e.StopIo? || e.ReadFailed? || e.PostedClose? {
      WriterCloses(frame, h, e, w);
    }
  }

  /** The handler's write side is the locked write protocol, run on the sends, starts, closes and completions of the run. */
  lemma {:induction false} HandlerIsAWriter<FS>(frame: MsgFrame<FS>, es: seq<Event<FS>>)
    requires Valid(frame, es)
    ensures Writes(WriteProtocol.Run(WriteProtocol.FRESH, WriterRun(frame, es)), Run(frame, es))
    decreases |es|
  {
    if es != [] {
      var init, e := es[..|es| - 1], es[|es| - 1];
      HandlerIsAWriter(frame, init);
      WriteProtocol.WriteOnIsRun(WriterRun(frame, init), WriterEvents(Run(frame, init), e));
      WriterStep(frame, Run(frame, init), e, WriteProtocol.Run(WriteProtocol.FRESH, WriterRun(frame, init)));
    }
  }

  /** The elements sent while IO was started. */
  function SentWhileStarted<FS>(frame: MsgFrame<FS>, es: seq<Event<FS>>): seq<Buf>
    requires Valid(frame, es)
  {
    if es == [] then [] else
    var init, e := es[..|es| - 1], es[|es| - 1];
    SentWhileStarted(frame, init) + if e.Send? && Run(frame, init).io.started then [e.elem] else []
  }

  /** The bytes that reads brought. */
  function Received<FS>(es: seq<Event<FS>>): seq<Buf> {
    if es == [] then [] else
    var e := es[|es| - 1];
    Received(es[..|es| - 1]) + if e.ReadDone? || e.Arrive? then [e.bytes] else []
  }

  /** The reads that successful starts began with. */
  function FirstReads<FS>(frame: MsgFrame<FS>, es: seq<Event<FS>>): seq<PendingRead<FS>>
    requires Valid(frame, es)
  {
    if es == [] then [] else
    var init, e := es[..|es| - 1], es[|es| - 1];
    FirstReads(frame, init) + FirstReadIn(Run(frame, init), e)
  }

  function FirstReadIn<FS>(h: Handler<FS>, e: Event<FS>): seq<PendingRead<FS>> {
    if h.io.started then [] else
    match e
    case StartFramed(n, fs, endp) => if endp == NoError then [ReadExact(0, n, n, fs)] else []
    case StartUntil(delim, endp) => if endp == NoError then [ReadUntil(delim)] else []
    case _ => []
  }

  lemma AcceptedStep<FS>(frame: MsgFrame<FS>, h: Handler<FS>, e: Event<FS>)
    requires Enabled(h, e)
    ensures Next(frame, h, e).io.accepted == h.io.accepted + if e.Send? && h.io.started then [e.elem] else []
  {
    if !e.Send? {
      OthersAcceptNothing(frame, h, e);
    }
  }

  lemma OthersAcceptNothing<FS>(frame: MsgFrame<FS>, h: Handler<FS>, e: Event<FS>)
    requires Enabled(h, e) && !e.Send?
    ensures Next(frame, h, e).io.accepted == h.io.accepted
  {
  }

  lemma ReceivedStep<FS>(frame: MsgFrame<FS>, h: Handler<FS>, e: Event<FS>)
    requires Enabled(h, e)
    ensures Next(frame, h, e).blocks == h.blocks + if e.ReadDone? || e.Arrive? then [e.bytes] else []
  {
  }

  lemma FirstReadStep<FS>(frame: MsgFrame<FS>, h: Handler<FS>, e: Event<FS>)
    requires Enabled(h, e)
    ensures Next(frame, h, e).origin == h.origin + FirstReadIn(h, e)
  {
  }

  /** What the run's histories are, told from the events: the elements accepted, the bytes received, and how reading began. */
  lemma {:induction false} HistoriesFromEvents<FS>(frame: MsgFrame<FS>, es: seq<Event<FS>>)
    requires Valid(frame, es)
    ensures Run(frame, es).io.accepted == SentWhileStarted(frame, es)
    ensures Run(frame, es).blocks == Received(es)
    ensures Run(frame, es).origin == FirstReads(frame, es)
    decreases |es|
  {
    if es != [] {
      HistoriesFromEvents(frame, es[..|es| - 1]);
      AcceptedStep(frame, Run(frame, es[..|es| - 1]), es[|es| - 1]);
      ReceivedStep(frame, Run(frame, es[..|es| - 1]), es[|es| - 1]);
      FirstReadStep(frame, Run(frame, es[..|es| - 1]), es[|es| - 1]);
    }
  }

  /** Every beginning of a run is a run. */
  lemma {:induction false} ValidPrefix<FS>(frame: MsgFrame<FS>, es: seq<Event<FS>>, k: nat)
    requires k <= |es| && Valid(frame, es)
    ensures Valid(frame, es[..k])
    decreases |es|
  {
    if k < |es| {
      ValidPrefix(frame, es[..|es| - 1], k);
      assert es[..|es| - 1][..k] == es[..k];
    } else {
      assert es[..k] == es;
    }
  }

  /** The handler after the first `k` events of a run. */
  ghost function StateAt<FS>(frame: MsgFrame<FS>, es: seq<Event<FS>>, k: nat): Handler<FS>
    requires Valid(frame, es) && k <= |es|
  {
    ValidPrefix(frame, es, k);
    Run(frame, es[..k])
  }

  lemma RefusedStep<FS>(frame: MsgFrame<FS>, h: Handler<FS>, e: Event<FS>)
    requires Lifecycle(h) && h.refused && Enabled(h, e)
    ensures Next(frame, h, e).refused && Next(frame, h, e).delivered == h.delivered
  {
  }

  /** Once the message handler has returned false nothing more is read or delivered. */
  lemma {:induction false} RefusalIsFinal<FS>(frame: MsgFrame<FS>, es: seq<Event<FS>>, k: nat)
    requires k <= |es| && Valid(frame, es) && StateAt(frame, es, k).refused
    ensures Run(frame, es).refused && Run(frame, es).pending == []
    ensures Run(frame, es).delivered == StateAt(frame, es, k).delivered
    decreases |es|
  {
    RunKeepsInv(frame, es);
    if k < |es| {
      var init := es[..|es| - 1];
      assert init[..k] == es[..k];
      RefusalIsFinal(frame, init, k);
      RunKeepsInv(frame, init);
      RefusedStep(frame, Run(frame, init), es[|es| - 1]);
    } else {
      assert es[..k] == es;
    }
  }

  /** Framed reading, for every frame function: the messages delivered are what the bytes received
      amount to; while a read is outstanding it fills exactly the tail of the vector, and messages
      and filled part together are the bytes received. */
  lemma {:induction false} FramedDelivery<FS>(frame: MsgFrame<FS>, es: seq<Event<FS>>)
    requires Valid(frame, es) && Run(frame, es).origin != [] && Run(frame, es).origin[0].ReadExact?
    ensures var h := Run(frame, es);
            var f := FirstFramer(h.origin[0]);
            && Fits(frame, f, h.blocks)
            && h.delivered == Feed(frame, f, h.blocks).msgs
            && (h.pending != [] ==>
                  && h.pending[0].ReadExact?
                  && h.pending[0].start + h.pending[0].len == |h.byteVec|
                  && Concat(h.delivered) + h.byteVec[..h.pending[0].start] == Concat(h.blocks))
  {
    RunKeepsInv(frame, es);
    var h := Run(frame, es);
    var f := FirstFramer(h.origin[0]);
    FeedConserves(frame, f, h.blocks);
    assert f.buf[..0] + Concat(h.blocks) == Concat(h.blocks);
  }

  /** Length-prefixed messages: when the bytes received are the encodings of some bodies, the
      messages delivered are exactly those, and no part of another is held. */
  lemma {:induction false} VariableLenDelivery(frame: MsgFrame<bool>, es: seq<Event<bool>>, bodies: seq<Buf>)
    requires frame == VariableLenFrame(HDR_DECODER) && Valid(frame, es) && AllFit(bodies)
    requires Run(frame, es).origin == [ReadExact(0, 2, 2, false)]
    requires Concat(Run(frame, es).blocks) == Concat(VariableLenMsgs(bodies))
    ensures var h := Run(frame, es);
            && h.delivered == VariableLenMsgs(bodies)
            && (h.pending != [] ==> h.pending[0] == ReadExact(0, 2, 2, false))
  {
    FramedDelivery(frame, es);
    RunKeepsInv(frame, es);
    var h := Run(frame, es);
    VariableLenRoundTrip(bodies, FirstFramer(h.origin[0]), h.blocks);
  }

  /** Delimited reading, for every delimiter and every way the bytes arrive: the messages delivered are
      the first messages of the split of the bytes received, all of them once the reader waits for
      more; delivered messages and vector together are the bytes received. */
  lemma {:induction false} DelimitedDelivery<FS>(frame: MsgFrame<FS>, es: seq<Event<FS>>)
    requires Valid(frame, es) && Run(frame, es).origin != [] && Run(frame, es).origin[0].ReadUntil?
    ensures var h := Run(frame, es);
            var d := h.origin[0].delim;
            && d != []
            && var parts := Delimiter.Split(Concat(h.blocks), d);
            && h.delivered <= parts.msgs
            && (h.pending != [] ==> Concat(h.delivered) + h.byteVec == Concat(h.blocks))
            && (h.pending != [] && !HasDelimiter(h) ==> h.delivered == parts.msgs && h.byteVec == parts.rest)
  {
    RunKeepsInv(frame, es);
    var h := Run(frame, es);
    Delimiter.TakenFromFront(h.delivered, Concat(h.blocks), h.origin[0].delim);
  }

  /** Two connections that received the same bytes, however cut, and now wait for more have delivered
      the same messages. */
  lemma {:induction false} SegmentationDoesNotMatter<FS>(frame: MsgFrame<FS>, a: seq<Event<FS>>, b: seq<Event<FS>>, d: Buf)
    requires Valid(frame, a) && Valid(frame, b)
    requires Run(frame, a).origin == [ReadUntil(d)] == Run(frame, b).origin
    requires Run(frame, a).pending != [] && !HasDelimiter(Run(frame, a))
    requires Run(frame, b).pending != [] && !HasDelimiter(Run(frame, b))
    requires Concat(Run(frame, a).blocks) == Concat(Run(frame, b).blocks)
    ensures Run(frame, a).delivered == Run(frame, b).delivered && Run(frame, a).byteVec == Run(frame, b).byteVec
  {
    DelimitedDelivery(frame, a);
    DelimitedDelivery(frame, b);
  }

  /** Text messages: bodies without the delimiter, sent with a delimiter that has no border,
      are delivered one message each. */
  lemma {:induction false} TextDelivery<FS>(frame: MsgFrame<FS>, es: seq<Event<FS>>, bodies: seq<Buf>, d: Buf)
    requires Valid(frame, es) && Run(frame, es).origin == [ReadUntil(d)]
    requires Run(frame, es).pending != [] && !HasDelimiter(Run(frame, es))
    requires !Delimiter.Bordered(d) && forall b :: b in bodies ==> !Delimiter.Contains(b, d)
    requires Concat(Run(frame, es).blocks) == Concat(Delimiter.Delimited(bodies, d))
    ensures Run(frame, es).delivered == Delimiter.Delimited(bodies, d) && Run(frame, es).byteVec == []
  {
    DelimitedDelivery(frame, es);
    Delimiter.SplitOfDelimited(bodies, d);
  }

  function LifeOf<FS>(h: Handler<FS>): Life {
    Life(h.io.started, h.notices != [])
  }

  /** The step as its connector or acceptor sees it. */
  function ActionOf<FS>(e: Event<FS>): Option<(Action, Error)> {
    match e
    case StartFramed(_, _, endp) => Some((if endp == NoError then StartIo else StartIoFailing, endp))
    case StartUntil(_, endp) => Some((if endp == NoError then StartIo else StartIoFailing, endp))
    case StopIo => Some((HandlerLife.StopIo, NoError))
    case ReadFailed(err) => Some((Closing, err))
    case WriteFailed(err) => Some((Closing, err))
    case PostedClose => Some((Closing, MessageHandlerTerminated))
    case ReadDone(_, _) => None
    case Arrive(_) => None
    case UntilDone(_) => None
    case Send(_) => None
    case WriteDone => None
  }

  /** Seen from its owner, a handler is its life: every step notifies exactly when, and with the code,
      that the life says. */
  lemma HandlerFollowsLife<FS>(frame: MsgFrame<FS>, h: Handler<FS>, e: Event<FS>)
    requires Lifecycle(h) && Enabled(h, e)
    ensures var h' := Next(frame, h, e);
            match ActionOf(e)
            case None => LifeOf(h') == LifeOf(h) && h'.notices == h.notices
            case Some((a, err)) =>
              && LifeOf(h') == After(LifeOf(h), a)
              && h'.notices == h.notices + if Notifies(LifeOf(h), a) then [Notice(a, err)] else []
  {
  }

  /** What its owner sees of a run. */
  function Actions<FS>(es: seq<Event<FS>>): seq<(Action, Error)> {
    if es == [] then [] else Actions(es[..|es| - 1]) + Items(ActionOf(es[|es| - 1]))
  }

  lemma StepFollowsLife<FS>(frame: MsgFrame<FS>, h: Handler<FS>, e: Event<FS>, actions: seq<(Action, Error)>)
    requires Lifecycle(h) && Enabled(h, e)
    requires LifeOf(h) == LifeAfter(actions) && h.notices == NoticesOf(actions)
    ensures var all := actions + Items(ActionOf(e));
            LifeOf(Next(frame, h, e)) == LifeAfter(all) && Next(frame, h, e).notices == NoticesOf(all)
  {
    HandlerFollowsLife(frame, h, e);
    match ActionOf(e)
    case None => assert actions + [] == actions;
    case Some((a, err)) => LifeSnoc(actions, a, err);
  }

  /** Over every run, misordered calls included, the handler's life and all its notifier calls are those that its owner's
      view gives. */
  lemma {:induction false} RunFollowsLife<FS>(frame: MsgFrame<FS>, es: seq<Event<FS>>)
    requires Valid(frame, es)
    ensures LifeOf(Run(frame, es)) == LifeAfter(Actions(es)) && Run(frame, es).notices == NoticesOf(Actions(es))
    decreases |es|
  {
    if es != [] {
      var init := es[..|es| - 1];
      RunFollowsLife(frame, init);
      RunKeepsInv(frame, init);
      StepFollowsLife(frame, Run(frame, init), es[|es| - 1], Actions(init));
    }
  }

  /** Used as documented, a handler notifies at most once in any run. */
  lemma {:induction false} NotifiesOnce<FS>(frame: MsgFrame<FS>, es: seq<Event<FS>>)
    requires Valid(frame, es) && AllDocumented(Actions(es))
    ensures |Run(frame, es).notices| <= 1
  {
    RunFollowsLife(frame, es);
    AtMostOneNotice(Actions(es));
  }
}
