/** What holds of a TCP acceptor over every run besides its container: that it keeps accepting, when it shuts down, and which
    codes and counts its application hears. */
module AcceptorReports {
  import opened NetIpError
  import opened HandlerLife
  import opened Containers
  import opened Bytes
  import opened AcceptorProtocol
  import opened AcceptorRuns
  import NetEntityCommon

  /** Every accept so far has succeeded. */
  predicate AcceptsSucceed(es: seq<Event>) {
    forall e :: e in es && e.AcceptDone? ==> e.err == NoError
  }

  lemma AcceptingStep(s: Acceptor, e: Event, succeed: bool)
    requires Inv(s) && OneClose(s) && Enabled(s, e)
    requires s.entity != NetEntityCommon.UNSTARTED && !s.shuttingDown ==> (s.accepts == 1 <==> succeed)
    requires s.entity == NetEntityCommon.UNSTARTED ==> succeed
    ensures var s', now := Next(s, e), succeed && (e.AcceptDone? ==> e.err == NoError);
            && (s'.entity != NetEntityCommon.UNSTARTED && !s'.shuttingDown ==> (s'.accepts == 1 <==> now))
            && (s'.entity == NetEntityCommon.UNSTARTED ==> now)
  {
  }

  /** It keeps accepting: over every run, from the start to the shutdown, an accept is outstanding if and only if no accept has
      failed. */
  lemma {:induction false} KeepsAccepting(es: seq<Event>)
    requires Valid(es)
    ensures Run(es).entity != NetEntityCommon.UNSTARTED && !Run(es).shuttingDown ==> (Run(es).accepts == 1 <==> AcceptsSucceed(es))
    ensures Run(es).entity == NetEntityCommon.UNSTARTED ==> AcceptsSucceed(es)
    decreases |es|
  {
    if es != [] {
      var init, e := es[..|es| - 1], es[|es| - 1];
      KeepsAccepting(init);
      RunKeepsInv(init);
      RunClosing(init);
      AcceptingStep(Run(init), e, AcceptsSucceed(init));
      SucceedSnoc(init, e);
      assert init + [e] == es;
    }
  }

  lemma SucceedSnoc(es: seq<Event>, e: Event)
    ensures AcceptsSucceed(es + [e]) <==> AcceptsSucceed(es) && (e.AcceptDone? ==> e.err == NoError)
  {
    assert e in es + [e] && forall x :: x in es ==> x in es + [e];
  }

  /** The connections accepted before the shutdown. */
  function Accepted(es: seq<Event>): nat
    requires Valid(es)
  {
    if es == [] then 0 else
    var init, e := es[..|es| - 1], es[|es| - 1];
    Accepted(init) + if e.AcceptDone? && e.err == NoError && !Run(init).shuttingDown then 1 else 0
  }

  /** Each of them is given an IO handler. */
  lemma {:induction false} EachAcceptedIsHandled(es: seq<Event>)
    requires Valid(es)
    ensures |Run(es).lives| == Accepted(es)
    decreases |es|
  {
    if es != [] {
      EachAcceptedIsHandled(es[..|es| - 1]);
    }
  }

  /** The step finds an error while opening, or runs the close of a stop. */
  predicate ShutsDown(s: Acceptor, e: Event) {
    match e
    case Start(err, _) => s.entity == NetEntityCommon.UNSTARTED && err != NoError
    case StopRun(_) => true
    case _ => false
  }

  predicate HasShutDown(es: seq<Event>)
    requires Valid(es)
    decreases |es|
  {
    es != [] && (HasShutDown(es[..|es| - 1]) || ShutsDown(Run(es[..|es| - 1]), es[|es| - 1]))
  }

  /** The acceptor shuts down if and only if opening failed or a stop's close has run. */
  lemma {:induction false} ShutsDownExactly(es: seq<Event>)
    requires Valid(es)
    ensures Run(es).shuttingDown <==> HasShutDown(es)
    decreases |es|
  {
    if es != [] {
      ShutsDownExactly(es[..|es| - 1]);
      RunKeepsInv(es[..|es| - 1]);
    }
  }

  // Codes.

  /** The codes that a step is to report about no IO handler. */
  function CodesIn(s: Acceptor, e: Event): seq<Error> {
    match e
    case Start(err, ec) =>
      if s.entity == NetEntityCommon.UNSTARTED && err != NoError then [err] + RealError(ec) + [TcpAcceptorClosed] else []
    case StopRun(ec) => [TcpAcceptorStopped] + RealError(ec) + [TcpAcceptorClosed]
    case _ => []
  }

  function RealError(err: Error): seq<Error> {
    if err == NoError then [] else [err]
  }

  function CodesOf(es: seq<Event>): seq<Error>
    requires Valid(es)
  {
    if es == [] then [] else CodesOf(es[..|es| - 1]) + CodesIn(Run(es[..|es| - 1]), es[|es| - 1])
  }

  lemma {:induction false} StopReportsCodes(hs: seq<nat>, io: IoRef)
    requires Increasing(hs)
    ensures Codes(StopReports(hs), io) == if io.Io? && io.h in hs then [TcpIoHandlerStopped] else []
  {
    if hs != [] {
      var first := [ErrorCb(Io(hs[0]), TcpIoHandlerStopped), StateCb(hs[0], |hs| - 1, false)];
      StopReportsCodes(hs[1..], io);
      CodesAppend(first, StopReports(hs[1..]), io);
      CodesOfClosed([], hs[0], TcpIoHandlerStopped, |hs| - 1, io);
      assert [] + first == first;
    }
  }

  lemma CloseCodes(s: Acceptor, err: Error, ec: Error, io: IoRef)
    requires !s.shuttingDown && s.handlers == LiveIds(s.lives)
    ensures Codes(Close(s, err, ec).log, io) == Codes(s.log, io) +
            match io
            case NoIo => [err] + RealError(ec) + [TcpAcceptorClosed]
            case Io(h) => if h in s.handlers then [TcpIoHandlerStopped] else []
  {
    var log1 := s.log + [ErrorCb(NoIo, err)];
    var log2 := log1 + StopReports(s.handlers);
    LiveIdsIncrease(s.lives);
    OneCode(s.log, err, io);
    CodesAppend(log1, StopReports(s.handlers), io);
    StopReportsCodes(s.handlers, io);
    IfErrorCodes(log2, ec, io);
    OneCode(log2 + IfError(ec), TcpAcceptorClosed, io);
    if io == NoIo {
      Assoc(Codes(s.log, io), [err], RealError(ec));
      Assoc(Codes(s.log, io), [err] + RealError(ec), [TcpAcceptorClosed]);
    }
  }

  lemma OneCode(log: seq<Callback>, err: Error, io: IoRef)
    ensures Codes(log + [ErrorCb(NoIo, err)], io) == if io == NoIo then Codes(log, io) + [err] else Codes(log, io)
  {
    assert (log + [ErrorCb(NoIo, err)])[..|log|] == log;
  }

  lemma IfErrorCodes(log: seq<Callback>, err: Error, io: IoRef)
    ensures Codes(log + IfError(err), io) == if io == NoIo then Codes(log, io) + RealError(err) else Codes(log, io)
  {
    if err == NoError {
      assert log + [] == log && Codes(log, io) + [] == Codes(log, io);
    } else {
      OneCode(log, err, io);
    }
  }

  lemma OtherCodes(s: Acceptor, e: Event, io: IoRef)
    requires Enabled(s, e) && !e.StopRun? && !ShutsDown(s, e)
    ensures Codes(Next(s, e).log, io) == Codes(s.log, io) +
            match e
            case HandlerEvent(h, a, err) => if io == Io(h) && Notifies(s.lives[h], a) then [Notice(a, err)] else []
            case _ => []
  {
    assert Codes(s.log, io) + [] == Codes(s.log, io);
    match e
    case HandlerEvent(h, a, err) => CodesOfClosed(s.log, h, Notice(a, err), |Without<nat>(s.handlers, h)|, io);
    case Announce => CodesOfOthers(s.log, [StateCb(s.announcements[0], |s.handlers|, true)], io);
    case _ =>
  }

  lemma StepCodes(s: Acceptor, e: Event)
    requires Inv(s) && OneClose(s) && Enabled(s, e)
    ensures Codes(Next(s, e).log, NoIo) == Codes(s.log, NoIo) + CodesIn(s, e)
  {
    if e.StopRun? {
      CloseCodes(s.(closesPosted := s.closesPosted - 1), TcpAcceptorStopped, e.ec, NoIo);
    } else if ShutsDown(s, e) {
      CloseCodes(s.(entity := NetEntityCommon.STARTED), e.err, e.ec, NoIo);
    } else {
      OtherCodes(s, e, NoIo);
    }
  }

  /** Over every run the codes reported about no IO handler are, in order, those of the failed opening or of the stop. */
  lemma {:induction false} CodesReported(es: seq<Event>)
    requires Valid(es)
    ensures Codes(Run(es).log, NoIo) == CodesOf(es)
    decreases |es|
  {
    if es != [] {
      CodesReported(es[..|es| - 1]);
      RunKeepsInv(es[..|es| - 1]);
      RunClosing(es[..|es| - 1]);
      StepCodes(Run(es[..|es| - 1]), es[|es| - 1]);
    }
  }

  // Each IO handler's life and codes.

  /** What a step does with one IO handler: the calls on it, and the acceptor's own stop_io when its close runs. */
  function ActionsIn(s: Acceptor, e: Event, h: nat): seq<(Action, Error)> {
    match e
    case HandlerEvent(g, a, err) => if g == h then [(a, err)] else []
    case StopRun(_) => if h < |s.lives| && !s.lives[h].notified then [(StopIo, NoError)] else []
    case _ => []
  }

  function ActionsOn(es: seq<Event>, h: nat): seq<(Action, Error)>
    requires Valid(es)
  {
    if es == [] then [] else ActionsOn(es[..|es| - 1], h) + ActionsIn(Run(es[..|es| - 1]), es[|es| - 1], h)
  }

  ghost predicate Lives(s: Acceptor, h: nat, actions: seq<(Action, Error)>) {
    && Codes(s.log, Io(h)) == NoticesOf(actions)
    && if h < |s.lives| then s.lives[h] == LifeAfter(actions) else actions == []
  }

  lemma StopRunLives(s: Acceptor, ec: Error, h: nat, actions: seq<(Action, Error)>)
    requires Inv(s) && OneClose(s) && Enabled(s, StopRun(ec)) && Lives(s, h, actions)
    ensures Lives(Next(s, StopRun(ec)), h, actions + ActionsIn(s, StopRun(ec), h))
  {
    CloseCodes(s.(closesPosted := s.closesPosted - 1), TcpAcceptorStopped, ec, Io(h));
    LiveIdsMembers(s.lives);
    LifeSnoc(actions, StopIo, NoError);
    assert actions + [] == actions && NoticesOf(actions) + [] == NoticesOf(actions);
  }

  lemma OpeningLives(s: Acceptor, e: Event, h: nat, actions: seq<(Action, Error)>)
    requires Inv(s) && OneClose(s) && Enabled(s, e) && e.Start? && ShutsDown(s, e) && Lives(s, h, actions)
    ensures Lives(Next(s, e), h, actions)
  {
    CloseCodes(s.(entity := NetEntityCommon.STARTED), e.err, e.ec, Io(h));
  }

  lemma OtherLives(s: Acceptor, e: Event, h: nat, actions: seq<(Action, Error)>)
    requires Enabled(s, e) && !e.StopRun? && !ShutsDown(s, e) && Lives(s, h, actions)
    ensures Lives(Next(s, e), h, actions + ActionsIn(s, e, h))
  {
    assert actions + [] == actions && NoticesOf(actions) + [] == NoticesOf(actions);
    OtherCodes(s, e, Io(h));
    if e.HandlerEvent? {
      LifeSnoc(actions, e.action, e.err);
    }
  }

  lemma StepLives(s: Acceptor, e: Event, h: nat, actions: seq<(Action, Error)>)
    requires Inv(s) && OneClose(s) && Enabled(s, e) && Lives(s, h, actions)
    ensures Lives(Next(s, e), h, actions + ActionsIn(s, e, h))
  {
    if e.StopRun? {
      StopRunLives(s, e.ec, h, actions);
    } else if ShutsDown(s, e) {
      OpeningLives(s, e, h, actions);
      assert actions + [] == actions;
    } else {
      OtherLives(s, e, h, actions);
    }
  }

  lemma {:induction false} RunLives(es: seq<Event>, h: nat)
    requires Valid(es)
    ensures Lives(Run(es), h, ActionsOn(es, h))
    decreases |es|
  {
    if es != [] {
      RunLives(es[..|es| - 1], h);
      RunKeepsInv(es[..|es| - 1]);
      RunClosing(es[..|es| - 1]);
      StepLives(Run(es[..|es| - 1]), es[|es| - 1], h, ActionsOn(es[..|es| - 1], h));
    }
  }

  /** Over every run, each IO handler's life and the codes reported for it are what its own actions give. */
  lemma {:induction false} HandlersAsTheirActions(es: seq<Event>, h: nat)
    requires Valid(es)
    ensures Codes(Run(es).log, Io(h)) == NoticesOf(ActionsOn(es, h))
    ensures h < |Run(es).lives| ==> Run(es).lives[h] == LifeAfter(ActionsOn(es, h))
  {
    RunLives(es, h);
  }

  // Counts.

  /** Callbacks from a moment with so many live IO handlers: each count is the number then live, after the closed report that it
      comes with, which directly follows that handler's error code. */
  predicate RightCounts(live: nat, more: seq<Callback>) {
    more == [] ||
    match more[0]
    case StateCb(_, count, starting) => starting && count == live && RightCounts(live, more[1..])
    case ErrorCb(NoIo, _) => RightCounts(live, more[1..])
    case ErrorCb(Io(h), _) => |more| > 1 && live > 0 && more[1] == StateCb(h, live - 1, false) && RightCounts(live - 1, more[2..])
  }

  lemma {:induction false} StopReportsCounts(hs: seq<nat>, more: seq<Callback>)
    requires RightCounts(0, more)
    ensures RightCounts(|hs|, StopReports(hs) + more)
  {
    if hs == [] {
      assert [] + more == more;
    } else {
      StopReportsCounts(hs[1..], more);
      var rest := StopReports(hs[1..]) + more;
      var error, state := ErrorCb(Io(hs[0]), TcpIoHandlerStopped), StateCb(hs[0], |hs| - 1, false);
      assert StopReports(hs) + more == [error, state] + rest;
      assert ([error, state] + rest)[2..] == rest;
    }
  }

  lemma {:induction false} WithoutOne(s: seq<nat>, h: nat)
    requires Increasing(s) && h in s
    ensures |Without<nat>(s, h)| == |s| - 1
  {
    if s[0] == h {
      WithoutFirst(s);
    } else {
      WithoutOne(s[1..], h);
    }
  }

  /** What the first close adds to the callbacks. */
  lemma CloseCounts(s: Acceptor, err: Error, ec: Error)
    requires !s.shuttingDown
    ensures s.log <= Close(s, err, ec).log && RightCounts(|s.handlers|, Close(s, err, ec).log[|s.log|..])
  {
    var last := IfError(ec) + [CLOSED_CB];
    assert ec != NoError ==> last[1..] == [CLOSED_CB];
    StopReportsCounts(s.handlers, last);
    var more := [ErrorCb(NoIo, err)] + (StopReports(s.handlers) + last);
    assert more[1..] == StopReports(s.handlers) + last;
    assert Close(s, err, ec).log == s.log + more;
  }

  lemma StepCounts(s: Acceptor, e: Event)
    requires Inv(s) && OneClose(s) && Enabled(s, e)
    ensures s.log <= Next(s, e).log && RightCounts(|s.handlers|, Next(s, e).log[|s.log|..])
  {
    LiveIdsIncrease(s.lives);
    LiveIdsMembers(s.lives);
    match e
    case Start(err, ec) => if ShutsDown(s, e) { CloseCounts(s.(entity := NetEntityCommon.STARTED), err, ec); }
    case StopRun(ec) => CloseCounts(s.(closesPosted := s.closesPosted - 1), TcpAcceptorStopped, ec);
    case HandlerEvent(h, a, err) =>
      if Notifies(s.lives[h], a) {
        WithoutOne(s.handlers, h);
      }
    case _ =>
  }

  /** Over every run, whatever comes next: the counts in the state change callbacks are the numbers of IO handlers live at those
      moments, and each closed report comes with its handler's code. */
  lemma {:induction false} CountsAreLive(es: seq<Event>, e: Event)
    requires Valid(es) && Enabled(Run(es), e)
    ensures var s, s' := Run(es), Next(Run(es), e);
            s.log <= s'.log && RightCounts(|LiveIds(s.lives)|, s'.log[|s.log|..])
  {
    RunKeepsInv(es);
    RunClosing(es);
    StepCounts(Run(es), e);
  }
}
