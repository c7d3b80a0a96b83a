/** What holds after every run of a TCP connector. */
module ConnectorRuns {
  import opened Bytes
  import opened NetIpError
  import opened HandlerLife
  import opened ConnectorProtocol
  import NetEntityCommon

  /** The state change callbacks among all callbacks. */
  function StateCbs(log: seq<Callback>): seq<Callback> {
    if log == [] then [] else
    var n := |log| - 1;
    if log[n].StateCb? then StateCbs(log[..n]) + [log[n]] else StateCbs(log[..n])
  }

  /** For each IO handler in turn (1, true) then (0, false), the last one still open if `open`. */
  function Alternating(handlers: nat, open: bool): seq<Callback> {
    if handlers == 0 then []
    else if open then Alternating(handlers - 1, false) + [StateCb(handlers - 1, 1, true)]
    else Alternating(handlers - 1, false) + [StateCb(handlers - 1, 1, true), StateCb(handlers - 1, 0, false)]
  }

  ghost predicate Shape(s: Conn) {
    && s.state != ConnState.Closing
    && (s.state == Connected <==> s.handler.Some?)
    && (s.handler.Some? ==> s.handler.value == |s.lives| - 1)
    && (forall i :: 0 <= i < |s.lives| ==> if s.handler == Some(i) then !s.lives[i].notified else s.lives[i] == CLOSED)
    && s.resolves + s.connects + s.timers <= 1
    && (s.state == Resolving ==> s.resolves == 1)
    && (s.state == Connecting ==> s.connects == 1)
    && (s.state == Timeout ==> s.timers == 1)
    && (s.state == Connected ==> s.resolves + s.connects + s.timers == 0)
    && (s.entity == NetEntityCommon.UNSTARTED ==> s == Initial(s.endpoints))
    && (s.closesPosted > 0 ==> s.entity == NetEntityCommon.STOPPED)
  }

  const RESOLVING_CB := ErrorCb(NoIo, TcpConnectorResolvingAddresses)

  ghost predicate Reports(s: Conn) {
    && StateCbs(s.log) == Alternating(|s.lives|, s.handler.Some?)
    && (s.state != Stopped ==> CLOSED_CB !in s.log)
    && (CLOSED_CB in s.log ==> s.log[|s.log| - 1] == CLOSED_CB && CLOSED_CB !in s.log[..|s.log| - 1])
    && (s.state == Stopped && s.entity != NetEntityCommon.UNSTARTED && CLOSED_CB !in s.log ==> s.log == [RESOLVING_CB])
    && (s.state == Resolving ==> s.log == [RESOLVING_CB])
  }

  function Skew(s: Conn): nat {
    if s.since.skewed then 1 else 0
  }

  ghost predicate Counts(cfg: Config, s: Conn) {
    && (forall i :: 0 <= i < |s.since.asked| ==> s.since.asked[i] == i + 1 - Skew(s))
    && |s.since.waits| <= |s.since.asked|
    && (forall i :: 0 <= i < |s.since.waits| ==> cfg.timeout(s.since.asked[i]) == Some(s.since.waits[i]))
    && (s.state == Connecting ==> s.since.begun == |s.since.asked| + 1 == s.attempts + Skew(s) && |s.since.waits| == |s.since.asked|)
    && (s.state == Timeout ==> s.since.begun == |s.since.asked| == s.attempts + Skew(s) && |s.since.waits| == |s.since.asked|)
    && (s.state == Connected ==> s.attempts == 0 && s.since.begun == 0 && s.since.asked == [] && s.since.waits == [] && !s.since.skewed)
    && (s.state == Resolving ==> s.attempts == 0 && s.since.begun == 0 && s.since.asked == [] && s.since.waits == [] && !s.since.skewed)
  }

  ghost predicate Inv(cfg: Config, s: Conn) {
    Shape(s) && Reports(s) && Counts(cfg, s)
  }

  lemma {:induction false} StateCbsAppend(a: seq<Callback>, b: seq<Callback>)
    ensures StateCbs(a + b) == StateCbs(a) + StateCbs(b)
    decreases |b|
  {
    if b == [] {
      assert a + b == a;
    } else {
      var n := |b| - 1;
      StateCbsAppend(a, b[..n]);
      assert (a + b)[..|a + b| - 1] == a + b[..n] && (a + b)[|a + b| - 1] == b[n];
    }
  }

  lemma {:induction false} ErrorsOnly(b: seq<Callback>)
    requires forall cb :: cb in b ==> cb.ErrorCb?
    ensures StateCbs(b) == []
    decreases |b|
  {
    if b != [] {
      assert b[|b| - 1] in b;
      ErrorsOnly(b[..|b| - 1]);
    }
  }

  /** Error callbacks leave the state change callbacks as they are. */
  lemma AppendErrors(a: seq<Callback>, b: seq<Callback>)
    requires forall cb :: cb in b ==> cb.ErrorCb?
    ensures StateCbs(a + b) == StateCbs(a)
  {
    StateCbsAppend(a, b);
    ErrorsOnly(b);
  }

  lemma AppendState(a: seq<Callback>, cb: Callback)
    requires cb.StateCb?
    ensures StateCbs(a + [cb]) == StateCbs(a) + [cb]
  {
    assert (a + [cb])[..|a|] == a;
  }

  /** Between IO handlers, with nothing reported closed yet. */
  ghost predicate Quiet(s: Conn) {
    StateCbs(s.log) == Alternating(|s.lives|, false) && CLOSED_CB !in s.log
  }

  lemma ConnectReports(s: Conn)
    requires Quiet(s) && s.handler == None
    ensures Reports(Connect(s))
  {
    AppendErrors(s.log, [ErrorCb(NoIo, TcpConnectorConnecting)]);
  }

  lemma FinishReports(s: Conn, reasons: seq<Callback>)
    requires Quiet(s)
    requires forall cb :: cb in reasons ==> cb.ErrorCb? && cb != CLOSED_CB
    ensures Reports(Finish(s, reasons))
  {
    var log := s.log + reasons;
    AppendErrors(s.log, reasons + [CLOSED_CB]);
    assert s.log + (reasons + [CLOSED_CB]) == log + [CLOSED_CB];
    assert (log + [CLOSED_CB])[..|log|] == log;
  }

  /** Closing the last IO handler completes its pair of state change callbacks. */
  lemma HandlerClosedReports(log: seq<Callback>, h: nat, err: Error)
    requires StateCbs(log) == Alternating(h + 1, true)
    ensures StateCbs(log + HandlerClosed(h, err)) == Alternating(h + 1, false)
  {
    AppendErrors(log, [ErrorCb(Io(h), err)]);
    AppendState(log + [ErrorCb(Io(h), err)], StateCb(h, 0, false));
    assert log + HandlerClosed(h, err) == log + [ErrorCb(Io(h), err)] + [StateCb(h, 0, false)];
  }

  lemma {:induction false} CloseReports(s: Conn, err: Error)
    requires s.state != Stopped && s.state != ConnState.Closing && err != TcpConnectorClosed
    requires (s.state == Connected <==> s.handler.Some?) && (s.handler.Some? ==> s.handler.value == |s.lives| - 1)
    requires StateCbs(s.log) == Alternating(|s.lives|, s.handler.Some?) && CLOSED_CB !in s.log
    ensures Reports(Close(s, err))
  {
    if s.state == Connected {
      var h := s.handler.value;
      var log1 := s.log + [ErrorCb(NoIo, err)];
      var log2 := log1 + HandlerClosed(h, TcpIoHandlerStopped);
      AppendErrors(s.log, [ErrorCb(NoIo, err)]);
      HandlerClosedReports(log1, h, TcpIoHandlerStopped);
      var last := [ErrorCb(NoIo, TcpConnectorNoReconnectAttempted)];
      FinishReports(s.(lives := s.lives[h := CLOSED], log := log2), last);
      assert s.log + ([ErrorCb(NoIo, err)] + HandlerClosed(h, TcpIoHandlerStopped) + last) == log2 + last;
    } else {
      FinishReports(s, IfError(err));
    }
  }

  lemma OnHandlerReports(cfg: Config, s: Conn, h: nat, a: Action, err: Error)
    requires Shape(s) && Reports(s) && h < |s.lives| && Documented(s.lives[h], a)
    ensures Reports(OnHandler(cfg, s, h, a, err))
  {
    if Notifies(s.lives[h], a) {
      var code := Notice(a, err);
      var s1 := s.(lives := s.lives[h := CLOSED], handler := None, log := s.log + HandlerClosed(h, code));
      HandlerClosedReports(s.log, h, code);
      if s.state == Connected && cfg.reconnOnErr {
        ConnectReports(s1);
      } else {
        var last := [ErrorCb(NoIo, TcpConnectorNoReconnectAttempted)];
        FinishReports(s1, last);
        assert s.log + (HandlerClosed(h, code) + last) == s1.log + last;
      }
    }
  }

  lemma JustConnectedReports(s: Conn)
    requires Quiet(s)
    ensures Reports(JustConnected(s))
  {
    var log1 := s.log + [ErrorCb(NoIo, TcpConnectorConnected)];
    var cb := StateCb(|s.lives|, 1, true);
    AppendErrors(s.log, [ErrorCb(NoIo, TcpConnectorConnected)]);
    AppendState(log1, cb);
    assert JustConnected(s).log == log1 + [cb];
  }

  lemma JustConnectedShape(cfg: Config, s: Conn)
    requires Shape(s) && Counts(cfg, s) && s.state == Connecting
    ensures Shape(JustConnected(s.(connects := s.connects - 1)))
  {
  }

  lemma OnHandlerShape(cfg: Config, s: Conn, h: nat, a: Action, err: Error)
    requires Shape(s) && h < |s.lives| && Documented(s.lives[h], a)
    ensures Shape(OnHandler(cfg, s, h, a, err))
  {
  }

  lemma CloseShape(s: Conn, err: Error)
    requires Shape(s)
    ensures Shape(Close(s, err))
  {
  }

  lemma OnHandlerCounts(cfg: Config, s: Conn, h: nat, a: Action, err: Error)
    requires Shape(s) && Counts(cfg, s) && h < |s.lives| && Documented(s.lives[h], a)
    ensures Counts(cfg, OnHandler(cfg, s, h, a, err))
  {
  }

  /** Where a new connection has got to after some actions in its callback: connected until one of them closes the IO handler, then
      reconnecting or stopped. */
  ghost predicate InCallback(cfg: Config, s: Conn, h: nat, life: Life) {
    && h < |s.lives| && s.lives[h] == life
    && if !life.notified then s.state == Connected && s.handler == Some(h) && s.since == NO_RETRIES
       else if cfg.reconnOnErr then s.state == Connecting && s.since == NO_RETRIES.(begun := 1)
       else s.state == Stopped && s.since == NO_RETRIES && CLOSED_CB in s.log
  }

  lemma {:induction false} CallbackOutcome(cfg: Config, s: Conn, callback: seq<(Action, Error)>)
    requires AllDocumented(callback)
    ensures InCallback(cfg, AfterCallback(cfg, s, callback), |s.lives|, LifeAfter(callback))
    ensures callback != [] ==>
              Documented(AfterCallback(cfg, s, callback[..|callback| - 1]).lives[|s.lives|], callback[|callback| - 1].0)
    ensures LifeAfter(callback).notified ==> LifeAfter(callback) == CLOSED
    ensures AfterCallback(cfg, s, callback).entity == s.entity
    decreases |callback|
  {
    AtMostOneNotice(callback);
    if callback != [] {
      var init := callback[..|callback| - 1];
      AtMostOneNotice(init);
      CallbackOutcome(cfg, s, init);
    }
  }

  lemma {:induction false} AfterCallbackShape(cfg: Config, s: Conn, callback: seq<(Action, Error)>)
    requires AllDocumented(callback) && Shape(JustConnected(s)) && Quiet(s)
    ensures Shape(AfterCallback(cfg, s, callback)) && Reports(AfterCallback(cfg, s, callback))
    decreases |callback|
  {
    if callback == [] {
      JustConnectedReports(s);
    } else {
      var init := callback[..|callback| - 1];
      var (a, err) := callback[|callback| - 1];
      AfterCallbackShape(cfg, s, init);
      CallbackOutcome(cfg, s, callback);
      OnHandlerShape(cfg, AfterCallback(cfg, s, init), |s.lives|, a, err);
      OnHandlerReports(cfg, AfterCallback(cfg, s, init), |s.lives|, a, err);
    }
  }

  lemma AfterCallbackCounts(cfg: Config, s: Conn, callback: seq<(Action, Error)>)
    requires AllDocumented(callback)
    ensures Counts(cfg, OnConnected(cfg, s, callback))
  {
    CallbackOutcome(cfg, s, callback);
  }

  lemma ResetKeepsShape(s: Conn, skewed: bool)
    requires Shape(s) && Reports(s) && s.entity != NetEntityCommon.UNSTARTED
    ensures Shape(s.(attempts := 0, since := s.since.(skewed := skewed)))
    ensures Reports(s.(attempts := 0, since := s.since.(skewed := skewed)))
  {
  }

  lemma OnConnectedKeepsInv(cfg: Config, s: Conn, callback: seq<(Action, Error)>)
    requires Inv(cfg, s) && s.state == Connecting && AllDocumented(callback)
    ensures Inv(cfg, OnConnected(cfg, s.(connects := s.connects - 1), callback))
  {
    var s0 := s.(connects := s.connects - 1);
    JustConnectedShape(cfg, s);
    AfterCallbackShape(cfg, s0, callback);
    CallbackOutcome(cfg, s0, callback);
    var s1 := AfterCallback(cfg, s0, callback);
    ResetKeepsShape(s1, s1.state == Connecting);
    AfterCallbackCounts(cfg, s0, callback);
  }

  /** A successful connect, whatever its callback does. */
  lemma SuccessOutcome(cfg: Config, s: Conn, e: Event)
    requires Enabled(s, e) && s.state == Connecting && e.ConnectDone? && e.err == NoError
    ensures var s', lost := Next(cfg, s, e), LifeAfter(e.callback).notified;
            && s'.entity == s.entity && s'.attempts == 0
            && s'.state == (if !lost then Connected else if cfg.reconnOnErr then Connecting else Stopped)
            && s'.since == NO_RETRIES.(begun := if lost && cfg.reconnOnErr then 1 else 0, skewed := lost && cfg.reconnOnErr)
            && (lost && !cfg.reconnOnErr ==> CLOSED_CB in s'.log)
  {
    CallbackOutcome(cfg, s.(connects := s.connects - 1), e.callback);
  }

  lemma OnConnectFailedReports(cfg: Config, s: Conn, err: Error, throws: Option<Error>)
    requires Quiet(s) && s.state == Connecting && s.handler == None
    requires err.SystemError? && (throws.Some? ==> throws.value.SystemError?)
    ensures Reports(OnConnectFailed(cfg, s, err, throws))
  {
    var s1 := s.(since := s.since.(asked := s.since.asked + [s.attempts]), log := s.log + [ErrorCb(NoIo, err)]);
    AppendErrors(s.log, [ErrorCb(NoIo, err)]);
    match (cfg.timeout(s.attempts), throws)
    case (None, _) => UnconnectedCloseReports(s1, TcpConnectorNoReconnectAttempted);
    case (_, Some(thrown)) => UnconnectedCloseReports(s1, thrown);
    case (Some(t), None) => AppendErrors(s1.log, [ErrorCb(NoIo, TcpConnectorTimeout)]);
  }

  lemma UnconnectedCloseReports(s: Conn, err: Error)
    requires Quiet(s) && s.state == Connecting && err != TcpConnectorClosed
    ensures Reports(Close(s, err))
  {
    FinishReports(s.(entity := NetEntityCommon.STOPPED), IfError(err));
  }

  lemma OnConnectFailedKeepsInv(cfg: Config, s: Conn, err: Error, throws: Option<Error>)
    requires Inv(cfg, s) && s.state == Connecting && err.SystemError? && (throws.Some? ==> throws.value.SystemError?)
    ensures Inv(cfg, OnConnectFailed(cfg, s.(connects := s.connects - 1), err, throws))
  {
    var s0 := s.(connects := s.connects - 1);
    OnConnectFailedReports(cfg, s0, err, throws);
    OnConnectFailedCounts(cfg, s0, err, throws);
    OnConnectFailedShape(cfg, s0, err, throws);
  }

  lemma OnConnectFailedShape(cfg: Config, s: Conn, err: Error, throws: Option<Error>)
    requires s.state == Connecting && s.handler == None && s.resolves + s.connects + s.timers == 0
    requires forall i :: 0 <= i < |s.lives| ==> s.lives[i] == CLOSED
    requires s.entity != NetEntityCommon.UNSTARTED && (s.closesPosted > 0 ==> s.entity == NetEntityCommon.STOPPED)
    ensures Shape(OnConnectFailed(cfg, s, err, throws))
  {
  }

  lemma OnConnectFailedCounts(cfg: Config, s: Conn, err: Error, throws: Option<Error>)
    requires Counts(cfg, s) && s.state == Connecting
    ensures Counts(cfg, OnConnectFailed(cfg, s, err, throws))
  {
  }

  lemma StartKeepsInv(cfg: Config, s: Conn)
    requires Inv(cfg, s) && s.entity == NetEntityCommon.UNSTARTED
    ensures Inv(cfg, Next(cfg, s, Start))
  {
    if s.endpoints > 0 {
      ConnectReports(s.(entity := NetEntityCommon.STARTED));
    } else {
      AppendErrors(s.log, [RESOLVING_CB]);
    }
  }

  lemma ResolveDoneKeepsInv(cfg: Config, s: Conn, err: Error, found: nat)
    requires Inv(cfg, s) && Enabled(s, ResolveDone(err, found))
    ensures Inv(cfg, Next(cfg, s, ResolveDone(err, found)))
  {
    if err == NoError && s.state == Resolving {
      ConnectReports(s.(resolves := s.resolves - 1, endpoints := s.endpoints + found));
    }
  }

  lemma TimerDoneKeepsInv(cfg: Config, s: Conn, err: Error)
    requires Inv(cfg, s) && Enabled(s, TimerDone(err))
    ensures Inv(cfg, Next(cfg, s, TimerDone(err)))
  {
    if err != NoError || s.state != Timeout {
      CloseKeepsInv(cfg, s, s.(timers := s.timers - 1), err);
    } else {
      ConnectReports(s.(timers := s.timers - 1));
    }
  }

  lemma HandlerEventKeepsInv(cfg: Config, s: Conn, h: nat, a: Action, err: Error)
    requires Inv(cfg, s) && Enabled(s, HandlerEvent(h, a, err))
    ensures Inv(cfg, OnHandler(cfg, s, h, a, err))
  {
    OnHandlerReports(cfg, s, h, a, err);
    OnHandlerShape(cfg, s, h, a, err);
    OnHandlerCounts(cfg, s, h, a, err);
  }

  /** A completion that finds the connector elsewhere only ends its operation. */
  lemma LateConnectKeepsInv(cfg: Config, s: Conn)
    requires Inv(cfg, s) && s.connects > 0 && s.state != Connecting
    ensures Inv(cfg, s.(connects := s.connects - 1))
  {
  }

  lemma ConnectDoneKeepsInv(cfg: Config, s: Conn, err: Error, throws: Option<Error>, callback: seq<(Action, Error)>)
    requires Inv(cfg, s) && Enabled(s, ConnectDone(err, throws, callback))
    ensures Inv(cfg, Next(cfg, s, ConnectDone(err, throws, callback)))
  {
    if s.state != Connecting {
      LateConnectKeepsInv(cfg, s);
    } else if err != NoError {
      OnConnectFailedKeepsInv(cfg, s, err, throws);
    } else {
      OnConnectedKeepsInv(cfg, s, callback);
    }
  }

  lemma StopCallKeepsInv(cfg: Config, s: Conn)
    requires Inv(cfg, s)
    ensures Inv(cfg, Next(cfg, s, StopCall))
  {
  }

  lemma NextKeepsInv(cfg: Config, s: Conn, e: Event)
    requires Inv(cfg, s) && Enabled(s, e)
    ensures Inv(cfg, Next(cfg, s, e))
  {
    match e
    case Start => if s.entity == NetEntityCommon.UNSTARTED { StartKeepsInv(cfg, s); }
    case StopCall => StopCallKeepsInv(cfg, s);
    case StopRun => CloseKeepsInv(cfg, s, s.(closesPosted := s.closesPosted - 1), TcpConnectorStopped);
    case ResolveDone(err, found) => ResolveDoneKeepsInv(cfg, s, err, found);
    case ConnectDone(err, throws, callback) => ConnectDoneKeepsInv(cfg, s, err, throws, callback);
    case TimerDone(err) => TimerDoneKeepsInv(cfg, s, err);
    case HandlerEvent(h, a, err) => HandlerEventKeepsInv(cfg, s, h, a, err);
  }

  /** A close keeps the invariant also while a completion or a posted close is being handled. */
  lemma CloseKeepsInv(cfg: Config, s: Conn, s': Conn, err: Error)
    requires Inv(cfg, s) && err != TcpConnectorClosed
    requires s'.timers <= s.timers && s'.closesPosted <= s.closesPosted
    requires s' == s.(timers := s'.timers, closesPosted := s'.closesPosted)
    requires s.entity != NetEntityCommon.UNSTARTED
    ensures Inv(cfg, Close(s', err))
  {
    CloseShapeLate(s, s', err);
    CloseReportsLate(s, s', err);
    CloseCounts(cfg, s', err);
  }

  lemma CloseReportsLate(s: Conn, s': Conn, err: Error)
    requires Shape(s) && Reports(s) && err != TcpConnectorClosed
    requires s' == s.(timers := s'.timers, closesPosted := s'.closesPosted)
    ensures Reports(Close(s', err))
  {
    if s.state != Stopped {
      CloseReports(s', err);
    }
  }

  lemma CloseCounts(cfg: Config, s: Conn, err: Error)
    requires Counts(cfg, s)
    ensures Counts(cfg, Close(s, err))
  {
  }

  lemma CloseShapeLate(s: Conn, s': Conn, err: Error)
    requires Shape(s) && s.entity != NetEntityCommon.UNSTARTED
    requires s'.timers <= s.timers && s'.closesPosted <= s.closesPosted
    requires s' == s.(timers := s'.timers, closesPosted := s'.closesPosted)
    ensures Shape(Close(s', err))
  {
  }

  lemma {:induction false} RunKeepsInv(cfg: Config, endpoints: nat, es: seq<Event>)
    requires Valid(cfg, endpoints, es)
    ensures Inv(cfg, Run(cfg, endpoints, es))
    decreases |es|
  {
    if es != [] {
      RunKeepsInv(cfg, endpoints, es[..|es| - 1]);
      NextKeepsInv(cfg, Run(cfg, endpoints, es[..|es| - 1]), es[|es| - 1]);
    }
  }
}
