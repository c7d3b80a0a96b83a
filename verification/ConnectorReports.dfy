/** What a TCP connector's application hears, over every run: in which order, from which events, and with which codes. */
module ConnectorReports {
  import opened Bytes
  import opened NetIpError
  import opened HandlerLife
  import opened ConnectorProtocol
  import opened ConnectorRuns
  import opened ConnectorTheorems
  import NetEntityCommon

  // The order of the callbacks, told from the callbacks alone.

  /** What has been heard so far. `forGood` is whether a lost connection is not replaced. */
  datatype Heard =
    | Nothing
    | Resolves
    | Connects
    | Fails
    | Waits
    | Succeeds
    | Up(h: nat)
    | Stops(h: nat)
    | Loses(h: nat, forGood: bool)
    | Lost(forGood: bool)
    | Reason
    | Ends
    | Wrong

  function Says(code: Error): Callback {
    ErrorCb(NoIo, code)
  }

  predicate IsSystemError(cb: Callback) {
    cb.ErrorCb? && cb.io == NoIo && cb.err.SystemError?
  }

  /** One more callback; `known` is whether the connector was made with endpoints. */
  function Hear(cfg: Config, known: bool, x: Heard, cb: Callback): Heard {
    match x
    case Nothing =>
      if cb == Says(TcpConnectorConnecting) && known then Connects
      else if cb == Says(TcpConnectorResolvingAddresses) && !known then Resolves
      else Wrong
    case Resolves =>
      if cb == Says(TcpConnectorConnecting) then Connects else if cb == Says(TcpConnectorStopped) then Reason else Wrong
    case Connects =>
      if cb == Says(TcpConnectorConnected) then Succeeds
      else if cb == Says(TcpConnectorStopped) then Reason
      else if IsSystemError(cb) then Fails
      else Wrong
    case Fails =>
      if cb == Says(TcpConnectorTimeout) then Waits
      else if cb == Says(TcpConnectorNoReconnectAttempted) || IsSystemError(cb) then Reason
      else Wrong
    case Waits =>
      if cb == Says(TcpConnectorConnecting) then Connects
      else if cb == Says(TcpConnectorStopped) || IsSystemError(cb) then Reason
      else Wrong
    case Succeeds => if cb.StateCb? && cb.count == 1 && cb.starting then Up(cb.h) else Wrong
    case Up(h) =>
      if cb == Says(TcpConnectorStopped) then Stops(h)
      else if cb.ErrorCb? && cb.io == Io(h) then Loses(h, !cfg.reconnOnErr)
      else Wrong
    case Stops(h) => if cb == ErrorCb(Io(h), TcpIoHandlerStopped) then Loses(h, true) else Wrong
    case Loses(h, forGood) => if cb == StateCb(h, 0, false) then Lost(forGood) else Wrong
    case Lost(forGood) =>
      if cb == Says(TcpConnectorConnecting) && !forGood then Connects
      else if cb == Says(TcpConnectorNoReconnectAttempted) && forGood then Reason
      else Wrong
    case Reason => if cb == CLOSED_CB then Ends else Wrong
    case Ends => Wrong
    case Wrong => Wrong
  }

  function HearAll(cfg: Config, known: bool, log: seq<Callback>): Heard {
    if log == [] then Nothing else Hear(cfg, known, HearAll(cfg, known, log[..|log| - 1]), log[|log| - 1])
  }

  lemma HearSnoc(cfg: Config, known: bool, log: seq<Callback>, cb: Callback)
    ensures HearAll(cfg, known, log + [cb]) == Hear(cfg, known, HearAll(cfg, known, log), cb)
  {
    assert (log + [cb])[..|log|] == log;
  }

  lemma HearTwo(cfg: Config, known: bool, log: seq<Callback>, a: Callback, b: Callback)
    ensures HearAll(cfg, known, log + [a, b]) == Hear(cfg, known, Hear(cfg, known, HearAll(cfg, known, log), a), b)
  {
    HearSnoc(cfg, known, log, a);
    HearSnoc(cfg, known, log + [a], b);
    assert log + [a, b] == log + [a] + [b];
  }

  /** Where the connector is, given what has been heard. */
  ghost predicate Tells(cfg: Config, known: bool, s: Conn) {
    && (s.entity == NetEntityCommon.UNSTARTED ==> (known <==> s.endpoints > 0))
    && HearAll(cfg, known, s.log) ==
       match s.state
       case Stopped =>
         if s.entity == NetEntityCommon.UNSTARTED then Nothing else if s.log == [RESOLVING_CB] then Resolves else Ends
       case Resolving => Resolves
       case Connecting => Connects
       case Timeout => Waits
       case Connected => if s.handler.Some? then Up(s.handler.value) else Wrong
       case Closing => Wrong
  }

  /** An end is told by one reason and closed. */
  lemma EndHeard(cfg: Config, known: bool, log: seq<Callback>, reason: Callback)
    requires Hear(cfg, known, HearAll(cfg, known, log), reason) == Reason
    ensures HearAll(cfg, known, log + [reason] + [CLOSED_CB]) == Ends
  {
    HearSnoc(cfg, known, log, reason);
    HearSnoc(cfg, known, log + [reason], CLOSED_CB);
  }

  lemma LossHeard(cfg: Config, known: bool, log: seq<Callback>, h: nat, code: Error, forGood: bool)
    requires Hear(cfg, known, HearAll(cfg, known, log), ErrorCb(Io(h), code)) == Loses(h, forGood)
    ensures HearAll(cfg, known, log + HandlerClosed(h, code)) == Lost(forGood)
  {
    HearTwo(cfg, known, log, ErrorCb(Io(h), code), StateCb(h, 0, false));
  }

  lemma OnHandlerTells(cfg: Config, known: bool, s: Conn, h: nat, a: Action, err: Error)
    requires Shape(s) && Tells(cfg, known, s) && h < |s.lives| && Documented(s.lives[h], a)
    ensures Tells(cfg, known, OnHandler(cfg, s, h, a, err))
  {
    if Notifies(s.lives[h], a) {
      var code := Notice(a, err);
      var log1 := s.log + HandlerClosed(h, code);
      LossHeard(cfg, known, s.log, h, code, !cfg.reconnOnErr);
      if cfg.reconnOnErr {
        HearSnoc(cfg, known, log1, Says(TcpConnectorConnecting));
      } else {
        EndHeard(cfg, known, log1, Says(TcpConnectorNoReconnectAttempted));
        Assoc(s.log, HandlerClosed(h, code), [Says(TcpConnectorNoReconnectAttempted)]);
      }
    }
  }

  lemma StopTold(cfg: Config, known: bool, log: seq<Callback>, h: nat)
    requires HearAll(cfg, known, log) == Up(h)
    ensures HearAll(cfg, known, log + [Says(TcpConnectorStopped)] + HandlerClosed(h, TcpIoHandlerStopped)
                                + [Says(TcpConnectorNoReconnectAttempted)] + [CLOSED_CB]) == Ends
  {
    var log1 := log + [Says(TcpConnectorStopped)];
    HearSnoc(cfg, known, log, Says(TcpConnectorStopped));
    LossHeard(cfg, known, log1, h, TcpIoHandlerStopped, true);
    EndHeard(cfg, known, log1 + HandlerClosed(h, TcpIoHandlerStopped), Says(TcpConnectorNoReconnectAttempted));
  }

  lemma StopRunTells(cfg: Config, known: bool, s: Conn)
    requires Shape(s) && Tells(cfg, known, s) && s.entity != NetEntityCommon.UNSTARTED
    ensures Tells(cfg, known, Close(s, TcpConnectorStopped))
  {
    if s.state == Connected {
      StopLog(s);
      StopTold(cfg, known, s.log, s.handler.value);
    } else if s.state != Stopped {
      EndHeard(cfg, known, s.log, Says(TcpConnectorStopped));
    }
  }

  lemma {:induction false} CallbackTells(cfg: Config, known: bool, s: Conn, callback: seq<(Action, Error)>)
    requires AllDocumented(callback) && Shape(JustConnected(s)) && Quiet(s)
    requires s.state == Connecting && s.entity != NetEntityCommon.UNSTARTED && HearAll(cfg, known, s.log) == Connects
    ensures Tells(cfg, known, AfterCallback(cfg, s, callback))
    decreases |callback|
  {
    if callback == [] {
      HearTwo(cfg, known, s.log, Says(TcpConnectorConnected), StateCb(|s.lives|, 1, true));
    } else {
      var init := callback[..|callback| - 1];
      var (a, err) := callback[|callback| - 1];
      CallbackTells(cfg, known, s, init);
      AfterCallbackShape(cfg, s, init);
      CallbackOutcome(cfg, s, callback);
      OnHandlerTells(cfg, known, AfterCallback(cfg, s, init), |s.lives|, a, err);
    }
  }

  lemma ConnectFailedTells(cfg: Config, known: bool, s: Conn, err: Error, throws: Option<Error>)
    requires s.state == Connecting && s.entity != NetEntityCommon.UNSTARTED && HearAll(cfg, known, s.log) == Connects
    requires err.SystemError? && (throws.Some? ==> throws.value.SystemError?)
    ensures Tells(cfg, known, OnConnectFailed(cfg, s, err, throws))
  {
    var log1 := s.log + [Says(err)];
    HearSnoc(cfg, known, s.log, Says(err));
    if cfg.timeout(s.attempts) == None {
      EndHeard(cfg, known, log1, Says(TcpConnectorNoReconnectAttempted));
    } else if throws.Some? {
      EndHeard(cfg, known, log1, Says(throws.value));
    } else {
      HearSnoc(cfg, known, log1, Says(TcpConnectorTimeout));
    }
  }

  lemma ConnectDoneTells(cfg: Config, known: bool, s: Conn, e: Event)
    requires Inv(cfg, s) && Tells(cfg, known, s) && Enabled(s, e) && e.ConnectDone?
    ensures Tells(cfg, known, Next(cfg, s, e))
  {
    var s1 := s.(connects := s.connects - 1);
    if s.state == Connecting {
      if e.err != NoError {
        ConnectFailedTells(cfg, known, s1, e.err, e.throws);
      } else {
        JustConnectedShape(cfg, s);
        CallbackTells(cfg, known, s1, e.callback);
        CallbackOutcome(cfg, s1, e.callback);
      }
    }
  }

  lemma StartTells(cfg: Config, known: bool, s: Conn)
    requires Inv(cfg, s) && Tells(cfg, known, s)
    ensures Tells(cfg, known, Next(cfg, s, Start))
  {
    HearSnoc(cfg, known, s.log, Says(TcpConnectorConnecting));
    HearSnoc(cfg, known, s.log, Says(TcpConnectorResolvingAddresses));
  }

  lemma ResolveDoneTells(cfg: Config, known: bool, s: Conn, e: Event)
    requires Inv(cfg, s) && Tells(cfg, known, s) && Enabled(s, e) && e.ResolveDone?
    ensures Tells(cfg, known, Next(cfg, s, e))
  {
    HearSnoc(cfg, known, s.log, Says(TcpConnectorConnecting));
  }

  lemma TimerDoneTells(cfg: Config, known: bool, s: Conn, e: Event)
    requires Inv(cfg, s) && Tells(cfg, known, s) && Enabled(s, e) && e.TimerDone?
    ensures Tells(cfg, known, Next(cfg, s, e))
  {
    if e.err == NoError {
      HearSnoc(cfg, known, s.log, Says(TcpConnectorConnecting));
    } else if s.state == Timeout {
      EndHeard(cfg, known, s.log, Says(e.err));
    }
  }

  lemma StepTells(cfg: Config, known: bool, s: Conn, e: Event)
    requires Inv(cfg, s) && Tells(cfg, known, s) && Enabled(s, e)
    ensures Tells(cfg, known, Next(cfg, s, e))
  {
    match e
    case Start => StartTells(cfg, known, s);
    case StopRun => StopRunTells(cfg, known, s.(closesPosted := s.closesPosted - 1));
    case ResolveDone(_, _) => ResolveDoneTells(cfg, known, s, e);
    case TimerDone(_) => TimerDoneTells(cfg, known, s, e);
    case ConnectDone(_, _, _) => ConnectDoneTells(cfg, known, s, e);
    case HandlerEvent(h, a, err) => OnHandlerTells(cfg, known, s, h, a, err);
    case StopCall =>
  }

  /** Over every run the callbacks come in the order that Hear allows, and what was heard last says where the connector is. */
  lemma {:induction false} CallbacksInOrder(cfg: Config, endpoints: nat, es: seq<Event>)
    requires Valid(cfg, endpoints, es)
    ensures Tells(cfg, endpoints > 0, Run(cfg, endpoints, es))
    decreases |es|
  {
    if es != [] {
      CallbacksInOrder(cfg, endpoints, es[..|es| - 1]);
      RunKeepsInv(cfg, endpoints, es[..|es| - 1]);
      StepTells(cfg, endpoints > 0, Run(cfg, endpoints, es[..|es| - 1]), es[|es| - 1]);
    }
  }

  // Each IO handler's life and codes, told from the events.

  /** What a step does with one IO handler: calls on it and what happens to it, those made in the connect callback, and the
      connector's own stop_io when a stop runs. */
  function ActionsIn(s: Conn, e: Event, h: nat): seq<(Action, Error)> {
    match e
    case HandlerEvent(g, a, err) => if g == h then [(a, err)] else []
    case ConnectDone(err, _, callback) => if err == NoError && s.state == Connecting && h == |s.lives| then callback else []
    case StopRun => if s.state == Connected && s.handler == Some(h) then [(StopIo, NoError)] else []
    case _ => []
  }

  function ActionsOn(cfg: Config, endpoints: nat, es: seq<Event>, h: nat): seq<(Action, Error)>
    requires Valid(cfg, endpoints, es)
  {
    if es == [] then [] else
    var init := es[..|es| - 1];
    ActionsOn(cfg, endpoints, init, h) + ActionsIn(Run(cfg, endpoints, init), es[|es| - 1], h)
  }

  /** The handler's life and the codes reported for it are those of some actions; before it is made there are none. */
  ghost predicate Lives(s: Conn, h: nat, actions: seq<(Action, Error)>) {
    && Codes(s.log, Io(h)) == NoticesOf(actions)
    && if h < |s.lives| then s.lives[h] == LifeAfter(actions) else actions == []
  }

  lemma OnHandlerLives(cfg: Config, s: Conn, g: nat, a: Action, err: Error, h: nat, actions: seq<(Action, Error)>)
    requires g < |s.lives| && Lives(s, h, actions)
    ensures Lives(OnHandler(cfg, s, g, a, err), h, if g == h then actions + [(a, err)] else actions)
  {
    LifeSnoc(actions, a, err);
    if Notifies(s.lives[g], a) {
      var code := Notice(a, err);
      var log1 := s.log + HandlerClosed(g, code);
      CodesOfClosed(s.log, g, code, 0, Io(h));
      CodesOfOthers(log1, [ErrorCb(NoIo, TcpConnectorConnecting)], Io(h));
      CodesOfOthers(log1, [ErrorCb(NoIo, TcpConnectorNoReconnectAttempted), CLOSED_CB], Io(h));
      Assoc(s.log, HandlerClosed(g, code), [ErrorCb(NoIo, TcpConnectorNoReconnectAttempted)]);
      AppendTwo(log1, ErrorCb(NoIo, TcpConnectorNoReconnectAttempted), CLOSED_CB);
    }
  }

  lemma {:induction false} CallbackLives(cfg: Config, s: Conn, callback: seq<(Action, Error)>, h: nat, actions: seq<(Action, Error)>)
    requires Lives(s, h, actions)
    ensures Lives(AfterCallback(cfg, s, callback), h, if h == |s.lives| then callback else actions)
    decreases |callback|
  {
    if callback == [] {
      CodesOfOthers(s.log, [ErrorCb(NoIo, TcpConnectorConnected), StateCb(|s.lives|, 1, true)], Io(h));
    } else {
      var init := callback[..|callback| - 1];
      var (a, err) := callback[|callback| - 1];
      CallbackLives(cfg, s, init, h, actions);
      OnHandlerLives(cfg, AfterCallback(cfg, s, init), |s.lives|, a, err, h, if h == |s.lives| then init else actions);
      assert init + [(a, err)] == callback;
    }
  }

  /** The callbacks of a stop that finds a connection. */
  lemma StopLog(s: Conn)
    requires Shape(s) && s.state == Connected
    ensures Close(s, TcpConnectorStopped).log ==
            s.log + [Says(TcpConnectorStopped)] + HandlerClosed(s.handler.value, TcpIoHandlerStopped)
            + [Says(TcpConnectorNoReconnectAttempted)] + [CLOSED_CB]
    ensures Close(s, TcpConnectorStopped).lives == s.lives[s.handler.value := CLOSED]
  {
    var first, closed := [Says(TcpConnectorStopped)], HandlerClosed(s.handler.value, TcpIoHandlerStopped);
    Assoc(s.log, first + closed, [Says(TcpConnectorNoReconnectAttempted)]);
    Assoc(s.log, first, closed);
  }

  lemma StopCodes(log: seq<Callback>, g: nat, h: nat)
    ensures Codes(log + [Says(TcpConnectorStopped)] + HandlerClosed(g, TcpIoHandlerStopped) + [Says(TcpConnectorNoReconnectAttempted)]
                  + [CLOSED_CB], Io(h)) ==
            if g == h then Codes(log, Io(h)) + [TcpIoHandlerStopped] else Codes(log, Io(h))
  {
    var log1 := log + [Says(TcpConnectorStopped)];
    var log2 := log1 + HandlerClosed(g, TcpIoHandlerStopped);
    CodesOfOthers(log, [Says(TcpConnectorStopped)], Io(h));
    CodesOfClosed(log1, g, TcpIoHandlerStopped, 0, Io(h));
    EndLives(log2, TcpConnectorNoReconnectAttempted, h);
  }

  lemma StopRunLives(cfg: Config, s: Conn, h: nat, actions: seq<(Action, Error)>)
    requires Shape(s) && Lives(s, h, actions)
    ensures Lives(Close(s, TcpConnectorStopped), h, actions + ActionsIn(s, StopRun, h))
  {
    assert actions + [] == actions;
    if s.state == Connected {
      StopLog(s);
      StopCodes(s.log, s.handler.value, h);
      LifeSnoc(actions, StopIo, NoError);
    } else if s.state != Stopped {
      EndLives(s.log, TcpConnectorStopped, h);
    }
  }

  /** What follows the error of a failed connect. */
  function FailureTail(cfg: Config, attempts: nat, throws: Option<Error>): seq<Callback> {
    match (cfg.timeout(attempts), throws)
    case (None, _) => [Says(TcpConnectorNoReconnectAttempted), CLOSED_CB]
    case (_, Some(thrown)) => IfError(thrown) + [CLOSED_CB]
    case (Some(_), None) => [Says(TcpConnectorTimeout)]
  }

  lemma FailedLog(cfg: Config, s: Conn, err: Error, throws: Option<Error>)
    requires s.state == Connecting
    ensures OnConnectFailed(cfg, s, err, throws).log == s.log + [Says(err)] + FailureTail(cfg, s.attempts, throws)
    ensures OnConnectFailed(cfg, s, err, throws).lives == s.lives
  {
    AppendTwo(s.log + [Says(err)], Says(TcpConnectorNoReconnectAttempted), CLOSED_CB);
    if throws.Some? {
      Assoc(s.log + [Says(err)], IfError(throws.value), [CLOSED_CB]);
    }
  }

  lemma FailedLives(cfg: Config, s: Conn, err: Error, throws: Option<Error>, h: nat, actions: seq<(Action, Error)>)
    requires s.state == Connecting && Lives(s, h, actions)
    ensures Lives(OnConnectFailed(cfg, s, err, throws), h, actions)
  {
    FailedLog(cfg, s, err, throws);
    CodesOfOthers(s.log, [Says(err)], Io(h));
    CodesOfOthers(s.log + [Says(err)], FailureTail(cfg, s.attempts, throws), Io(h));
  }

  lemma EndLives(log: seq<Callback>, code: Error, h: nat)
    ensures Codes(log + IfError(code) + [CLOSED_CB], Io(h)) == Codes(log, Io(h))
  {
    CodesOfOthers(log, IfError(code), Io(h));
    CodesOfOthers(log + IfError(code), [CLOSED_CB], Io(h));
  }

  lemma ConnectDoneLives(cfg: Config, s: Conn, e: Event, h: nat, actions: seq<(Action, Error)>)
    requires Inv(cfg, s) && Enabled(s, e) && e.ConnectDone? && Lives(s, h, actions)
    ensures Lives(Next(cfg, s, e), h, actions + ActionsIn(s, e, h))
  {
    var s1 := s.(connects := s.connects - 1);
    if s.state != Connecting {
      assert actions + [] == actions;
    } else if e.err != NoError {
      FailedLives(cfg, s1, e.err, e.throws, h, actions);
      assert actions + [] == actions;
    } else {
      CallbackLives(cfg, s1, e.callback, h, actions);
      assert actions + (if h == |s.lives| then e.callback else []) == if h == |s.lives| then e.callback else actions;
    }
  }

  lemma OtherLives(cfg: Config, s: Conn, e: Event, h: nat, actions: seq<(Action, Error)>)
    requires Inv(cfg, s) && Enabled(s, e) && Lives(s, h, actions) && (e.Start? || e.StopCall? || e.ResolveDone? || e.TimerDone?)
    ensures Lives(Next(cfg, s, e), h, actions)
  {
    CodesOfOthers(s.log, [ErrorCb(NoIo, TcpConnectorConnecting)], Io(h));
    CodesOfOthers(s.log, [ErrorCb(NoIo, TcpConnectorResolvingAddresses)], Io(h));
    if e.TimerDone? {
      EndLives(s.log, e.err, h);
    }
  }

  lemma StepLives(cfg: Config, s: Conn, e: Event, h: nat, actions: seq<(Action, Error)>)
    requires Inv(cfg, s) && Enabled(s, e) && Lives(s, h, actions)
    ensures Lives(Next(cfg, s, e), h, actions + ActionsIn(s, e, h))
  {
    assert actions + [] == actions;
    match e
    case ConnectDone(_, _, _) => ConnectDoneLives(cfg, s, e, h, actions);
    case HandlerEvent(g, a, err) => OnHandlerLives(cfg, s, g, a, err, h, actions);
    case StopRun => StopRunLives(cfg, s.(closesPosted := s.closesPosted - 1), h, actions);
    case _ => OtherLives(cfg, s, e, h, actions);
  }

  /** Over every run, each IO handler's life and the codes reported for it are what its own actions give. */
  lemma {:induction false} HandlersAsTheirActions(cfg: Config, endpoints: nat, es: seq<Event>, h: nat)
    requires Valid(cfg, endpoints, es)
    ensures var s, actions := Run(cfg, endpoints, es), ActionsOn(cfg, endpoints, es, h);
            && Codes(s.log, Io(h)) == NoticesOf(actions)
            && (h < |s.lives| ==> s.lives[h] == LifeAfter(actions))
  {
    RunLives(cfg, endpoints, es, h);
  }

  lemma {:induction false} RunLives(cfg: Config, endpoints: nat, es: seq<Event>, h: nat)
    requires Valid(cfg, endpoints, es)
    ensures Lives(Run(cfg, endpoints, es), h, ActionsOn(cfg, endpoints, es, h))
    decreases |es|
  {
    if es != [] {
      var init := es[..|es| - 1];
      RunLives(cfg, endpoints, init, h);
      RunKeepsInv(cfg, endpoints, init);
      StepLives(cfg, Run(cfg, endpoints, init), es[|es| - 1], h, ActionsOn(cfg, endpoints, init, h));
    }
  }

  // System errors, told from the events.

  function SystemErrors(log: seq<Callback>): seq<Error> {
    if log == [] then [] else
    var before, last := SystemErrors(log[..|log| - 1]), log[|log| - 1];
    if IsSystemError(last) then before + [last.err] else before
  }

  /** The errors that a step is to report: that of a connect that fails while connecting, with what arming the timer throws if there
      is a wait, and that of a timer that fails while waiting. */
  function ErrorsIn(cfg: Config, s: Conn, e: Event): seq<Error> {
    match e
    case ConnectDone(err, throws, _) =>
      if s.state != Connecting || err == NoError then []
      else if cfg.timeout(s.attempts) == None then [err]
      else [err] + Items(throws)
    case TimerDone(err) => if s.state == Timeout && err != NoError then [err] else []
    case _ => []
  }

  function ErrorsOf(cfg: Config, endpoints: nat, es: seq<Event>): seq<Error>
    requires Valid(cfg, endpoints, es)
  {
    if es == [] then [] else
    var init := es[..|es| - 1];
    ErrorsOf(cfg, endpoints, init) + ErrorsIn(cfg, Run(cfg, endpoints, init), es[|es| - 1])
  }

  lemma ErrorsSnoc(log: seq<Callback>, cb: Callback)
    ensures SystemErrors(log + [cb]) == if IsSystemError(cb) then SystemErrors(log) + [cb.err] else SystemErrors(log)
  {
    assert (log + [cb])[..|log|] == log;
  }

  lemma {:induction false} NoErrors(log: seq<Callback>, more: seq<Callback>)
    requires forall cb :: cb in more ==> !IsSystemError(cb)
    ensures SystemErrors(log + more) == SystemErrors(log)
    decreases |more|
  {
    if more == [] {
      assert log + more == log;
    } else {
      var n := |more| - 1;
      assert more[n] in more;
      NoErrors(log, more[..n]);
      ErrorsSnoc(log + more[..n], more[n]);
      assert log + more == (log + more[..n]) + [more[n]];
    }
  }

  lemma OnHandlerErrors(cfg: Config, s: Conn, h: nat, a: Action, err: Error)
    requires h < |s.lives|
    ensures SystemErrors(OnHandler(cfg, s, h, a, err).log) == SystemErrors(s.log)
  {
    if Notifies(s.lives[h], a) {
      var log1 := s.log + HandlerClosed(h, Notice(a, err));
      var last := ErrorCb(NoIo, TcpConnectorNoReconnectAttempted);
      NoErrors(s.log, HandlerClosed(h, Notice(a, err)));
      NoErrors(log1, [ErrorCb(NoIo, TcpConnectorConnecting)]);
      NoErrors(log1, [last, CLOSED_CB]);
      AppendTwo(log1, last, CLOSED_CB);
      Assoc(s.log, HandlerClosed(h, Notice(a, err)), [last]);
    }
  }

  lemma {:induction false} CallbackErrors(cfg: Config, s: Conn, callback: seq<(Action, Error)>)
    ensures SystemErrors(AfterCallback(cfg, s, callback).log) == SystemErrors(s.log)
    decreases |callback|
  {
    if callback == [] {
      NoErrors(s.log, [ErrorCb(NoIo, TcpConnectorConnected), StateCb(|s.lives|, 1, true)]);
    } else {
      var init := callback[..|callback| - 1];
      var (a, err) := callback[|callback| - 1];
      CallbackErrors(cfg, s, init);
      OnHandlerErrors(cfg, AfterCallback(cfg, s, init), |s.lives|, a, err);
    }
  }

  /** An end reports its reason, if that is an error of the system, and nothing else of that kind. */
  lemma EndErrors(log: seq<Callback>, code: Error)
    ensures SystemErrors(log + IfError(code) + [CLOSED_CB]) ==
            if code.SystemError? then SystemErrors(log) + [code] else SystemErrors(log)
  {
    ErrorsSnoc(log + IfError(code), CLOSED_CB);
    if code != NoError {
      ErrorsSnoc(log, ErrorCb(NoIo, code));
    } else {
      assert log + [] == log;
    }
  }

  lemma FailedErrors(cfg: Config, s: Conn, err: Error, throws: Option<Error>)
    requires s.state == Connecting && err.SystemError? && (throws.Some? ==> throws.value.SystemError?)
    ensures SystemErrors(OnConnectFailed(cfg, s, err, throws).log) ==
            SystemErrors(s.log) + if cfg.timeout(s.attempts) == None then [err] else [err] + Items(throws)
  {
    var log1 := s.log + [ErrorCb(NoIo, err)];
    ErrorsSnoc(s.log, ErrorCb(NoIo, err));
    if cfg.timeout(s.attempts) == None {
      EndErrors(log1, TcpConnectorNoReconnectAttempted);
    } else if throws.Some? {
      EndErrors(log1, throws.value);
      Assoc(SystemErrors(s.log), [err], [throws.value]);
    } else {
      ErrorsSnoc(log1, ErrorCb(NoIo, TcpConnectorTimeout));
      assert [err] + [] == [err];
    }
  }

  lemma StopRunErrors(s: Conn)
    requires Shape(s)
    ensures SystemErrors(Close(s, TcpConnectorStopped).log) == SystemErrors(s.log)
  {
    if s.state == Connected {
      var more := [ErrorCb(NoIo, TcpConnectorStopped)] + HandlerClosed(s.handler.value, TcpIoHandlerStopped)
                  + [ErrorCb(NoIo, TcpConnectorNoReconnectAttempted)];
      NoErrors(s.log, more);
      NoErrors(s.log + more, [CLOSED_CB]);
    } else if s.state != Stopped {
      EndErrors(s.log, TcpConnectorStopped);
    }
  }

  lemma StepErrors(cfg: Config, s: Conn, e: Event)
    requires Inv(cfg, s) && Enabled(s, e)
    ensures SystemErrors(Next(cfg, s, e).log) == SystemErrors(s.log) + ErrorsIn(cfg, s, e)
  {
    assert SystemErrors(s.log) + [] == SystemErrors(s.log);
    match e
    case ConnectDone(err, throws, callback) => ConnectDoneErrors(cfg, s, e);
    case HandlerEvent(g, a, err) => OnHandlerErrors(cfg, s, g, a, err);
    case StopRun => StopRunErrors(s.(closesPosted := s.closesPosted - 1));
    case _ => OtherErrors(cfg, s, e);
  }

  lemma ConnectDoneErrors(cfg: Config, s: Conn, e: Event)
    requires Inv(cfg, s) && Enabled(s, e) && e.ConnectDone?
    ensures SystemErrors(Next(cfg, s, e).log) == SystemErrors(s.log) + ErrorsIn(cfg, s, e)
  {
    var s1 := s.(connects := s.connects - 1);
    assert SystemErrors(s.log) + [] == SystemErrors(s.log);
    if s.state == Connecting {
      if e.err != NoError {
        FailedErrors(cfg, s1, e.err, e.throws);
      } else {
        CallbackErrors(cfg, s1, e.callback);
      }
    }
  }

  lemma OtherErrors(cfg: Config, s: Conn, e: Event)
    requires Inv(cfg, s) && Enabled(s, e) && (e.Start? || e.StopCall? || e.ResolveDone? || e.TimerDone?)
    ensures SystemErrors(Next(cfg, s, e).log) == SystemErrors(s.log) + ErrorsIn(cfg, s, e)
  {
    assert SystemErrors(s.log) + [] == SystemErrors(s.log);
    ErrorsSnoc(s.log, ErrorCb(NoIo, TcpConnectorConnecting));
    ErrorsSnoc(s.log, ErrorCb(NoIo, TcpConnectorResolvingAddresses));
    if e.TimerDone? {
      EndErrors(s.log, e.err);
    }
  }

  /** Over every run the system errors that the application hears of are, in order, those of its connects and timers. */
  lemma {:induction false} ErrorsReported(cfg: Config, endpoints: nat, es: seq<Event>)
    requires Valid(cfg, endpoints, es)
    ensures SystemErrors(Run(cfg, endpoints, es).log) == ErrorsOf(cfg, endpoints, es)
    decreases |es|
  {
    if es != [] {
      var init := es[..|es| - 1];
      ErrorsReported(cfg, endpoints, init);
      RunKeepsInv(cfg, endpoints, init);
      StepErrors(cfg, Run(cfg, endpoints, init), es[|es| - 1]);
    }
  }

  // Stops, and endpoints.

  function CountStopRuns(es: seq<Event>): nat {
    if es == [] then 0 else CountStopRuns(es[..|es| - 1]) + if es[|es| - 1].StopRun? then 1 else 0
  }

  lemma StopStep(cfg: Config, s: Conn, e: Event)
    requires Inv(cfg, s) && Enabled(s, e)
    ensures Next(cfg, s, e).closesPosted == s.closesPosted
            + (if e.StopCall? && s.entity == NetEntityCommon.STARTED then 1 else 0) - (if e.StopRun? then 1 else 0)
    ensures s.entity == NetEntityCommon.STOPPED ==> Next(cfg, s, e).entity == NetEntityCommon.STOPPED
    ensures e.StopCall? && s.entity == NetEntityCommon.STARTED ==> Next(cfg, s, e).entity == NetEntityCommon.STOPPED
  {
    if e.ConnectDone? && e.err == NoError && s.state == Connecting {
      SuccessOutcome(cfg, s, e);
      CallbackPosts(cfg, s.(connects := s.connects - 1), e.callback);
    }
  }

  lemma {:induction false} CallbackPosts(cfg: Config, s: Conn, callback: seq<(Action, Error)>)
    ensures AfterCallback(cfg, s, callback).closesPosted == s.closesPosted
    ensures AfterCallback(cfg, s, callback).endpoints == s.endpoints
    decreases |callback|
  {
    if callback != [] {
      CallbackPosts(cfg, s, callback[..|callback| - 1]);
    }
  }

  /** The stop that wins posts one close, and no other does: it is either posted or has run. */
  lemma {:induction false} OneCloseForTheWinner(cfg: Config, endpoints: nat, es: seq<Event>)
    requires Valid(cfg, endpoints, es)
    ensures Run(cfg, endpoints, es).closesPosted + CountStopRuns(es) == if WinningStop(cfg, endpoints, es) then 1 else 0
    ensures WinningStop(cfg, endpoints, es) ==> Run(cfg, endpoints, es).entity == NetEntityCommon.STOPPED
    decreases |es|
  {
    if es != [] {
      var init := es[..|es| - 1];
      OneCloseForTheWinner(cfg, endpoints, init);
      RunKeepsInv(cfg, endpoints, init);
      StopStep(cfg, Run(cfg, endpoints, init), es[|es| - 1]);
    }
  }

  /** The endpoints that a successful resolve found while it was waited for. */
  function Resolved(cfg: Config, endpoints: nat, es: seq<Event>): nat
    requires Valid(cfg, endpoints, es)
  {
    if es == [] then 0 else
    var init, e := es[..|es| - 1], es[|es| - 1];
    Resolved(cfg, endpoints, init) +
      if e.ResolveDone? && e.err == NoError && Run(cfg, endpoints, init).state == Resolving then e.found else 0
  }

  lemma EndpointsStep(cfg: Config, s: Conn, e: Event)
    requires Inv(cfg, s) && Enabled(s, e)
    ensures Next(cfg, s, e).endpoints == s.endpoints + if e.ResolveDone? && e.err == NoError && s.state == Resolving then e.found else 0
  {
    if e.ConnectDone? && e.err == NoError && s.state == Connecting {
      CallbackPosts(cfg, s.(connects := s.connects - 1), e.callback);
    }
  }

  /** Every connect is tried on the endpoints the connector was made with and those its resolve found. */
  lemma {:induction false} EndpointsKnown(cfg: Config, endpoints: nat, es: seq<Event>)
    requires Valid(cfg, endpoints, es)
    ensures Run(cfg, endpoints, es).endpoints == endpoints + Resolved(cfg, endpoints, es)
    decreases |es|
  {
    if es != [] {
      var init := es[..|es| - 1];
      EndpointsKnown(cfg, endpoints, init);
      RunKeepsInv(cfg, endpoints, init);
      EndpointsStep(cfg, Run(cfg, endpoints, init), es[|es| - 1]);
    }
  }
}
