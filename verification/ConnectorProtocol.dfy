/** The TCP connector as a transition table: where each event leads, with all its callbacks. The call chains
    that get there are in TcpConnector. */
module ConnectorProtocol {
  import opened Bytes
  import opened NetIpError
  import opened HandlerLife
  import opened ConnectorTimeout
  import NetEntityCommon

  datatype ConnState = Stopped | Resolving | Connecting | Connected | Timeout | Closing

  datatype Config = Config(reconnOnErr: bool, timeout: TimeoutFunc)

  /** What has happened since the last successful connect. */
  datatype Retries = Retries(
    begun: nat,             // connects begun
    asked: seq<nat>,        // arguments the timeout function was given
    waits: seq<int>,        // timer waits begun
    skewed: bool)           // the connects are a reconnect that the connect callback itself caused

  const NO_RETRIES := Retries(0, [], [], false)

  datatype Conn = Conn(
    entity: int,
    state: ConnState,
    handler: Option<nat>,   // the current IO handler
    endpoints: nat,         // how many are known; none means that a resolve is needed
    attempts: nat,
    resolves: nat,          // asynchronous operations whose completion has not run
    connects: nat,
    timers: nat,
    closesPosted: nat,
    lives: seq<Life>,       // every IO handler made so far
    log: seq<Callback>,     // every callback made
    since: Retries)

  function Initial(endpoints: nat): Conn {
    Conn(NetEntityCommon.UNSTARTED, Stopped, None, endpoints, 0, 0, 0, 0, 0, [], [], NO_RETRIES)
  }

  /** ConnectDone: `throws` is the error of arming the timer, if that throws; `callback` is what the application does, one call
      after the other, with the new IO handler inside the state change callback. StopRun is the close that a winning stop posted. */
  datatype Event =
    | Start
    | StopCall
    | StopRun
    | ResolveDone(err: Error, found: nat)
    | ConnectDone(err: Error, throws: Option<Error>, callback: seq<(Action, Error)>)
    | TimerDone(err: Error)
    | HandlerEvent(h: nat, action: Action, err: Error)

  /** Completions come only from outstanding operations, but may come late and may succeed late; IO
      handlers are used as documented. */
  predicate Enabled(s: Conn, e: Event) {
    match e
    case Start => true
    case StopCall => true
    case StopRun => s.closesPosted > 0
    case ResolveDone(err, _) => s.resolves > 0 && External(err)
    case ConnectDone(err, throws, callback) =>
      s.connects > 0 && External(err) && (throws.Some? ==> throws.value.SystemError?) && AllDocumented(callback)
    case TimerDone(err) => s.timers > 0 && External(err)
    case HandlerEvent(h, a, _) => h < |s.lives| && Documented(s.lives[h], a)
  }

  const CLOSED_CB := ErrorCb(NoIo, TcpConnectorClosed)

  function Connect(s: Conn): Conn {
    s.(state := Connecting, attempts := s.attempts + 1, connects := s.connects + 1, since := s.since.(begun := s.since.begun + 1),
       log := s.log + [ErrorCb(NoIo, TcpConnectorConnecting)])
  }

  /** The end of a run: the reasons, then that the connector is closed. */
  function Finish(s: Conn, reasons: seq<Callback>): Conn {
    s.(state := Stopped, handler := None, log := s.log + reasons + [CLOSED_CB])
  }

  /** What the application hears of an IO handler that has closed. */
  function HandlerClosed(h: nat, err: Error): seq<Callback> {
    [ErrorCb(Io(h), err), StateCb(h, 0, false)]
  }

  /** Closing takes its IO handler with it and always ends stopped; what is already stopped stays as it is. */
  function Close(s: Conn, err: Error): Conn {
    if s.state == Stopped || s.state == ConnState.Closing then s else
    var s1 := s.(entity := NetEntityCommon.STOPPED);
    if s.state != Connected then Finish(s1, IfError(err))
    else match s.handler
      case None => Finish(s1, [ErrorCb(NoIo, err)] + IfError(err))
      case Some(h) =>
        if h >= |s.lives| then s1 else
        Finish(s1.(lives := s.lives[h := CLOSED]),
               [ErrorCb(NoIo, err)] + HandlerClosed(h, TcpIoHandlerStopped) + [ErrorCb(NoIo, TcpConnectorNoReconnectAttempted)])
  }

  /** An action on an IO handler; its close leads to a reconnect or to the end. */
  function OnHandler(cfg: Config, s: Conn, h: nat, a: Action, err: Error): (r: Conn)
    requires h < |s.lives|
    ensures |r.lives| == |s.lives|
  {
    var s1 := s.(lives := s.lives[h := After(s.lives[h], a)]);
    if !Notifies(s.lives[h], a) then s1
    else if s.state == Connected && cfg.reconnOnErr then
      Connect(s1.(handler := None, log := s.log + HandlerClosed(h, Notice(a, err))))
    else
      Finish(s1, HandlerClosed(h, Notice(a, err)) + [ErrorCb(NoIo, TcpConnectorNoReconnectAttempted)])
  }

  /** The state right after a successful connect, before the application's callback acts. */
  function JustConnected(s: Conn): Conn {
    s.(state := Connected, handler := Some(|s.lives|), lives := s.lives + [NEW],
       log := s.log + [ErrorCb(NoIo, TcpConnectorConnected), StateCb(|s.lives|, 1, true)],
       since := NO_RETRIES)
  }

  /** Some actions on an IO handler, one after the other. */
  function AfterActions(cfg: Config, s: Conn, h: nat, actions: seq<(Action, Error)>): (r: Conn)
    requires h < |s.lives|
    ensures |r.lives| == |s.lives|
  {
    if actions == [] then s else
    var (a, err) := actions[|actions| - 1];
    OnHandler(cfg, AfterActions(cfg, s, h, actions[..|actions| - 1]), h, a, err)
  }

  /** What the application did in the callback, before the attempts are reset. */
  function AfterCallback(cfg: Config, s: Conn, callback: seq<(Action, Error)>): Conn {
    AfterActions(cfg, JustConnected(s), |s.lives|, callback)
  }

  function OnConnected(cfg: Config, s: Conn, callback: seq<(Action, Error)>): Conn {
    var s1 := AfterCallback(cfg, s, callback);
    s1.(attempts := 0, since := s1.since.(skewed := s1.state == Connecting))
  }

  function OnConnectFailed(cfg: Config, s: Conn, err: Error, throws: Option<Error>): Conn {
    var s1 := s.(since := s.since.(asked := s.since.asked + [s.attempts]), log := s.log + [ErrorCb(NoIo, err)]);
    match (cfg.timeout(s.attempts), throws)
    case (None, _) => Close(s1, TcpConnectorNoReconnectAttempted)
    case (_, Some(thrown)) => Close(s1, thrown)
    case (Some(t), None) =>
      s1.(state := Timeout, timers := s.timers + 1, since := s1.since.(waits := s.since.waits + [t]),
          log := s1.log + [ErrorCb(NoIo, TcpConnectorTimeout)])
  }

  function Next(cfg: Config, s: Conn, e: Event): Conn
    requires Enabled(s, e)
  {
    match e
    case Start =>
      if s.entity != NetEntityCommon.UNSTARTED then s
      else if s.endpoints > 0 then Connect(s.(entity := NetEntityCommon.STARTED))
      else s.(entity := NetEntityCommon.STARTED, state := Resolving, resolves := s.resolves + 1,
              log := s.log + [ErrorCb(NoIo, TcpConnectorResolvingAddresses)])
    case StopCall =>
      if s.entity != NetEntityCommon.STARTED then s
      else s.(entity := NetEntityCommon.STOPPED, closesPosted := s.closesPosted + 1)
    case StopRun => Close(s.(closesPosted := s.closesPosted - 1), TcpConnectorStopped)
    case ResolveDone(err, found) =>
      var s1 := s.(resolves := s.resolves - 1);
      if err != NoError || s.state != Resolving then s1.(state := Stopped)
      else Connect(s1.(endpoints := s.endpoints + found))
    case ConnectDone(err, throws, callback) =>
      var s1 := s.(connects := s.connects - 1);
      if s.state != Connecting then s1
      else if err != NoError then OnConnectFailed(cfg, s1, err, throws)
      else OnConnected(cfg, s1, callback)
    case TimerDone(err) =>
      var s1 := s.(timers := s.timers - 1);
      if err != NoError || s.state != Timeout then Close(s1, err) else Connect(s1)
    case HandlerEvent(h, a, err) => OnHandler(cfg, s, h, a, err)
  }

  predicate Valid(cfg: Config, endpoints: nat, es: seq<Event>)
    decreases |es|, 0
  {
    es == [] ||
    (Valid(cfg, endpoints, es[..|es| - 1]) && Enabled(Run(cfg, endpoints, es[..|es| - 1]), es[|es| - 1]))
  }

  /** The state after a run of a connector made with so many endpoints. */
  function Run(cfg: Config, endpoints: nat, es: seq<Event>): Conn
    requires Valid(cfg, endpoints, es)
    decreases |es|, 1
  {
    if es == [] then Initial(endpoints)
    else Next(cfg, Run(cfg, endpoints, es[..|es| - 1]), es[|es| - 1])
  }
}
