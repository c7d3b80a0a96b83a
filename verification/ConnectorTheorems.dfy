/** The main results about the TCP connector, each over every run. */
module ConnectorTheorems {
  import opened Bytes
  import opened NetIpError
  import opened HandlerLife
  import opened ConnectorTimeout
  import opened ConnectorProtocol
  import opened ConnectorRuns
  import NetEntityCommon

  /** State change callbacks alternate (1, true), (0, false), one pair for each connection in turn; one is open exactly
      while the connector is connected, which is exactly while it has an IO handler. */
  lemma {:induction false} StateChangesAlternate(cfg: Config, endpoints: nat, es: seq<Event>)
    requires Valid(cfg, endpoints, es)
    ensures var s := Run(cfg, endpoints, es);
            && StateCbs(s.log) == Alternating(|s.lives|, s.state == Connected)
            && (s.state == Connected <==> s.handler.Some?)
  {
    RunKeepsInv(cfg, endpoints, es);
  }

  /** At most one resolve, connect or timer is ever outstanding, and the state says which. */
  lemma {:induction false} OneOperationAtATime(cfg: Config, endpoints: nat, es: seq<Event>)
    requires Valid(cfg, endpoints, es)
    ensures var s := Run(cfg, endpoints, es);
            && s.resolves + s.connects + s.timers <= 1
            && (s.state == Resolving ==> s.resolves == 1)
            && (s.state == Connecting ==> s.connects == 1)
            && (s.state == Timeout ==> s.timers == 1)
            && s.state != ConnState.Closing
  {
    RunKeepsInv(cfg, endpoints, es);
  }

  /** From every reachable state the close that stop posts ends stopped, with every IO handler closed, whether or not
      IO was ever started on it. */
  lemma {:induction false} StopEndsStopped(cfg: Config, endpoints: nat, es: seq<Event>)
    requires Valid(cfg, endpoints, es) && Enabled(Run(cfg, endpoints, es), StopRun)
    ensures var s := Next(cfg, Run(cfg, endpoints, es), StopRun);
            && s.state == Stopped && s.handler == None && s.entity == NetEntityCommon.STOPPED
            && forall i :: 0 <= i < |s.lives| ==> s.lives[i] == CLOSED
  {
    RunKeepsInv(cfg, endpoints, es);
    CloseShape(Run(cfg, endpoints, es).(closesPosted := Run(cfg, endpoints, es).closesPosted - 1), TcpConnectorStopped);
  }

  /** Every beginning of a run is a run. */
  lemma {:induction false} ValidPrefix(cfg: Config, endpoints: nat, es: seq<Event>, k: nat)
    requires Valid(cfg, endpoints, es) && k <= |es|
    ensures Valid(cfg, endpoints, es[..k])
    decreases |es|
  {
    if k < |es| {
      ValidPrefix(cfg, endpoints, es[..|es| - 1], k);
      assert es[..|es| - 1][..k] == es[..k];
    } else {
      assert es[..k] == es;
    }
  }

  /** The state after the first `k` events of a run. */
  ghost function StateAt(cfg: Config, endpoints: nat, es: seq<Event>, k: nat): Conn
    requires Valid(cfg, endpoints, es) && k <= |es|
  {
    ValidPrefix(cfg, endpoints, es, k);
    Run(cfg, endpoints, es[..k])
  }

  lemma StoppedStep(cfg: Config, s: Conn, e: Event)
    requires Inv(cfg, s) && Enabled(s, e) && s.state == Stopped && s.entity != NetEntityCommon.UNSTARTED
    ensures var s' := Next(cfg, s, e);
            s'.state == Stopped && s'.entity != NetEntityCommon.UNSTARTED && s'.log == s.log
  {
  }

  /** Once a started connector is stopped the application hears nothing more, whatever completions and calls
      are still to come. */
  lemma {:induction false} SilentOnceStopped(cfg: Config, endpoints: nat, es: seq<Event>, k: nat)
    requires Valid(cfg, endpoints, es) && k <= |es|
    requires StateAt(cfg, endpoints, es, k).state == Stopped
    requires StateAt(cfg, endpoints, es, k).entity != NetEntityCommon.UNSTARTED
    ensures var s := Run(cfg, endpoints, es);
            && s.state == Stopped && s.entity != NetEntityCommon.UNSTARTED
            && s.log == StateAt(cfg, endpoints, es, k).log
    decreases |es|
  {
    if k < |es| {
      var init := es[..|es| - 1];
      assert init[..k] == es[..k];
      SilentOnceStopped(cfg, endpoints, init, k);
      RunKeepsInv(cfg, endpoints, init);
      StoppedStep(cfg, Run(cfg, endpoints, init), es[|es| - 1]);
    } else {
      assert es[..k] == es;
    }
  }

  /** tcp_connector_closed is reported at most once in a run and is the last callback of all, errors and
      state changes alike. */
  lemma ClosedIsLast(cfg: Config, endpoints: nat, es: seq<Event>, k: nat)
    requires Valid(cfg, endpoints, es) && k <= |es|
    requires CLOSED_CB in StateAt(cfg, endpoints, es, k).log
    ensures var log := Run(cfg, endpoints, es).log;
            && log == StateAt(cfg, endpoints, es, k).log
            && log[|log| - 1] == CLOSED_CB && CLOSED_CB !in log[..|log| - 1]
  {
    ValidPrefix(cfg, endpoints, es, k);
    RunKeepsInv(cfg, endpoints, es[..k]);
    SilentOnceStopped(cfg, endpoints, es, k);
    RunKeepsInv(cfg, endpoints, es);
  }

  /** The run contains a resolve that failed while the connector was resolving. */
  predicate ResolveFailed(cfg: Config, endpoints: nat, es: seq<Event>)
    requires Valid(cfg, endpoints, es)
    decreases |es|
  {
    es != [] &&
    var init, e := es[..|es| - 1], es[|es| - 1];
    ResolveFailed(cfg, endpoints, init)
    || (e.ResolveDone? && e.err != NoError && Run(cfg, endpoints, init).state == Resolving)
  }

  lemma {:induction false} ResolveFailedLeaves(cfg: Config, endpoints: nat, es: seq<Event>)
    requires Valid(cfg, endpoints, es)
    ensures var s := Run(cfg, endpoints, es);
            ResolveFailed(cfg, endpoints, es) <==>
              s.state == Stopped && s.entity != NetEntityCommon.UNSTARTED && s.log == [RESOLVING_CB]
    decreases |es|
  {
    if es != [] {
      var init, e := es[..|es| - 1], es[|es| - 1];
      ResolveFailedLeaves(cfg, endpoints, init);
      RunKeepsInv(cfg, endpoints, init);
      ResolvingLogStep(cfg, Run(cfg, endpoints, init), e);
    }
  }

  lemma ResolvingLogStep(cfg: Config, s: Conn, e: Event)
    requires Inv(cfg, s) && Enabled(s, e)
    ensures var s' := Next(cfg, s, e);
            s'.state == Stopped && s'.entity != NetEntityCommon.UNSTARTED && s'.log == [RESOLVING_CB] <==>
              || (s.state == Stopped && s.entity != NetEntityCommon.UNSTARTED && s.log == [RESOLVING_CB])
              || (e.ResolveDone? && e.err != NoError && s.state == Resolving)
  {
    NextKeepsInv(cfg, s, e);
    if s.state == Stopped && s.entity != NetEntityCommon.UNSTARTED {
      StoppedStep(cfg, s, e);
    } else if !e.ResolveDone? {
      StopsByClosing(cfg, s, e);
    }
  }

  lemma StopsByClosing(cfg: Config, s: Conn, e: Event)
    requires Inv(cfg, s) && Enabled(s, e) && !e.ResolveDone?
    requires s.state != Stopped || s.entity == NetEntityCommon.UNSTARTED
    ensures var s' := Next(cfg, s, e);
            s'.state == Stopped && s'.entity != NetEntityCommon.UNSTARTED ==> CLOSED_CB in s'.log
  {
    if s.state == Connecting && e.ConnectDone? && e.err == NoError {
      SuccessOutcome(cfg, s, e);
    }
  }

  /** Which ends are not reported: a started connector that has stopped has reported closed if and only if
      its resolve did not fail. */
  lemma ClosedUnlessResolveFailed(cfg: Config, endpoints: nat, es: seq<Event>)
    requires Valid(cfg, endpoints, es)
    requires Run(cfg, endpoints, es).state == Stopped && Run(cfg, endpoints, es).entity != NetEntityCommon.UNSTARTED
    ensures CLOSED_CB in Run(cfg, endpoints, es).log <==> !ResolveFailed(cfg, endpoints, es)
  {
    RunKeepsInv(cfg, endpoints, es);
    ResolveFailedLeaves(cfg, endpoints, es);
  }

  /** One more event of a run. */
  lemma RunSnoc(cfg: Config, endpoints: nat, es: seq<Event>, e: Event)
    requires Valid(cfg, endpoints, es) && Enabled(Run(cfg, endpoints, es), e)
    ensures Valid(cfg, endpoints, es + [e]) && Run(cfg, endpoints, es + [e]) == Next(cfg, Run(cfg, endpoints, es), e)
  {
    assert (es + [e])[..|es|] == es;
  }

  /** A run of one event. */
  lemma RunOne(cfg: Config, endpoints: nat, e: Event)
    requires Enabled(Initial(endpoints), e)
    ensures Valid(cfg, endpoints, [e]) && Run(cfg, endpoints, [e]) == Next(cfg, Initial(endpoints), e)
  {
    RunSnoc(cfg, endpoints, [], e);
    assert [] + [e] == [e];
  }

  /** Such an end: a failed resolve stops the connector without reporting closed, and the entity still counts
      as started. */
  lemma FailedResolveIsSilent(cfg: Config)
    ensures var es := [Start, ResolveDone(SystemError(1), 0)];
            && Valid(cfg, 0, es)
            && Run(cfg, 0, es).state == Stopped && Run(cfg, 0, es).entity == NetEntityCommon.STARTED
            && Run(cfg, 0, es).log == [RESOLVING_CB]
  {
    RunOne(cfg, 0, Start);
    var s := Run(cfg, 0, [Start]);
    assert s.state == Resolving && s.resolves == 1 && s.entity == NetEntityCommon.STARTED && s.log == [RESOLVING_CB];
    RunSnoc(cfg, 0, [Start], ResolveDone(SystemError(1), 0));
    assert [Start] + [ResolveDone(SystemError(1), 0)] == [Start, ResolveDone(SystemError(1), 0)];
  }

  /** The step closes the current IO handler with reconnecting off. */
  predicate LosesForGood(cfg: Config, s: Conn, e: Event)
    requires Enabled(s, e)
  {
    && !cfg.reconnOnErr
    && match e
       case HandlerEvent(h, a, _) => Notifies(s.lives[h], a)
       case ConnectDone(err, _, callback) => err == NoError && s.state == Connecting && LifeAfter(callback).notified
       case _ => false
  }

  predicate LostForGood(cfg: Config, endpoints: nat, es: seq<Event>)
    requires Valid(cfg, endpoints, es)
    decreases |es|
  {
    es != [] &&
    var init, e := es[..|es| - 1], es[|es| - 1];
    LostForGood(cfg, endpoints, init) || LosesForGood(cfg, Run(cfg, endpoints, init), e)
  }

  /** Some stop found the connector started. */
  predicate WinningStop(cfg: Config, endpoints: nat, es: seq<Event>)
    requires Valid(cfg, endpoints, es)
    decreases |es|
  {
    es != [] &&
    var init, e := es[..|es| - 1], es[|es| - 1];
    WinningStop(cfg, endpoints, init) || (e.StopCall? && Run(cfg, endpoints, init).entity == NetEntityCommon.STARTED)
  }

  /** `ended`: a resolve has failed or the last connection was lost for good; `stopped`: a stop has won. */
  ghost predicate EntityOf(s: Conn, ended: bool, stopped: bool) {
    && (s.state == Stopped && s.entity == NetEntityCommon.STARTED <==> ended && !stopped)
    && (stopped ==> s.entity == NetEntityCommon.STOPPED)
    && (s.state != Stopped ==> s.entity == if stopped then NetEntityCommon.STOPPED else NetEntityCommon.STARTED)
  }

  lemma EntityStep(cfg: Config, s: Conn, e: Event, ended: bool, stopped: bool)
    requires Inv(cfg, s) && Enabled(s, e) && EntityOf(s, ended, stopped)
    ensures EntityOf(Next(cfg, s, e),
                     ended || (e.ResolveDone? && e.err != NoError && s.state == Resolving) || LosesForGood(cfg, s, e),
                     stopped || (e.StopCall? && s.entity == NetEntityCommon.STARTED))
  {
    if e.ConnectDone? && e.err == NoError && s.state == Connecting {
      SuccessOutcome(cfg, s, e);
    }
  }

  /** When a connector that has ended still counts as started: over every run, if and only if it ended by a failed resolve or by losing
      its connection with reconnecting off, and no stop has won. */
  lemma {:induction false} EndedStillStarted(cfg: Config, endpoints: nat, es: seq<Event>)
    requires Valid(cfg, endpoints, es)
    ensures var s := Run(cfg, endpoints, es);
            && (s.state == Stopped && s.entity == NetEntityCommon.STARTED <==>
                (ResolveFailed(cfg, endpoints, es) || LostForGood(cfg, endpoints, es)) && !WinningStop(cfg, endpoints, es))
  {
    RunEntity(cfg, endpoints, es);
  }

  lemma {:induction false} RunEntity(cfg: Config, endpoints: nat, es: seq<Event>)
    requires Valid(cfg, endpoints, es)
    ensures EntityOf(Run(cfg, endpoints, es), ResolveFailed(cfg, endpoints, es) || LostForGood(cfg, endpoints, es),
                     WinningStop(cfg, endpoints, es))
    decreases |es|
  {
    if es != [] {
      var init, e := es[..|es| - 1], es[|es| - 1];
      RunEntity(cfg, endpoints, init);
      RunKeepsInv(cfg, endpoints, init);
      EntityStep(cfg, Run(cfg, endpoints, init), e, ResolveFailed(cfg, endpoints, init) || LostForGood(cfg, endpoints, init),
                 WinningStop(cfg, endpoints, init));
    }
  }

  /** An application's stop_io on the current IO handler leaves the connector active if and only if reconnecting is on; otherwise
      the connector ends stopped and reports closed. */
  lemma {:induction false} StopIoKeepsActive(cfg: Config, endpoints: nat, es: seq<Event>, err: Error)
    requires Valid(cfg, endpoints, es) && Run(cfg, endpoints, es).state == Connected
    ensures var s := Run(cfg, endpoints, es);
            && s.handler.Some? && Enabled(s, HandlerEvent(s.handler.value, StopIo, err))
            && var s' := Next(cfg, s, HandlerEvent(s.handler.value, StopIo, err));
            && s'.handler == None && s'.lives[s.handler.value] == CLOSED
            && (s'.state != Stopped <==> cfg.reconnOnErr)
            && (CLOSED_CB in s'.log <==> !cfg.reconnOnErr)
            && (cfg.reconnOnErr ==> s'.state == Connecting && s'.connects == 1)
  {
    var s := Run(cfg, endpoints, es);
    RunKeepsInv(cfg, endpoints, es);
    NextKeepsInv(cfg, s, HandlerEvent(s.handler.value, StopIo, err));
    StopIoStep(cfg, s, err);
  }

  lemma StopIoStep(cfg: Config, s: Conn, err: Error)
    requires Inv(cfg, s) && s.state == Connected
    ensures var s' := OnHandler(cfg, s, s.handler.value, StopIo, err);
            if cfg.reconnOnErr then s'.state == Connecting && s'.connects == 1
            else s'.state == Stopped && s'.log[|s'.log| - 1] == CLOSED_CB
  {
  }

  lemma ConnectedRun(cfg: Config)
    ensures var es := [Start, ConnectDone(NoError, None, [])];
            && Valid(cfg, 1, es)
            && var s := Run(cfg, 1, es);
            && s.state == Connected && s.handler == Some(0) && s.lives == [NEW] && s.entity == NetEntityCommon.STARTED
            && s.log == [ErrorCb(NoIo, TcpConnectorConnecting), ErrorCb(NoIo, TcpConnectorConnected), StateCb(0, 1, true)]
  {
    RunOne(cfg, 1, Start);
    var s := Run(cfg, 1, [Start]);
    assert s.state == Connecting && s.connects == 1 && s.entity == NetEntityCommon.STARTED && s.lives == [];
    assert s.log == [ErrorCb(NoIo, TcpConnectorConnecting)];
    RunSnoc(cfg, 1, [Start], ConnectDone(NoError, None, []));
    assert [Start] + [ConnectDone(NoError, None, [])] == [Start, ConnectDone(NoError, None, [])];
  }

  /** The callbacks of a connector without reconnecting whose application calls stop_io: closed is reported, although the entity
      still counts as started. */
  lemma StopIoEndsIt(timeout: TimeoutFunc)
    ensures var cfg := Config(false, timeout);
            var es := [Start, ConnectDone(NoError, None, []), HandlerEvent(0, StopIo, NoError)];
            && Valid(cfg, 1, es)
            && Run(cfg, 1, es).state == Stopped && Run(cfg, 1, es).entity == NetEntityCommon.STARTED
            && Run(cfg, 1, es).log == [ErrorCb(NoIo, TcpConnectorConnecting), ErrorCb(NoIo, TcpConnectorConnected), StateCb(0, 1, true),
                                       ErrorCb(Io(0), TcpIoHandlerStopped), StateCb(0, 0, false),
                                       ErrorCb(NoIo, TcpConnectorNoReconnectAttempted), CLOSED_CB]
  {
    var es := [Start, ConnectDone(NoError, None, [])];
    ConnectedRun(Config(false, timeout));
    RunSnoc(Config(false, timeout), 1, es, HandlerEvent(0, StopIo, NoError));
    assert es + [HandlerEvent(0, StopIo, NoError)] == [Start, ConnectDone(NoError, None, []), HandlerEvent(0, StopIo, NoError)];
  }

  /** A successful connect whose state change callback closes the new IO handler, with reconnecting on. */
  predicate ClosedInCallback(cfg: Config, e: Event) {
    && cfg.reconnOnErr
    && e.ConnectDone? && e.err == NoError
    && LifeAfter(e.callback).notified
  }

  /** The connects since the run's last successful connect are a reconnect that its own callback caused. */
  predicate SelfInflicted(cfg: Config, endpoints: nat, es: seq<Event>)
    requires Valid(cfg, endpoints, es)
    decreases |es|
  {
    es != [] &&
    var init, e := es[..|es| - 1], es[|es| - 1];
    if e.ConnectDone? && e.err == NoError && Run(cfg, endpoints, init).state == Connecting then ClosedInCallback(cfg, e)
    else SelfInflicted(cfg, endpoints, init)
  }

  lemma SkewStep(cfg: Config, s: Conn, e: Event)
    requires Enabled(s, e)
    ensures Next(cfg, s, e).since.skewed <==>
            if e.ConnectDone? && e.err == NoError && s.state == Connecting then ClosedInCallback(cfg, e) else s.since.skewed
  {
    if e.ConnectDone? && e.err == NoError && s.state == Connecting {
      SuccessOutcome(cfg, s, e);
    }
  }

  /** The recorded flag is what the events say. */
  lemma {:induction false} SkewFromEvents(cfg: Config, endpoints: nat, es: seq<Event>)
    requires Valid(cfg, endpoints, es)
    ensures Run(cfg, endpoints, es).since.skewed <==> SelfInflicted(cfg, endpoints, es)
    decreases |es|
  {
    if es != [] {
      SkewFromEvents(cfg, endpoints, es[..|es| - 1]);
      SkewStep(cfg, Run(cfg, endpoints, es[..|es| - 1]), es[|es| - 1]);
    }
  }

  /** How many connects the attempts do not count: the one begun inside the connect callback, which resets them afterwards. */
  function Uncounted(cfg: Config, endpoints: nat, es: seq<Event>): nat
    requires Valid(cfg, endpoints, es)
  {
    if SelfInflicted(cfg, endpoints, es) then 1 else 0
  }

  /** While connecting or waiting, the attempts are the connects begun since the last success, less one after a
      reconnect that the connect callback caused. */
  lemma {:induction false} AttemptsCountConnects(cfg: Config, endpoints: nat, es: seq<Event>)
    requires Valid(cfg, endpoints, es)
    ensures CountsFrom(cfg, Run(cfg, endpoints, es), Uncounted(cfg, endpoints, es))
  {
    RunKeepsInv(cfg, endpoints, es);
    SkewFromEvents(cfg, endpoints, es);
    CountsFromSkew(cfg, Run(cfg, endpoints, es));
  }

  /** Attempts, questions to the timeout function and waits, when `k` connects are not counted. */
  ghost predicate CountsFrom(cfg: Config, s: Conn, k: nat) {
    && k <= 1
    && (s.state == Connecting || s.state == Timeout ==> s.attempts == s.since.begun - k)
    && (forall i :: 0 <= i < |s.since.asked| ==> s.since.asked[i] == i + 1 - k)
    && (forall i :: 0 <= i < |s.since.waits| ==> cfg.timeout(i + 1 - k) == Some(s.since.waits[i]))
  }

  lemma CountsFromSkew(cfg: Config, s: Conn)
    requires Counts(cfg, s)
    ensures CountsFrom(cfg, s, Skew(s))
  {
    forall i | 0 <= i < |s.since.waits| ensures cfg.timeout(i + 1 - Skew(s)) == Some(s.since.waits[i]) {
      assert s.since.asked[i] == i + 1 - Skew(s);
    }
  }

  /** The promise that the attempts are greater than zero: since the last success the timeout function was asked about 1, 2, 3, ...
      if the callback of that success did not close its handler. */
  lemma {:induction false} AskedFromOne(cfg: Config, endpoints: nat, es: seq<Event>)
    requires Valid(cfg, endpoints, es) && !SelfInflicted(cfg, endpoints, es)
    ensures forall i :: 0 <= i < |Run(cfg, endpoints, es).since.asked| ==> Run(cfg, endpoints, es).since.asked[i] == i + 1
  {
    AttemptsCountConnects(cfg, endpoints, es);
  }

  /** Exactly such a callback breaks it: the timeout function has been asked about zero attempts since the last success if and
      only if that success's callback closed the handler and a connect has failed since; and a failing connect asks about zero
      if and only if it is the first to fail after such a callback. */
  lemma {:induction false} AskedZeroExactly(cfg: Config, endpoints: nat, es: seq<Event>)
    requires Valid(cfg, endpoints, es)
    ensures var s := Run(cfg, endpoints, es);
            && (0 in s.since.asked <==> SelfInflicted(cfg, endpoints, es) && s.since.asked != [])
            && (s.state == Connecting ==> (s.attempts == 0 <==> SelfInflicted(cfg, endpoints, es) && s.since.asked == []))
  {
    RunKeepsInv(cfg, endpoints, es);
    AttemptsCountConnects(cfg, endpoints, es);
    var s := Run(cfg, endpoints, es);
    if SelfInflicted(cfg, endpoints, es) && s.since.asked != [] {
      assert s.since.asked[0] == 0;
    }
  }

  lemma {:induction false} NothingSelfInflicted(cfg: Config, endpoints: nat, es: seq<Event>)
    requires Valid(cfg, endpoints, es) && forall e :: e in es ==> !ClosedInCallback(cfg, e)
    ensures !SelfInflicted(cfg, endpoints, es)
    decreases |es|
  {
    if es != [] {
      assert es[|es| - 1] in es;
      NothingSelfInflicted(cfg, endpoints, es[..|es| - 1]);
    }
  }

  /** A run without any such callback keeps the promise throughout. */
  lemma {:induction false} NeverAskedZero(cfg: Config, endpoints: nat, es: seq<Event>)
    requires Valid(cfg, endpoints, es) && forall e :: e in es ==> !ClosedInCallback(cfg, e)
    ensures 0 !in Run(cfg, endpoints, es).since.asked
    ensures Run(cfg, endpoints, es).state == Connecting ==> Run(cfg, endpoints, es).attempts > 0
  {
    NothingSelfInflicted(cfg, endpoints, es);
    AskedZeroExactly(cfg, endpoints, es);
  }

  /** The callback stops the new handler and thereby reconnects. */
  const STOPPING_CALLBACK := ConnectDone(NoError, None, [(StopIo, NoError)])

  lemma StoppingCallbackRun(timeout: TimeoutFunc)
    ensures var cfg := Config(true, timeout);
            && Valid(cfg, 1, [Start, STOPPING_CALLBACK])
            && var s := Run(cfg, 1, [Start, STOPPING_CALLBACK]);
            s.state == Connecting && s.attempts == 0 && s.connects == 1 && s.since.asked == []
  {
    var cfg := Config(true, timeout);
    RunOne(cfg, 1, Start);
    assert STOPPING_CALLBACK.callback[..0] == [] && LifeAfter(STOPPING_CALLBACK.callback) == CLOSED;
    RunSnoc(cfg, 1, [Start], STOPPING_CALLBACK);
    assert [Start] + [STOPPING_CALLBACK] == [Start, STOPPING_CALLBACK];
    SuccessOutcome(cfg, Run(cfg, 1, [Start]), STOPPING_CALLBACK);
    OneOperationAtATime(cfg, 1, [Start, STOPPING_CALLBACK]);
  }

  /** With such a callback it happens: the reconnect fails, and the timeout function is asked about zero attempts. */
  lemma AskedAboutZero(timeout: TimeoutFunc)
    ensures var cfg := Config(true, timeout);
            var es := [Start, STOPPING_CALLBACK, ConnectDone(SystemError(1), None, [])];
            Valid(cfg, 1, es) && Run(cfg, 1, es).since.asked == [0]
  {
    StoppingCallbackRun(timeout);
    var failed := ConnectDone(SystemError(1), None, []);
    RunSnoc(Config(true, timeout), 1, [Start, STOPPING_CALLBACK], failed);
    assert [Start, STOPPING_CALLBACK] + [failed] == [Start, STOPPING_CALLBACK, failed];
  }

  /** Failed connects and undisturbed timers. */
  predicate Failing(e: Event) {
    match e
    case ConnectDone(err, throws, _) => err.SystemError? && throws == None
    case TimerDone(err) => err == NoError
    case _ => false
  }

  /** Events that a burst does not feel: a start of what was started, whatever reaches an IO handler lost before, a stop whose close has
      not run yet, and the close of what has stopped. */
  predicate Idle(s: Conn, e: Event) {
    match e
    case Start => s.entity != NetEntityCommon.UNSTARTED
    case HandlerEvent(_, _, _) => s.state != Connected
    case StopCall => true
    case StopRun => s.state == Stopped
    case _ => false
  }

  /** The events of a run from its k-th on are a burst: it begins with a connect that no failure precedes since the
      last success, and in it every connect fails and every timer fires. */
  ghost predicate Burst(cfg: Config, endpoints: nat, es: seq<Event>, k: nat)
    requires Valid(cfg, endpoints, es)
  {
    && k <= |es|
    && StateAt(cfg, endpoints, es, k).state == Connecting && StateAt(cfg, endpoints, es, k).since.asked == []
    && forall i :: k <= i < |es| ==> Failing(es[i]) || Idle(StateAt(cfg, endpoints, es, i), es[i])
  }

  /** How many connects have failed and timers fired from the k-th event on. */
  function Failures(es: seq<Event>, k: nat): nat {
    if |es| <= k then 0 else Failures(es[..|es| - 1], k) + if Failing(es[|es| - 1]) then 1 else 0
  }

  /** Every connect begins a burst except those that follow a timer: the first one with known endpoints, the one after a
      resolve, and every reconnect, self-inflicted or not. */
  lemma {:induction false} BurstsBegin(cfg: Config, endpoints: nat, es: seq<Event>)
    requires Valid(cfg, endpoints, es) && es != []
    requires BeginsBurst(cfg, Run(cfg, endpoints, es[..|es| - 1]), es[|es| - 1])
    ensures Burst(cfg, endpoints, es, |es|)
  {
    var init := es[..|es| - 1];
    RunKeepsInv(cfg, endpoints, init);
    assert es[..|es|] == es;
    BurstStep(cfg, Run(cfg, endpoints, init), es[|es| - 1]);
  }

  /** The step begins a connect other than after a timer. */
  predicate BeginsBurst(cfg: Config, s: Conn, e: Event)
    requires Enabled(s, e)
  {
    || (Next(cfg, s, e).since.begun > s.since.begun && !e.TimerDone?)
    || (s.state == Connecting && ClosedInCallback(cfg, e))
  }

  lemma ConnectDoneStep(cfg: Config, s: Conn, e: Event)
    requires Enabled(s, e) && e.ConnectDone?
    ensures BeginsBurst(cfg, s, e) ==> Next(cfg, s, e).state == Connecting && Next(cfg, s, e).since.asked == []
  {
    if e.err == NoError && s.state == Connecting {
      SuccessOutcome(cfg, s, e);
    }
  }

  lemma BurstStep(cfg: Config, s: Conn, e: Event)
    requires Inv(cfg, s) && Enabled(s, e)
    ensures BeginsBurst(cfg, s, e) ==> Next(cfg, s, e).state == Connecting && Next(cfg, s, e).since.asked == []
  {
    if e.ConnectDone? {
      ConnectDoneStep(cfg, s, e);
    }
  }

  /** Where a burst has got to after so many events, when `k` connects are not counted. */
  ghost predicate FailingState(cfg: Config, s: Conn, steps: nat, k: nat) {
    && s.entity != NetEntityCommon.UNSTARTED && s.resolves == 0 && Skew(s) == k
    && (forall i :: 0 <= i < |s.since.asked| ==> s.since.asked[i] == i + 1 - k)
    && (forall i :: 0 <= i < |s.since.waits| ==> cfg.timeout(i + 1 - k) == Some(s.since.waits[i]))
    && match s.state
       case Connecting =>
         && steps == 2 * |s.since.asked| && |s.since.waits| == |s.since.asked|
         && s.since.begun == s.attempts + k == |s.since.asked| + 1 && s.connects == 1
       case Timeout =>
         && steps == 2 * |s.since.asked| - 1 && |s.since.waits| == |s.since.asked|
         && s.since.begun == s.attempts + k == |s.since.asked| && s.timers == 1
       case Stopped =>
         && steps == 2 * |s.since.asked| - 1 && |s.since.waits| == |s.since.asked| - 1 && s.since.begun == |s.since.asked|
         && cfg.timeout(|s.since.asked| - k) == None && s.connects + s.timers == 0
         && |s.log| >= 2 && s.log[|s.log| - 2..] == [ErrorCb(NoIo, TcpConnectorNoReconnectAttempted), CLOSED_CB]
       case _ => false
  }

  lemma FailingStep(cfg: Config, s: Conn, e: Event, steps: nat, k: nat)
    requires FailingState(cfg, s, steps, k) && Inv(cfg, s) && Enabled(s, e) && Failing(e)
    ensures FailingState(cfg, Next(cfg, s, e), steps + 1, k)
  {
  }

  lemma IdleStep(cfg: Config, s: Conn, e: Event, steps: nat, k: nat)
    requires FailingState(cfg, s, steps, k) && Inv(cfg, s) && Enabled(s, e) && Idle(s, e)
    ensures FailingState(cfg, Next(cfg, s, e), steps, k)
  {
  }

  lemma BurstStart(cfg: Config, s: Conn)
    requires Inv(cfg, s) && s.state == Connecting && s.since.asked == []
    ensures FailingState(cfg, s, 0, Skew(s))
  {
  }

  /** In every burst, after a start, a resolve or a lost connection, and for any timeout function: it is asked about 1, 2, 3, ...
      (from 0 if self-inflicted) and waited for, until the first time it gives up. */
  lemma {:induction false} FailingRun(cfg: Config, endpoints: nat, es: seq<Event>, b: nat)
    requires Valid(cfg, endpoints, es) && Burst(cfg, endpoints, es, b)
    ensures FailingState(cfg, Run(cfg, endpoints, es), Failures(es, b), Uncounted(cfg, endpoints, es))
  {
    FailingFrom(cfg, endpoints, es, b, Skew(StateAt(cfg, endpoints, es, b)));
    SkewFromEvents(cfg, endpoints, es);
  }

  lemma {:induction false} SamePast(cfg: Config, endpoints: nat, es: seq<Event>, i: nat)
    requires Valid(cfg, endpoints, es) && i < |es|
    ensures StateAt(cfg, endpoints, es[..|es| - 1], i) == StateAt(cfg, endpoints, es, i)
  {
    assert es[..|es| - 1][..i] == es[..i];
  }

  lemma {:induction false} ShorterBurst(cfg: Config, endpoints: nat, es: seq<Event>, b: nat)
    requires Valid(cfg, endpoints, es) && Burst(cfg, endpoints, es, b) && b < |es|
    ensures Burst(cfg, endpoints, es[..|es| - 1], b)
    ensures Failing(es[|es| - 1]) || Idle(Run(cfg, endpoints, es[..|es| - 1]), es[|es| - 1])
    ensures StateAt(cfg, endpoints, es[..|es| - 1], b) == StateAt(cfg, endpoints, es, b)
  {
    var init := es[..|es| - 1];
    SamePast(cfg, endpoints, es, b);
    forall i | b <= i < |init| ensures Failing(init[i]) || Idle(StateAt(cfg, endpoints, init, i), init[i]) {
      SamePast(cfg, endpoints, es, i);
    }
  }

  lemma {:induction false} OneMore(cfg: Config, endpoints: nat, es: seq<Event>, steps: nat, k: nat)
    requires Valid(cfg, endpoints, es) && es != []
    requires Failing(es[|es| - 1]) || Idle(Run(cfg, endpoints, es[..|es| - 1]), es[|es| - 1])
    requires FailingState(cfg, Run(cfg, endpoints, es[..|es| - 1]), steps, k)
    ensures FailingState(cfg, Run(cfg, endpoints, es), steps + if Failing(es[|es| - 1]) then 1 else 0, k)
  {
    RunKeepsInv(cfg, endpoints, es[..|es| - 1]);
    if Failing(es[|es| - 1]) {
      FailingStep(cfg, Run(cfg, endpoints, es[..|es| - 1]), es[|es| - 1], steps, k);
    } else {
      IdleStep(cfg, Run(cfg, endpoints, es[..|es| - 1]), es[|es| - 1], steps, k);
    }
  }

  lemma {:induction false} FailingFrom(cfg: Config, endpoints: nat, es: seq<Event>, b: nat, k: nat)
    requires Valid(cfg, endpoints, es) && Burst(cfg, endpoints, es, b)
    requires k == Skew(StateAt(cfg, endpoints, es, b))
    ensures FailingState(cfg, Run(cfg, endpoints, es), Failures(es, b), k)
    decreases |es|
  {
    if b == |es| {
      assert es[..b] == es;
      RunKeepsInv(cfg, endpoints, es);
      BurstStart(cfg, Run(cfg, endpoints, es));
    } else {
      ShorterBurst(cfg, endpoints, es, b);
      FailingFrom(cfg, endpoints, es[..|es| - 1], b, k);
      OneMore(cfg, endpoints, es, Failures(es[..|es| - 1], b), k);
    }
  }

  /** After so many failures of a burst: it gives up after exactly `m` waits, all the same, and `m + 1` connects, reporting that no
      reconnect is attempted; until then there is always a completion to wait for. */
  ghost predicate GivesUpAfter(s: Conn, failures: nat, m: nat, wait: int) {
    && failures <= 2 * m + 1
    && (s.state == Stopped <==> failures == 2 * m + 1)
    && s.since.begun == failures / 2 + 1
    && (s.state == Stopped ==>
          && s.since.begun == m + 1 && |s.since.waits| == m
          && |s.log| >= 2 && s.log[|s.log| - 2..] == [ErrorCb(NoIo, TcpConnectorNoReconnectAttempted), CLOSED_CB])
    && (s.state != Stopped ==> s.connects + s.timers == 1)
    && (forall i :: 0 <= i < |s.since.waits| ==> s.since.waits[i] == wait)
  }

  /** With a counted timeout of N every burst gives up after exactly N timer waits and N + 1 connects, one more of each if it is
      self-inflicted. */
  lemma {:induction false} CountedGivesUp(cfg: Config, endpoints: nat, es: seq<Event>, b: nat, wait: int, n: nat)
    requires cfg.timeout == CountedTimeout(wait, n)
    requires Valid(cfg, endpoints, es) && Burst(cfg, endpoints, es, b)
    ensures GivesUpAfter(Run(cfg, endpoints, es), Failures(es, b), n + Uncounted(cfg, endpoints, es), wait)
  {
    FailingRun(cfg, endpoints, es, b);
    RunKeepsInv(cfg, endpoints, es);
    var s, k := Run(cfg, endpoints, es), Uncounted(cfg, endpoints, es);
    if s.since.waits != [] {
      assert cfg.timeout(|s.since.waits| - 1 + 1 - k) == Some(s.since.waits[|s.since.waits| - 1]);
    }
  }

  /** The documented bound: a burst has begun at most N connects if and only if fewer than 2 * N of its connects have failed and
      timers fired; the failure of the N-th connect and its timer begin one too many. */
  lemma {:induction false} CountedBoundExactly(cfg: Config, endpoints: nat, es: seq<Event>, b: nat, wait: int, n: nat)
    requires cfg.timeout == CountedTimeout(wait, n)
    requires Valid(cfg, endpoints, es) && Burst(cfg, endpoints, es, b)
    ensures Run(cfg, endpoints, es).since.begun <= n <==> Failures(es, b) < 2 * n
  {
    CountedGivesUp(cfg, endpoints, es, b, wait, n);
  }

  const FAILED_CONNECT := ConnectDone(SystemError(1), None, [])

  lemma OnceCountedWaits(wait: int)
    ensures var cfg := Config(false, CountedTimeout(wait, 1));
            var es := [Start, FAILED_CONNECT, TimerDone(NoError)];
            && Valid(cfg, 1, es)
            && var s := Run(cfg, 1, es);
            && s.state == Connecting && s.connects == 1 && s.attempts == 2 && s.since.begun == 2 && s.since.waits == [wait]
            && s.log == [ErrorCb(NoIo, TcpConnectorConnecting), ErrorCb(NoIo, SystemError(1)), ErrorCb(NoIo, TcpConnectorTimeout),
                         ErrorCb(NoIo, TcpConnectorConnecting)]
  {
    var cfg := Config(false, CountedTimeout(wait, 1));
    RunOne(cfg, 1, Start);
    RunSnoc(cfg, 1, [Start], FAILED_CONNECT);
    assert [Start] + [FAILED_CONNECT] == [Start, FAILED_CONNECT];
    var s := Run(cfg, 1, [Start, FAILED_CONNECT]);
    assert s.state == Timeout && s.timers == 1 && s.attempts == 1 && s.since.begun == 1 && s.connects == 0;
    assert s.since.waits == [wait];
    assert s.log == [ErrorCb(NoIo, TcpConnectorConnecting), ErrorCb(NoIo, SystemError(1)), ErrorCb(NoIo, TcpConnectorTimeout)];
    RunSnoc(cfg, 1, [Start, FAILED_CONNECT], TimerDone(NoError));
    assert [Start, FAILED_CONNECT] + [TimerDone(NoError)] == [Start, FAILED_CONNECT, TimerDone(NoError)];
  }

  /** Such a run, with all its callbacks: a count of one, two connects, then stopped. */
  lemma CountOfOneConnectsTwice(wait: int)
    ensures var cfg := Config(false, CountedTimeout(wait, 1));
            var es := [Start, FAILED_CONNECT, TimerDone(NoError), FAILED_CONNECT];
            && Valid(cfg, 1, es) && Run(cfg, 1, es).since.begun == 2 && Run(cfg, 1, es).state == Stopped
            && Run(cfg, 1, es).log == [ErrorCb(NoIo, TcpConnectorConnecting), ErrorCb(NoIo, SystemError(1)),
                                       ErrorCb(NoIo, TcpConnectorTimeout), ErrorCb(NoIo, TcpConnectorConnecting),
                                       ErrorCb(NoIo, SystemError(1)), ErrorCb(NoIo, TcpConnectorNoReconnectAttempted), CLOSED_CB]
  {
    OnceCountedWaits(wait);
    var es := [Start, FAILED_CONNECT, TimerDone(NoError)];
    RunSnoc(Config(false, CountedTimeout(wait, 1)), 1, es, FAILED_CONNECT);
    assert es + [FAILED_CONNECT] == [Start, FAILED_CONNECT, TimerDone(NoError), FAILED_CONNECT];
  }

  /** With a simple timeout no burst ever gives up. */
  lemma {:induction false} SimpleNeverGivesUp(cfg: Config, endpoints: nat, es: seq<Event>, b: nat, wait: int)
    requires cfg.timeout == SimpleTimeout(wait)
    requires Valid(cfg, endpoints, es) && Burst(cfg, endpoints, es, b)
    ensures Run(cfg, endpoints, es).state in {Connecting, Timeout}
  {
    FailingRun(cfg, endpoints, es, b);
  }

  /** Its waits are always the same. */
  lemma {:induction false} SimpleWaits(cfg: Config, endpoints: nat, es: seq<Event>, wait: int)
    requires cfg.timeout == SimpleTimeout(wait) && Valid(cfg, endpoints, es)
    ensures forall i :: 0 <= i < |Run(cfg, endpoints, es).since.waits| ==> Run(cfg, endpoints, es).since.waits[i] == wait
  {
    AttemptsCountConnects(cfg, endpoints, es);
    SameWaits(cfg, Run(cfg, endpoints, es), Uncounted(cfg, endpoints, es), wait);
  }

  lemma SameWaits(cfg: Config, s: Conn, k: nat, wait: int)
    requires cfg.timeout == SimpleTimeout(wait) && CountsFrom(cfg, s, k)
    ensures forall i :: 0 <= i < |s.since.waits| ==> s.since.waits[i] == wait
  {
    forall i | 0 <= i < |s.since.waits| ensures s.since.waits[i] == wait {
      assert cfg.timeout(i + 1 - k) == Some(s.since.waits[i]);
    }
  }

  /** With a backoff timeout none does either. */
  lemma {:induction false} BackoffNeverGivesUp(cfg: Config, endpoints: nat, es: seq<Event>, b: nat, initial: int, max: int, scale: int)
    requires cfg.timeout == BackoffTimeout(initial, max, scale)
    requires Valid(cfg, endpoints, es) && Burst(cfg, endpoints, es, b)
    ensures Run(cfg, endpoints, es).state in {Connecting, Timeout}
  {
    FailingRun(cfg, endpoints, es, b);
  }

  /** In every run, the waits since the last success add up to the backoff's total; after a self-inflicted reconnect the answer
      to zero attempts comes first. */
  lemma {:induction false} BackoffWaits(cfg: Config, endpoints: nat, es: seq<Event>, initial: int, max: int, scale: int)
    requires cfg.timeout == BackoffTimeout(initial, max, scale) && Valid(cfg, endpoints, es)
    ensures var waits := Run(cfg, endpoints, es).since.waits;
            SumOf(waits) ==
            if waits == [] || !SelfInflicted(cfg, endpoints, es) then TotalWait(initial, max, scale, |waits|)
            else BackoffTicks(initial, max, scale, 0) + TotalWait(initial, max, scale, |waits| - 1)
  {
    AttemptsCountConnects(cfg, endpoints, es);
    BackoffSum(cfg, Run(cfg, endpoints, es), Uncounted(cfg, endpoints, es), initial, max, scale);
  }

  lemma BackoffSum(cfg: Config, s: Conn, k: nat, initial: int, max: int, scale: int)
    requires cfg.timeout == BackoffTimeout(initial, max, scale) && CountsFrom(cfg, s, k)
    ensures SumOf(s.since.waits) ==
            if s.since.waits == [] || k == 0 then TotalWait(initial, max, scale, |s.since.waits|)
            else BackoffTicks(initial, max, scale, 0) + TotalWait(initial, max, scale, |s.since.waits| - 1)
  {
    var waits := s.since.waits;
    forall i | 0 <= i < |waits| ensures waits[i] == BackoffTicks(initial, max, scale, i + 1 - k) {
      assert cfg.timeout(i + 1 - k) == Some(waits[i]);
    }
    SumOfBackoffs(waits, initial, max, scale, k);
  }

  function SumOf(s: seq<int>): int {
    if s == [] then 0 else SumOf(s[..|s| - 1]) + s[|s| - 1]
  }

  lemma {:induction false} SumOfBackoffs(waits: seq<int>, initial: int, max: int, scale: int, k: nat)
    requires k <= 1 && forall i :: 0 <= i < |waits| ==> waits[i] == BackoffTicks(initial, max, scale, i + 1 - k)
    ensures SumOf(waits) ==
            if waits == [] || k == 0 then TotalWait(initial, max, scale, |waits|)
            else BackoffTicks(initial, max, scale, 0) + TotalWait(initial, max, scale, |waits| - 1)
  {
    if waits != [] {
      SumOfBackoffs(waits[..|waits| - 1], initial, max, scale, k);
    }
  }
}
