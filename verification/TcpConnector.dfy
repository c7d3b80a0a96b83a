/** The TCP connector's call chains. Asio's outstanding operations are counted in fields, and its IO handlers are
    represented by their lives; closing one calls back into the connector through its notifier. */
module TcpConnector {
  import opened Bytes
  import opened NetIpError
  import opened HandlerLife
  import opened ConnectorTimeout
  import opened ConnectorProtocol
  import opened ConnectorRuns
  import NetEntityCommon

  class TcpConnector {
    const entityCommon: NetEntityCommon.NetEntityCommon
    const reconnOnErr: bool
    const timeoutFunc: TimeoutFunc
    var state: ConnState
    var ioHandler: Option<nat>
    var endpoints: nat
    var connAttempts: nat
    var resolves: nat
    var connects: nat
    var timers: nat
    var closesPosted: nat
    var lives: seq<Life>
    ghost var log: seq<Callback>
    ghost var since: Retries

    ghost function State(): Conn
      reads this, entityCommon
    {
      Conn(entityCommon.started, state, ioHandler, endpoints, connAttempts, resolves, connects, timers,
           closesPosted, lives, log, since)
    }

    ghost function Cfg(): Config {
      Config(reconnOnErr, timeoutFunc)
    }

    /** Between events: everything that holds after every run. */
    ghost predicate Valid()
      reads this, entityCommon
    {
      Inv(Cfg(), State())
    }

    /** What also holds within an event: there is an IO handler exactly while connected, and only a started connector does
        anything. */
    ghost predicate Consistent()
      reads this, entityCommon
    {
      && (entityCommon.started == NetEntityCommon.UNSTARTED ==> state == Stopped)
      && (state == Connected <==> ioHandler.Some?)
      && (ioHandler.Some? ==> ioHandler.value < |lives|)
    }

    constructor (endpoints: nat, timeoutFunc: TimeoutFunc, reconnOnErr: bool)
      ensures Valid() && State() == Initial(endpoints) && fresh(entityCommon)
      ensures this.timeoutFunc == timeoutFunc && this.reconnOnErr == reconnOnErr
    {
      entityCommon := new NetEntityCommon.NetEntityCommon();
      this.reconnOnErr, this.timeoutFunc := reconnOnErr, timeoutFunc;
      state, ioHandler, this.endpoints, connAttempts := Stopped, None, endpoints, 0;
      resolves, connects, timers, closesPosted, lives := 0, 0, 0, 0, [];
      log, since := [], NO_RETRIES;
    }

    method CallErrorCb(io: IoRef, err: Error)
      modifies this`log
      ensures log == old(log) + [ErrorCb(io, err)]
    {
      log := log + [ErrorCb(io, err)];
    }

    method CallIoStateChgCb(h: nat, count: nat, starting: bool)
      modifies this`log
      ensures log == old(log) + [StateCb(h, count, starting)]
    {
      log := log + [StateCb(h, count, starting)];
    }

    method Start() returns (started: bool)
      requires Valid()
      modifies this, entityCommon
      ensures Valid() && started == (old(entityCommon.started) == NetEntityCommon.UNSTARTED)
      ensures State() == Next(Cfg(), old(State()), Event.Start)
    {
      NextKeepsInv(Cfg(), State(), Event.Start);
      started := entityCommon.Start();
      if started {
        DoStart();
      }
    }

    method DoStart()
      requires ioHandler == None && entityCommon.started != NetEntityCommon.UNSTARTED
      modifies this
      ensures Consistent()
      ensures State() ==
              if endpoints > 0 then Connect(old(State()))
              else old(State()).(state := Resolving, resolves := old(resolves) + 1,
                                 log := old(log) + [ErrorCb(NoIo, TcpConnectorResolvingAddresses)])
    {
      if endpoints == 0 {
        state := Resolving;
        CallErrorCb(NoIo, TcpConnectorResolvingAddresses);
        resolves := resolves + 1;
        return;
      }
      StartConnect();
    }

    method HandleResolve(err: Error, found: nat)
      requires Valid() && resolves > 0 && External(err)
      modifies this, entityCommon
      ensures Valid()
      ensures State() == Next(Cfg(), old(State()), ResolveDone(err, found))
    {
      NextKeepsInv(Cfg(), State(), ResolveDone(err, found));
      resolves := resolves - 1;
      if err != NoError || state != Resolving {
        state := Stopped;
        Close(err);
        return;
      }
      endpoints := endpoints + found;
      StartConnect();
    }

    /** The compare-and-swap of stop; when it wins, the close is posted to the executor. */
    method Stop() returns (won: bool)
      requires Valid()
      modifies this, entityCommon
      ensures Valid() && won == (old(entityCommon.started) == NetEntityCommon.STARTED)
      ensures State() == Next(Cfg(), old(State()), StopCall)
    {
      NextKeepsInv(Cfg(), State(), StopCall);
      won := entityCommon.Stop();
      if won {
        closesPosted := closesPosted + 1;
      }
    }

    method RunPostedStop()
      requires Valid() && closesPosted > 0
      modifies this, entityCommon
      ensures Valid()
      ensures State() == Next(Cfg(), old(State()), StopRun)
    {
      NextKeepsInv(Cfg(), State(), StopRun);
      closesPosted := closesPosted - 1;
      Close(TcpConnectorStopped);
    }

    method Close(err: Error)
      requires state == ConnState.Closing || state == Stopped || Consistent()
      modifies this, entityCommon
      ensures old(Consistent()) ==> Consistent()
      ensures State() == ConnectorProtocol.Close(old(State()), err)
    {
      if state == ConnState.Closing || state == Stopped {
        return;
      }
      var savState := state;
      state := ConnState.Closing;
      entityCommon.SetStopped();
      if savState == Connected {
        CallErrorCb(NoIo, err);
        if ioHandler.Some? {
          HandlerAction(ioHandler.value, StopIo, NoError);
          return;
        }
      }
      FinishClose(err);
    }

    method FinishClose(err: Error)
      requires ioHandler == None
      modifies this
      ensures Consistent()
      ensures State() == Finish(old(State()), IfError(err))
    {
      state := Stopped;
      if err != NoError {
        CallErrorCb(NoIo, err);
      }
      CallErrorCb(NoIo, TcpConnectorClosed);
    }

    method StartConnect()
      requires ioHandler == None && entityCommon.started != NetEntityCommon.UNSTARTED
      modifies this
      ensures Consistent()
      ensures State() == Connect(old(State()))
    {
      state := Connecting;
      connAttempts := connAttempts + 1;
      since := since.(begun := since.begun + 1);
      CallErrorCb(NoIo, TcpConnectorConnecting);
      connects := connects + 1;
    }

    /** `throws` is what arming the timer throws, if it does; `callback` is what the application does, one
        call after the other, with the new IO handler inside its state change callback. */
    method HandleConnect(err: Error, throws: Option<Error>, callback: seq<(Action, Error)>)
      requires Valid() && Enabled(State(), ConnectDone(err, throws, callback))
      modifies this, entityCommon
      ensures Valid()
      ensures State() == Next(Cfg(), old(State()), ConnectDone(err, throws, callback))
    {
      NextKeepsInv(Cfg(), State(), ConnectDone(err, throws, callback));
      connects := connects - 1;
      if state != Connecting {
        return;
      }
      if err != NoError {
        ConnectFailed(err, throws);
        return;
      }
      ConnectSucceeded(callback);
    }

    method ConnectSucceeded(callback: seq<(Action, Error)>)
      requires Consistent() && state == Connecting
      modifies this
      ensures Consistent()
      ensures State() == OnConnected(Cfg(), old(State()), callback)
    {
      var h := |lives|;
      MakeIoHandler();
      for i := 0 to |callback|
        invariant Consistent() && h < |lives|
        invariant State() == AfterActions(Cfg(), JustConnected(old(State())), h, callback[..i])
      {
        assert callback[..i + 1][..i] == callback[..i];
        HandlerAction(h, callback[i].0, callback[i].1);
      }
      assert callback[..|callback|] == callback;
      connAttempts := 0;
      since := since.(skewed := state == Connecting);
    }

    method MakeIoHandler()
      requires Consistent() && state == Connecting
      modifies this
      ensures Consistent()
      ensures State() == JustConnected(old(State()))
    {
      var h := |lives|;
      lives := lives + [NEW];
      ioHandler := Some(h);
      state := Connected;
      since := NO_RETRIES;
      CallErrorCb(NoIo, TcpConnectorConnected);
      CallIoStateChgCb(h, 1, true);
      AppendTwo(old(log), ErrorCb(NoIo, TcpConnectorConnected), StateCb(h, 1, true));
    }

    method ConnectFailed(err: Error, throws: Option<Error>)
      requires Consistent() && state == Connecting
      modifies this, entityCommon
      ensures Consistent()
      ensures State() == OnConnectFailed(Cfg(), old(State()), err, throws)
    {
      CallErrorCb(NoIo, err);
      since := since.(asked := since.asked + [connAttempts]);
      var optTimeout := timeoutFunc(connAttempts);
      if optTimeout == None {
        Close(TcpConnectorNoReconnectAttempted);
        return;
      }
      if throws.Some? {
        Close(throws.value);
        return;
      }
      state := Timeout;
      CallErrorCb(NoIo, TcpConnectorTimeout);
      timers := timers + 1;
      since := since.(waits := since.waits + [optTimeout.value]);
    }

    method HandleTimer(err: Error)
      requires Valid() && timers > 0 && External(err)
      modifies this, entityCommon
      ensures Valid()
      ensures State() == Next(Cfg(), old(State()), TimerDone(err))
    {
      NextKeepsInv(Cfg(), State(), TimerDone(err));
      TimerFired(err);
    }

    method TimerFired(err: Error)
      requires Consistent() && timers > 0 && External(err)
      modifies this, entityCommon
      ensures State() == Next(Cfg(), old(State()), TimerDone(err))
    {
      timers := timers - 1;
      if err != NoError || state != Timeout {
        Close(err);
        return;
      }
      StartConnect();
    }

    /** Called by an IO handler that has closed. */
    method NotifyMe(err: Error, h: nat)
      requires state == Connected ==> entityCommon.started != NetEntityCommon.UNSTARTED
      modifies this
      ensures Consistent()
      ensures var s := old(State()).(handler := None, log := old(log) + HandlerClosed(h, err));
              State() == if old(state) == Connected && reconnOnErr then Connect(s)
                         else Finish(s, [ErrorCb(NoIo, TcpConnectorNoReconnectAttempted)])
    {
      ioHandler := None;
      CallErrorCb(Io(h), err);
      CallIoStateChgCb(h, 0, false);
      assert log == old(log) + HandlerClosed(h, err);
      if state == Connected && reconnOnErr {
        StartConnect();
        return;
      }
      FinishClose(TcpConnectorNoReconnectAttempted);
    }

    /** Whatever happens to an IO handler outside the connector's own calls. */
    method HandleHandlerEvent(h: nat, a: Action, err: Error)
      requires Valid() && Enabled(State(), HandlerEvent(h, a, err))
      modifies this
      ensures Valid()
      ensures State() == Next(Cfg(), old(State()), HandlerEvent(h, a, err))
    {
      NextKeepsInv(Cfg(), State(), HandlerEvent(h, a, err));
      HandlerAction(h, a, err);
    }

    method HandlerAction(h: nat, a: Action, err: Error)
      requires h < |lives| && (Consistent() || (state == ConnState.Closing && Notifies(lives[h], a)))
      modifies this
      ensures Consistent()
      ensures State() == OnHandler(Cfg(), old(State()), h, a, err)
    {
      var l := lives[h];
      lives := lives[h := After(l, a)];
      if Notifies(l, a) {
        NotifyMe(Notice(a, err), h);
      }
    }
  }
}
