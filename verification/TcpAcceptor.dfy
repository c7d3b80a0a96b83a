/** The TCP acceptor's call chains. Its IO handlers are represented by their lives; closing one calls back into
    the acceptor, which erases it from the container that a shutdown is iterating over a copy of. */
module TcpAcceptor {
  import opened NetIpError
  import opened HandlerLife
  import opened Containers
  import opened AcceptorProtocol
  import opened AcceptorRuns
  import NetEntityCommon

  class TcpAcceptor {
    const entityCommon: NetEntityCommon.NetEntityCommon
    var shuttingDown: bool
    var ioHandlers: seq<nat>
    var accepts: nat
    var announcements: seq<nat>
    var closesPosted: nat
    var lives: seq<Life>
    ghost var log: seq<Callback>

    ghost function State(): Acceptor
      reads this, entityCommon
    {
      Acceptor(entityCommon.started, shuttingDown, ioHandlers, accepts, announcements, closesPosted, lives, log)
    }

    /** The container holds exactly the IO handlers that have not closed. */
    ghost predicate Valid()
      reads this
    {
      ioHandlers == LiveIds(lives)
    }

    constructor ()
      ensures Valid() && State() == INITIAL && fresh(entityCommon)
    {
      entityCommon := new NetEntityCommon.NetEntityCommon();
      shuttingDown, ioHandlers, accepts, announcements, closesPosted, lives := false, [], 0, [], 0, [];
      log := [];
    }

    method CallErrorCb(io: IoRef, err: Error)
      modifies this`log
      ensures log == old(log) + [ErrorCb(io, err)]
    {
      log := log + [ErrorCb(io, err)];
    }

    method Start(err: Error, ec: Error) returns (started: bool)
      requires Valid() && External(err) && External(ec)
      modifies this, entityCommon
      ensures Valid() && started == (old(entityCommon.started) == NetEntityCommon.UNSTARTED)
      ensures State() == Next(old(State()), Event.Start(err, ec))
    {
      started := entityCommon.Start();
      if started {
        if err != NoError {
          Close(err, ec);
          return;
        }
        StartAccept();
      }
    }

    method Stop() returns (won: bool)
      modifies this, entityCommon
      ensures won == (old(entityCommon.started) == NetEntityCommon.STARTED)
      ensures State() == Next(old(State()), StopCall)
    {
      won := entityCommon.Stop();
      if won {
        closesPosted := closesPosted + 1;
      }
    }

    method RunPostedStop(ec: Error)
      requires Valid() && closesPosted > 0 && External(ec)
      modifies this, entityCommon
      ensures Valid()
      ensures State() == Next(old(State()), StopRun(ec))
    {
      closesPosted := closesPosted - 1;
      Close(TcpAcceptorStopped, ec);
    }

    /** The loop runs over a copy, since each stop_io erases from the container itself. */
    method Close(err: Error, ec: Error)
      requires Valid()
      modifies this, entityCommon
      ensures Valid()
      ensures State() == AcceptorProtocol.Close(old(State()), err, ec)
    {
      CallErrorCb(NoIo, err);
      if shuttingDown {
        return;
      }
      shuttingDown := true;
      entityCommon.SetStopped();
      StopHandlers();
      if ec != NoError {
        CallErrorCb(NoIo, ec);
      }
      CallErrorCb(NoIo, TcpAcceptorClosed);
    }

    method StopHandlers()
      requires Valid()
      modifies this
      ensures Valid()
      ensures State() == old(State()).(handlers := [], lives := ClosedLives(old(lives), old(ioHandlers)),
                                       log := old(log) + StopReports(old(ioHandlers)))
    {
      LiveIdsIncrease(lives);
      LiveIdsMembers(lives);
      var iohs := ioHandlers;
      assert forall j :: 0 <= j < |iohs| ==> iohs[j] in iohs;
      StopEachClosesAll(State());
      var i := 0;
      assert iohs[0..] == iohs;
      while i < |iohs|
        invariant 0 <= i <= |iohs| && Valid() && |lives| == |old(lives)|
        invariant StopEach(State(), iohs[i..]) == StopEach(old(State()), iohs)
      {
        assert iohs[i] in iohs && iohs[i..][1..] == iohs[i + 1..];
        HandlerAction(iohs[i], StopIo, NoError);
        i := i + 1;
      }
    }

    method StartAccept()
      modifies this`accepts
      ensures accepts == if shuttingDown then old(accepts) else old(accepts) + 1
    {
      if shuttingDown {
        return;
      }
      accepts := accepts + 1;
    }

    method HandleAccept(err: Error)
      requires Valid() && accepts > 0
      modifies this
      ensures Valid()
      ensures State() == Next(old(State()), AcceptDone(err))
    {
      accepts := accepts - 1;
      if err != NoError || shuttingDown {
        return;
      }
      AddHandler();
    }

    method AddHandler()
      requires Valid() && !shuttingDown
      modifies this
      ensures Valid()
      ensures State() == OnAccepted(old(State()))
    {
      LiveIdsSnoc(lives, NEW);
      ioHandlers := ioHandlers + [|lives|];
      announcements := announcements + [|lives|];
      lives := lives + [NEW];
      StartAccept();
    }

    method RunAnnouncement()
      requires Valid() && announcements != []
      modifies this
      ensures Valid()
      ensures State() == Next(old(State()), Announce)
    {
      log := log + [StateCb(announcements[0], |ioHandlers|, true)];
      announcements := announcements[1..];
    }

    method NotifyMe(err: Error, h: nat)
      modifies this
      ensures State() == Notified(old(State()), h, err)
    {
      ioHandlers := Without<nat>(ioHandlers, h);
      CallErrorCb(Io(h), err);
      log := log + [StateCb(h, |ioHandlers|, false)];
    }

    method HandlerAction(h: nat, a: Action, err: Error)
      requires Valid() && h < |lives|
      modifies this
      ensures Valid()
      ensures State() == OnHandler(old(State()), h, a, err)
    {
      HandlerEventKeepsLive(State(), h, a, err);
      var l := lives[h];
      lives := lives[h := After(l, a)];
      if Notifies(l, a) {
        NotifyMe(Notice(a, err), h);
      }
    }

    /** Visits, in accept order, exactly the handlers on which IO is started; none while shutting down. */
    method VisitIoOutput() returns (visited: seq<nat>)
      requires Valid()
      ensures shuttingDown ==> visited == []
      ensures !shuttingDown ==> Increasing(visited)
      ensures !shuttingDown ==> forall h: nat :: h in visited <==> h < |lives| && !lives[h].notified && lives[h].started
    {
      visited := [];
      if shuttingDown {
        return;
      }
      LiveIdsIncrease(lives);
      LiveIdsMembers(lives);
      for i := 0 to |ioHandlers|
        invariant forall h: nat :: h in visited <==> h in ioHandlers[..i] && h < |lives| && lives[h].started
        invariant Increasing(visited)
      {
        var h := ioHandlers[i];
        assert ioHandlers[..i + 1] == ioHandlers[..i] + [h];
        forall j | 0 <= j < |visited| ensures visited[j] < h {
          assert visited[j] in visited;
        }
        assert h in ioHandlers;
        if lives[h].started {
          visited := visited + [h];
        }
      }
      assert ioHandlers[..|ioHandlers|] == ioHandlers;
    }
  }
}
