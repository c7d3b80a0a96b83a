/** A send-to-all collection used as the state change callback of a connector or an acceptor: which IO handlers it
    holds after every run of the entity. */
module Registration {
  import opened NetIpError
  import opened Containers
  import ConnectorProtocol
  import ConnectorRuns
  import AcceptorProtocol
  import AcceptorRuns

  /** The collection after some callbacks: a starting handler is added, a closed one removed. */
  function Collection(log: seq<Callback>): seq<nat> {
    if log == [] then [] else
    var before, last := Collection(log[..|log| - 1]), log[|log| - 1];
    if last.ErrorCb? then before
    else if last.starting then before + [last.h]
    else Without<nat>(before, last.h)
  }

  lemma CollectionSnoc(log: seq<Callback>, cb: Callback)
    ensures Collection(log + [cb]) ==
            if cb.ErrorCb? then Collection(log)
            else if cb.starting then Collection(log) + [cb.h]
            else Without<nat>(Collection(log), cb.h)
  {
    assert (log + [cb])[..|log|] == log;
  }

  // The connector.

  lemma {:induction false} OnlyStateChangesMatter(log: seq<Callback>)
    ensures Collection(log) == Collection(ConnectorRuns.StateCbs(log))
  {
    if log != [] {
      var init, last := log[..|log| - 1], log[|log| - 1];
      OnlyStateChangesMatter(init);
      if last.StateCb? {
        CollectionSnoc(ConnectorRuns.StateCbs(init), last);
      }
    }
  }

  lemma PairLeavesNothing(log: seq<Callback>, h: nat)
    requires Collection(log) == []
    ensures Collection(log + [StateCb(h, 1, true)]) == [h]
    ensures Collection(log + [StateCb(h, 1, true), StateCb(h, 0, false)]) == []
  {
    var withIt := log + [StateCb(h, 1, true)];
    CollectionSnoc(log, StateCb(h, 1, true));
    CollectionSnoc(withIt, StateCb(h, 0, false));
    assert log + [StateCb(h, 1, true), StateCb(h, 0, false)] == withIt + [StateCb(h, 0, false)];
  }

  lemma {:induction false} AlternatingHoldsTheLast(handlers: nat, open: bool)
    ensures Collection(ConnectorRuns.Alternating(handlers, open)) == if handlers > 0 && open then [handlers - 1] else []
  {
    if handlers > 0 {
      AlternatingHoldsTheLast(handlers - 1, false);
      PairLeavesNothing(ConnectorRuns.Alternating(handlers - 1, false), handlers - 1);
    }
  }

  lemma HandlerRegistered(cfg: ConnectorProtocol.Config, s: ConnectorProtocol.Conn)
    requires ConnectorRuns.Inv(cfg, s)
    ensures Collection(s.log) == if s.handler.Some? then [s.handler.value] else []
  {
    OnlyStateChangesMatter(s.log);
    AlternatingHoldsTheLast(|s.lives|, s.handler.Some?);
  }

  /** Over every run of a connector the collection is exactly its current IO handler, and empty without one. */
  lemma {:induction false} ConnectorRegistersItsHandler(cfg: ConnectorProtocol.Config, endpoints: nat,
                                                        es: seq<ConnectorProtocol.Event>)
    requires ConnectorProtocol.Valid(cfg, endpoints, es)
    ensures var s := ConnectorProtocol.Run(cfg, endpoints, es);
            Collection(s.log) == if s.handler.Some? then [s.handler.value] else []
  {
    ConnectorRuns.RunKeepsInv(cfg, endpoints, es);
    HandlerRegistered(cfg, ConnectorProtocol.Run(cfg, endpoints, es));
  }

  // The acceptor.

  /** More callbacks: a handler that none of them announces stays as often as it was, unless one of them reports
      it closed. */
  lemma {:induction false} CopiesAfter(log: seq<Callback>, more: seq<Callback>, h: nat)
    requires AcceptorRuns.CountCbs(more, h, true) == 0
    ensures Count<nat>(Collection(log + more), h) ==
            if AcceptorRuns.CountCbs(more, h, false) > 0 then 0 else Count<nat>(Collection(log), h)
    decreases |more|
  {
    if more == [] {
      assert log + more == log;
    } else {
      var init, last := more[..|more| - 1], more[|more| - 1];
      CopiesAfter(log, init, h);
      assert log + more == (log + init) + [last];
      CollectionSnoc(log + init, last);
      if last.StateCb? && last.starting {
        CountSnoc<nat>(Collection(log + init), last.h, h);
      } else if last.StateCb? {
        CountWithout<nat>(Collection(log + init), last.h, h);
      }
    }
  }

  /** How often the collection holds a handler; `stale` says whether it was closed unannounced. */
  ghost predicate Accounted(s: AcceptorProtocol.Acceptor, h: nat, stale: bool) {
    && (stale ==> h < |s.lives| && s.lives[h].notified)
    && (h < |s.lives| && s.lives[h].notified && h in s.announcements ==> stale)
    && Count<nat>(Collection(s.log), h) ==
       if h < |s.lives| && h !in s.announcements && (!s.lives[h].notified || stale) then 1 else 0
  }

  lemma FirstLeaves(announcements: seq<nat>, h: nat)
    requires announcements != [] && AcceptorRuns.Increasing(announcements)
    ensures h in announcements[1..] <==> h in announcements && h != announcements[0]
  {
    assert announcements == [announcements[0]] + announcements[1..];
  }

  lemma AnnounceAccounts(s: AcceptorProtocol.Acceptor, h: nat, stale: bool)
    requires s.announcements != [] && AcceptorRuns.Increasing(s.announcements) && s.announcements[0] < |s.lives|
    requires Accounted(s, h, stale)
    ensures Accounted(AcceptorProtocol.Next(s, AcceptorProtocol.Announce), h, stale)
  {
    var cb := StateCb(s.announcements[0], |s.handlers|, true);
    CollectionSnoc(s.log, cb);
    CountSnoc<nat>(Collection(s.log), cb.h, h);
    FirstLeaves(s.announcements, h);
  }

  /** A step that announces nothing adds no handler and removes exactly the ones it closes. */
  lemma OtherStepAccounts(s: AcceptorProtocol.Acceptor, e: AcceptorProtocol.Event, h: nat, stale: bool)
    requires AcceptorRuns.Inv(s) && AcceptorProtocol.Enabled(s, e) && !e.Announce? && Accounted(s, h, stale)
    ensures var s' := AcceptorProtocol.Next(s, e);
            Accounted(s', h, stale || AcceptorRuns.ClosesUnannounced(s, s', h))
  {
    var s' := AcceptorProtocol.Next(s, e);
    AcceptorRuns.NextShape(s, e);
    AcceptorRuns.NextKeepsInv(s, e);
    assert AcceptorRuns.Paired(s, h) && AcceptorRuns.Paired(s', h);
    StepAccounts(s, s', h, stale);
  }

  lemma StepAccounts(s: AcceptorProtocol.Acceptor, s': AcceptorProtocol.Acceptor, h: nat, stale: bool)
    requires AcceptorRuns.StepShape(s, s') && AcceptorRuns.Paired(s, h) && AcceptorRuns.Paired(s', h) && Accounted(s, h, stale)
    requires forall i: nat :: i < |s.lives| ==> (i in s'.announcements <==> i in s.announcements)
    ensures Accounted(s', h, stale || AcceptorRuns.ClosesUnannounced(s, s', h))
  {
    var more := AcceptorRuns.StepCallbacks(s, s', h);
    CopiesAfter(s.log, more, h);
  }

  lemma {:induction false} RunAccounts(es: seq<AcceptorProtocol.Event>, h: nat)
    requires AcceptorProtocol.Valid(es)
    ensures Accounted(AcceptorProtocol.Run(es), h, AcceptorRuns.ClosedUnannounced(es, h))
    decreases |es|
  {
    if es != [] {
      var init, e := es[..|es| - 1], es[|es| - 1];
      RunAccounts(init, h);
      AcceptorRuns.RunKeepsInv(init);
      var s := AcceptorProtocol.Run(init);
      if e.Announce? {
        assert AcceptorRuns.Paired(s, s.announcements[0]);
        AcceptorRuns.AnnouncedAreKnown(s, 0);
        AnnounceAccounts(s, h, AcceptorRuns.ClosedUnannounced(init, h));
      } else {
        OtherStepAccounts(s, e, h, AcceptorRuns.ClosedUnannounced(init, h));
      }
    }
  }

  /** Over every run of an acceptor the collection holds an accepted IO handler once if it has been announced and is
      live, or was closed before it was announced; it holds no other. So a broadcast reaches every live announced
      connection exactly once. */
  lemma {:induction false} AcceptorRegistersTheAnnounced(es: seq<AcceptorProtocol.Event>, h: nat)
    requires AcceptorProtocol.Valid(es)
    ensures var s := AcceptorProtocol.Run(es);
            Count<nat>(Collection(s.log), h) ==
            if h < |s.lives| && h !in s.announcements && (!s.lives[h].notified || AcceptorRuns.ClosedUnannounced(es, h)) then 1 else 0
  {
    RunAccounts(es, h);
  }

  lemma EmptyHoldsNone(s: seq<nat>)
    ensures s == [] <==> forall h: nat :: Count<nat>(s, h) == 0
  {
    if s != [] {
      assert Count<nat>(s, s[|s| - 1]) > 0;
    }
  }

  /** After a shutdown, with every announcement made, something is left in the collection if and only if some IO handler
      was closed while its announcement was still posted. */
  lemma {:induction false} ShutdownEmptiesTheCollection(es: seq<AcceptorProtocol.Event>)
    requires AcceptorProtocol.Valid(es)
    requires AcceptorProtocol.Run(es).shuttingDown && AcceptorProtocol.Run(es).announcements == []
    ensures Collection(AcceptorProtocol.Run(es).log) != [] <==> exists h: nat :: AcceptorRuns.ClosedUnannounced(es, h)
  {
    var s := AcceptorProtocol.Run(es);
    AcceptorRuns.RunKeepsInv(es);
    AcceptorRuns.LiveIdsMembers(s.lives);
    forall h: nat ensures Count<nat>(Collection(s.log), h) == 0 <==> !AcceptorRuns.ClosedUnannounced(es, h) {
      RunAccounts(es, h);
      assert h !in AcceptorRuns.LiveIds(s.lives);
    }
    EmptyHoldsNone(Collection(s.log));
    if h: nat :| AcceptorRuns.ClosedUnannounced(es, h) {
      assert Count<nat>(Collection(s.log), h) != 0;
      assert exists g: nat :: AcceptorRuns.ClosedUnannounced(es, g);
    } else {
      forall h: nat ensures Count<nat>(Collection(s.log), h) == 0 {
        assert !AcceptorRuns.ClosedUnannounced(es, h);
      }
    }
  }

  /** Such a run: a stop between the accept and the posted announcement leaves the handler in the collection. */
  lemma OneIsLeft()
    ensures var es := [AcceptorProtocol.Start(NoError, NoError)] + [AcceptorProtocol.AcceptDone(NoError)] + [AcceptorProtocol.StopCall]
                      + [AcceptorProtocol.StopRun(NoError)] + [AcceptorProtocol.Announce];
            AcceptorProtocol.Valid(es) && Collection(AcceptorProtocol.Run(es).log) == [0]
  {
    AcceptorRuns.ClosedBeforeAnnounced();
    var log := [ErrorCb(NoIo, TcpAcceptorStopped)] + [ErrorCb(Io(0), TcpIoHandlerStopped)] + [StateCb(0, 0, false)];
    CollectionSnoc([], ErrorCb(NoIo, TcpAcceptorStopped));
    assert [] + [ErrorCb(NoIo, TcpAcceptorStopped)] == [ErrorCb(NoIo, TcpAcceptorStopped)];
    CollectionSnoc([ErrorCb(NoIo, TcpAcceptorStopped)], ErrorCb(Io(0), TcpIoHandlerStopped));
    CollectionSnoc([ErrorCb(NoIo, TcpAcceptorStopped)] + [ErrorCb(Io(0), TcpIoHandlerStopped)], StateCb(0, 0, false));
    CollectionSnoc(log, ErrorCb(NoIo, TcpAcceptorClosed));
    CollectionSnoc(log + [ErrorCb(NoIo, TcpAcceptorClosed)], StateCb(0, 0, true));
    assert log + [ErrorCb(NoIo, TcpAcceptorClosed)] + [StateCb(0, 0, true)] ==
           [ErrorCb(NoIo, TcpAcceptorStopped), ErrorCb(Io(0), TcpIoHandlerStopped), StateCb(0, 0, false),
            ErrorCb(NoIo, TcpAcceptorClosed), StateCb(0, 0, true)];
  }
}
