/** What holds after every run of a TCP acceptor. */
module AcceptorRuns {
  import opened NetIpError
  import opened HandlerLife
  import opened Containers
  import opened AcceptorProtocol
  import NetEntityCommon

  /** The accepted IO handlers that have not notified, in accept order. */
  function LiveIds(lives: seq<Life>): seq<nat> {
    if lives == [] then [] else
    var n := |lives| - 1;
    if lives[n].notified then LiveIds(lives[..n]) else LiveIds(lives[..n]) + [n]
  }

  lemma {:induction false} LiveIdsMembers(lives: seq<Life>)
    ensures forall h: nat :: h in LiveIds(lives) <==> h < |lives| && !lives[h].notified
  {
    if lives != [] {
      LiveIdsMembers(lives[..|lives| - 1]);
    }
  }

  ghost predicate Increasing(s: seq<nat>) {
    forall i, j :: 0 <= i < j < |s| ==> s[i] < s[j]
  }

  lemma {:induction false} LiveIdsIncrease(lives: seq<Life>)
    ensures Increasing(LiveIds(lives))
  {
    if lives != [] {
      var init := LiveIds(lives[..|lives| - 1]);
      LiveIdsIncrease(lives[..|lives| - 1]);
      LiveIdsMembers(lives[..|lives| - 1]);
      forall i | 0 <= i < |init| ensures init[i] < |lives| - 1 {
        assert init[i] in init;
      }
    }
  }

  lemma LiveIdsSnoc(lives: seq<Life>, l: Life)
    ensures LiveIds(lives + [l]) == if l.notified then LiveIds(lives) else LiveIds(lives) + [|lives|]
  {
    assert (lives + [l])[..|lives|] == lives;
  }

  /** Closing one IO handler erases exactly it. */
  lemma {:induction false} ClosingErases(lives: seq<Life>, h: nat)
    requires h < |lives|
    ensures LiveIds(lives[h := CLOSED]) == Without<nat>(LiveIds(lives), h)
  {
    var n := |lives| - 1;
    var init, last := lives[..n], lives[n];
    assert lives == init + [last];
    if h < n {
      assert lives[h := CLOSED] == init[h := CLOSED] + [last];
      ClosingErases(init, h);
      ErasesBeforeLast(init, h, last);
    } else {
      assert lives[h := CLOSED] == init + [CLOSED];
      ErasesLast(init, last);
    }
  }

  lemma ErasesBeforeLast(init: seq<Life>, h: nat, last: Life)
    requires h < |init| && LiveIds(init[h := CLOSED]) == Without<nat>(LiveIds(init), h)
    ensures LiveIds(init[h := CLOSED] + [last]) == Without<nat>(LiveIds(init + [last]), h)
  {
    LiveIdsSnoc(init, last);
    LiveIdsSnoc(init[h := CLOSED], last);
    WithoutSnoc<nat>(LiveIds(init), |init|, h);
  }

  lemma {:induction false} ErasesLast(init: seq<Life>, last: Life)
    ensures LiveIds(init + [CLOSED]) == Without<nat>(LiveIds(init + [last]), |init|)
  {
    LiveIdsSnoc(init, last);
    LiveIdsSnoc(init, CLOSED);
    WithoutSnoc<nat>(LiveIds(init), |init|, |init|);
    LiveIdsMembers(init);
    WithoutAbsent<nat>(LiveIds(init), |init|);
  }

  lemma {:induction false} UnchangedLiveness(a: seq<Life>, b: seq<Life>)
    requires |a| == |b| && forall i :: 0 <= i < |a| ==> a[i].notified == b[i].notified
    ensures LiveIds(a) == LiveIds(b)
  {
    if a != [] {
      UnchangedLiveness(a[..|a| - 1], b[..|b| - 1]);
    }
  }

  lemma WithoutFirst(s: seq<nat>)
    requires s != [] && Increasing(s)
    ensures Without<nat>(s, s[0]) == s[1..]
  {
    WithoutAbsent<nat>(s[1..], s[0]);
  }

  /** Calling stop_io on each of some IO handlers in turn. */
  ghost function StopEach(s: Acceptor, hs: seq<nat>): Acceptor
    decreases |hs|
  {
    if hs == [] || hs[0] >= |s.lives| then s
    else StopEach(OnHandler(s, hs[0], StopIo, NoError), hs[1..])
  }

  /** The acceptor after all its live handlers have been stopped. */
  ghost function AllStopped(s: Acceptor): Acceptor {
    s.(handlers := [], lives := ClosedLives(s.lives, s.handlers), log := s.log + StopReports(s.handlers))
  }

  lemma StopFirst(s: Acceptor)
    requires s.handlers != [] && Increasing(s.handlers) && s.handlers[0] < |s.lives|
    ensures var s1 := OnHandler(s, s.handlers[0], StopIo, NoError);
            s1.handlers == s.handlers[1..] && AllStopped(s1) == AllStopped(s)
  {
    var hs := s.handlers;
    var s1 := OnHandler(s, hs[0], StopIo, NoError);
    WithoutFirst(hs);
    var first := [ErrorCb(Io(hs[0]), TcpIoHandlerStopped), StateCb(hs[0], |hs| - 1, false)];
    assert s.log + (first + StopReports(hs[1..])) == (s.log + first) + StopReports(hs[1..]);
    assert hs == [hs[0]] + hs[1..];
    assert ClosedLives(s1.lives, hs[1..]) == ClosedLives(s.lives, hs);
  }

  /** Stopping the live handlers one by one, each erasing itself from the container, closes them all. */
  lemma {:induction false} StopEachClosesAll(s: Acceptor)
    requires Increasing(s.handlers) && forall i :: 0 <= i < |s.handlers| ==> s.handlers[i] < |s.lives|
    ensures StopEach(s, s.handlers) == AllStopped(s)
    decreases |s.handlers|
  {
    if s.handlers == [] {
      assert ClosedLives(s.lives, []) == s.lives && s.log + [] == s.log;
    } else {
      StopFirst(s);
      StopEachClosesAll(OnHandler(s, s.handlers[0], StopIo, NoError));
    }
  }

  /** How often the callback (h, _, starting) occurs. */
  function CountCbs(log: seq<Callback>, h: nat, starting: bool): nat {
    if log == [] then 0 else
    var last := log[|log| - 1];
    CountCbs(log[..|log| - 1], h, starting) + if last.StateCb? && last.h == h && last.starting == starting then 1 else 0
  }

  lemma {:induction false} CountAppend(a: seq<Callback>, b: seq<Callback>, h: nat, starting: bool)
    ensures CountCbs(a + b, h, starting) == CountCbs(a, h, starting) + CountCbs(b, h, starting)
    decreases |b|
  {
    if b == [] {
      assert a + b == a;
    } else {
      var n := |b| - 1;
      CountAppend(a, b[..n], h, starting);
      assert (a + b)[..|a + b| - 1] == a + b[..n] && (a + b)[|a + b| - 1] == b[n];
    }
  }

  lemma CountOne(cb: Callback, h: nat)
    requires cb.StateCb?
    ensures forall b: bool :: CountCbs([cb], h, b) == if cb.h == h && cb.starting == b then 1 else 0
  {
  }

  lemma CountTwo(x: Callback, y: Callback, h: nat, starting: bool)
    requires x.ErrorCb?
    ensures CountCbs([x, y], h, starting) == CountCbs([y], h, starting)
  {
    assert [x, y][..1] == [x];
  }

  lemma {:induction false} CountStopReports(hs: seq<nat>, h: nat)
    requires Increasing(hs)
    ensures CountCbs(StopReports(hs), h, false) == if h in hs then 1 else 0
    ensures CountCbs(StopReports(hs), h, true) == 0
  {
    if hs != [] {
      var first := [ErrorCb(Io(hs[0]), TcpIoHandlerStopped), StateCb(hs[0], |hs| - 1, false)];
      CountStopReports(hs[1..], h);
      CountAppend(first, StopReports(hs[1..]), h, false);
      CountAppend(first, StopReports(hs[1..]), h, true);
      CountTwo(first[0], first[1], h, false);
      CountTwo(first[0], first[1], h, true);
    }
  }

  /** Callbacks for one IO handler: announced once, now or later, and reported closed exactly if it has notified. */
  ghost predicate Paired(s: Acceptor, h: nat) {
    && CountCbs(s.log, h, true) + (if h in s.announcements then 1 else 0) == (if h < |s.lives| then 1 else 0)
    && CountCbs(s.log, h, false) == (if h < |s.lives| && s.lives[h].notified then 1 else 0)
  }

  ghost predicate Inv(s: Acceptor) {
    && s.handlers == LiveIds(s.lives)
    && (s.shuttingDown ==> s.handlers == [])
    && Increasing(s.announcements)
    && s.accepts <= 1
    && (forall i :: 0 <= i < |s.lives| ==> s.lives[i].notified ==> s.lives[i] == CLOSED)
    && (s.entity == NetEntityCommon.UNSTARTED ==> s == INITIAL)
    && forall h :: Paired(s, h)
  }

  lemma HasMember(s: seq<nat>)
    requires s != []
    ensures exists h: nat :: h in s
  {
    assert s[0] in s;
  }

  lemma ClosedLivesLive(lives: seq<Life>)
    ensures LiveIds(ClosedLives(lives, LiveIds(lives))) == []
  {
    var r := LiveIds(ClosedLives(lives, LiveIds(lives)));
    LiveIdsMembers(lives);
    LiveIdsMembers(ClosedLives(lives, LiveIds(lives)));
    if r != [] {
      HasMember(r);
    }
  }

  lemma ErrorsDoNotCount(log: seq<Callback>, b: seq<Callback>, h: nat, starting: bool)
    requires |b| <= 1 && forall cb :: cb in b ==> cb.ErrorCb?
    ensures CountCbs(log + b, h, starting) == CountCbs(log, h, starting)
  {
    CountAppend(log, b, h, starting);
    if b != [] {
      assert b[0] in b;
    }
  }

  lemma ClosePairs(s: Acceptor, err: Error, ec: Error, h: nat)
    requires Paired(s, h) && s.handlers == LiveIds(s.lives) && !s.shuttingDown
    ensures Paired(Close(s, err, ec), h)
  {
    var log1 := s.log + [ErrorCb(NoIo, err)];
    var log2 := log1 + StopReports(s.handlers);
    LiveIdsIncrease(s.lives);
    LiveIdsMembers(s.lives);
    CountStopReports(s.handlers, h);
    forall b: bool ensures CountCbs(Close(s, err, ec).log, h, b) == CountCbs(s.log, h, b) + CountCbs(StopReports(s.handlers), h, b) {
      ErrorsDoNotCount(s.log, [ErrorCb(NoIo, err)], h, b);
      CountAppend(log1, StopReports(s.handlers), h, b);
      ErrorsDoNotCount(log2, IfError(ec), h, b);
      ErrorsDoNotCount(log2 + IfError(ec), [ErrorCb(NoIo, TcpAcceptorClosed)], h, b);
    }
  }

  lemma CloseKeepsInv(s: Acceptor, err: Error, ec: Error)
    requires s.handlers == LiveIds(s.lives) && (s.shuttingDown ==> s.handlers == [])
    requires Increasing(s.announcements) && s.accepts <= 1 && s.entity != NetEntityCommon.UNSTARTED
    requires forall i :: 0 <= i < |s.lives| ==> s.lives[i].notified ==> s.lives[i] == CLOSED
    requires forall h :: Paired(s, h)
    ensures Inv(Close(s, err, ec))
  {
    ClosedLivesLive(s.lives);
    forall h ensures Paired(Close(s, err, ec), h) {
      assert Paired(s, h);
      if s.shuttingDown {
        ErrorsDoNotCount(s.log, [ErrorCb(NoIo, err)], h, true);
        ErrorsDoNotCount(s.log, [ErrorCb(NoIo, err)], h, false);
      } else {
        ClosePairs(s, err, ec, h);
      }
    }
  }

  lemma HandlerEventPairs(s: Acceptor, h: nat, a: Action, err: Error, g: nat)
    requires Paired(s, g) && h < |s.lives| && Documented(s.lives[h], a)
    requires s.lives[h].notified ==> s.lives[h] == CLOSED
    ensures Paired(OnHandler(s, h, a, err), g)
  {
    if Notifies(s.lives[h], a) {
      var rest := Without<nat>(s.handlers, h);
      var x, y := ErrorCb(Io(h), Notice(a, err)), StateCb(h, |rest|, false);
      CountOne(y, g);
      forall b: bool ensures CountCbs(s.log + [x, y], g, b) == CountCbs(s.log, g, b) + CountCbs([y], g, b) {
        CountAppend(s.log, [x, y], g, b);
        CountTwo(x, y, g, b);
      }
    }
  }

  lemma HandlerEventKeepsLive(s: Acceptor, h: nat, a: Action, err: Error)
    requires s.handlers == LiveIds(s.lives) && h < |s.lives|
    ensures OnHandler(s, h, a, err).handlers == LiveIds(OnHandler(s, h, a, err).lives)
  {
    if Notifies(s.lives[h], a) {
      ClosingErases(s.lives, h);
    } else {
      UnchangedLiveness(s.lives, OnHandler(s, h, a, err).lives);
    }
  }

  lemma HandlerEventKeepsInv(s: Acceptor, h: nat, a: Action, err: Error)
    requires Inv(s) && Enabled(s, HandlerEvent(h, a, err))
    ensures Inv(OnHandler(s, h, a, err))
  {
    var s1 := OnHandler(s, h, a, err);
    HandlerEventKeepsLive(s, h, a, err);
    forall g ensures Paired(s1, g) {
      assert Paired(s, g);
      HandlerEventPairs(s, h, a, err, g);
    }
  }

  /** Only the log, the posted announcements and the lives matter to the pairing. */
  lemma PairedFrame(s: Acceptor, s': Acceptor)
    requires forall h :: Paired(s, h)
    requires s'.log == s.log && s'.announcements == s.announcements && s'.lives == s.lives
    ensures forall h :: Paired(s', h)
  {
    forall h ensures Paired(s', h) {
      assert Paired(s, h);
    }
  }

  lemma OnAcceptedPairs(s: Acceptor, h: nat)
    requires Paired(s, h)
    ensures Paired(OnAccepted(s), h)
  {
  }

  lemma AnnouncedAreKnown(s: Acceptor, i: nat)
    requires i < |s.announcements| && Paired(s, s.announcements[i])
    ensures s.announcements[i] < |s.lives|
  {
    assert s.announcements[i] in s.announcements;
  }

  lemma OnAcceptedShape(s: Acceptor)
    requires s.handlers == LiveIds(s.lives) && Increasing(s.announcements)
    requires forall i :: 0 <= i < |s.announcements| ==> s.announcements[i] < |s.lives|
    ensures OnAccepted(s).handlers == LiveIds(OnAccepted(s).lives) && Increasing(OnAccepted(s).announcements)
  {
    LiveIdsSnoc(s.lives, NEW);
  }

  lemma AcceptDoneKeepsInv(s: Acceptor, err: Error)
    requires Inv(s) && Enabled(s, AcceptDone(err))
    ensures Inv(Next(s, AcceptDone(err)))
  {
    var s0 := s.(accepts := s.accepts - 1);
    PairedFrame(s, s0);
    if err == NoError && !s.shuttingDown {
      forall i | 0 <= i < |s.announcements| ensures s.announcements[i] < |s.lives| {
        AnnouncedAreKnown(s, i);
      }
      OnAcceptedShape(s0);
      forall h ensures Paired(OnAccepted(s0), h) {
        assert Paired(s0, h);
        OnAcceptedPairs(s0, h);
      }
    }
  }

  lemma AnnounceKeepsInv(s: Acceptor)
    requires Inv(s) && Enabled(s, Announce)
    ensures Inv(Next(s, Announce))
  {
    var s1 := Next(s, Announce);
    var first := s.announcements[0];
    forall h ensures Paired(s1, h) {
      assert Paired(s, h);
      CountAppend(s.log, [StateCb(first, |s.handlers|, true)], h, true);
      CountAppend(s.log, [StateCb(first, |s.handlers|, true)], h, false);
      assert s.announcements == [first] + s.announcements[1..];
    }
  }

  lemma StartKeepsInv(s: Acceptor, err: Error, ec: Error)
    requires Inv(s) && s.entity == NetEntityCommon.UNSTARTED && External(err) && External(ec)
    ensures Inv(Next(s, Start(err, ec)))
  {
    var s1 := s.(entity := NetEntityCommon.STARTED);
    PairedFrame(s, s1);
    if err != NoError {
      CloseKeepsInv(s1, err, ec);
    } else {
      PairedFrame(s, Next(s, Start(err, ec)));
    }
  }

  lemma NextKeepsInv(s: Acceptor, e: Event)
    requires Inv(s) && Enabled(s, e)
    ensures Inv(Next(s, e))
  {
    match e
    case Start(err, ec) => if s.entity == NetEntityCommon.UNSTARTED { StartKeepsInv(s, err, ec); }
    case StopCall => PairedFrame(s, Next(s, e));
    case StopRun(ec) =>
      PairedFrame(s, s.(closesPosted := s.closesPosted - 1));
      CloseKeepsInv(s.(closesPosted := s.closesPosted - 1), TcpAcceptorStopped, ec);
    case AcceptDone(err) => AcceptDoneKeepsInv(s, err);
    case Announce => AnnounceKeepsInv(s);
    case HandlerEvent(h, a, err) => HandlerEventKeepsInv(s, h, a, err);
  }

  lemma {:induction false} RunKeepsInv(es: seq<Event>)
    requires Valid(es)
    ensures Inv(Run(es))
    decreases |es|
  {
    if es == [] {
      forall h ensures Paired(INITIAL, h) {
      }
    } else {
      RunKeepsInv(es[..|es| - 1]);
      NextKeepsInv(Run(es[..|es| - 1]), es[|es| - 1]);
    }
  }

  /** The container always holds exactly the accepted IO handlers that have not closed, in accept order and without
      duplicates; closing empties it and no later accept refills it. */
  lemma HandlersAreTheLiveOnes(es: seq<Event>)
    requires Valid(es)
    ensures var s := Run(es);
            && s.handlers == LiveIds(s.lives) && Increasing(s.handlers)
            && (s.shuttingDown ==> s.handlers == [])
  {
    RunKeepsInv(es);
    LiveIdsIncrease(Run(es).lives);
  }

  /** Every beginning of a run is a run. */
  lemma {:induction false} ValidPrefix(es: seq<Event>, k: nat)
    requires Valid(es) && k <= |es|
    ensures Valid(es[..k])
    decreases |es|
  {
    if k < |es| {
      ValidPrefix(es[..|es| - 1], k);
      assert es[..|es| - 1][..k] == es[..k];
    } else {
      assert es[..k] == es;
    }
  }

  /** The acceptor after the first `k` events of a run. */
  ghost function StateAt(es: seq<Event>, k: nat): Acceptor
    requires Valid(es) && k <= |es|
  {
    ValidPrefix(es, k);
    Run(es[..k])
  }

  /** No accept, callback or completion after a shutdown brings an IO handler back. */
  lemma {:induction false} ShutdownIsFinal(es: seq<Event>, k: nat)
    requires Valid(es) && k <= |es| && StateAt(es, k).shuttingDown
    ensures Run(es).shuttingDown && Run(es).handlers == [] && Run(es).lives == StateAt(es, k).lives
    decreases |es|
  {
    RunKeepsInv(es);
    if k < |es| {
      var init := es[..|es| - 1];
      assert init[..k] == es[..k];
      ShutdownIsFinal(init, k);
      RunKeepsInv(init);
      ShutdownStep(Run(init), es[|es| - 1]);
    } else {
      assert es[..k] == es;
    }
  }

  lemma ShutdownStep(s: Acceptor, e: Event)
    requires Inv(s) && s.shuttingDown && Enabled(s, e)
    ensures Next(s, e).shuttingDown && Next(s, e).lives == s.lives
  {
    LiveIdsMembers(s.lives);
    forall h | 0 <= h < |s.lives| ensures s.lives[h].notified {
      assert h !in LiveIds(s.lives);
    }
  }

  const CLOSED_CB := ErrorCb(NoIo, TcpAcceptorClosed)

  /** A close is posted only before the shutdown, and only by the one stop that wins. */
  ghost predicate OneClose(s: Acceptor) {
    && (!s.shuttingDown ==> CLOSED_CB !in s.log)
    && (s.shuttingDown ==> s.entity == NetEntityCommon.STOPPED && s.closesPosted == 0)
    && (s.entity == NetEntityCommon.STOPPED ==> s.shuttingDown || s.closesPosted == 1)
    && (s.entity != NetEntityCommon.STOPPED ==> s.closesPosted == 0)
  }

  lemma {:induction false} ReportsAreNotClosed(hs: seq<nat>)
    ensures CLOSED_CB !in StopReports(hs)
  {
    if hs != [] {
      ReportsAreNotClosed(hs[1..]);
    }
  }

  /** The first close reports closed last, and only then. */
  lemma FirstClose(s: Acceptor, err: Error, ec: Error)
    requires !s.shuttingDown && CLOSED_CB !in s.log && err != TcpAcceptorClosed && External(ec)
    ensures var log := Close(s, err, ec).log; log != [] && log[|log| - 1] == CLOSED_CB && CLOSED_CB !in log[..|log| - 1]
  {
    var before := s.log + [ErrorCb(NoIo, err)] + StopReports(s.handlers) + IfError(ec);
    ReportsAreNotClosed(s.handlers);
    assert (before + [CLOSED_CB])[..|before|] == before;
  }

  /** What a step adds to the callbacks, as far as tcp_acceptor_closed is concerned. */
  lemma ClosingStep(s: Acceptor, e: Event)
    requires Inv(s) && Enabled(s, e) && OneClose(s)
    ensures OneClose(Next(s, e))
    ensures !s.shuttingDown && Next(s, e).shuttingDown ==>
              var log := Next(s, e).log; log != [] && log[|log| - 1] == CLOSED_CB && CLOSED_CB !in log[..|log| - 1]
  {
    if e.Start? && s.entity == NetEntityCommon.UNSTARTED && e.err != NoError {
      FirstClose(s.(entity := NetEntityCommon.STARTED), e.err, e.ec);
    } else if e.StopRun? {
      FirstClose(s.(closesPosted := s.closesPosted - 1), TcpAcceptorStopped, e.ec);
    }
  }

  lemma {:induction false} RunClosing(es: seq<Event>)
    requires Valid(es)
    ensures OneClose(Run(es))
    decreases |es|
  {
    if es != [] {
      RunClosing(es[..|es| - 1]);
      RunKeepsInv(es[..|es| - 1]);
      ClosingStep(Run(es[..|es| - 1]), es[|es| - 1]);
    }
  }

  /** The callbacks of some announcements when no IO handler is live. */
  function Announcements(hs: seq<nat>): seq<Callback> {
    seq(|hs|, i requires 0 <= i < |hs| => StateCb(hs[i], 0, true))
  }

  lemma QuietStep(s: Acceptor, e: Event)
    requires Inv(s) && OneClose(s) && s.shuttingDown && Enabled(s, e)
    ensures var s' := Next(s, e);
            if e.Announce? then s'.log == s.log + Announcements(s.announcements[..1]) && s'.announcements == s.announcements[1..]
            else s'.log == s.log && s'.announcements == s.announcements
  {
    LiveIdsMembers(s.lives);
    forall h | 0 <= h < |s.lives| ensures s.lives[h] == CLOSED {
      assert h !in LiveIds(s.lives);
    }
  }

  /** From `s` to `t` nothing was called back but announcements that were posted at `s`, in order, each with no IO handler left. */
  ghost predicate OnlyAnnounced(s: Acceptor, t: Acceptor) {
    && |t.announcements| <= |s.announcements|
    && var m := |s.announcements| - |t.announcements|;
    t.announcements == s.announcements[m..] && t.log == s.log + Announcements(s.announcements[..m])
  }

  lemma AnnounceOneMore(all: seq<nat>, m: nat, log: seq<Callback>)
    requires m < |all|
    ensures all[m..][1..] == all[m + 1..]
    ensures (log + Announcements(all[..m])) + Announcements(all[m..][..1]) == log + Announcements(all[..m + 1])
  {
  }

  lemma OnlyAnnouncedStep(s: Acceptor, t: Acceptor, e: Event)
    requires OnlyAnnounced(s, t) && Inv(t) && OneClose(t) && t.shuttingDown && Enabled(t, e)
    ensures OnlyAnnounced(s, Next(t, e))
  {
    QuietStep(t, e);
    if e.Announce? {
      AnnounceOneMore(s.announcements, |s.announcements| - |t.announcements|, s.log);
    }
  }

  /** Over every run, after a shutdown only the announcements posted before it are called back. */
  lemma {:induction false} OnlyAnnouncementsFollow(es: seq<Event>, k: nat)
    requires Valid(es) && k <= |es| && StateAt(es, k).shuttingDown
    ensures OnlyAnnounced(StateAt(es, k), Run(es))
    decreases |es|
  {
    if k < |es| {
      var init := es[..|es| - 1];
      assert init[..k] == es[..k];
      OnlyAnnouncementsFollow(init, k);
      ShutdownIsFinal(init, k);
      RunKeepsInv(init);
      RunClosing(init);
      OnlyAnnouncedStep(StateAt(es, k), Run(init), es[|es| - 1]);
    } else {
      assert es[..k] == es;
      assert Run(es).log + [] == Run(es).log;
    }
  }

  /** tcp_acceptor_closed is reported once, by the step that shuts down and as its last callback; before that never, and after it
      only announcements follow. */
  lemma {:induction false} ClosedReportedOnce(es: seq<Event>, k: nat)
    requires Valid(es) && 0 < k <= |es| && StateAt(es, k).shuttingDown && !StateAt(es, k - 1).shuttingDown
    ensures CLOSED_CB !in StateAt(es, k - 1).log
    ensures var s, t := StateAt(es, k), Run(es);
            && s.log != [] && s.log[|s.log| - 1] == CLOSED_CB && CLOSED_CB !in s.log[..|s.log| - 1]
            && OnlyAnnounced(s, t)
  {
    OnlyAnnouncementsFollow(es, k);
    ValidPrefix(es, k);
    ValidPrefix(es, k - 1);
    var init := es[..k - 1];
    assert es[..k][..k - 1] == init && es[..k][k - 1] == es[k - 1];
    RunKeepsInv(init);
    RunClosing(init);
    ClosingStep(Run(init), es[k - 1]);
  }

  /** It is reported if and only if the acceptor has shut down, which is also when its entity has stopped, but for a close that is
      still posted. */
  lemma {:induction false} ClosedExactly(es: seq<Event>)
    requires Valid(es)
    ensures CLOSED_CB in Run(es).log <==> Run(es).shuttingDown
    ensures Run(es).entity == NetEntityCommon.STOPPED <==> Run(es).shuttingDown || Run(es).closesPosted > 0
    decreases |es|
  {
    RunClosing(es);
    if es != [] && Run(es).shuttingDown {
      var init := es[..|es| - 1];
      RunKeepsInv(init);
      RunClosing(init);
      if Run(init).shuttingDown {
        ClosedExactly(init);
        QuietStep(Run(init), es[|es| - 1]);
      } else {
        ClosingStep(Run(init), es[|es| - 1]);
      }
    }
  }

  /** Every accepted IO handler is announced at most once and reported closed at most once; when the acceptor has shut
      down and the posted announcements have run, each was announced once and reported closed once. */
  lemma OneCallbackPairEach(es: seq<Event>, h: nat)
    requires Valid(es) && h < |Run(es).lives|
    ensures CountCbs(Run(es).log, h, true) <= 1 && CountCbs(Run(es).log, h, false) <= 1
    ensures Run(es).shuttingDown && Run(es).announcements == [] ==>
              CountCbs(Run(es).log, h, true) == 1 && CountCbs(Run(es).log, h, false) == 1
  {
    RunKeepsInv(es);
    assert Paired(Run(es), h);
    if Run(es).shuttingDown {
      LiveIdsMembers(Run(es).lives);
      assert h !in LiveIds(Run(es).lives);
    }
  }

  /** The step closes the IO handler while the callback that announces it is still posted. */
  predicate ClosesUnannounced(s: Acceptor, s': Acceptor, h: nat) {
    h < |s.lives| && h < |s'.lives| && !s.lives[h].notified && s'.lives[h].notified && h in s.announcements
  }

  predicate ClosedUnannounced(es: seq<Event>, h: nat)
    requires Valid(es)
    decreases |es|
  {
    es != [] &&
    var init := es[..|es| - 1];
    ClosedUnannounced(init, h) || ClosesUnannounced(Run(init), Run(es), h)
  }

  /** Some report that the IO handler has closed has no announcement before it. */
  ghost predicate ReportedFirst(log: seq<Callback>, h: nat) {
    exists i :: 0 <= i < |log| && log[i].StateCb? && log[i].h == h && !log[i].starting && CountCbs(log[..i], h, true) == 0
  }

  /** What a count of zero means. */
  lemma {:induction false} CountsNone(log: seq<Callback>, h: nat, starting: bool)
    ensures CountCbs(log, h, starting) == 0 <==>
            forall i :: 0 <= i < |log| ==> !(log[i].StateCb? && log[i].h == h && log[i].starting == starting)
  {
    if log != [] {
      CountsNone(log[..|log| - 1], h, starting);
    }
  }

  lemma ReportedFirstSnoc(log: seq<Callback>, cb: Callback, h: nat)
    ensures ReportedFirst(log + [cb], h) <==>
            ReportedFirst(log, h) || (cb.StateCb? && cb.h == h && !cb.starting && CountCbs(log, h, true) == 0)
  {
    var all := log + [cb];
    forall i | 0 <= i <= |log| ensures all[..i] == log[..i] {
    }
    assert log[..|log|] == log && all[|log|] == cb;
    if i :| 0 <= i < |log| && log[i].StateCb? && log[i].h == h && !log[i].starting && CountCbs(log[..i], h, true) == 0 {
      assert all[i] == log[i];
    }
  }

  /** More callbacks, none of which announces the handler. */
  lemma {:induction false} ReportedFirstAfter(log: seq<Callback>, more: seq<Callback>, h: nat)
    requires CountCbs(more, h, true) == 0
    ensures ReportedFirst(log + more, h) <==>
            ReportedFirst(log, h) || (CountCbs(more, h, false) > 0 && CountCbs(log, h, true) == 0)
    decreases |more|
  {
    if more == [] {
      assert log + more == log;
    } else {
      var init, last := more[..|more| - 1], more[|more| - 1];
      ReportedFirstAfter(log, init, h);
      CountAppend(log, init, h, true);
      assert log + more == (log + init) + [last];
      ReportedFirstSnoc(log + init, last, h);
    }
  }

  /** What a step does to the callbacks, the lives and, unless it announces, the posted announcements. */
  ghost predicate StepShape(s: Acceptor, s': Acceptor) {
    && s.log <= s'.log
    && |s.lives| <= |s'.lives|
    && (forall i :: 0 <= i < |s.lives| && s.lives[i].notified ==> s'.lives[i].notified)
    && (forall i :: |s.lives| <= i < |s'.lives| ==> i in s'.announcements && !s'.lives[i].notified)
  }

  lemma NextShape(s: Acceptor, e: Event)
    requires Inv(s) && Enabled(s, e)
    ensures StepShape(s, Next(s, e))
    ensures !e.Announce? ==> forall i: nat :: i < |s.lives| ==> (i in Next(s, e).announcements <==> i in s.announcements)
  {
  }

  /** What a step that announces nothing adds to the callbacks of one handler: its closed report, if the step closes it. */
  lemma StepCallbacks(s: Acceptor, s': Acceptor, h: nat) returns (more: seq<Callback>)
    requires StepShape(s, s') && Paired(s, h) && Paired(s', h)
    requires forall i: nat :: i < |s.lives| ==> (i in s'.announcements <==> i in s.announcements)
    ensures s'.log == s.log + more && CountCbs(more, h, true) == 0
    ensures CountCbs(more, h, false) == if h < |s.lives| && !s.lives[h].notified && s'.lives[h].notified then 1 else 0
  {
    more := s'.log[|s.log|..];
    assert s'.log == s.log + more;
    CountAppend(s.log, more, h, true);
    CountAppend(s.log, more, h, false);
  }

  lemma StepReports(s: Acceptor, e: Event, h: nat)
    requires Inv(s) && Enabled(s, e)
    ensures ReportedFirst(Next(s, e).log, h) <==> ReportedFirst(s.log, h) || ClosesUnannounced(s, Next(s, e), h)
  {
    if e.Announce? {
      ReportedFirstSnoc(s.log, StateCb(s.announcements[0], |s.handlers|, true), h);
    } else {
      NextShape(s, e);
      NextKeepsInv(s, e);
      assert Paired(s, h) && Paired(Next(s, e), h);
      var more := StepCallbacks(s, Next(s, e), h);
      ReportedFirstAfter(s.log, more, h);
    }
  }

  /** Which comes first: over every run an IO handler is reported closed before it is announced if and only if
      it was closed while its announcement was still posted. */
  lemma {:induction false} ReportedFirstExactly(es: seq<Event>, h: nat)
    requires Valid(es)
    ensures ReportedFirst(Run(es).log, h) <==> ClosedUnannounced(es, h)
    decreases |es|
  {
    if es != [] {
      ReportedFirstExactly(es[..|es| - 1], h);
      RunKeepsInv(es[..|es| - 1]);
      StepReports(Run(es[..|es| - 1]), es[|es| - 1], h);
    }
  }

  /** The same for the application, told from the callbacks alone: no handler is closed unannounced if and only if every
      closed report follows an announcement. */
  lemma {:induction false} AnnouncedBeforeClosed(es: seq<Event>, h: nat)
    requires Valid(es)
    ensures var log := Run(es).log;
            !ClosedUnannounced(es, h) <==>
            forall i :: 0 <= i < |log| && log[i].StateCb? && log[i].h == h && !log[i].starting ==>
              exists j :: 0 <= j < i && log[j].StateCb? && log[j].h == h && log[j].starting
  {
    ReportedFirstExactly(es, h);
    var log := Run(es).log;
    forall i | 0 <= i < |log|
      ensures CountCbs(log[..i], h, true) == 0 <==> !exists j :: 0 <= j < i && log[j].StateCb? && log[j].h == h && log[j].starting
    {
      CountsNone(log[..i], h, true);
      forall j | 0 <= j < i ensures log[..i][j] == log[j] {
      }
    }
  }

  /** So an IO handler can be reported closed before it is announced: a stop between the accept and the posted
      announcement does it. */
  lemma ClosedBeforeAnnounced()
    ensures var es := [Start(NoError, NoError)] + [AcceptDone(NoError)] + [StopCall] + [StopRun(NoError)] + [Announce];
            && Valid(es)
            && Run(es).log == [ErrorCb(NoIo, TcpAcceptorStopped), ErrorCb(Io(0), TcpIoHandlerStopped), StateCb(0, 0, false),
                               ErrorCb(NoIo, TcpAcceptorClosed), StateCb(0, 0, true)]
  {
    assert [] + [Start(NoError, NoError)] == [Start(NoError, NoError)];
    RunSnoc([], Start(NoError, NoError));
    var es := [Start(NoError, NoError)];
    RunSnoc(es, AcceptDone(NoError));
    es := es + [AcceptDone(NoError)];
    RunSnoc(es, StopCall);
    es := es + [StopCall];
    var s := Run(es);
    assert s.handlers == [0];
    assert StopReports([0]) == [ErrorCb(Io(0), TcpIoHandlerStopped), StateCb(0, 0, false)];
    RunSnoc(es, StopRun(NoError));
    es := es + [StopRun(NoError)];
    assert Run(es).log == [ErrorCb(NoIo, TcpAcceptorStopped), ErrorCb(Io(0), TcpIoHandlerStopped), StateCb(0, 0, false),
                           ErrorCb(NoIo, TcpAcceptorClosed)];
    RunSnoc(es, Announce);
  }

  lemma RunSnoc(es: seq<Event>, e: Event)
    requires Valid(es) && Enabled(Run(es), e)
    ensures Valid(es + [e]) && Run(es + [e]) == Next(Run(es), e)
  {
    assert (es + [e])[..|es|] == es;
  }
}
