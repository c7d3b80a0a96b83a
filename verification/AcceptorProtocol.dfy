/** The TCP acceptor as a transition table. An IO handler is named by its place in the order of accepts. */
module AcceptorProtocol {
  import opened NetIpError
  import opened HandlerLife
  import opened Containers
  import NetEntityCommon

  datatype Acceptor = Acceptor(
    entity: int,
    shuttingDown: bool,
    handlers: seq<nat>,       // the live container
    accepts: nat,             // accepts whose completion has not run
    announcements: seq<nat>,  // posted calls of the (handler, count, true) callback, in posting order
    closesPosted: nat,
    lives: seq<Life>,         // every IO handler made so far
    log: seq<Callback>)       // every callback made

  const INITIAL := Acceptor(NetEntityCommon.UNSTARTED, false, [], 0, [], 0, [], [])

  /** Start: `err` is the first error of resolving, opening, binding and listening; `ec` is the error of closing the
      listening socket, where an event closes it. */
  datatype Event =
    | Start(err: Error, ec: Error)
    | StopCall
    | StopRun(ec: Error)
    | AcceptDone(err: Error)
    | Announce
    | HandlerEvent(h: nat, action: Action, err: Error)

  predicate Enabled(s: Acceptor, e: Event) {
    match e
    case Start(err, ec) => External(err) && External(ec)
    case StopCall => true
    case StopRun(ec) => s.closesPosted > 0 && External(ec)
    case AcceptDone(_) => s.accepts > 0
    case Announce => s.announcements != []
    case HandlerEvent(h, a, _) => h < |s.lives| && Documented(s.lives[h], a)
  }

  /** An IO handler closes: it leaves the container and is reported with the number that remain. */
  function Notified(s: Acceptor, h: nat, err: Error): Acceptor {
    var rest := Without<nat>(s.handlers, h);
    s.(handlers := rest, log := s.log + [ErrorCb(Io(h), err), StateCb(h, |rest|, false)])
  }

  function OnHandler(s: Acceptor, h: nat, a: Action, err: Error): Acceptor
    requires h < |s.lives|
  {
    var s1 := s.(lives := s.lives[h := After(s.lives[h], a)]);
    if Notifies(s.lives[h], a) then Notified(s1, h, Notice(a, err)) else s1
  }

  /** What is reported when the handlers are closed one after the other: each with the number still to close. */
  function StopReports(hs: seq<nat>): seq<Callback> {
    if hs == [] then [] else
    [ErrorCb(Io(hs[0]), TcpIoHandlerStopped), StateCb(hs[0], |hs| - 1, false)] + StopReports(hs[1..])
  }

  function ClosedLives(lives: seq<Life>, hs: seq<nat>): (r: seq<Life>)
    ensures |r| == |lives|
  {
    seq(|lives|, i requires 0 <= i < |lives| => if i in hs then CLOSED else lives[i])
  }

  /** Closing closes every live IO handler once, in accept order, and empties the container. */
  function Close(s: Acceptor, err: Error, ec: Error): Acceptor {
    var s1 := s.(log := s.log + [ErrorCb(NoIo, err)]);
    if s.shuttingDown then s1 else
    s1.(shuttingDown := true, entity := NetEntityCommon.STOPPED, handlers := [],
        lives := ClosedLives(s.lives, s.handlers),
        log := s1.log + StopReports(s.handlers) + IfError(ec) + [ErrorCb(NoIo, TcpAcceptorClosed)])
  }

  function OnAccepted(s: Acceptor): Acceptor {
    var h := |s.lives|;
    s.(lives := s.lives + [NEW], handlers := s.handlers + [h], announcements := s.announcements + [h],
       accepts := s.accepts + 1)
  }

  function Next(s: Acceptor, e: Event): Acceptor
    requires Enabled(s, e)
  {
    match e
    case Start(err, ec) =>
      if s.entity != NetEntityCommon.UNSTARTED then s
      else
        var s1 := s.(entity := NetEntityCommon.STARTED);
        if err != NoError then Close(s1, err, ec)
        else if s.shuttingDown then s1 else s1.(accepts := s.accepts + 1)
    case StopCall =>
      if s.entity != NetEntityCommon.STARTED then s
      else s.(entity := NetEntityCommon.STOPPED, closesPosted := s.closesPosted + 1)
    case StopRun(ec) => Close(s.(closesPosted := s.closesPosted - 1), TcpAcceptorStopped, ec)
    case AcceptDone(err) =>
      var s1 := s.(accepts := s.accepts - 1);
      if err != NoError || s.shuttingDown then s1 else OnAccepted(s1)
    case Announce =>
      s.(announcements := s.announcements[1..],
         log := s.log + [StateCb(s.announcements[0], |s.handlers|, true)])
    case HandlerEvent(h, a, err) => OnHandler(s, h, a, err)
  }

  predicate Valid(es: seq<Event>)
    decreases |es|, 0
  {
    es == [] || (Valid(es[..|es| - 1]) && Enabled(Run(es[..|es| - 1]), es[|es| - 1]))
  }

  function Run(es: seq<Event>): Acceptor
    requires Valid(es)
    decreases |es|, 1
  {
    if es == [] then INITIAL else Next(Run(es[..|es| - 1]), es[|es| - 1])
  }
}
