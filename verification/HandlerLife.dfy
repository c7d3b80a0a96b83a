/** What a TCP connector or acceptor sees of one of its IO handlers: whether IO is started on it and
    whether it has called its notifier. TcpIoRuns.HandlerFollowsLife ties this to the handler itself. */
module HandlerLife {
  import opened NetIpError

  datatype Life = Life(started: bool, notified: bool)

  const NEW := Life(false, false)
  const CLOSED := Life(false, true)

  /** StartIo: start_io with a readable remote endpoint; StartIoFailing: start_io without;
      StopIo: stop_io; Closing: the internal close, run by failed reads and writes and after a
      message handler's refusal. */
  datatype Action = StartIo | StartIoFailing | StopIo | Closing

  /** Whether the action calls the notifier. */
  predicate Notifies(l: Life, a: Action) {
    match a
    case StartIo => false
    case StartIoFailing => !l.started
    case StopIo => true
    case Closing => l.started
  }

  function After(l: Life, a: Action): Life {
    if Notifies(l, a) then CLOSED
    else if a == StartIo then l.(started := true)
    else l
  }

  /** An application uses an IO handler until it is told that the handler has closed. */
  predicate Documented(l: Life, a: Action) {
    l.notified ==> a == Closing
  }

  /** The error code the notifier is given. */
  function Notice(a: Action, err: Error): Error {
    if a == StopIo then TcpIoHandlerStopped else err
  }

  /** The life after some actions, each with the error it carries. */
  function LifeAfter(actions: seq<(Action, Error)>): Life {
    if actions == [] then NEW else After(LifeAfter(actions[..|actions| - 1]), actions[|actions| - 1].0)
  }

  /** The codes the notifier is given on the way. */
  function NoticesOf(actions: seq<(Action, Error)>): seq<Error> {
    if actions == [] then [] else
    var init, (a, err) := actions[..|actions| - 1], actions[|actions| - 1];
    if Notifies(LifeAfter(init), a) then NoticesOf(init) + [Notice(a, err)] else NoticesOf(init)
  }

  lemma LifeSnoc(actions: seq<(Action, Error)>, a: Action, err: Error)
    ensures LifeAfter(actions + [(a, err)]) == After(LifeAfter(actions), a)
    ensures NoticesOf(actions + [(a, err)]) ==
            NoticesOf(actions) + if Notifies(LifeAfter(actions), a) then [Notice(a, err)] else []
  {
    assert (actions + [(a, err)])[..|actions|] == actions;
  }

  predicate AllDocumented(actions: seq<(Action, Error)>) {
    actions == [] ||
    (AllDocumented(actions[..|actions| - 1]) && Documented(LifeAfter(actions[..|actions| - 1]), actions[|actions| - 1].0))
  }

  /** Used as documented an IO handler notifies at most once, and stays closed from then on. */
  lemma {:induction false} AtMostOneNotice(actions: seq<(Action, Error)>)
    requires AllDocumented(actions)
    ensures |NoticesOf(actions)| <= 1
    ensures NoticesOf(actions) != [] <==> LifeAfter(actions).notified
    ensures NoticesOf(actions) != [] ==> LifeAfter(actions) == CLOSED
  {
    if actions != [] {
      AtMostOneNotice(actions[..|actions| - 1]);
    }
  }
}
