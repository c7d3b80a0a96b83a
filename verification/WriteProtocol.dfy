/** The locked write protocol as a state machine: what one critical section does, and what holds
    after every interleaving of critical sections, write completions and closes. */
module WriteProtocol {
  import opened Bytes

  datatype WriteStatus = IoStopped | Queued | WriteStarted

  /** The protected data, with the history of the elements that sends accepted and of the elements
      handed to the asynchronous write, in lock order. */
  datatype IoState = IoState(
    started: bool,
    inProgress: bool,
    queue: seq<Buf>,
    accepted: seq<Buf>,
    handed: seq<Buf>)

  const IDLE := IoState(false, false, [], [], [])

  function Cleared(s: IoState): IoState {
    s.(queue := [], inProgress := false)
  }

  /** A send's critical section. */
  function OnSend(s: IoState, e: Buf): IoState {
    if !s.started then Cleared(s)
    else if s.inProgress then s.(queue := s.queue + [e], accepted := s.accepted + [e])
    else s.(inProgress := true, accepted := s.accepted + [e], handed := s.handed + [e])
  }

  /** The critical section that follows a successful write. */
  function OnWritten(s: IoState): IoState {
    if !s.started then Cleared(s)
    else if s.queue == [] then s.(inProgress := false)
    else s.(inProgress := true, queue := s.queue[1..], handed := s.handed + [s.queue[0]])
  }

  /** An IO handler's write side: the protected data, the writes whose completion has not run yet, and
      whether the handler has been stopped. */
  datatype Writer = Writer(io: IoState, outstanding: nat, stopped: bool)

  const FRESH := Writer(IDLE, 0, false)

  /** One critical section each. A close is SetStopped then Clear, so that other threads can come in
      between; a failed write's first critical section is its close's SetStopped. */
  datatype Event =
    | SetStarted
    | SetStopped
    | Clear
    | Send(elem: Buf)
    | Written
    | WriteFailed

  /** Completions come only from outstanding writes; a handler is not started again once it was
      stopped, and a clear is part of a close. */
  predicate Enabled(w: Writer, e: Event) {
    match e
    case SetStarted => !w.stopped
    case Clear => w.stopped
    case Written => w.outstanding > 0
    case WriteFailed => w.outstanding > 0
    case SetStopped => true
    case Send(_) => true
  }

  function Next(w: Writer, e: Event): Writer {
    match e
    case SetStarted => w.(io := w.io.(started := true))
    case SetStopped => w.(io := w.io.(started := false), stopped := w.stopped || w.io.started)
    case Clear => w.(io := Cleared(w.io))
    case Send(b) =>
      var io := OnSend(w.io, b);
      Writer(io, w.outstanding + |io.handed| - |w.io.handed|, w.stopped)
    case Written =>
      var io := OnWritten(w.io);
      Writer(io, (if w.outstanding > 0 then w.outstanding - 1 else 0) + |io.handed| - |w.io.handed|, w.stopped)
    case WriteFailed =>
      Writer(w.io.(started := false), if w.outstanding > 0 then w.outstanding - 1 else 0,
             w.stopped || w.io.started)
  }

  function Run(w: Writer, es: seq<Event>): Writer
    decreases |es|
  {
    if es == [] then w else Next(Run(w, es[..|es| - 1]), es[|es| - 1])
  }

  predicate Valid(w: Writer, es: seq<Event>)
    decreases |es|
  {
    es == [] ||
    (Valid(w, es[..|es| - 1]) && Enabled(Run(w, es[..|es| - 1]), es[|es| - 1]))
  }

  ghost predicate Inv(w: Writer) {
    && w.outstanding <= 1
    && w.io.handed <= w.io.accepted
    && (w.stopped ==> !w.io.started)
    && (w.io.started ==>
          && (w.io.inProgress <==> w.outstanding == 1)
          && (w.io.queue != [] ==> w.io.inProgress)
          && w.io.handed + w.io.queue == w.io.accepted)
    && (!w.io.started && !w.stopped ==> w == FRESH)
  }

  lemma InvStep(w: Writer, e: Event)
    requires Inv(w) && Enabled(w, e)
    ensures Inv(Next(w, e))
  {
    var io := w.io;
    if io.started && io.queue != [] {
      assert io.queue == [io.queue[0]] + io.queue[1..];
      assert io.handed + io.queue == (io.handed + [io.queue[0]]) + io.queue[1..];
    }
    if e.Send? && io.started {
      assert io.handed + (io.queue + [e.elem]) == (io.handed + io.queue) + [e.elem];
    }
  }

  lemma {:induction false} InvRun(es: seq<Event>)
    requires Valid(FRESH, es)
    ensures Inv(Run(FRESH, es))
    decreases |es|
  {
    if es != [] {
      InvRun(es[..|es| - 1]);
      InvStep(Run(FRESH, es[..|es| - 1]), es[|es| - 1]);
    }
  }

  /** Serialisation: at most one asynchronous write is ever outstanding, also after a close has reset
      the in-progress flag; while started the flag is set exactly when a write is outstanding, and
      no element waits without one. */
  lemma AtMostOneWrite(es: seq<Event>)
    requires Valid(FRESH, es)
    ensures Run(FRESH, es).outstanding <= 1
    ensures var w := Run(FRESH, es);
            w.io.started ==> (w.io.inProgress <==> w.outstanding == 1) && (w.io.queue != [] ==> w.io.inProgress)
  {
    InvRun(es);
  }

  /** Order: what was handed to the asynchronous write is a prefix, in lock order, of what the sends
      accepted; while started nothing accepted is lost. */
  lemma HandedInSendOrder(es: seq<Event>)
    requires Valid(FRESH, es)
    ensures var io := Run(FRESH, es).io;
            io.handed <= io.accepted && (io.started ==> io.handed + io.queue == io.accepted)
  {
    InvRun(es);
  }

  /** The elements a run's sends offered, told from the events alone: those between the first start and the
      first stop. */
  function Offered(es: seq<Event>): seq<Buf> {
    if es == [] then [] else
    var n := |es| - 1;
    if es[n].Send? && IsOpen(es[..n]) then Offered(es[..n]) + [es[n].elem] else Offered(es[..n])
  }

  predicate IsOpen(es: seq<Event>) {
    && (exists i :: 0 <= i < |es| && es[i] == SetStarted)
    && (forall i, j :: 0 <= i < j < |es| && es[i] == SetStarted ==> es[j] != SetStopped && es[j] != WriteFailed)
  }

  lemma OpenStep(es: seq<Event>, e: Event)
    ensures IsOpen(es + [e]) <==>
              if e == SetStarted then IsOpen(es) || forall i :: 0 <= i < |es| ==> es[i] != SetStarted
              else IsOpen(es) && e != SetStopped && e != WriteFailed
  {
    var all := es + [e];
    assert forall i :: 0 <= i < |es| ==> all[i] == es[i];
    assert all[|es|] == e;
    if IsOpen(all) && e != SetStarted {
      var i :| 0 <= i < |all| && all[i] == SetStarted;
      assert es[i] == SetStarted;
    }
    if i :| 0 <= i < |es| && es[i] == SetStarted {
      assert all[i] == SetStarted;
    }
  }

  /** Which sends are accepted: exactly those made after the first start and before any stop. */
  lemma {:induction false} AcceptedExactly(es: seq<Event>)
    requires Valid(FRESH, es)
    ensures Run(FRESH, es).io.accepted == Offered(es)
    ensures Run(FRESH, es).io.started <==> IsOpen(es)
    decreases |es|
  {
    if es != [] {
      var init, e := es[..|es| - 1], es[|es| - 1];
      AcceptedExactly(init);
      InvRun(init);
      NeverStarted(init);
      OpenStep(init, e);
      assert es == init + [e];
    }
  }

  /** A handler that was never started is neither started nor stopped. */
  lemma {:induction false} NeverStarted(es: seq<Event>)
    requires Valid(FRESH, es)
    ensures Run(FRESH, es) == FRESH <== forall i :: 0 <= i < |es| ==> es[i] != SetStarted
    ensures (exists i :: 0 <= i < |es| && es[i] == SetStarted) ==> Run(FRESH, es).io.started || Run(FRESH, es).stopped
    decreases |es|
  {
    if es != [] {
      var n := |es| - 1;
      NeverStarted(es[..n]);
      InvRun(es[..n]);
      if i :| 0 <= i < |es| && es[i] == SetStarted {
        if i < n {
          assert es[..n][i] == SetStarted;
        }
      }
    }
  }

  /** Once stopped, no run hands anything more to the asynchronous write, and nothing is accepted. */
  lemma {:induction false} NothingHandedAfterStop(w: Writer, es: seq<Event>)
    requires Inv(w) && w.stopped && Valid(w, es)
    ensures var v := Run(w, es); v.stopped && Inv(v) && v.io.handed == w.io.handed && v.io.accepted == w.io.accepted
    ensures Run(w, es).outstanding <= w.outstanding
    decreases |es|
  {
    if es != [] {
      NothingHandedAfterStop(w, es[..|es| - 1]);
      InvStep(Run(w, es[..|es| - 1]), es[|es| - 1]);
    }
  }

  /** The output was discarded after the stop: by the close's clear, or by a send or a completion that came before it. */
  predicate Discarded(es: seq<Event>)
    requires Valid(FRESH, es)
    decreases |es|
  {
    es != [] &&
    var init, e := es[..|es| - 1], es[|es| - 1];
    Discarded(init) || (Run(FRESH, init).stopped && (e.Clear? || e.Send? || e.Written?))
  }

  /** From then on nothing is queued and no write is marked in progress, whatever sends and completions follow. */
  lemma {:induction false} NothingKeptAfterStop(es: seq<Event>)
    requires Valid(FRESH, es)
    ensures Discarded(es) ==> Run(FRESH, es).stopped && Run(FRESH, es).io.queue == [] && !Run(FRESH, es).io.inProgress
    decreases |es|
  {
    if es != [] {
      NothingKeptAfterStop(es[..|es| - 1]);
      InvRun(es[..|es| - 1]);
    }
  }

  /** Completions of writes, successful or not. */
  function Ended(es: seq<Event>): nat {
    if es == [] then 0 else Ended(es[..|es| - 1]) + if es[|es| - 1].Written? || es[|es| - 1].WriteFailed? then 1 else 0
  }

  /** The outstanding writes are those handed over whose completion has not run. */
  lemma {:induction false} OutstandingExactly(es: seq<Event>)
    requires Valid(FRESH, es)
    ensures Run(FRESH, es).outstanding == |Run(FRESH, es).io.handed| - Ended(es)
    decreases |es|
  {
    if es != [] {
      OutstandingExactly(es[..|es| - 1]);
    }
  }

  /** The protocol run on from some state. */
  function WriteOn(w: Writer, es: seq<Event>): Writer
    decreases |es|
  {
    if es == [] then w else WriteOn(Next(w, es[0]), es[1..])
  }

  lemma RunMore(es: seq<Event>, e: Event)
    ensures Run(FRESH, es + [e]) == Next(Run(FRESH, es), e)
  {
    assert (es + [e])[..|es|] == es;
  }

  lemma {:induction false} WriteOnIsRun(es: seq<Event>, more: seq<Event>)
    ensures Run(FRESH, es + more) == WriteOn(Run(FRESH, es), more)
    decreases |more|
  {
    if more == [] {
      assert es + more == es;
    } else {
      RunMore(es, more[0]);
      WriteOnIsRun(es + [more[0]], more[1..]);
      assert es + more == (es + [more[0]]) + more[1..];
    }
  }

  lemma WriteOnTwo(w: Writer, a: Event, b: Event)
    ensures WriteOn(w, [a, b]) == Next(Next(w, a), b)
  {
    assert [a, b][1..] == [b] && [b][1..] == [];
    assert WriteOn(Next(w, a), [b]) == WriteOn(Next(Next(w, a), b), []);
  }

  lemma WriteOnThree(w: Writer, a: Event, b: Event, c: Event)
    ensures WriteOn(w, [a, b]) == Next(Next(w, a), b)
    ensures WriteOn(w, [a, b, c]) == Next(Next(Next(w, a), b), c)
  {
    WriteOnTwo(w, a, b);
    WriteOnTwo(Next(w, a), b, c);
    assert [a, b, c][1..] == [b, c];
  }

  /** `k` successful completions in a row. */
  function Completions(k: nat): seq<Event> {
    if k == 0 then [] else Completions(k - 1) + [Written]
  }

  /** The `k` oldest waiting elements have gone to the wire, and no others. */
  function AfterHanding(w: Writer, k: nat): Writer
    requires k <= |w.io.queue|
  {
    w.(io := w.io.(queue := w.io.queue[k..], handed := w.io.handed + w.io.queue[..k]))
  }

  lemma HandsOver(w: Writer, k: nat)
    requires w.io.started && w.io.inProgress && w.outstanding == 1 && k < |w.io.queue|
    ensures Next(AfterHanding(w, k), Written) == AfterHanding(w, k + 1)
  {
    var q := w.io.queue;
    assert q[k..][1..] == q[k + 1..] && q[k..][0] == q[k];
    assert q[..k] + [q[k]] == q[..k + 1];
    assert (w.io.handed + q[..k]) + [q[k]] == w.io.handed + q[..k + 1];
  }

  /** Each completion moves exactly the oldest waiting element to the wire. */
  lemma {:induction false} DrainsPartly(w: Writer, k: nat)
    requires w.io.started && w.io.inProgress && w.outstanding == 1 && k <= |w.io.queue|
    ensures Valid(w, Completions(k)) && Run(w, Completions(k)) == AfterHanding(w, k)
  {
    if k > 0 {
      DrainsPartly(w, k - 1);
      HandsOver(w, k - 1);
      LastCompletion(w, k);
    } else {
      assert w.io.handed + [] == w.io.handed;
    }
  }

  lemma LastCompletion(w: Writer, k: nat)
    requires k > 0 && Valid(w, Completions(k - 1)) && Run(w, Completions(k - 1)).outstanding > 0
    ensures Valid(w, Completions(k))
    ensures Run(w, Completions(k)) == Next(Run(w, Completions(k - 1)), Written)
  {
    var es := Completions(k);
    assert es[|es| - 1] == Written && es[..|es| - 1] == Completions(k - 1);
  }

  /** Progress: with no new sends, queue length plus one successful completions, and no fewer, hand over
      everything accepted, in order, and clear the flag. */
  lemma Drains(w: Writer)
    requires Inv(w) && w.io.started && w.io.inProgress
    ensures var k := |w.io.queue| + 1;
            && Valid(w, Completions(k))
            && var v := Run(w, Completions(k));
            && v.outstanding == 0 && !v.io.inProgress && v.io.queue == []
            && v.io.handed == v.io.accepted == w.io.accepted
    ensures forall k: nat :: k <= |w.io.queue| ==> Run(w, Completions(k)).io.inProgress
  {
    forall k: nat | k <= |w.io.queue|
      ensures Run(w, Completions(k)).io.inProgress
    {
      DrainsPartly(w, k);
    }
    var n := |w.io.queue|;
    DrainsPartly(w, n);
    assert w.io.queue[..n] == w.io.queue;
    LastCompletion(w, n + 1);
  }

  /** Why a second start is excluded: after a close, starting again and sending begins a
      second concurrent write exactly when the first one's completion is still to come. */
  lemma SecondStartIsUnsafe(es: seq<Event>, e: Buf)
    requires Valid(FRESH, es + [Clear])
    ensures var w := Next(Run(FRESH, es + [Clear]), SetStarted);
            Next(w, Send(e)).outstanding <= 1 <==> Run(FRESH, es).outstanding == 0
  {
    assert (es + [Clear])[..|es|] == es;
    InvRun(es);
  }

  /** Such a run: the write is still outstanding at the close, and a second start makes two. */
  lemma TwoWritesAtOnce(b: Buf)
    ensures var es := [SetStarted] + [Event.Send(b)] + [SetStopped] + [Clear];
            Valid(FRESH, es) && Next(Next(Run(FRESH, es), SetStarted), Event.Send(b)).outstanding == 2
  {
    RunSnoc([], SetStarted);
    assert [] + [SetStarted] == [SetStarted];
    var es := [SetStarted];
    assert Run(FRESH, es) == Writer(IDLE.(started := true), 0, false);
    RunSnoc(es, Event.Send(b));
    es := es + [Event.Send(b)];
    assert Run(FRESH, es).outstanding == 1 && Run(FRESH, es).io.started;
    RunSnoc(es, SetStopped);
    es := es + [SetStopped];
    RunSnoc(es, Clear);
  }

  lemma RunSnoc(es: seq<Event>, e: Event)
    requires Valid(FRESH, es) && Enabled(Run(FRESH, es), e)
    ensures Valid(FRESH, es + [e]) && Run(FRESH, es + [e]) == Next(Run(FRESH, es), e)
  {
    assert (es + [e])[..|es|] == es;
  }
}
