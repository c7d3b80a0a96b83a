/** Broadcasting to a changing collection of connections. A broadcast holds the collection's lock while it calls send on one
    connection after the other; only that lock is held, so the connections' own sends, starts, closes and write completions
    come in between. Connections are numbered. */
module BroadcastProtocol {
  import opened Bytes
  import opened Containers
  import opened WriteProtocol

  /** A broadcast under way: the event that began it, what it sends and the connections it has still to call. */
  datatype Sending = Sending(began: nat, buf: Buf, todo: seq<nat>)

  /** The collection, the broadcast that holds its lock and the write state of every connection. */
  datatype Hub = Hub(
    outs: seq<nat>,
    sending: Option<Sending>,
    conns: seq<IoState>,
    // histories
    now: nat,                  // events so far
    origins: seq<seq<nat>>)    // for each connection, which event brought it each buffer that it accepted

  /** Begin takes the lock, Call is one pass of the loop, End gives the lock back. */
  datatype Event =
    | Add(c: nat)
    | Remove(c: nat)
    | Begin(buf: Buf, skip: Option<nat>)
    | Call
    | End
    | Direct(c: nat, buf: Buf)
    | Open(c: nat)
    | Shut(c: nat)
    | Finished(c: nat)

  predicate Enabled(h: Hub, e: Event) {
    match e
    case Add(_) => h.sending == None
    case Remove(_) => h.sending == None
    case Begin(_, _) => h.sending == None
    case Call => h.sending.Some? && h.sending.value.todo != []
    case End => h.sending.Some? && h.sending.value.todo == []
    case _ => true
  }

  function Targets(outs: seq<nat>, skip: Option<nat>): seq<nat> {
    match skip
    case None => outs
    case Some(c) => Without<nat>(outs, c)
  }

  function SendTo(h: Hub, c: nat, b: Buf, origin: nat): Hub {
    if c >= |h.conns| || c >= |h.origins| then h else
    h.(conns := h.conns[c := OnSend(h.conns[c], b)],
       origins := if h.conns[c].started then h.origins[c := h.origins[c] + [origin]] else h.origins)
  }

  function OnConn(h: Hub, c: nat, f: IoState -> IoState): Hub {
    if c < |h.conns| then h.(conns := h.conns[c := f(h.conns[c])]) else h
  }

  function Next(h: Hub, e: Event): Hub
    requires Enabled(h, e)
  {
    var h1 := h.(now := h.now + 1);
    match e
    case Add(c) => h1.(outs := h.outs + [c])
    case Remove(c) => h1.(outs := Without<nat>(h.outs, c))
    case Begin(b, skip) => h1.(sending := Some(Sending(h.now, b, Targets(h.outs, skip))))
    case Call =>
      var s := h.sending.value;
      SendTo(h1.(sending := Some(s.(todo := s.todo[1..]))), s.todo[0], s.buf, s.began)
    case End => h1.(sending := None)
    case Direct(c, b) => SendTo(h1, c, b, h.now)
    case Open(c) => OnConn(h1, c, (s: IoState) => s.(started := true))
    case Shut(c) => OnConn(h1, c, (s: IoState) => Cleared(s.(started := false)))
    case Finished(c) => OnConn(h1, c, OnWritten)
  }

  function Initial(n: nat): Hub {
    Hub([], None, seq(n, _ => IDLE), 0, seq(n, _ => []))
  }

  predicate Valid(n: nat, es: seq<Event>)
    decreases |es|, 0
  {
    es == [] || (Valid(n, es[..|es| - 1]) && Enabled(Run(n, es[..|es| - 1]), es[|es| - 1]))
  }

  function Run(n: nat, es: seq<Event>): Hub
    requires Valid(n, es)
    decreases |es|, 1
  {
    if es == [] then Initial(n) else Next(Run(n, es[..|es| - 1]), es[|es| - 1])
  }

  // What a connection should receive, told from the events alone.

  /** How often a connection is registered: its additions since it was last removed. */
  function Registered(es: seq<Event>, c: nat): nat {
    if es == [] then 0 else
    var e, before := es[|es| - 1], Registered(es[..|es| - 1], c);
    if e == Add(c) then before + 1 else if e == Remove(c) then 0 else before
  }

  /** Whether IO is started on it: it was opened and not shut since. */
  predicate Live(es: seq<Event>, c: nat) {
    es != [] &&
    var e := es[|es| - 1];
    if e == Open(c) then true else if e == Shut(c) then false else Live(es[..|es| - 1], c)
  }

  /** How often the broadcast that begins next is to call send on it. */
  function Times(es: seq<Event>, skip: Option<nat>, c: nat): nat {
    if skip == Some(c) then 0 else Registered(es, c)
  }

  /** The k-th event is a call made by the broadcast that the i-th event began. */
  ghost predicate CallOf(es: seq<Event>, i: nat, k: nat) {
    i < k < |es| && es[k].Call? && Unfinished(es[..k], i)
  }

  ghost predicate Unfinished(es: seq<Event>, i: nat) {
    forall j :: i < j < |es| ==> !es[j].End?
  }

  function BufOf(e: Event): Buf {
    match e
    case Begin(b, _) => b
    case Direct(_, b) => b
    case _ => []
  }

  ghost predicate InRange(es: seq<Event>, at: seq<nat>) {
    forall k :: 0 <= k < |at| ==> at[k] < |es|
  }

  function BufsAt(es: seq<Event>, at: seq<nat>): seq<Buf>
    requires InRange(es, at)
  {
    seq(|at|, k requires 0 <= k < |at| => BufOf(es[at[k]]))
  }

  // What every run keeps, for one connection.

  ghost predicate Registry(es: seq<Event>, h: Hub, c: nat) {
    && c < |h.conns| == |h.origins|
    && h.now == |es|
    && Count<nat>(h.outs, c) == Registered(es, c)
    && h.conns[c].started == Live(es, c)
    && (h.sending.Some? ==> var b := h.sending.value; b.began < |es| && es[b.began].Begin? && es[b.began].buf == b.buf)
  }

  lemma StepRegistry(es: seq<Event>, h: Hub, e: Event, c: nat)
    requires Registry(es, h, c) && Enabled(h, e)
    ensures Registry(es + [e], Next(h, e), c)
  {
    assert (es + [e])[..|es|] == es;
    match e
    case Add(d) => CountSnoc<nat>(h.outs, d, c);
    case Remove(d) => CountWithout<nat>(h.outs, d, c);
    case _ =>
  }

  /** The event sends to the connection. */
  predicate Sends(e: Event, c: nat) {
    e.Begin? || (e.Direct? && e.c == c)
  }

  ghost predicate Accepts(es: seq<Event>, h: Hub, c: nat)
    requires c < |h.conns| == |h.origins|
  {
    && InRange(es, h.origins[c])
    && h.conns[c].accepted == BufsAt(es, h.origins[c])
    && forall k :: 0 <= k < |h.origins[c]| ==> Sends(es[h.origins[c][k]], c)
  }

  lemma BufsAtSnoc(es: seq<Event>, e: Event, at: seq<nat>, i: nat)
    requires InRange(es, at) && i <= |es|
    ensures InRange(es + [e], at) && BufsAt(es + [e], at) == BufsAt(es, at)
    ensures InRange(es + [e], at + [i]) && BufsAt(es + [e], at + [i]) == BufsAt(es, at) + [BufOf((es + [e])[i])]
  {
  }

  lemma StepAccepts(es: seq<Event>, h: Hub, e: Event, c: nat)
    requires Registry(es, h, c) && Accepts(es, h, c) && Enabled(h, e)
    requires Registry(es + [e], Next(h, e), c)
    ensures Accepts(es + [e], Next(h, e), c)
  {
    BufsAtSnoc(es, e, h.origins[c], if h.sending.Some? then h.sending.value.began else 0);
    BufsAtSnoc(es, e, h.origins[c], |es|);
  }

  lemma {:induction false} RunAccepts(n: nat, es: seq<Event>, c: nat)
    requires c < n && Valid(n, es)
    ensures Registry(es, Run(n, es), c) && Accepts(es, Run(n, es), c)
    decreases |es|
  {
    if es != [] {
      var init, e := es[..|es| - 1], es[|es| - 1];
      RunAccepts(n, init, c);
      StepRegistry(init, Run(n, init), e, c);
      StepAccepts(init, Run(n, init), e, c);
      assert init + [e] == es;
    }
  }

  /** The broadcasts among some events' positions are in order. */
  ghost predicate InOrder(es: seq<Event>, at: seq<nat>)
    requires InRange(es, at)
  {
    forall p, q :: 0 <= p < q < |at| && es[at[p]].Begin? && es[at[q]].Begin? ==> at[p] <= at[q]
  }

  ghost predicate UpTo(es: seq<Event>, at: seq<nat>, i: nat)
    requires InRange(es, at)
  {
    forall p :: 0 <= p < |at| && es[at[p]].Begin? ==> at[p] <= i
  }

  /** Copies of broadcasts arrive in the order of the broadcasts; own sends may overtake a broadcast under way. */
  ghost predicate Ordered(es: seq<Event>, h: Hub, c: nat)
    requires c < |h.conns| == |h.origins| && InRange(es, h.origins[c])
  {
    InOrder(es, h.origins[c]) && (h.sending.Some? ==> UpTo(es, h.origins[c], h.sending.value.began))
  }

  lemma InOrderSnoc(es: seq<Event>, e: Event, at: seq<nat>, i: nat, b: nat)
    requires InRange(es, at) && InOrder(es, at) && i <= |es|
    ensures InRange(es + [e], at) && InOrder(es + [e], at) && UpTo(es + [e], at, |es|)
    ensures UpTo(es, at, b) ==> UpTo(es + [e], at, b)
    ensures InRange(es + [e], at + [i])
    ensures UpTo(es, at, i) || !(es + [e])[i].Begin? ==> InOrder(es + [e], at + [i])
    ensures UpTo(es, at, b) && ((es + [e])[i].Begin? ==> i <= b) ==> UpTo(es + [e], at + [i], b)
  {
    forall p | 0 <= p < |at| ensures (es + [e])[at[p]] == es[at[p]] {
    }
  }

  lemma StepOrdered(es: seq<Event>, h: Hub, e: Event, c: nat)
    requires Registry(es, h, c) && Accepts(es, h, c) && Ordered(es, h, c) && Enabled(h, e)
    requires Registry(es + [e], Next(h, e), c) && Accepts(es + [e], Next(h, e), c)
    ensures Ordered(es + [e], Next(h, e), c)
  {
    var began := if h.sending.Some? then h.sending.value.began else |es|;
    if e.Call? {
      InOrderSnoc(es, e, h.origins[c], began, began);
    } else {
      InOrderSnoc(es, e, h.origins[c], |es|, began);
    }
  }

  lemma {:induction false} RunOrdered(n: nat, es: seq<Event>, c: nat)
    requires c < n && Valid(n, es) && Registry(es, Run(n, es), c) && Accepts(es, Run(n, es), c)
    ensures Ordered(es, Run(n, es), c)
    decreases |es|
  {
    if es != [] {
      var init, e := es[..|es| - 1], es[|es| - 1];
      assert init + [e] == es;
      RunAccepts(n, init, c);
      RunOrdered(n, init, c);
      StepOrdered(init, Run(n, init), e, c);
    }
  }

  /** What a step adds to a connection's copies of what the i-th event sent. */
  lemma StepCopies(es: seq<Event>, h: Hub, e: Event, c: nat, i: nat)
    requires Registry(es, h, c) && Enabled(h, e)
    ensures Count<nat>(Next(h, e).origins[c], i) == Count<nat>(h.origins[c], i) +
            if Live(es, c) &&
               ((e.Call? && h.sending.value.todo[0] == c && h.sending.value.began == i) || (e.Direct? && e.c == c && |es| == i))
            then 1 else 0
  {
    if e.Call? {
      CountSnoc<nat>(h.origins[c], h.sending.value.began, i);
    } else {
      CountSnoc<nat>(h.origins[c], |es|, i);
    }
  }

  /** A connection's own send reaches it exactly once if IO is started, otherwise not at all. */
  lemma {:induction false} OwnSends(n: nat, es: seq<Event>, c: nat, i: nat)
    requires c < n && Valid(n, es) && i < |es| && es[i].Direct?
    ensures Registry(es, Run(n, es), c)
    ensures Count<nat>(Run(n, es).origins[c], i) == if es[i].c == c && Live(es[..i], c) then 1 else 0
    decreases |es|
  {
    var init, e := es[..|es| - 1], es[|es| - 1];
    RunAccepts(n, es, c);
    RunAccepts(n, init, c);
    StepCopies(init, Run(n, init), e, c, i);
    if i < |init| {
      assert init[..i] == es[..i];
      OwnSends(n, init, c, i);
    } else {
      CountAbsent<nat>(Run(n, init).origins[c], i);
    }
  }

  ghost predicate AllLive(es: seq<Event>, i: nat, c: nat) {
    forall k: nat :: CallOf(es, i, k) ==> Live(es[..k], c)
  }

  ghost predicate NoneLive(es: seq<Event>, i: nat, c: nat) {
    forall k: nat :: CallOf(es, i, k) ==> !Live(es[..k], c)
  }

  lemma CallOfSnoc(es: seq<Event>, e: Event, i: nat, k: nat)
    requires i < |es|
    ensures CallOf(es + [e], i, k) <==> CallOf(es, i, k) || (k == |es| && e.Call? && Unfinished(es, i))
    ensures k <= |es| ==> (es + [e])[..k] == es[..k]
  {
    var all := es + [e];
    if k <= |es| {
      assert all[..k] == es[..k];
    }
    if k == |es| {
      assert es[..k] == es;
    }
  }

  lemma LiveSnoc(es: seq<Event>, e: Event, i: nat, c: nat)
    requires i < |es|
    ensures AllLive(es + [e], i, c) <==> AllLive(es, i, c) && (e.Call? && Unfinished(es, i) ==> Live(es, c))
    ensures NoneLive(es + [e], i, c) <==> NoneLive(es, i, c) && (e.Call? && Unfinished(es, i) ==> !Live(es, c))
  {
    var all := es + [e];
    forall k: nat ensures CallOf(all, i, k) <==> CallOf(es, i, k) || (k == |es| && e.Call? && Unfinished(es, i)) {
      CallOfSnoc(es, e, i, k);
    }
    forall k: nat | k <= |es| ensures all[..k] == es[..k] {
      CallOfSnoc(es, e, i, k);
    }
    assert es[..|es|] == es;
  }

  /** How far the broadcast that the i-th event began has got with one connection. */
  ghost predicate Progress(es: seq<Event>, h: Hub, c: nat, i: nat)
    requires c < |h.origins| && i < |es| && es[i].Begin?
  {
    var got, due := Count<nat>(h.origins[c], i), Times(es[..i], es[i].skip, c);
    var left := if h.sending.Some? && h.sending.value.began == i then Count<nat>(h.sending.value.todo, c) else 0;
    && (h.sending.Some? && h.sending.value.began == i <==> Unfinished(es, i))
    && got + left <= due
    && (AllLive(es, i, c) ==> got + left == due)
    && (NoneLive(es, i, c) ==> got == 0)
  }

  lemma BeginProgress(es: seq<Event>, h: Hub, e: Event, c: nat)
    requires Registry(es, h, c) && Accepts(es, h, c) && Enabled(h, e) && e.Begin?
    ensures Registry(es + [e], Next(h, e), c) && Progress(es + [e], Next(h, e), c, |es|)
  {
    StepRegistry(es, h, e, c);
    StepCopies(es, h, e, c, |es|);
    CountAbsent<nat>(h.origins[c], |es|);
    assert (es + [e])[..|es|] == es;
    if e.skip.Some? {
      CountWithout<nat>(h.outs, e.skip.value, c);
    }
  }

  lemma StepProgress(es: seq<Event>, h: Hub, e: Event, c: nat, i: nat)
    requires Registry(es, h, c) && Enabled(h, e) && i < |es| && es[i].Begin? && Progress(es, h, c, i)
    ensures Registry(es + [e], Next(h, e), c) && Progress(es + [e], Next(h, e), c, i)
  {
    StepRegistry(es, h, e, c);
    StepCopies(es, h, e, c, i);
    LiveSnoc(es, e, i, c);
    assert (es + [e])[..i] == es[..i];
    if e.Call? {
      CountFront<nat>(h.sending.value.todo, c);
    }
  }

  lemma {:induction false} RunProgress(n: nat, es: seq<Event>, c: nat, i: nat)
    requires c < n && Valid(n, es) && i < |es| && es[i].Begin?
    ensures Registry(es, Run(n, es), c) && Progress(es, Run(n, es), c, i)
    decreases |es|
  {
    var init, e := es[..|es| - 1], es[|es| - 1];
    RunAccepts(n, init, c);
    assert init + [e] == es;
    if i < |init| {
      RunProgress(n, init, c, i);
      StepProgress(init, Run(n, init), e, c, i);
    } else {
      BeginProgress(init, Run(n, init), e, c);
    }
  }

  /** In every run, whatever comes in between, what a connection accepts are exactly the buffers of the sends that reached it: its own,
      and calls of broadcasts. */
  lemma {:induction false} AcceptsWhatReachesIt(n: nat, es: seq<Event>, c: nat)
    requires c < n && Valid(n, es)
    ensures var h := Run(n, es);
            && |h.conns| == n == |h.origins|
            && InRange(es, h.origins[c])
            && h.conns[c].accepted == BufsAt(es, h.origins[c])
            && forall k :: 0 <= k < |h.origins[c]| ==> Sends(es[h.origins[c][k]], c)
  {
    RunSizes(n, es);
    RunAccepts(n, es, c);
  }

  lemma {:induction false} RunSizes(n: nat, es: seq<Event>)
    requires Valid(n, es)
    ensures |Run(n, es).conns| == n == |Run(n, es).origins|
    decreases |es|
  {
    if es != [] {
      RunSizes(n, es[..|es| - 1]);
    }
  }

  /** A broadcast reaches a connection at most once for every time it was registered when the broadcast began, and not if it is
      skipped; exactly so often once the broadcast has ended, if IO was started on it at each of the calls; and never if it was
      started at none. */
  lemma {:induction false} BroadcastCopies(n: nat, es: seq<Event>, c: nat, i: nat)
    requires c < n && Valid(n, es) && i < |es| && es[i].Begin?
    ensures c < |Run(n, es).origins|
    ensures var got, due := Count<nat>(Run(n, es).origins[c], i), Times(es[..i], es[i].skip, c);
            && got <= due
            && (AllLive(es, i, c) && !Unfinished(es, i) ==> got == due)
            && (NoneLive(es, i, c) ==> got == 0)
  {
    RunProgress(n, es, c, i);
  }

  /** Where a connection's accepted buffers came from, in the order it accepted them. */
  ghost function OriginsOf(n: nat, es: seq<Event>, c: nat): (at: seq<nat>)
    requires c < n && Valid(n, es)
    ensures InRange(es, at)
  {
    RunAccepts(n, es, c);
    Run(n, es).origins[c]
  }

  ghost predicate Before(at: seq<nat>, i: nat, j: nat) {
    forall p, q :: 0 <= p < |at| && 0 <= q < |at| && at[p] == i && at[q] == j ==> p < q
  }

  /** A connection accepts every copy of a broadcast before any copy of a later one. */
  lemma {:induction false} BroadcastsArriveInOrder(n: nat, es: seq<Event>, c: nat, i: nat, j: nat)
    requires c < n && Valid(n, es) && i < j < |es| && es[i].Begin? && es[j].Begin?
    ensures Before(OriginsOf(n, es, c), i, j)
  {
    RunAccepts(n, es, c);
    RunOrdered(n, es, c);
    var at := OriginsOf(n, es, c);
    forall p, q | 0 <= p < |at| && 0 <= q < |at| && at[p] == i && at[q] == j ensures p < q {
      assert q <= p ==> q < p;
    }
  }

  /** One order for all: any two connections accept their copies of any two broadcasts in the same order, registered and
      started as they may be. */
  lemma {:induction false} CommonBroadcastsInOneOrder(n: nat, es: seq<Event>, c: nat, d: nat, i: nat, j: nat)
    requires c < n && d < n && Valid(n, es)
    requires i < |es| && j < |es| && i != j && es[i].Begin? && es[j].Begin?
    ensures var at, bt := OriginsOf(n, es, c), OriginsOf(n, es, d);
            (Before(at, i, j) && Before(bt, i, j)) || (Before(at, j, i) && Before(bt, j, i))
  {
    var first, second := if i < j then i else j, if i < j then j else i;
    BroadcastsArriveInOrder(n, es, c, first, second);
    BroadcastsArriveInOrder(n, es, d, first, second);
  }

  lemma RunSnoc(n: nat, es: seq<Event>, e: Event)
    requires Valid(n, es) && Enabled(Run(n, es), e)
    ensures Valid(n, es + [e]) && Run(n, es + [e]) == Next(Run(n, es), e)
  {
    assert (es + [e])[..|es|] == es;
  }

  /** Not so for own sends: one made after a broadcast began is accepted before it. */
  lemma OwnSendOvertakes(b: Buf, own: Buf)
    ensures var es := [Add(0)] + [Open(0)] + [Begin(b, None)] + [Direct(0, own)] + [Call];
            && Valid(1, es) && |Run(1, es).conns| == 1
            && Run(1, es).origins == [[3, 2]] && Run(1, es).conns[0].accepted == [own, b]
  {
    RunSnoc(1, [], Add(0));
    assert [] + [Add(0)] == [Add(0)];
    RunSnoc(1, [Add(0)], Open(0));
    var es := [Add(0)] + [Open(0)];
    var s := IDLE.(started := true);
    assert Run(1, es) == Hub([0], None, [s], 2, [[]]);
    RunSnoc(1, es, Begin(b, None));
    es := es + [Begin(b, None)];
    assert Run(1, es) == Hub([0], Some(Sending(2, b, [0])), [s], 3, [[]]);
    RunSnoc(1, es, Direct(0, own));
    es := es + [Direct(0, own)];
    var h := Run(1, es);
    assert h.sending == Some(Sending(2, b, [0])) && h.conns == [OnSend(s, own)] && |h.origins| == 1 && h.origins[0] == [3];
    RunSnoc(1, es, Call);
    h := Run(1, es + [Call]);
    assert |h.origins| == 1 && h.origins[0] == [3, 2] && h.conns[0].accepted == [own, b];
  }

  /** What a step means to one connection's write side. */
  function WriterEvents(h: Hub, e: Event, c: nat): seq<WriteProtocol.Event>
    requires Enabled(h, e)
  {
    match e
    case Call => if h.sending.value.todo[0] == c then [WriteProtocol.Send(h.sending.value.buf)] else []
    case Direct(d, b) => if d == c then [WriteProtocol.Send(b)] else []
    case Open(d) => if d == c then [SetStarted] else []
    case Shut(d) => if d == c then [SetStopped, Clear] else []
    case Finished(d) => if d == c then [Written] else []
    case _ => []
  }

  function WriterRun(n: nat, es: seq<Event>, c: nat): seq<WriteProtocol.Event>
    requires Valid(n, es)
  {
    if es == [] then [] else
    var init := es[..|es| - 1];
    WriterRun(n, init, c) + WriterEvents(Run(n, init), es[|es| - 1], c)
  }

  lemma WriterSnoc(es: seq<WriteProtocol.Event>, e: WriteProtocol.Event)
    ensures WriteProtocol.Run(FRESH, es + [e]) == WriteProtocol.Next(WriteProtocol.Run(FRESH, es), e)
  {
    assert (es + [e])[..|es|] == es;
  }

  lemma WriterEffect(h: Hub, e: Event, c: nat, w: Writer)
    requires c < |h.conns| == |h.origins| && Enabled(h, e) && h.conns[c] == w.io
    ensures var more := WriterEvents(h, e, c);
            Next(h, e).conns[c] ==
            if more == [] then w.io
            else if |more| == 1 then WriteProtocol.Next(w, more[0]).io
            else WriteProtocol.Next(WriteProtocol.Next(w, more[0]), more[1]).io
  {
  }

  lemma WriterStep(h: Hub, e: Event, c: nat, es: seq<WriteProtocol.Event>)
    requires c < |h.conns| == |h.origins| && Enabled(h, e) && h.conns[c] == WriteProtocol.Run(FRESH, es).io
    ensures Next(h, e).conns[c] == WriteProtocol.Run(FRESH, es + WriterEvents(h, e, c)).io
  {
    var more := WriterEvents(h, e, c);
    WriterEffect(h, e, c, WriteProtocol.Run(FRESH, es));
    if more == [] {
      assert es + more == es;
    } else if |more| == 1 {
      WriterSnoc(es, more[0]);
    } else {
      WriterSnoc(es, SetStopped);
      WriterSnoc(es + [SetStopped], Clear);
      assert es + more == es + [SetStopped] + [Clear];
    }
  }

  /** Each connection is the locked write protocol, run on the sends, starts, closes and completions that concern it. */
  lemma {:induction false} ConnectionsAreWriters(n: nat, es: seq<Event>, c: nat)
    requires c < n && Valid(n, es)
    ensures |Run(n, es).conns| == n
    ensures Run(n, es).conns[c] == WriteProtocol.Run(FRESH, WriterRun(n, es, c)).io
    decreases |es|
  {
    RunSizes(n, es);
    if es != [] {
      var init := es[..|es| - 1];
      RunSizes(n, init);
      ConnectionsAreWriters(n, init, c);
      WriterStep(Run(n, init), es[|es| - 1], c, WriterRun(n, init, c));
    }
  }

  /** The same buffer sent so many times to one connection. */
  function SendTimes(s: IoState, b: Buf, n: nat): IoState {
    if n == 0 then s else OnSend(SendTimes(s, b, n - 1), b)
  }

  lemma {:induction false} OneFirst(s: IoState, b: Buf, n: nat)
    ensures SendTimes(OnSend(s, b), b, n) == SendTimes(s, b, n + 1)
  {
    if n > 0 {
      OneFirst(s, b, n - 1);
    }
  }

  /** The broadcast under way makes its remaining calls with nothing in between. */
  function Finish(h: Hub): Hub
    decreases if h.sending.Some? then |h.sending.value.todo| else 0
  {
    if h.sending == None || h.sending.value.todo == [] then h else Finish(Next(h, Call))
  }

  /** Undisturbed, it is the loop over the collection: every connection gets the buffer as often as it is to be called. */
  lemma {:induction false} UndisturbedBroadcast(h: Hub, c: nat)
    requires h.sending.Some? && c < |h.conns| == |h.origins|
    ensures c < |Finish(h).conns|
    ensures Finish(h).conns[c] == SendTimes(h.conns[c], h.sending.value.buf, Count<nat>(h.sending.value.todo, c))
    decreases |h.sending.value.todo|
  {
    var s := h.sending.value;
    if s.todo != [] {
      UndisturbedBroadcast(Next(h, Call), c);
      CountFront<nat>(s.todo, c);
      OneFirst(h.conns[c], s.buf, Count<nat>(s.todo[1..], c));
    }
  }
}
