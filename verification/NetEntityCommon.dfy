/** The unstarted / started / stopped life of a net entity, changed only by atomic operations. */
module NetEntityCommon {

  const UNSTARTED := 0
  const STARTED := 1
  const STOPPED := 2

  /** The three operations that write the atomic; threads interleave them freely. */
  datatype Op = Start | Stop | SetStopped

  /** Whether `op` finds the value it expects, so that its function object is run. */
  predicate Wins(v: int, op: Op) {
    match op
    case Start => v == UNSTARTED
    case Stop => v == STARTED
    case SetStopped => true
  }

  function Next(v: int, op: Op): int {
    if !Wins(v, op) then v else if op == Start then STARTED else STOPPED
  }

  /** The atomic's value after a sequence of operations, in the order they took effect. */
  function Value(ops: seq<Op>): int {
    if ops == [] then UNSTARTED else Next(Value(ops[..|ops| - 1]), ops[|ops| - 1])
  }

  class NetEntityCommon {
    var started: int

    constructor ()
      ensures started == UNSTARTED
    {
      started := UNSTARTED;
    }

    method CompareExchange(expected: int, desired: int) returns (ok: bool)
      modifies this
      ensures ok == (old(started) == expected)
      ensures started == if ok then desired else old(started)
    {
      ok := started == expected;
      if ok {
        started := desired;
      }
    }

    /** The result tells whether the start function is posted; otherwise the
        caller gets net_entity_already_started. */
    method Start() returns (won: bool)
      modifies this
      ensures won == Wins(old(started), Op.Start)
      ensures started == Next(old(started), Op.Start)
    {
      won := CompareExchange(UNSTARTED, STARTED);
    }

    method Stop() returns (won: bool)
      modifies this
      ensures won == Wins(old(started), Op.Stop)
      ensures started == Next(old(started), Op.Stop)
    {
      won := CompareExchange(STARTED, STOPPED);
    }

    method SetStopped()
      modifies this
      ensures started == Next(old(started), Op.SetStopped)
    {
      started := STOPPED;
    }
  }

  /** Which operations left the entity in the started state: a start that only losing stops preceded,
      and nothing but losing starts since. */
  ghost predicate OpenAt(ops: seq<Op>, k: nat) {
    && k < |ops|
    && ops[k] == Start
    && (forall j :: 0 <= j < k ==> ops[j] == Stop)
    && (forall j :: k < j < |ops| ==> ops[j] == Start)
  }

  /** The value, told from the operations alone. */
  lemma {:induction false} ValueFromOps(ops: seq<Op>)
    ensures Value(ops) in {UNSTARTED, STARTED, STOPPED}
    ensures Value(ops) == UNSTARTED <==> forall j :: 0 <= j < |ops| ==> ops[j] == Stop
    ensures Value(ops) == STARTED <==> exists k :: OpenAt(ops, k)
  {
    if ops != [] {
      var n := |ops| - 1;
      var init := ops[..n];
      ValueFromOps(init);
      if Value(init) == UNSTARTED && ops[n] == Start {
        assert OpenAt(ops, n);
      }
      if k :| OpenAt(init, k) {
        if ops[n] == Start {
          assert OpenAt(ops, k);
        }
      } else {
        forall m: nat | OpenAt(ops, m) ensures m == n && Value(init) == UNSTARTED {
          if m < n {
            assert OpenAt(init, m);
          }
        }
      }
    }
  }

  /** A start wins exactly when every operation before it was a (losing) stop; a stop wins exactly
      when a winning start precedes it with only losing starts in between. */
  lemma WinnersFromOps(ops: seq<Op>, i: nat)
    requires i < |ops|
    ensures ops[i] == Start ==>
              (Wins(Value(ops[..i]), ops[i]) <==> forall j :: 0 <= j < i ==> ops[j] == Stop)
    ensures ops[i] == Stop ==>
              (Wins(Value(ops[..i]), ops[i]) <==> exists k :: OpenAt(ops[..i], k))
  {
    ValueFromOps(ops[..i]);
  }

  /** The value never decreases, however calls interleave. */
  lemma {:induction false} ValueNeverDecreases(ops: seq<Op>, i: nat, j: nat)
    requires i <= j <= |ops|
    ensures Value(ops[..i]) <= Value(ops[..j])
    decreases j
  {
    ValueFromOps(ops[..i]);
    if i < j {
      ValueNeverDecreases(ops, i, j - 1);
      ValueFromOps(ops[..j - 1]);
      assert ops[..j][..j - 1] == ops[..j - 1];
    }
  }

  /** In any interleaving at most one start and at most one stop win, and the start comes first. */
  lemma OneStartOneStop(ops: seq<Op>, i: nat, j: nat)
    requires i < |ops| && j < |ops| && i != j
    requires Wins(Value(ops[..i]), ops[i]) && Wins(Value(ops[..j]), ops[j])
    requires ops[i] != SetStopped && ops[j] != SetStopped
    ensures ops[i] != ops[j]
    ensures ops[i] == Start ==> i < j
  {
    WinnersFromOps(ops, i);
    WinnersFromOps(ops, j);
  }
}
