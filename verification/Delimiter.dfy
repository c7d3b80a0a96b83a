/** Splitting a byte stream at a delimiter. */
module Delimiter {
  import opened Bytes

  predicate MatchAt(s: Buf, d: Buf, i: int) {
    0 <= i && i + |d| <= |s| && s[i..i + |d|] == d
  }

  predicate Contains(s: Buf, d: Buf) {
    exists i :: 0 <= i <= |s| && MatchAt(s, d, i)
  }

  /** The first match at or after `from`. */
  function FirstMatch(s: Buf, d: Buf, from: nat): (r: Option<nat>)
    requires from <= |s|
    ensures r == None ==> forall i :: from <= i ==> !MatchAt(s, d, i)
    ensures r.Some? ==> from <= r.value && MatchAt(s, d, r.value)
    ensures r.Some? ==> forall i :: from <= i < r.value ==> !MatchAt(s, d, i)
    decreases |s| - from
  {
    if MatchAt(s, d, from) then Some(from)
    else if from == |s| then None
    else FirstMatch(s, d, from + 1)
  }

  /** A message ends at its first delimiter. */
  ghost predicate IsMsg(m: Buf, d: Buf) {
    && MatchAt(m, d, |m| - |d|)
    && forall i :: 0 <= i < |m| - |d| ==> !MatchAt(m, d, i)
  }

  /** What it means for messages and a rest to split a stream: nothing lost or reordered, every message ends
      at its first delimiter, and no delimiter is left. */
  ghost predicate IsSplit(msgs: seq<Buf>, rest: Buf, s: Buf, d: Buf) {
    && Concat(msgs) + rest == s
    && (forall m :: m in msgs ==> IsMsg(m, d))
    && !Contains(rest, d)
  }

  datatype Parts = Parts(msgs: seq<Buf>, rest: Buf)

  function Split(s: Buf, d: Buf): Parts
    requires d != []
    decreases |s|
  {
    match FirstMatch(s, d, 0)
    case None => Parts([], s)
    case Some(i) =>
      var e := i + |d|;
      var tail := Split(s[e..], d);
      Parts([s[..e]] + tail.msgs, tail.rest)
  }

  lemma UpToFirstMatchIsMsg(s: Buf, d: Buf)
    requires d != [] && FirstMatch(s, d, 0).Some?
    ensures IsMsg(s[..FirstMatch(s, d, 0).value + |d|], d)
  {
    var i := FirstMatch(s, d, 0).value;
    var m := s[..i + |d|];
    assert m[i..i + |d|] == s[i..i + |d|];
    forall j | 0 <= j < i ensures !MatchAt(m, d, j) {
      assert m[j..j + |d|] == s[j..j + |d|];
      assert !MatchAt(s, d, j);
    }
  }

  lemma {:induction false} SplitIsSplit(s: Buf, d: Buf)
    requires d != []
    ensures IsSplit(Split(s, d).msgs, Split(s, d).rest, s, d)
    decreases |s|
  {
    if FirstMatch(s, d, 0).Some? {
      var e := FirstMatch(s, d, 0).value + |d|;
      UpToFirstMatchIsMsg(s, d);
      SplitIsSplit(s[e..], d);
      SplitCons(s[..e], Split(s[e..], d).msgs, Split(s[e..], d).rest, s, d);
    } else {
      assert Concat([]) + s == s;
    }
  }

  lemma SplitCons(m: Buf, msgs: seq<Buf>, rest: Buf, s: Buf, d: Buf)
    requires m <= s && IsMsg(m, d) && IsSplit(msgs, rest, s[|m|..], d)
    ensures IsSplit([m] + msgs, rest, s, d)
  {
    ConcatCons(m, msgs);
    assert (m + Concat(msgs)) + rest == m + (Concat(msgs) + rest) == m + s[|m|..] == s;
  }

  /** A message at the front of a stream ends at the stream's first delimiter. */
  lemma FirstMatchEndsMsg(m: Buf, after: Buf, d: Buf)
    requires d != [] && IsMsg(m, d)
    ensures FirstMatch(m + after, d, 0) == Some(|m| - |d|)
  {
    var s, i := m + after, |m| - |d|;
    assert s[i..i + |d|] == m[i..];
    assert MatchAt(s, d, i);
    forall j | 0 <= j < i ensures !MatchAt(s, d, j) {
      assert s[j..j + |d|] == m[j..j + |d|];
      assert !MatchAt(m, d, j);
    }
  }

  lemma SplitTakesMsg(m: Buf, after: Buf, d: Buf)
    requires d != [] && IsMsg(m, d)
    ensures Split(m + after, d) == Parts([m] + Split(after, d).msgs, Split(after, d).rest)
  {
    FirstMatchEndsMsg(m, after, d);
    assert (m + after)[..|m|] == m && (m + after)[|m|..] == after;
  }

  lemma TailIsSplit(msgs: seq<Buf>, rest: Buf, s: Buf, d: Buf)
    requires msgs != [] && IsSplit(msgs, rest, s, d)
    ensures IsMsg(msgs[0], d) && s == msgs[0] + (Concat(msgs[1..]) + rest)
    ensures IsSplit(msgs[1..], rest, Concat(msgs[1..]) + rest, d)
  {
    Assoc(msgs[0], Concat(msgs[1..]), rest);
    assert msgs[0] in msgs;
  }

  /** The split is the only one: a stream and a delimiter determine the messages. */
  lemma {:induction false} SplitIsUnique(msgs: seq<Buf>, rest: Buf, s: Buf, d: Buf)
    requires d != [] && IsSplit(msgs, rest, s, d)
    ensures Split(s, d) == Parts(msgs, rest)
    decreases |msgs|
  {
    if msgs == [] {
      assert s == rest;
    } else {
      TailIsSplit(msgs, rest, s, d);
      var after := Concat(msgs[1..]) + rest;
      SplitIsUnique(msgs[1..], rest, after, d);
      SplitTakesMsg(msgs[0], after, d);
    }
  }

  lemma AllMsgs(a: seq<Buf>, b: seq<Buf>, d: Buf)
    requires forall m :: m in a ==> IsMsg(m, d)
    requires forall m :: m in b ==> IsMsg(m, d)
    ensures forall m :: m in a + b ==> IsMsg(m, d)
  {
  }

  /** Messages already taken from the front of a stream are the first messages of its split; the others come
      from what is left. */
  lemma SplitContinues(msgs: seq<Buf>, left: Buf, s: Buf, d: Buf)
    requires d != [] && Concat(msgs) + left == s
    requires forall m :: m in msgs ==> IsMsg(m, d)
    ensures Split(s, d) == Parts(msgs + Split(left, d).msgs, Split(left, d).rest)
  {
    SplitIsSplit(left, d);
    var tail := Split(left, d);
    ConcatAppend(msgs, tail.msgs);
    Assoc(Concat(msgs), Concat(tail.msgs), tail.rest);
    AllMsgs(msgs, tail.msgs, d);
    SplitIsUnique(msgs + tail.msgs, tail.rest, s, d);
  }

  /** What a reader holds that has taken messages from the front of a stream: the first messages of the
      split, and all of them when the rest has no delimiter. */
  lemma {:induction false} TakenFromFront(msgs: seq<Buf>, s: Buf, d: Buf)
    requires d != [] && Concat(msgs) <= s
    requires forall m :: m in msgs ==> IsMsg(m, d)
    ensures msgs <= Split(s, d).msgs
    ensures forall v :: Concat(msgs) + v == s && FirstMatch(v, d, 0) == None ==> Split(s, d) == Parts(msgs, v)
  {
    var left := s[|Concat(msgs)|..];
    SplitContinues(msgs, left, s, d);
    forall v | Concat(msgs) + v == s ensures v == left {
      assert (Concat(msgs) + v)[|Concat(msgs)|..] == v;
    }
  }

  /** Some proper part of the delimiter both begins and ends it. */
  ghost predicate Bordered(d: Buf) {
    exists k :: 0 < k < |d| && d[..k] == d[|d| - k..]
  }

  lemma BodyWithDelimiterIsMsg(body: Buf, d: Buf)
    requires d != [] && !Bordered(d) && !Contains(body, d)
    ensures IsMsg(body + d, d)
  {
    var m := body + d;
    assert m[|body|..] == d;
    forall i | 0 <= i < |body| ensures !MatchAt(m, d, i) {
      if i + |d| <= |body| {
        assert m[i..i + |d|] == body[i..i + |d|];
        assert !MatchAt(body, d, i);
      } else {
        var k := i + |d| - |body|;
        assert d[..k] != d[|d| - k..];
        assert m[i..i + |d|][|d| - k..] == d[..k];
      }
    }
  }

  /** Every message of a list of delimited bodies is recovered, and nothing is left over. */
  lemma SplitOfDelimited(bodies: seq<Buf>, d: Buf)
    requires d != [] && !Bordered(d)
    requires forall b :: b in bodies ==> !Contains(b, d)
    ensures Split(Concat(Delimited(bodies, d)), d) == Parts(Delimited(bodies, d), [])
  {
    var msgs := Delimited(bodies, d);
    forall m | m in msgs ensures IsMsg(m, d) {
      var i :| 0 <= i < |msgs| && msgs[i] == m;
      BodyWithDelimiterIsMsg(bodies[i], d);
    }
    SplitIsUnique(msgs, [], Concat(msgs), d);
  }

  /** Each body followed by the delimiter. */
  function Delimited(bodies: seq<Buf>, d: Buf): seq<Buf> {
    seq(|bodies|, i requires 0 <= i < |bodies| => bodies[i] + d)
  }

  /** Exactly the delimiters without a border recover every body that does not contain them. */
  lemma RoundTripNeedsNoBorder(d: Buf)
    requires d != []
    ensures !Bordered(d) <==>
              forall body :: !Contains(body, d) ==> Split(body + d, d) == Parts([body + d], [])
  {
    if Bordered(d) {
      var k :| 0 < k < |d| && d[..k] == d[|d| - k..];
      var body := d[..|d| - k];
      var s := body + d;
      assert s[..|d|] == body + d[..k] == d;
      assert MatchAt(s, d, 0);
      assert Split(s, d).msgs[0] == s[..|d|];
      assert |s| != |d|;
    } else {
      forall body | !Contains(body, d) ensures Split(body + d, d) == Parts([body + d], []) {
        SplitOfDelimited([body], d);
        assert Delimited([body], d) == [body + d];
        assert Concat([body + d]) == body + d;
      }
    }
  }
}
