/** Vectors of handlers: erasing a value, and counting one. */
module Containers {

  /** Erasing a value from a vector keeps the order of the others. */
  function Without<T(==)>(s: seq<T>, x: T): (r: seq<T>)
    ensures x !in r
  {
    if s == [] then [] else if s[0] == x then Without(s[1..], x) else [s[0]] + Without(s[1..], x)
  }

  lemma {:induction false} WithoutSnoc<T>(s: seq<T>, y: T, x: T)
    ensures Without(s + [y], x) == if y == x then Without(s, x) else Without(s, x) + [y]
  {
    if s != [] {
      assert (s + [y])[1..] == s[1..] + [y];
      WithoutSnoc(s[1..], y, x);
    }
  }

  lemma {:induction false} WithoutAbsent<T>(s: seq<T>, x: T)
    requires x !in s
    ensures Without(s, x) == s
  {
    if s != [] {
      WithoutAbsent(s[1..], x);
    }
  }

  function Count<T(==)>(s: seq<T>, x: T): nat {
    if s == [] then 0 else Count(s[..|s| - 1], x) + if s[|s| - 1] == x then 1 else 0
  }

  lemma CountSnoc<T>(s: seq<T>, y: T, x: T)
    ensures Count(s + [y], x) == Count(s, x) + if y == x then 1 else 0
  {
    assert (s + [y])[..|s|] == s;
  }

  lemma {:induction false} CountFront<T>(s: seq<T>, x: T)
    requires s != []
    ensures Count(s, x) == Count(s[1..], x) + if s[0] == x then 1 else 0
    decreases |s|
  {
    if |s| > 1 {
      var init, last := s[..|s| - 1], s[|s| - 1];
      CountFront(init, x);
      CountSnoc(init[1..], last, x);
      assert s[1..] == init[1..] + [last];
    }
  }

  lemma {:induction false} CountAbsent<T>(s: seq<T>, x: T)
    requires x !in s
    ensures Count(s, x) == 0
  {
    if s != [] {
      CountAbsent(s[..|s| - 1], x);
    }
  }

  lemma {:induction false} CountWithout<T>(s: seq<T>, x: T, y: T)
    ensures Count(Without(s, x), y) == if x == y then 0 else Count(s, y)
    decreases |s|
  {
    if s != [] {
      var init, last := s[..|s| - 1], s[|s| - 1];
      assert s == init + [last];
      CountWithout(init, x, y);
      WithoutSnoc(init, last, x);
      CountSnoc(init, last, y);
      CountSnoc(Without(init, x), last, y);
    }
  }

  /** Looking at one more value of a vector. */
  lemma CountPrefix<T>(s: seq<T>, i: nat)
    requires i < |s|
    ensures forall x | x in s :: Count(s[..i + 1], x) == Count(s[..i], x) + if s[i] == x then 1 else 0
  {
    assert s[..i + 1] == s[..i] + [s[i]];
    forall x | x in s ensures Count(s[..i + 1], x) == Count(s[..i], x) + if s[i] == x then 1 else 0 {
      CountSnoc(s[..i], s[i], x);
    }
  }
}
