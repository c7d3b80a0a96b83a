/** The timeout function objects of a TCP connector: from the number of connect attempts to the wait, in
    milliseconds, before the next one; None gives up. */
module ConnectorTimeout {
  import opened Bytes

  type TimeoutFunc = nat -> Option<int>

  const TWO_63 := 0x8000_0000_0000_0000
  const TWO_64 := 0x1_0000_0000_0000_0000

  function SimpleTimeout(timeout: int): TimeoutFunc {
    (attempts: nat) => Some(timeout)
  }

  function CountedTimeout(timeout: int, maxAttempts: nat): TimeoutFunc {
    (attempts: nat) => if attempts > maxAttempts then None else Some(timeout)
  }

  /** An unsigned 64-bit result, cast to a signed one. */
  function ToTicks(x: int): int {
    var u := x % TWO_64;
    if u < TWO_63 then u else u - TWO_64
  }

  /** `attempts - 1` and the products are computed in unsigned 64-bit arithmetic. */
  function BackoffTicks(initial: int, max: int, scale: int, attempts: nat): int {
    var tmp := ToTicks((attempts - 1) * (scale * initial));
    if tmp == 0 then initial else if tmp > max then max else tmp
  }

  function BackoffTimeout(initial: int, max: int, scale: int): TimeoutFunc {
    (attempts: nat) => Some(BackoffTicks(initial, max, scale, attempts))
  }

  /** The documented use: a positive initial timeout within the maximum, and no overflow at this
      number of attempts. */
  predicate Representable(initial: int, max: int, scale: int, attempts: nat) {
    1 <= initial <= max && 1 <= scale && attempts >= 1 && (attempts - 1) * (scale * initial) < TWO_63
  }

  lemma ProductGrows(j: nat, k: nat, p: int)
    requires j <= k && p >= 1
    ensures j * p <= k * p && j <= j * p
  {
    assert k * p == j * p + (k - j) * p;
  }

  lemma BackoffValue(initial: int, max: int, scale: int, attempts: nat)
    requires Representable(initial, max, scale, attempts)
    ensures BackoffTicks(initial, max, scale, attempts) ==
            if attempts == 1 then initial
            else if (attempts - 1) * (scale * initial) > max then max
            else (attempts - 1) * (scale * initial)
    ensures scale * initial >= initial
  {
    ProductGrows(1, scale, initial);
    ProductGrows(attempts - 1, attempts - 1, scale * initial);
  }

  lemma RepresentableBelow(initial: int, max: int, scale: int, j: nat, k: nat)
    requires 1 <= j <= k && Representable(initial, max, scale, k)
    ensures Representable(initial, max, scale, j)
  {
    ProductGrows(1, scale, initial);
    ProductGrows(j - 1, k - 1, scale * initial);
  }

  /** The waits never shrink as attempts go on, stay at least the initial timeout, and never exceed the maximum. */
  lemma BackoffIsMonotone(initial: int, max: int, scale: int, j: nat, k: nat)
    requires 1 <= j <= k && Representable(initial, max, scale, k)
    ensures initial <= BackoffTicks(initial, max, scale, j) <= BackoffTicks(initial, max, scale, k) <= max
  {
    RepresentableBelow(initial, max, scale, j, k);
    BackoffValue(initial, max, scale, j);
    BackoffValue(initial, max, scale, k);
    ProductGrows(j - 1, k - 1, scale * initial);
    if j > 1 {
      ProductGrows(1, j - 1, scale * initial);
    }
    if k > 1 {
      ProductGrows(1, k - 1, scale * initial);
    }
  }

  /** The total of the first `k` waits. */
  function TotalWait(initial: int, max: int, scale: int, k: nat): int {
    if k == 0 then 0 else TotalWait(initial, max, scale, k - 1) + BackoffTicks(initial, max, scale, k)
  }

  lemma Distributes(p: int, a: int, b: int)
    ensures p * (a + 2 * b) == p * a + 2 * (b * p)
  {
  }

  lemma NextTriangle(p: int, k: int)
    ensures p * (k * (k - 1)) == p * ((k - 1) * (k - 2)) + 2 * ((k - 1) * p)
  {
    assert k * (k - 1) == (k - 1) * (k - 2) + 2 * (k - 1);
    Distributes(p, (k - 1) * (k - 2), k - 1);
  }

  /** Uncapped, the total wait grows quadratically. */
  lemma {:induction false} UncappedTotal(initial: int, max: int, scale: int, k: nat)
    requires Representable(initial, max, scale, k) && (k - 1) * (scale * initial) <= max
    ensures 2 * TotalWait(initial, max, scale, k) == 2 * initial + (scale * initial) * (k * (k - 1))
    decreases k
  {
    var p := scale * initial;
    BackoffValue(initial, max, scale, k);
    if k == 1 {
      assert TotalWait(initial, max, scale, 0) == 0;
    } else {
      RepresentableBelow(initial, max, scale, k - 1, k);
      ProductGrows(k - 2, k - 1, p);
      UncappedTotal(initial, max, scale, k - 1);
      NextTriangle(p, k);
    }
  }

  /** The total wait is at most what waiting the maximum after the first attempt would be. */
  lemma {:induction false} TotalIsBounded(initial: int, max: int, scale: int, k: nat)
    requires Representable(initial, max, scale, k)
    ensures TotalWait(initial, max, scale, k) <= initial + (k - 1) * max
    decreases k
  {
    BackoffValue(initial, max, scale, k);
    if k == 1 {
      assert TotalWait(initial, max, scale, 0) == 0;
    } else {
      RepresentableBelow(initial, max, scale, k - 1, k);
      TotalIsBounded(initial, max, scale, k - 1);
      assert (k - 1) * max == (k - 2) * max + max;
    }
  }

  /** Asked about no attempts at all, the backoff answers with a negative wait. */
  lemma NoAttemptsIsNegative(initial: int, max: int, scale: int)
    requires 1 <= initial <= max && 1 <= scale && scale * initial <= TWO_63
    ensures BackoffTicks(initial, max, scale, 0) == -(scale * initial) < 0
  {
    ProductGrows(1, scale, initial);
    var p := scale * initial;
    assert (-p) % TWO_64 == TWO_64 - p;
  }
}
