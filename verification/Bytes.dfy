/** Byte strings, optional values and the few sequence facts the other modules share. */
module Bytes {

  /** An octet. */
  type byte = b: int | 0 <= b < 256

  /** A buffer's contents; reference counting and sharing are not modelled. */
  type Buf = seq<byte>

  datatype Option<+T> = None | Some(value: T)

  /** The bytes of several buffers, one after the other. */
  function Concat(bufs: seq<Buf>): Buf {
    if bufs == [] then [] else bufs[0] + Concat(bufs[1..])
  }

  lemma {:induction false} ConcatAppend(a: seq<Buf>, b: seq<Buf>)
    ensures Concat(a + b) == Concat(a) + Concat(b)
  {
    if a == [] {
      assert a + b == b;
    } else {
      assert (a + b)[1..] == a[1..] + b;
      ConcatAppend(a[1..], b);
    }
  }

  lemma Assoc<T>(a: seq<T>, b: seq<T>, c: seq<T>)
    ensures (a + b) + c == a + (b + c)
  {
  }

  lemma AppendTwo<T>(s: seq<T>, a: T, b: T)
    ensures s + [a] + [b] == s + [a, b]
  {
  }

  lemma ConcatCons(b: Buf, a: seq<Buf>)
    ensures Concat([b] + a) == b + Concat(a)
  {
    assert ([b] + a)[1..] == a;
  }

  lemma ConcatSnoc(a: seq<Buf>, b: Buf)
    ensures Concat(a + [b]) == Concat(a) + b
  {
    ConcatAppend(a, [b]);
  }

  /** Moving the front of `v` behind the buffers changes nothing in the whole. */
  lemma MoveFront(bufs: seq<Buf>, v: Buf, n: nat)
    requires n <= |v|
    ensures Concat(bufs + [v[..n]]) + v[n..] == Concat(bufs) + v
  {
    ConcatSnoc(bufs, v[..n]);
    Assoc(Concat(bufs), v[..n], v[n..]);
    assert v[..n] + v[n..] == v;
  }

  /** The items an operation produced, as a sequence. */
  function Items<T>(o: Option<T>): seq<T> {
    match o
    case None => []
    case Some(v) => [v]
  }
}
