/** The read buffer of a framed connection: it grows by what the message frame asks for and
    shrinks back to the header size after each message. */
module Framing {
  import opened Bytes

  /** A message frame: its state and the bytes just read give its next state and the size of the next read,
      where 0 means that a message is complete. */
  type MsgFrame<!FS> = (FS, Buf) -> (FS, nat)

  /** The byte vector, the region of it that the outstanding read fills, and the frame's state. */
  datatype Framer<FS> = Framer(buf: Buf, start: nat, len: nat, hdrSize: nat, fs: FS)

  function Zeros(n: nat): Buf {
    seq(n, _ => 0)
  }

  /** A vector's resize keeps what fits and appends zeros. */
  function Resize(v: Buf, n: nat): (r: Buf)
    ensures |r| == n
    ensures n >= |v| ==> r[..|v|] == v
  {
    if n <= |v| then v[..n] else v + Zeros(n - |v|)
  }

  function Begin<FS>(v: Buf, hdrSize: nat, fs: FS): Framer<FS> {
    Framer(Resize(v, hdrSize), 0, hdrSize, hdrSize, fs)
  }

  /** The pending region lies within the vector. */
  predicate InBounds<FS>(f: Framer<FS>) {
    f.start + f.len <= |f.buf|
  }

  /** The pending region is exactly the tail of the vector. */
  predicate TailPending<FS>(f: Framer<FS>) {
    f.start + f.len == |f.buf|
  }

  datatype Outcome<FS> = Outcome(framer: Framer<FS>, msg: Option<Buf>)

  /** What the frame makes of the bytes just read, with the vector already holding them. */
  function AfterFilling<FS>(frame: MsgFrame<FS>, filled: Buf, hdrSize: nat, fs: FS, bytes: Buf): Outcome<FS> {
    var (fs', n) := frame(fs, bytes);
    if n == 0 then Outcome(Begin(filled, hdrSize, fs'), Some(filled))
    else Outcome(Framer(Resize(filled, |filled| + n), |filled|, n, hdrSize, fs'), None)
  }

  /** What a completed read leads to, when the message handler accepts the message. */
  function OnRead<FS>(frame: MsgFrame<FS>, f: Framer<FS>, bytes: Buf): Outcome<FS>
    requires InBounds(f) && |bytes| == f.len
  {
    AfterFilling(frame, f.buf[..f.start] + bytes + f.buf[f.start + f.len..], f.hdrSize, f.fs, bytes)
  }

  /** A read fills exactly its region, so a stream reaches the framer in blocks of the
      sizes it asks for. */
  predicate Fits<FS>(frame: MsgFrame<FS>, f: Framer<FS>, blocks: seq<Buf>)
    decreases |blocks|
  {
    InBounds(f) &&
    (blocks == [] || (|blocks[0]| == f.len && Fits(frame, OnRead(frame, f, blocks[0]).framer, blocks[1..])))
  }

  datatype Fed<FS> = Fed(framer: Framer<FS>, msgs: seq<Buf>)

  function Feed<FS>(frame: MsgFrame<FS>, f: Framer<FS>, blocks: seq<Buf>): Fed<FS>
    requires Fits(frame, f, blocks)
    decreases |blocks|
  {
    if blocks == [] then Fed(f, []) else
    var o := OnRead(frame, f, blocks[0]);
    var rest := Feed(frame, o.framer, blocks[1..]);
    Fed(rest.framer, Items(o.msg) + rest.msgs)
  }

  lemma {:induction false} FeedSnoc<FS>(frame: MsgFrame<FS>, f: Framer<FS>, blocks: seq<Buf>, b: Buf)
    requires Fits(frame, f, blocks)
    ensures Fits(frame, f, blocks + [b]) <==>
              InBounds(Feed(frame, f, blocks).framer) && |b| == Feed(frame, f, blocks).framer.len
                && InBounds(OnRead(frame, Feed(frame, f, blocks).framer, b).framer)
    ensures Fits(frame, f, blocks + [b]) ==>
              var was := Feed(frame, f, blocks);
              var o := OnRead(frame, was.framer, b);
              Feed(frame, f, blocks + [b]) == Fed(o.framer, was.msgs + Items(o.msg))
    decreases |blocks|
  {
    if blocks == [] {
      assert (blocks + [b])[1..] == [];
    } else {
      assert (blocks + [b])[1..] == blocks[1..] + [b];
      FeedSnoc(frame, OnRead(frame, f, blocks[0]).framer, blocks[1..], b);
    }
  }

  /** One read: the message it completes, if any, and the filled part together hold the old filled part and
      the bytes read. */
  lemma OnReadConserves<FS>(frame: MsgFrame<FS>, f: Framer<FS>, bytes: Buf)
    requires TailPending(f) && |bytes| == f.len
    ensures var o := OnRead(frame, f, bytes);
            && TailPending(o.framer)
            && Concat(Items(o.msg)) + o.framer.buf[..o.framer.start] == f.buf[..f.start] + bytes
  {
    var o := OnRead(frame, f, bytes);
    var filled := f.buf[..f.start] + bytes;
    assert filled == filled + f.buf[f.start + f.len..];
    if o.msg.Some? {
      assert Concat([filled]) == filled;
    } else {
      assert o.framer.buf[..|filled|] == filled;
    }
  }

  /** Nothing is lost, duplicated or reordered across any growing and shrinking of the vector, whatever the
      frame function: the messages followed by the filled part are the bytes consumed, and the pending region is
      always the tail. */
  lemma {:induction false} FeedConserves<FS>(frame: MsgFrame<FS>, f: Framer<FS>, blocks: seq<Buf>)
    requires TailPending(f) && Fits(frame, f, blocks)
    ensures var r := Feed(frame, f, blocks);
            && TailPending(r.framer)
            && Concat(r.msgs) + r.framer.buf[..r.framer.start] == f.buf[..f.start] + Concat(blocks)
    decreases |blocks|
  {
    if blocks != [] {
      var o := OnRead(frame, f, blocks[0]);
      OnReadConserves(frame, f, blocks[0]);
      FeedConserves(frame, o.framer, blocks[1..]);
      var rest := Feed(frame, o.framer, blocks[1..]);
      Regroup(Items(o.msg), rest.msgs, rest.framer.buf[..rest.framer.start],
              o.framer.buf[..o.framer.start], Concat(blocks[1..]), f.buf[..f.start], blocks[0]);
    } else {
      assert f.buf[..f.start] + [] == f.buf[..f.start];
    }
  }

  lemma Regroup(first: seq<Buf>, later: seq<Buf>, left: Buf, mid: Buf, more: Buf, before: Buf, b: Buf)
    requires Concat(first) + mid == before + b
    requires Concat(later) + left == mid + more
    ensures Concat(first + later) + left == before + (b + more)
  {
    ConcatAppend(first, later);
    calc {
      Concat(first) + Concat(later) + left;
      Concat(first) + (Concat(later) + left);
      (Concat(first) + mid) + more;
      before + (b + more);
    }
  }

  /** The frame's state after it was shown some blocks. */
  function FrameAfter<FS>(frame: MsgFrame<FS>, fs: FS, blocks: seq<Buf>): FS {
    if blocks == [] then fs else FrameAfter(frame, frame(fs, blocks[0]).0, blocks[1..])
  }

  /** How often it answered that a message is complete. */
  function Completed<FS>(frame: MsgFrame<FS>, fs: FS, blocks: seq<Buf>): nat {
    if blocks == [] then 0 else
    var (fs', n) := frame(fs, blocks[0]);
    (if n == 0 then 1 else 0) + Completed(frame, fs', blocks[1..])
  }

  /** How long the next read is to be: as it answered last, or a header after a message. */
  function NextLen<FS>(frame: MsgFrame<FS>, fs: FS, hdrSize: nat, len: nat, blocks: seq<Buf>): nat
    decreases |blocks|
  {
    if blocks == [] then len else
    var (fs', n) := frame(fs, blocks[0]);
    NextLen(frame, fs', hdrSize, if n == 0 then hdrSize else n, blocks[1..])
  }

  lemma OnReadFollowsFrame<FS>(frame: MsgFrame<FS>, f: Framer<FS>, bytes: Buf)
    requires InBounds(f) && |bytes| == f.len
    ensures var o, (fs, n) := OnRead(frame, f, bytes), frame(f.fs, bytes);
            && o.framer.fs == fs && o.framer.hdrSize == f.hdrSize
            && o.framer.len == (if n == 0 then f.hdrSize else n)
            && (o.msg.Some? <==> n == 0)
  {
  }

  /** The framer does what the frame says: it carries its state along, makes a message of each completion, and reads on for as
      long as it was told. */
  lemma {:induction false} FeedFollowsFrame<FS>(frame: MsgFrame<FS>, f: Framer<FS>, blocks: seq<Buf>)
    requires Fits(frame, f, blocks)
    ensures var r := Feed(frame, f, blocks);
            && r.framer.fs == FrameAfter(frame, f.fs, blocks)
            && |r.msgs| == Completed(frame, f.fs, blocks)
            && r.framer.hdrSize == f.hdrSize
            && r.framer.len == NextLen(frame, f.fs, f.hdrSize, f.len, blocks)
    decreases |blocks|
  {
    if blocks != [] {
      OnReadFollowsFrame(frame, f, blocks[0]);
      FeedFollowsFrame(frame, OnRead(frame, f, blocks[0]).framer, blocks[1..]);
    }
  }

  /** A stream can be cut into reads in only one way, so its segmentation on the network has no
      influence on the messages. */
  lemma {:induction false} BlocksAreForced<FS>(frame: MsgFrame<FS>, f: Framer<FS>, a: seq<Buf>, b: seq<Buf>)
    requires Fits(frame, f, a) && Fits(frame, f, b)
    requires f.len > 0 && f.hdrSize > 0 && Concat(a) == Concat(b)
    ensures a == b
    decreases |a|
  {
    if a != [] && b != [] {
      assert Concat(a)[..f.len] == a[0] && Concat(b)[..f.len] == b[0];
      assert Concat(a)[f.len..] == Concat(a[1..]) && Concat(b)[f.len..] == Concat(b[1..]);
      BlocksAreForced(frame, OnRead(frame, f, a[0]).framer, a[1..], b[1..]);
    }
  }
}
