/** The wire encodings and what the readers make of them. */
module MsgHandling {
  import opened Bytes
  import opened Framing
  import opened SimpleVariableLenMsgFrame
  import Delimiter

  const MAX_UINT16 := 65535
  const CR_LF: Buf := [0x0D, 0x0A]
  const LF: Buf := [0x0A]

  /** A two byte big-endian header. */
  function DecodeVariableLenMsgHdr(buf: Buf): (r: nat)
    requires |buf| == 2
    ensures r <= MAX_UINT16
  {
    256 * (buf[0] as int) + buf[1] as int
  }

  /** The decoder as the frame holds it; it is only given headers. */
  const HDR_DECODER: Buf -> nat := buf => if |buf| == 2 then DecodeVariableLenMsgHdr(buf) else 0

  function Hdr(n: nat): (r: Buf)
    requires n <= MAX_UINT16
    ensures |r| == 2
  {
    [n / 256, n % 256]
  }

  lemma HdrRoundTrip(n: nat, h: Buf)
    requires n <= MAX_UINT16 && |h| == 2
    ensures DecodeVariableLenMsgHdr(Hdr(n)) == n
    ensures Hdr(DecodeVariableLenMsgHdr(h)) == h
  {
    assert (256 * (h[0] as int) + h[1] as int) / 256 == h[0] as int;
  }

  /** The first byte is the high one: headers are ordered as the lengths they stand for. */
  lemma HdrOrder(g: Buf, h: Buf)
    requires |g| == 2 && |h| == 2
    ensures DecodeVariableLenMsgHdr(g) < DecodeVariableLenMsgHdr(h) <==> g[0] < h[0] || (g[0] == h[0] && g[1] < h[1])
  {
  }

  predicate FitsHeader(body: Buf) {
    |body| < MAX_UINT16
  }

  predicate AllFit(bodies: seq<Buf>) {
    forall i :: 0 <= i < |bodies| ==> FitsHeader(bodies[i])
  }

  function VariableLenMsg(body: Buf): Buf
    requires FitsHeader(body)
  {
    Hdr(|body|) + body
  }

  function VariableLenMsgs(bodies: seq<Buf>): seq<Buf>
    requires AllFit(bodies)
  {
    seq(|bodies|, i requires 0 <= i < |bodies| => VariableLenMsg(bodies[i]))
  }

  method MakeBodyBuf(pre: Buf, bodyChar: byte, numBodyChars: nat) returns (buf: Buf)
    ensures |buf| == |pre| + numBodyChars && pre <= buf
    ensures forall i :: |pre| <= i < |buf| ==> buf[i] == bodyChar
  {
    buf := pre;
    var body := seq(numBodyChars, _ => bodyChar);
    buf := buf + body;
  }

  method MakeVariableLenMsg(body: Buf) returns (msg: Buf)
    requires FitsHeader(body)
    ensures |msg| == 2 + |body| && msg[2..] == body
    ensures DecodeVariableLenMsgHdr(msg[..2]) == |body|
    ensures msg[0] == |body| / 256 && msg[1] == |body| % 256
    ensures msg == VariableLenMsg(body)
  {
    HdrRoundTrip(|body|, [0, 0]);
    msg := Hdr(|body|);
    msg := msg + body;
    assert msg[..2] == Hdr(|body|);
  }

  /** For a body without the delimiter the result is one message to the delimiter reader, also when the body ends
      in CR. */
  method MakeCrLfTextMsg(body: Buf) returns (msg: Buf)
    ensures msg == body + [0x0D, 0x0A]
    ensures !Delimiter.Contains(body, CR_LF) ==> Delimiter.IsMsg(msg, CR_LF)
  {
    msg := body;
    msg := msg + CR_LF;
    assert !Delimiter.Contains(body, CR_LF) ==> Delimiter.IsMsg(msg, CR_LF) by {
      TextDelimitersHaveNoBorder();
      if !Delimiter.Contains(body, CR_LF) {
        Delimiter.BodyWithDelimiterIsMsg(body, CR_LF);
      }
    }
  }

  method MakeLfTextMsg(body: Buf) returns (msg: Buf)
    ensures msg == body + [0x0A]
    ensures !Delimiter.Contains(body, LF) ==> Delimiter.IsMsg(msg, LF)
  {
    msg := body;
    msg := msg + LF;
    assert !Delimiter.Contains(body, LF) ==> Delimiter.IsMsg(msg, LF) by {
      TextDelimitersHaveNoBorder();
      if !Delimiter.Contains(body, LF) {
        Delimiter.BodyWithDelimiterIsMsg(body, LF);
      }
    }
  }

  lemma TextDelimitersHaveNoBorder()
    ensures !Delimiter.Bordered(CR_LF) && !Delimiter.Bordered(LF)
  {
    forall k | 0 < k < |CR_LF| ensures CR_LF[..k] != CR_LF[|CR_LF| - k..] {
      assert CR_LF[..k][0] != CR_LF[|CR_LF| - k..][0];
    }
  }

  /** The framer between messages: the next read is a header. */
  predicate AwaitsHeader(f: Framer<bool>) {
    f.start == 0 && f.len == 2 && f.hdrSize == 2 && |f.buf| == 2 && !f.fs
  }

  /** The framer inside a message: the header is in the buffer, and the next read is the body. */
  predicate AwaitsBody(f: Framer<bool>) {
    && f.start == 2 && f.hdrSize == 2 && f.fs && |f.buf| == 2 + f.len
    && f.len == DecodeVariableLenMsgHdr(f.buf[..2]) > 0
  }

  lemma HeaderRead(f: Framer<bool>, hdr: Buf)
    requires AwaitsHeader(f) && |hdr| == 2
    ensures var o := OnRead(VariableLenFrame(HDR_DECODER), f, hdr);
            if DecodeVariableLenMsgHdr(hdr) == 0 then o.msg == Some(hdr) && AwaitsHeader(o.framer)
            else o.msg == None && AwaitsBody(o.framer) && o.framer.buf[..2] == hdr
  {
    assert f.buf[..0] + hdr + f.buf[2..] == hdr;
  }

  lemma BodyRead(f: Framer<bool>, body: Buf)
    requires AwaitsBody(f) && |body| == f.len
    ensures var o := OnRead(VariableLenFrame(HDR_DECODER), f, body);
            o.msg == Some(f.buf[..2] + body) && AwaitsHeader(o.framer)
  {
    assert f.buf[..2] + body + f.buf[2 + f.len..] == f.buf[..2] + body;
  }

  lemma VariableLenMsgsCons(bodies: seq<Buf>)
    requires bodies != [] && AllFit(bodies)
    ensures Concat(VariableLenMsgs(bodies)) == Hdr(|bodies[0]|) + bodies[0] + Concat(VariableLenMsgs(bodies[1..]))
    ensures VariableLenMsgs(bodies) == [VariableLenMsg(bodies[0])] + VariableLenMsgs(bodies[1..])
  {
    assert VariableLenMsgs(bodies) == [VariableLenMsg(bodies[0])] + VariableLenMsgs(bodies[1..]);
    ConcatCons(VariableLenMsg(bodies[0]), VariableLenMsgs(bodies[1..]));
  }

  /** One encoded message at the front of the stream takes two reads, or one if its body is empty. */
  lemma {:induction false} TakeMessage(f: Framer<bool>, blocks: seq<Buf>, body: Buf, rest: Buf) returns (g: Framer<bool>, tail: seq<Buf>)
    requires FitsHeader(body)
    requires AwaitsHeader(f) && Fits(VariableLenFrame(HDR_DECODER), f, blocks)
    requires Concat(blocks) == Hdr(|body|) + (body + rest)
    ensures AwaitsHeader(g) && Fits(VariableLenFrame(HDR_DECODER), g, tail) && Concat(tail) == rest
    ensures Feed(VariableLenFrame(HDR_DECODER), f, blocks) ==
            var fed := Feed(VariableLenFrame(HDR_DECODER), g, tail);
            Fed(fed.framer, [VariableLenMsg(body)] + fed.msgs)
  {
    var frame, hdr := VariableLenFrame(HDR_DECODER), Hdr(|body|);
    HdrRoundTrip(|body|, hdr);
    FirstBlock(frame, f, blocks, hdr, body + rest);
    HeaderRead(f, hdr);
    g, tail := OnRead(frame, f, hdr).framer, blocks[1..];
    if body == [] {
      assert hdr + body == hdr && body + rest == rest;
    } else {
      FirstBlock(frame, g, tail, body, rest);
      BodyRead(g, body);
      var fed := Feed(frame, OnRead(frame, g, body).framer, tail[1..]);
      assert [] + ([VariableLenMsg(body)] + fed.msgs) == [VariableLenMsg(body)] + fed.msgs;
      g, tail := OnRead(frame, g, body).framer, tail[1..];
    }
  }

  /** Reading back what was encoded: for all bodies, empty ones included, the messages delivered are the
      ones encoded, in order, and the framer is left waiting for a header. */
  lemma {:induction false} VariableLenRoundTrip(bodies: seq<Buf>, f: Framer<bool>, blocks: seq<Buf>)
    requires AllFit(bodies)
    requires AwaitsHeader(f) && Fits(VariableLenFrame(HDR_DECODER), f, blocks)
    requires Concat(blocks) == Concat(VariableLenMsgs(bodies))
    ensures var fed := Feed(VariableLenFrame(HDR_DECODER), f, blocks);
            fed.msgs == VariableLenMsgs(bodies) && AwaitsHeader(fed.framer)
    decreases |bodies|
  {
    if bodies == [] {
      assert Concat(blocks) == [];
      assert blocks == [];
    } else {
      VariableLenMsgsCons(bodies);
      var rest := Concat(VariableLenMsgs(bodies[1..]));
      Assoc(Hdr(|bodies[0]|), bodies[0], rest);
      var g, tail := TakeMessage(f, blocks, bodies[0], rest);
      VariableLenRoundTrip(bodies[1..], g, tail);
    }
  }

  /** The first read takes its bytes from the front of the stream. */
  lemma FirstBlock<FS>(frame: MsgFrame<FS>, f: Framer<FS>, blocks: seq<Buf>, first: Buf, rest: Buf)
    requires Fits(frame, f, blocks) && |first| == f.len > 0
    requires Concat(blocks) == first + rest
    ensures blocks != [] && blocks[0] == first && Concat(blocks[1..]) == rest
    ensures Fits(frame, OnRead(frame, f, first).framer, blocks[1..])
  {
    assert Concat(blocks)[..f.len] == first && Concat(blocks)[f.len..] == rest;
    assert blocks != [];
    assert Concat(blocks)[..f.len] == blocks[0] && Concat(blocks)[f.len..] == Concat(blocks[1..]);
  }

  predicate IsVariableLenMsg(m: Buf) {
    2 <= |m| <= 2 + MAX_UINT16 && m == Hdr(|m| - 2) + m[2..]
  }

  lemma OneReadDecodes(f: Framer<bool>, block: Buf)
    requires (AwaitsHeader(f) || AwaitsBody(f)) && |block| == f.len
    ensures var o := OnRead(VariableLenFrame(HDR_DECODER), f, block);
            && (AwaitsHeader(o.framer) || AwaitsBody(o.framer))
            && (o.msg.Some? ==> IsVariableLenMsg(o.msg.value))
  {
    if AwaitsHeader(f) {
      HeaderRead(f, block);
      HdrRoundTrip(0, block);
    } else {
      BodyRead(f, block);
      HdrRoundTrip(0, f.buf[..2]);
      assert (f.buf[..2] + block)[2..] == block;
    }
  }

  /** The other direction, for every stream: whatever is delivered is an encoding of its own body, and
      what is left is the beginning of one. */
  lemma {:induction false} DeliveriesAreEncodings(f: Framer<bool>, blocks: seq<Buf>)
    requires (AwaitsHeader(f) || AwaitsBody(f)) && Fits(VariableLenFrame(HDR_DECODER), f, blocks)
    ensures var fed := Feed(VariableLenFrame(HDR_DECODER), f, blocks);
            && (AwaitsHeader(fed.framer) || AwaitsBody(fed.framer))
            && forall m :: m in fed.msgs ==> IsVariableLenMsg(m)
    decreases |blocks|
  {
    if blocks != [] {
      OneReadDecodes(f, blocks[0]);
      DeliveriesAreEncodings(OnRead(VariableLenFrame(HDR_DECODER), f, blocks[0]).framer, blocks[1..]);
    }
  }

  /** A vector of messages with growing bodies, as the stress tests send them. */
  method MakeMsgVec(encode: Buf -> Buf, pre: Buf, bodyChar: byte, numMsgs: nat) returns (vec: seq<Buf>)
    ensures |vec| == numMsgs
    ensures forall i :: 0 <= i < numMsgs ==> vec[i] == encode(pre + seq(i + 1, _ => bodyChar))
  {
    vec := [];
    for i := 0 to numMsgs
      invariant |vec| == i
      invariant forall j :: 0 <= j < i ==> vec[j] == encode(pre + seq(j + 1, _ => bodyChar))
    {
      var body := MakeBodyBuf(pre, bodyChar, i + 1);
      assert body == pre + seq(i + 1, _ => bodyChar);
      vec := vec + [encode(body)];
    }
  }
}
