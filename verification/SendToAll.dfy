/** The collection of connections that a buffer can be sent to. Each operation runs under the collection's lock. */
module SendToAll {
  import opened Bytes
  import opened Containers
  import opened WriteProtocol
  import opened BroadcastProtocol
  import IoCommon

  class SendToAll {
    var ioOuts: seq<IoCommon.IoCommon>

    constructor ()
      ensures ioOuts == []
    {
      ioOuts := [];
    }

    method AddIoOutput(io: IoCommon.IoCommon)
      modifies this
      ensures ioOuts == old(ioOuts) + [io]
    {
      ioOuts := ioOuts + [io];
    }

    method RemoveIoOutput(io: IoCommon.IoCommon)
      modifies this
      ensures ioOuts == Without(old(ioOuts), io)
    {
      ioOuts := Without(ioOuts, io);
    }

    /** The collection as an entity's state change callback; an IO handler that is gone changes nothing. */
    method OnIoStateChange(io: Option<IoCommon.IoCommon>, starting: bool)
      modifies this
      ensures ioOuts == if io == None then old(ioOuts)
                        else if starting then old(ioOuts) + [io.value]
                        else Without(old(ioOuts), io.value)
    {
      if io == None {
        return;
      }
      if starting {
        AddIoOutput(io.value);
      } else {
        RemoveIoOutput(io.value);
      }
    }

    /** Connections are in order, and no two share an output queue. */
    ghost predicate Separate()
      reads this, set io | io in ioOuts, set io | io in ioOuts :: io.outq
    {
      && (forall io | io in ioOuts :: io.Valid())
      && (forall a, b | a in ioOuts && b in ioOuts && a != b :: a.outq != b.outq)
    }

    /** Every connection has had the buffer as often as it occurs in `called`, but a skipped one has not. */
    ghost predicate Sent(before: map<IoCommon.IoCommon, IoState>, buf: Buf, called: seq<IoCommon.IoCommon>,
                         skip: Option<IoCommon.IoCommon>)
      reads this, set io | io in ioOuts, set io | io in ioOuts :: io.outq
    {
      forall io | io in ioOuts ::
        io in before && io.State() == SendTimes(before[io], buf, if skip == Some(io) then 0 else Count(called, io))
    }

    /** One connection's send leaves the others alone. */
    method SendTo(i: nat, buf: Buf)
      requires Separate() && i < |ioOuts|
      modifies ioOuts[i], ioOuts[i].outq
      ensures Separate()
      ensures ioOuts[i].State() == OnSend(old(ioOuts[i].State()), buf)
      ensures forall io | io in ioOuts && io != ioOuts[i] :: io.State() == old(io.State())
    {
      var status, write := ioOuts[i].StartWrite(buf);
    }

    method SendNext(i: nat, buf: Buf, ghost before: map<IoCommon.IoCommon, IoState>, ghost skip: Option<IoCommon.IoCommon>)
      requires Separate() && i < |ioOuts| && Sent(before, buf, ioOuts[..i], skip) && skip != Some(ioOuts[i])
      modifies ioOuts[i], ioOuts[i].outq
      ensures Separate() && Sent(before, buf, ioOuts[..i + 1], skip)
    {
      CountPrefix(ioOuts, i);
      SendTo(i, buf);
    }

    lemma SkipNext(i: nat, buf: Buf, before: map<IoCommon.IoCommon, IoState>, skip: IoCommon.IoCommon)
      requires i < |ioOuts| && Sent(before, buf, ioOuts[..i], Some(skip)) && ioOuts[i] == skip
      ensures Sent(before, buf, ioOuts[..i + 1], Some(skip))
    {
      CountPrefix(ioOuts, i);
    }

    method Send(buf: Buf)
      requires Separate()
      modifies set io | io in ioOuts, set io | io in ioOuts :: io.outq
      ensures Separate()
      ensures forall io | io in ioOuts :: io.State() == SendTimes(old(io.State()), buf, Count(ioOuts, io))
    {
      ghost var before := map io | io in ioOuts :: io.State();
      for i := 0 to |ioOuts|
        invariant Separate() && Sent(before, buf, ioOuts[..i], None)
      {
        SendNext(i, buf, before, None);
      }
      assert ioOuts[..|ioOuts|] == ioOuts;
    }

    method SendExcept(buf: Buf, cur: IoCommon.IoCommon)
      requires Separate()
      modifies set io | io in ioOuts, set io | io in ioOuts :: io.outq
      ensures Separate()
      ensures forall io | io in ioOuts ::
                io.State() == SendTimes(old(io.State()), buf, if io == cur then 0 else Count(ioOuts, io))
    {
      ghost var before := map io | io in ioOuts :: io.State();
      for i := 0 to |ioOuts|
        invariant Separate() && Sent(before, buf, ioOuts[..i], Some(cur))
      {
        if cur != ioOuts[i] {
          SendNext(i, buf, before, Some(cur));
        } else {
          SkipNext(i, buf, before, cur);
        }
      }
      assert ioOuts[..|ioOuts|] == ioOuts;
    }
  }
}
