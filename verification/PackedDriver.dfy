/** The guest driver on a packed transmit queue: what it does with its credit, and what it may do
    while the host is at work. */
module PackedDriver {
  import opened Common
  import opened PackedEvents
  import opened PackedModel
  import opened PackedLayout
  import opened PackedVirtq
  import opened PackedSteps

  /** Most buffers a packet may have. */
  const MAX_TX_BUFS := 64

  /** What came of a packet: out, for the network stack to try again, or thrown away. */
  datatype Outcome = Sent | Busy | Freed

  /** The complete program on a valid queue. */
  method Complete(q: Virtq) returns (more: bool, b: Buf)
    requires SealedValid(q)
    modifies q`g, q.state, q`ring, q`book
    ensures SealedValid(q) && q.book.idOf == old(q.book.idOf) && (more <==> old(q.ring.gUsed < q.ring.hUsed))
    ensures Inv(old(q.ring)) && q.ring == if more then Apply(old(q.ring), Collect) else old(q.ring)
  {
    assert Unseal(0);
    QueueInv(q.View(), q.HostView(), q.book, q.ring);
    var ret;
    ret, b := q.Txc();
    more := ret == 1;
  }

  /** Take back one completed buffer, and a slot with it. */
  method TakeBack(q: Virtq) returns (more: bool, b: Buf)
    requires Sound(q)
    modifies q`g, q.state, q`ring, q`book, q`txFree
    ensures Sound(q) && (more <==> old(q.ring.gUsed < q.ring.hUsed))
    ensures Inv(old(q.ring)) && q.ring == if more then Apply(old(q.ring), Collect) else old(q.ring)
  {
    more, b := Complete(q);
    if more {
      q.txFree := q.txFree + 1;
    }
  }

  method CleanOne(q: Virtq, ghost r0: Ring, ghost steps: seq<Step>)
      returns (more: bool, b: Buf, ghost steps': seq<Step>)
    requires Sound(q) && Ran(r0, steps, q.ring)
    modifies q`g, q.state, q`ring, q`book, q`txFree
    ensures Sound(q) && Ran(r0, steps', q.ring) && Takes(steps') == Takes(steps)
    ensures q.ring == old(q.ring).(gUsed := q.ring.gUsed)
    ensures more <==> old(q.ring.gUsed < q.ring.hUsed)
    ensures q.ring.gUsed == old(q.ring.gUsed) + if more then 1 else 0
  {
    ghost var r := q.ring;
    more, b := TakeBack(q);
    steps' := steps;
    if more {
      RanOneMore(r0, steps, r, Collect, q.ring);
      TakesOneMore(steps, Collect);
      steps' := steps + [Collect];
    }
  }

  /** Take back whatever has been completed. */
  method TxClean(q: Virtq, ghost r0: Ring, ghost steps: seq<Step>) returns (count: nat, ghost steps': seq<Step>)
    requires Sound(q) && Ran(r0, steps, q.ring)
    modifies q`g, q.state, q`ring, q`book, q`txFree
    ensures Sound(q) && Ran(r0, steps', q.ring) && Takes(steps') == Takes(steps)
    ensures q.ring == old(q.ring).(gUsed := old(q.ring).hUsed)
    ensures count == old(q.ring.hUsed - q.ring.gUsed) && q.txFree == old(q.txFree) + count
  {
    count, steps' := 0, steps;
    while true
      invariant Sound(q) && Ran(r0, steps', q.ring) && Takes(steps') == Takes(steps)
      invariant q.ring == old(q.ring).(gUsed := q.ring.gUsed)
      invariant count == q.ring.gUsed - old(q.ring.gUsed)
      decreases q.ring.hUsed - q.ring.gUsed
    {
      var more, b;
      more, b, steps' := CleanOne(q, r0, steps');
      if !more {
        break;
      }
      count := count + 1;
    }
  }

  lemma InBounds(q: Virtq)
    requires Sound(q)
    ensures q.ring.n == q.n && q.ring.gAvail <= q.ring.gUsed + q.n
  {
    assert Unseal(0);
    QueueInv(q.View(), q.HostView(), q.book, q.ring);
  }

  // ----- asking for an interrupt ----------------------------------------------------------------------

  /** The store of the event word: ask for an interrupt at the `min`-th completion from now. */
  method StoreEvent(q: Virtq, min: nat) returns (idx: nat, wrap: bool)
    requires Sound(q) && 1 <= min <= q.n
    modifies q`driverEvent, q`driverPos
    ensures Sound(q) && q.driverPos == q.ring.gUsed + min - 1 && q.driverEvent == DescEvent(q.driverPos, q.n)
    ensures Cursor(idx, wrap) == At(q.driverPos, q.n)
  {
    assert Unseal(0);
    idx, wrap := q.ArmInterrupt(min);
  }

  /** The look at the completion asked for. */
  method LookAt(q: Virtq, idx: nat, wrap: bool) returns (used: bool)
    requires Sound(q) && q.ring.gUsed <= q.driverPos < q.ring.gUsed + q.n && Cursor(idx, wrap) == At(q.driverPos, q.n)
    ensures used <==> q.driverPos < q.ring.hUsed
  {
    assert Unseal(0);
    used := q.DescIsUsed(idx, wrap, q.driverPos);
  }

  /** The interrupt program: arm, then look again.  `late` is what the host does between the two.  It
      returns 1 exactly when the completions asked for are there by the time it looks. */
  method Txi(q: Virtq, min: nat, late: seq<HostAct>, ghost r0: Ring, ghost steps: seq<Step>)
      returns (ret: int, ghost steps': seq<Step>)
    requires Sound(q) && Ran(r0, steps, q.ring)
    modifies q`driverEvent, q`driverPos, q`h, q.desc, q.hvMap, q`ring, q`book, q`owned, q`ownedBufs
    ensures Sound(q) && Ran(r0, steps', q.ring) && HostMoved(old(q.ring), q.ring)
    ensures Takes(steps') == Takes(steps) + (q.ring.hAvail - old(q.ring).hAvail)
    ensures min == 0 ==> ret == 0 && q.driverEvent == old(q.driverEvent).(flags := EVENT_FLAG_DISABLE)
    ensures min > q.n ==> ret == -1 && q.driverEvent == old(q.driverEvent) && q.driverPos == old(q.driverPos)
    ensures 1 <= min <= q.n ==>
      && q.driverPos == q.ring.gUsed + min - 1 && q.driverEvent == DescEvent(q.driverPos, q.n)
      && ret == if q.driverPos < q.ring.hUsed then 1 else 0
    ensures late == [] || min == 0 || min > q.n ==> q.ring == old(q.ring) && q.h == old(q.h)
  {
    steps' := steps;
    if min == 0 {
      Disarm(q);
      return 0, steps';
    }
    if min > q.n {
      return -1, steps';
    }
    var idx, wrap := StoreEvent(q, min);
    steps' := HostTurn(q, late, r0, steps);
    var used := LookAt(q, idx, wrap);
    ret := if used then 1 else 0;
  }

  method Disarm(q: Virtq)
    requires Sound(q)
    modifies q`driverEvent
    ensures Sound(q) && q.driverEvent == old(q.driverEvent).(flags := EVENT_FLAG_DISABLE)
  {
    assert Unseal(0);
    q.driverEvent := q.driverEvent.(flags := EVENT_FLAG_DISABLE);
  }

  /** Where the driver asks for an interrupt: at half of what is outstanding. */
  ghost predicate AsksHalf(q: Virtq)
    reads q
  {
    && 0 < q.n && q.driverEvent == DescEvent(q.driverPos, q.n)
    && q.driverPos == q.ring.gUsed + (q.ring.gAvail - q.ring.gUsed) / 2
  }

  lemma HalfFits(out: nat, n: nat, free: int)
    requires 0 < n && free + out == n && out <= n
    ensures 1 <= HalfPending(n, free) <= n && HalfPending(n, free) == out / 2 + 1
  {}

  /** Ask for an interrupt after half of what is outstanding.  The request always fits the ring: it
      names an outstanding buffer, or with none the next one.  The answer is whether the completion
      asked for is there after what the host did meanwhile. */
  method ArmHalf(q: Virtq, late: seq<HostAct>, ghost r0: Ring, ghost steps: seq<Step>)
      returns (enough: bool, ghost steps': seq<Step>)
    requires Sound(q) && Ran(r0, steps, q.ring)
    modifies q`driverEvent, q`driverPos, q`h, q.desc, q.hvMap, q`ring, q`book, q`owned, q`ownedBufs
    ensures Sound(q) && Ran(r0, steps', q.ring) && HostMoved(old(q.ring), q.ring)
    ensures Takes(steps') == Takes(steps) + (q.ring.hAvail - old(q.ring).hAvail)
    ensures AsksHalf(q) && (enough <==> q.driverPos < q.ring.hUsed)
    ensures q.driverPos < q.ring.gAvail || q.ring.gAvail == q.ring.gUsed == q.driverPos
    ensures late == [] ==> q.ring == old(q.ring) && q.h == old(q.h)
  {
    InBounds(q);
    HalfFits(q.ring.gAvail - q.ring.gUsed, q.n, q.txFree);
    var ret;
    ret, steps' := Txi(q, HalfPending(q.n, q.txFree), late, r0, steps);
    enough := ret != 0;
  }

  /** Use up credit and run the publish program.  The free slot it needs is there whenever the
      credit covers the packet.  The credit is spent even when the program refuses the packet for
      its number of buffers, and then nothing brings it back. */
  method SpendAndPublish(q: Virtq, bufs: seq<Buf>, mark: nat) returns (kick: bool)
    requires Sound(q) && 1 <= |bufs| <= q.txFree
    modifies q`g, q.desc, q.state, q`ring, q`book, q`txFree
    ensures SealedValid(q) && old(q.book.idOf) <= q.book.idOf && (q.Credit() <==> |bufs| == 1)
    ensures Inv(old(q.ring)) && Enabled(old(q.ring), PackedModel.Publish(bufs[0]))
    ensures q.ring == if |bufs| == 1 then Apply(old(q.ring), PackedModel.Publish(bufs[0])) else old(q.ring)
    ensures kick == (|bufs| == 1 && EventFires(q.deviceEvent, At(q.ring.gAvail, q.n), 1, q.n))
  {
    assert Unseal(0);
    QueueInv(q.View(), q.HostView(), q.book, q.ring);
    q.txFree := q.txFree - |bufs|;
    var ret;
    ret, kick := q.Txp(bufs, mark);
  }

  method Publish(q: Virtq, buf: Buf, mark: nat, ghost r0: Ring, ghost steps: seq<Step>)
      returns (kick: bool, ghost steps': seq<Step>)
    requires Sound(q) && Ran(r0, steps, q.ring) && 1 <= q.txFree
    modifies q`g, q.desc, q.state, q`ring, q`book, q`txFree
    ensures Sound(q) && Ran(r0, steps', q.ring) && Takes(steps') == Takes(steps)
    ensures q.ring == Append(old(q.ring), buf)
    ensures kick == EventFires(q.deviceEvent, At(q.ring.gAvail, q.n), 1, q.n)
  {
    ghost var r, s := q.ring, PackedModel.Publish(buf);
    ghost var idOf := q.book.idOf;
    kick := SpendAndPublish(q, [buf], mark);
    OwnsLonger(r.held, idOf, q.owned, q.ownedBufs, q.book.idOf);
    RanOneMore(r0, steps, r, s, q.ring);
    TakesOneMore(steps, s);
    steps' := steps + [s];
  }

  /** After a publication, ask for an interrupt: always when polling, else when slots run low.  The
      queue is stopped when slots run low, and then only if the completion asked for is not there;
      a driver that polls does not look at that. */
  method ArmAfter(q: Virtq, napi: bool, late: seq<HostAct>, ghost r0: Ring, ghost steps: seq<Step>)
      returns (stop: bool, ghost steps': seq<Step>)
    requires Sound(q) && Ran(r0, steps, q.ring) && q.ring.gUsed < q.ring.gAvail
    modifies q`driverEvent, q`driverPos, q`h, q.desc, q.hvMap, q`ring, q`book, q`owned, q`ownedBufs
    ensures Sound(q) && Ran(r0, steps', q.ring) && HostMoved(old(q.ring), q.ring)
    ensures Takes(steps') == Takes(steps) + (q.ring.hAvail - old(q.ring).hAvail)
    ensures napi || stop ==> AsksHalf(q) && q.driverPos < q.ring.gAvail
    ensures stop <==> q.txFree < FREE_LOW && (napi || q.ring.hUsed <= q.driverPos)
    ensures late == [] ==> q.ring == old(q.ring) && q.h == old(q.h)
  {
    stop, steps' := false, steps;
    if napi || q.txFree < FREE_LOW {
      var enough;
      enough, steps' := ArmHalf(q, late, r0, steps);
      stop := q.txFree < FREE_LOW && (napi || !enough);
    }
  }

  /** Publish, and ask for an interrupt.  `early` is what the host does before the request, and
      `late` what it does between the request and the look. */
  method PublishAndArm(q: Virtq, buf: Buf, mark: nat, napi: bool, early: seq<HostAct>, late: seq<HostAct>,
      ghost r0: Ring, ghost steps: seq<Step>)
      returns (kick: bool, stop: bool, ghost steps': seq<Step>)
    requires Sound(q) && Ran(r0, steps, q.ring) && 1 <= q.txFree
    modifies q`g, q`h, q`ring, q`book, q`txFree, q`owned, q`ownedBufs, q`driverEvent, q`driverPos
    modifies q.desc, q.state, q.hvMap
    ensures Sound(q) && Ran(r0, steps', q.ring) && HostMoved(Append(old(q.ring), buf), q.ring)
    ensures Takes(steps') == Takes(steps) + (q.ring.hAvail - old(q.ring).hAvail)
    ensures kick == EventFires(q.deviceEvent, At(q.ring.gAvail, q.n), 1, q.n)
    ensures napi || stop ==> AsksHalf(q) && q.driverPos < q.ring.gAvail
    ensures stop <==> q.txFree < FREE_LOW && (napi || q.ring.hUsed <= q.driverPos)
    ensures early == late == [] ==> q.ring == Append(old(q.ring), buf) && q.h == old(q.h)
  {
    kick, steps' := Publish(q, buf, mark, r0, steps);
    steps' := HostTurn(q, early, r0, steps');
    stop, steps' := ArmAfter(q, napi, late, r0, steps');
  }

  /** What the guest makes of the ring when it transmits: it takes back what is completed, and
      publishes if that leaves a slot. */
  ghost function AfterXmit(r: Ring, buf: Buf): Ring {
    var r' := r.(gUsed := r.hUsed);
    if r.gAvail < r.hUsed + r.n then Append(r', buf) else r'
  }

  /** Transmit a packet of one buffer: the only kind while scatter-gather is not offered.  It goes
      out exactly if a slot is free once completions are taken back.  The queue is stopped exactly if
      slots run low and, without polling, the completion asked for has not come by the time of the
      look, whatever the host did meanwhile. */
  method Xmit(q: Virtq, buf: Buf, mark: nat, napi: bool, early: seq<HostAct>, late: seq<HostAct>,
      ghost r0: Ring, ghost steps: seq<Step>)
      returns (outcome: Outcome, kick: bool, stop: bool, ghost steps': seq<Step>)
    requires Sound(q) && Ran(r0, steps, q.ring)
    modifies q`g, q`h, q`ring, q`book, q`txFree, q`owned, q`ownedBufs, q`driverEvent, q`driverPos
    modifies q.desc, q.state, q.hvMap
    ensures Sound(q) && Ran(r0, steps', q.ring) && HostMoved(AfterXmit(old(q.ring), buf), q.ring)
    ensures Takes(steps') == Takes(steps) + (q.ring.hAvail - old(q.ring).hAvail)
    ensures outcome == if old(q.ring.gAvail) < old(q.ring.hUsed) + q.n then Sent else Busy
    ensures kick == (outcome == Sent && EventFires(q.deviceEvent, At(q.ring.gAvail, q.n), 1, q.n))
    ensures (outcome == Sent && napi) || stop ==> AsksHalf(q) && q.driverPos < q.ring.gAvail
    ensures stop <==> outcome == Sent && q.txFree < FREE_LOW && (napi || q.ring.hUsed <= q.driverPos)
    ensures early == late == [] ==> q.ring == AfterXmit(old(q.ring), buf) && q.h == old(q.h)
  {
    InBounds(q);
    var count;
    count, steps' := TxClean(q, r0, steps);
    outcome, kick, stop := Busy, false, false;
    if q.txFree >= 1 {
      outcome := Sent;
      kick, stop, steps' := PublishAndArm(q, buf, mark, napi, early, late, r0, steps');
    }
  }

  /** Any packet: one of too many buffers is thrown away, one that the credit does not cover is
      left to the network stack.  The credit stays exact if and only if no packet of several buffers
      gets as far as the publish program. */
  method XmitAny(q: Virtq, bufs: seq<Buf>, mark: nat, ghost r0: Ring, ghost steps: seq<Step>)
      returns (outcome: Outcome, kick: bool)
    requires Sound(q) && Ran(r0, steps, q.ring) && 1 <= |bufs|
    modifies q`g, q.desc, q.state, q`ring, q`book, q`txFree
    ensures SealedValid(q) && Owns(q.ring.held, q.book.idOf, q.owned, q.ownedBufs)
    ensures outcome == if |bufs| > MAX_TX_BUFS then Freed
                       else if old(q.ring.gAvail) + |bufs| > old(q.ring.hUsed) + q.n then Busy else Sent
    ensures var r := old(q.ring).(gUsed := old(q.ring).hUsed);
            q.ring == if outcome == Sent && |bufs| == 1 then Append(r, bufs[0]) else r
    ensures q.Credit() <==> outcome != Sent || |bufs| == 1
  {
    var count;
    ghost var steps';
    count, steps' := TxClean(q, r0, steps);
    kick := false;
    if |bufs| > MAX_TX_BUFS {
      outcome := Freed;
    } else if q.txFree < |bufs| {
      outcome := Busy;
    } else {
      outcome := Sent;
      ghost var held, idOf := q.ring.held, q.book.idOf;
      kick := SpendAndPublish(q, bufs, mark);
      OwnsLonger(held, idOf, q.owned, q.ownedBufs, q.book.idOf);
    }
  }

  /** Poll: interrupts off, take back what is completed, interrupts on, and look again.  `early` is
      what the host does before the request, and `late` what it does before the look.  Another poll is
      scheduled exactly if the completion asked for has come by then. */
  method TxPoll(q: Virtq, early: seq<HostAct>, late: seq<HostAct>, ghost r0: Ring, ghost steps: seq<Step>)
      returns (again: bool, ghost steps': seq<Step>)
    requires Sound(q) && Ran(r0, steps, q.ring)
    modifies q`g, q`h, q`ring, q`book, q`txFree, q`owned, q`ownedBufs, q`driverEvent, q`driverPos
    modifies q.desc, q.state, q.hvMap
    ensures Sound(q) && Ran(r0, steps', q.ring)
    ensures HostMoved(old(q.ring).(gUsed := old(q.ring).hUsed), q.ring)
    ensures Takes(steps') == Takes(steps) + (q.ring.hAvail - old(q.ring).hAvail)
    ensures AsksHalf(q) && (again <==> q.driverPos < q.ring.hUsed)
    ensures again ==> old(q.ring).hUsed < q.ring.hUsed
    ensures early == late == [] ==> q.ring == old(q.ring).(gUsed := old(q.ring).hUsed) && q.h == old(q.h)
  {
    Disarm(q);
    var count;
    count, steps' := TxClean(q, r0, steps);
    steps' := HostTurn(q, early, r0, steps');
    again, steps' := ArmHalf(q, late, r0, steps');
  }

  /** One thing the driver does while the host stands still. */
  method GuestActs(q: Virtq, a: GuestAct<Buf>, ghost r0: Ring, ghost steps: seq<Step>)
      returns (ghost steps': seq<Step>)
    requires Sound(q) && Ran(r0, steps, q.ring)
    modifies q`g, q`h, q`ring, q`book, q`txFree, q`owned, q`ownedBufs, q`driverEvent, q`driverPos
    modifies q.desc, q.state, q.hvMap
    ensures Sound(q) && Ran(r0, steps', q.ring) && Takes(steps') == Takes(steps)
    ensures q.ring.hAvail == old(q.ring).hAvail && q.ring.hUsed == old(q.ring).hUsed && q.h == old(q.h)
  {
    match a
    case Transmit(buf, napi) =>
      var outcome, kick, stop;
      outcome, kick, stop, steps' := Xmit(q, buf, 0, napi, [], [], r0, steps);
    case Poll =>
      var again;
      again, steps' := TxPoll(q, [], [], r0, steps);
  }

  /** Some things the driver does, one after the other. */
  method GuestTurn(q: Virtq, acts: seq<GuestAct<Buf>>, ghost r0: Ring, ghost steps: seq<Step>)
      returns (ghost steps': seq<Step>)
    requires Sound(q) && Ran(r0, steps, q.ring)
    modifies q`g, q`h, q`ring, q`book, q`txFree, q`owned, q`ownedBufs, q`driverEvent, q`driverPos
    modifies q.desc, q.state, q.hvMap
    ensures Sound(q) && Ran(r0, steps', q.ring) && Takes(steps') == Takes(steps)
    ensures q.ring.hAvail == old(q.ring).hAvail && q.ring.hUsed == old(q.ring).hUsed && q.h == old(q.h)
  {
    steps' := steps;
    for i := 0 to |acts|
      invariant Sound(q) && Ran(r0, steps', q.ring) && Takes(steps') == Takes(steps)
      invariant q.ring.hAvail == old(q.ring).hAvail && q.ring.hUsed == old(q.ring).hUsed && q.h == old(q.h)
    {
      steps' := GuestActs(q, acts[i], r0, steps');
    }
  }

  /** Shut down with the host stopped: every slot is free again, so that the driver has nothing to
      complain about. */
  method Shutdown(q: Virtq) returns (out: seq<Buf>)
    requires q.GuestValid() && q.Credit() && q.ring.gUsed <= q.ring.hUsed
    modifies q`g, q.state, q`ring, q`book, q`txFree
    ensures q.GuestValid() && q.txFree == q.n
    ensures out == Carried(old(q.ring), old(q.ring.gUsed), old(q.ring.gAvail))
  {
    out := q.Reclaim();
    q.txFree := q.txFree + |out|;
  }
}
