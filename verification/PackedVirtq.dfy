/** The packed virtqueue: guest programs and host routines over one shared memory.

    The fields are those of the source's queue structure.  The ghost field `ring`
    is what they mean; every contract is stated on it.  Each method is one atomic
    step of its side (it has at most one access to memory the other side writes,
    or publishes with its last store), unless its comment says otherwise.
 */
module PackedVirtq {
  import opened Common
  import opened PackedEvents
  import opened PackedModel
  import opened PackedLayout

  /** Private to the guest. */
  datatype GuestRegs = GuestRegs(
    nextFreeId: nat, nextAvailIdx: nat, nextUsedIdx: nat,
    availWrap: bool, usedWrap: bool, availUsedFlags: bv16)

  /** Private to the host; in the source the two counters lie in the guest's part,
      but only the host touches them. */
  datatype HostRegs = HostRegs(
    nextAvailIdx: nat, nextUsedIdx: nat,
    availWrap: bool, usedWrap: bool, availUsedFlags: bv16, deviceEventFlags: nat,
    pendingInuse: nat, pendingUsed: nat)

  class Virtq {
    var g: GuestRegs
    var h: HostRegs
    const n: nat
    const desc: array<Desc>
    const state: array<DescState>
    const hvMap: array<nat>
    var driverEvent: Event
    var deviceEvent: Event
    var txFree: int              // the driver's count of slots it may still use
    var owned: seq<nat>          // the ids the scheduler was handed and has not given back

    // what the memory means
    ghost var ring: Ring
    ghost var book: Book
    ghost var driverPos: nat     // the position the guest's event word names
    ghost var devicePos: nat     // the position the host's event word names
    ghost var ownedBufs: seq<nat>    // the buffers `owned` stands for

    ghost function View(): Mem
      reads `g, desc, state
    {
      Mem(Cursor(g.nextUsedIdx, g.usedWrap), Cursor(g.nextAvailIdx, g.availWrap), g.availUsedFlags, g.nextFreeId,
          desc[..], state[..])
    }

    ghost function HostView(): HostMem
      reads `h, hvMap
    {
      HostMem(Cursor(h.nextUsedIdx, h.usedWrap), Cursor(h.nextAvailIdx, h.availWrap), h.availUsedFlags, h.pendingInuse,
          hvMap[..])
    }

    /** What survives when the host has stopped for good and the guest takes its buffers back. */
    ghost predicate GuestValid()
      reads `g, `ring, `book, desc, state
    {
      ring.n == n && GuestOk(View(), book, ring)
    }

    /** The event words name the positions recorded for them. */
    ghost predicate EventsValid()
      reads `driverEvent, `deviceEvent, `driverPos, `devicePos
    {
      && 0 < n
      && (driverEvent.flags == EVENT_FLAG_DESC ==> driverEvent == DescEvent(driverPos, n))
      && (deviceEvent.flags == EVENT_FLAG_DESC ==> deviceEvent == DescEvent(devicePos, n))
    }

    /** The memory represents `ring`. */
    ghost predicate QueueValid()
      reads `g, `h, `ring, `book, desc, state, hvMap
    {
      ring.n == n && QueueOk(View(), HostView(), book, ring)
    }

    ghost predicate Valid()
      reads `g, `h, `ring, `book, `driverEvent, `deviceEvent, `driverPos, `devicePos, desc, state, hvMap
    {
      QueueValid() && EventsValid()
    }

    /** From now on the memory stands for this ring. */
    ghost method Represent(r: Ring, k: Book)
      requires r.n == n && QueueOk(View(), HostView(), k, r)
      modifies `ring, `book
      ensures QueueValid() && ring == r && book == k
    {
      ring, book := r, k;
    }

    /** The driver's count is exact. */
    ghost predicate Credit()
      reads `txFree, `ring
    {
      txFree + (ring.gAvail - ring.gUsed) == n
    }

    constructor (num: nat)
      requires 0 < num <= 0x8000
      ensures Valid() && Credit() && n == num
      ensures ring == InitRing(num) && h.pendingUsed == 0
      ensures deviceEvent == DescEvent(0, n) && devicePos == 0
      ensures driverEvent == DescEvent(0, n) && driverPos == 0
      ensures owned == ownedBufs == []
      ensures fresh(desc) && fresh(state) && fresh(hvMap)
    {
      n := num;
      desc := new Desc[num](_ => Desc(0, 0, 0, 0, 0));
      state := new DescState[num]((i: nat) => DescState(0, false, if i < num - 1 then i + 1 else 0));
      hvMap := new nat[num](_ => 0);
      g := GuestRegs(0, 0, 0, true, true, F_AVAIL);
      h := HostRegs(0, 0, true, true, F_AVAIL | F_USED, EVENT_FLAG_DESC, 0, 0);
      driverEvent := Event(0x8000, EVENT_FLAG_DESC);
      deviceEvent := Event(0x8000, EVENT_FLAG_DESC);
      ring := InitRing(num);
      book := Book([], seq(num, _ => 0), seq(num, i => i));
      driverPos, devicePos, txFree := 0, 0, num;
      owned, ownedBufs := [], [];
      new;
      InitQueueOk(View(), HostView(), book, num);
    }

    // ----- guest ------------------------------------------------------------------------

    /** The stores of a publication, flags last. */
    method StoreDesc(b: Buf, mark: nat)
      requires desc.Length == n && g.nextAvailIdx < n && g.nextFreeId < state.Length
      requires g.availUsedFlags == AvailFlags(g.availWrap)
      modifies `g, desc, state
      ensures var m := old(View());
              View() == PublishMem(m, Desc(b.paddr, b.len, m.head, AvailFlags(m.avail.wrap), mark),
                                   DescState(b.cookie, true, m.state[m.head].next), n)
    {
      var headIdx, headFlags, id := g.nextAvailIdx, g.availUsedFlags, g.nextFreeId;

      desc[headIdx] := desc[headIdx].(addr := b.paddr, len := b.len, id := id, mark := mark);
      state[id] := state[id].(cookie := b.cookie);

      var availIdx := headIdx + 1;
      if availIdx >= n {
        FlagToggle(g.availWrap);
        availIdx := 0;
        g := g.(availUsedFlags := g.availUsedFlags ^ (F_AVAIL | F_USED));
        g := g.(availWrap := !g.availWrap);
      }
      g := g.(nextAvailIdx := availIdx);
      g := g.(nextFreeId := state[id].next);
      state[id] := state[id].(busy := true);
      desc[headIdx] := desc[headIdx].(flags := headFlags);
    }

    /** Publish one buffer.  The caller guarantees a free slot. */
    method Add(b: Buf, mark: nat)
      requires QueueValid() && ring.gAvail < ring.gUsed + n
      modifies `g, desc, state, `ring, `book
      ensures QueueValid()
      ensures ring == Apply(old(ring), Publish(b))
      ensures book.idOf == old(book.idOf) + [old(book.free)[0]]
      ensures book.free == old(book.free)[1..]
    {
      ghost var m, w, k, r := View(), HostView(), book, ring;
      HeadIsFree(m, k, r);
      ghost var d := Desc(b.paddr, b.len, m.head, AvailFlags(m.avail.wrap), mark);
      ghost var ds := DescState(b.cookie, true, m.state[m.head].next);
      PublishQueueOk(m, w, k, r, b, d, ds);
      StoreDesc(b, mark);
      assert HostView() == w;
      Represent(Apply(r, Publish(b)), Book(k.idOf + [m.head], k.owner[m.head := m.avail.idx], k.free[1..]));
    }

    /** The suppression test, the same for both directions: `idx` and `wrap` are the
        caller's cursor after it moved by `num`. */
    static method EventCheck(event: Event, idx: nat, wrap: bool, num: nat, n: nat) returns (fires: bool)
      ensures fires == EventFires(event, Cursor(idx, wrap), num, n)
    {
      if event.flags != EVENT_FLAG_DESC {
        return event.flags == EVENT_FLAG_ENABLE;
      }
      var oldIdx := U16(idx - num);
      var eventIdx := event.offWrap % 0x8000;
      var eventWrap := event.offWrap / 0x8000 == 1;
      if eventWrap != wrap {
        eventIdx := U16(eventIdx - n);
      }
      fires := NeedEvent(oldIdx, eventIdx, idx);
    }

    /** Does the host want a kick for the last `num` publications? */
    method KickNeeded(num: nat) returns (kick: bool)
      requires QueueValid()
      ensures kick == EventFires(deviceEvent, At(ring.gAvail, n), num, n)
    {
      GuestCursors(View(), book, ring);
      kick := EventCheck(deviceEvent, g.nextAvailIdx, g.availWrap, num, n);
    }

    /** The transmit publish program: two atomic steps, publication and event check.  A packet of
        several buffers is refused; for one of a single buffer the driver found a free slot. */
    method Txp(bufs: seq<Buf>, mark: nat) returns (ret: int, kick: bool)
      requires QueueValid() && (|bufs| == 1 ==> ring.gAvail < ring.gUsed + n)
      modifies `g, desc, state, `ring, `book
      ensures QueueValid()
      ensures ret == if |bufs| == 1 then 0 else -1
      ensures ring == if |bufs| == 1 then Apply(old(ring), Publish(bufs[0])) else old(ring)
      ensures kick == (|bufs| == 1 && EventFires(deviceEvent, At(ring.gAvail, n), 1, n))
      ensures old(book.idOf) <= book.idOf
    {
      if |bufs| != 1 {
        return -1, false;
      }
      Add(bufs[0], mark);
      kick := KickNeeded(1);
      ret := 0;
    }

    method DescIsUsed(idx: nat, wrap: bool, ghost p: nat) returns (used: bool)
      requires GuestValid() && ring.gUsed <= p < ring.gUsed + n && Cursor(idx, wrap) == At(p, n)
      ensures used <==> p < ring.hUsed
    {
      UsedTestExact(View(), book, ring, p);
      used := IsUsed(desc[idx].flags, wrap);
    }

    method MoreUsed() returns (more: bool)
      requires GuestValid()
      ensures more <==> ring.gUsed < ring.hUsed
    {
      more := DescIsUsed(g.nextUsedIdx, g.usedWrap, ring.gUsed);
    }

    method MorePending() returns (more: bool)
      requires GuestValid()
      ensures more <==> ring.hUsed <= ring.gUsed < ring.gAvail
    {
      PendingTestExact(View(), book, ring);
      more := IsPending(desc[g.nextUsedIdx].flags, g.usedWrap);
    }

    /** The loads and stores of a collection; -1 for an id that is out of range or not busy. */
    method TakeDesc() returns (ret: int, b: Buf)
      requires desc.Length == state.Length == n && g.nextUsedIdx < n
      modifies `g, state
      ensures var d := desc[old(g.nextUsedIdx)];
              if d.id < n && old(state[d.id]).busy then
                && ret == 1
                && b == Buf(old(state[d.id]).cookie, d.addr, d.len)
                && View() == CollectMem(old(View()), d.id, n)
              else
                ret == -1 && View() == old(View())
    {
      var usedIdx := g.nextUsedIdx;
      var id := desc[usedIdx].id;
      if id >= n || !state[id].busy {
        return -1, Buf(0, 0, 0);
      }
      b := Buf(state[id].cookie, desc[usedIdx].addr, desc[usedIdx].len);
      state[id] := state[id].(busy := false, next := g.nextFreeId);
      g := g.(nextFreeId := id);
      usedIdx := usedIdx + 1;
      if usedIdx >= n {
        usedIdx := 0;
        g := g.(usedWrap := !g.usedWrap);
      }
      g := g.(nextUsedIdx := usedIdx);
      ret := 1;
    }

    /** Take back the buffer at the used cursor.  The error return is never taken. */
    method Get() returns (ret: int, b: Buf)
      requires GuestValid() && ring.gUsed < ring.gAvail
      modifies `g, state, `ring, `book
      ensures ret == 1
      ensures b == old(ring.bufs[ring.at[ring.gUsed]])
      ensures ring == old(ring).(gUsed := old(ring.gUsed) + 1)
      ensures GuestValid() && book.idOf == old(book.idOf)
      ensures old(QueueValid()) && old(ring.gUsed < ring.hUsed) ==> QueueValid()
    {
      ghost var m, w, k, r := View(), HostView(), book, ring;
      GuestCursors(m, k, r);
      CollectKeeps(m, w, k, r);
      ghost var id := m.desc[m.used.idx].id;
      ret, b := TakeDesc();
      ring, book := r.(gUsed := r.gUsed + 1), k.(free := [id] + k.free);
      assert HostView() == w;
    }

    /** The transmit complete program. */
    method Txc() returns (ret: int, b: Buf)
      requires GuestValid()
      modifies `g, state, `ring, `book
      ensures GuestValid() && book.idOf == old(book.idOf)
      ensures old(QueueValid()) ==> QueueValid()
      ensures ret == if old(ring.gUsed < ring.hUsed) then 1 else 0
      ensures ret == 1 ==> b == old(ring.bufs[ring.at[ring.gUsed]])
      ensures ring == old(ring).(gUsed := old(ring.gUsed) + ret)
    {
      var more := MoreUsed();
      if !more {
        return 0, Buf(0, 0, 0);
      }
      ret, b := Get();
    }

    /** The transmit reclaim program, for use once the host has stopped. */
    method Txr() returns (ret: int, b: Buf)
      requires GuestValid()
      modifies `g, state, `ring, `book
      ensures GuestValid()
      ensures ret == if old(ring.hUsed <= ring.gUsed < ring.gAvail) then 1 else 0
      ensures ret == 1 ==> b == old(ring.bufs[ring.at[ring.gUsed]])
      ensures ring == old(ring).(gUsed := old(ring.gUsed) + ret)
    {
      var more := MorePending();
      if !more {
        return 0, Buf(0, 0, 0);
      }
      ret, b := Get();
    }

    /** Run the complete program until it has nothing to return. */
    method CollectAll() returns (out: seq<Buf>)
      requires GuestValid() && ring.gUsed <= ring.hUsed
      modifies `g, state, `ring, `book
      ensures GuestValid()
      ensures old(QueueValid()) ==> QueueValid()
      ensures ring == old(ring).(gUsed := old(ring.hUsed))
      ensures out == Carried(old(ring), old(ring.gUsed), old(ring.hUsed))
    {
      out := [];
      var more := true;
      while more
        invariant GuestValid() && (old(QueueValid()) ==> QueueValid())
        invariant old(ring.gUsed) <= ring.gUsed <= ring.hUsed
        invariant ring == old(ring).(gUsed := ring.gUsed)
        invariant out == Carried(old(ring), old(ring.gUsed), ring.gUsed)
        invariant !more ==> ring.gUsed == ring.hUsed
        decreases ring.hUsed - ring.gUsed, more
      {
        ghost var p := ring.gUsed;
        var ret, b := Txc();
        if ret == 1 {
          CarriedNext(old(ring), old(ring.gUsed), p);
          out := out + [b];
        } else {
          more := false;
        }
      }
    }

    /** Run the reclaim program until it has nothing to return. */
    method ReclaimRest() returns (out: seq<Buf>)
      requires GuestValid() && ring.hUsed == ring.gUsed
      modifies `g, state, `ring, `book
      ensures GuestValid()
      ensures ring == old(ring).(gUsed := old(ring.gAvail))
      ensures out == Carried(old(ring), old(ring.gUsed), old(ring.gAvail))
    {
      out := [];
      var more := true;
      while more
        invariant GuestValid()
        invariant old(ring.gUsed) <= ring.gUsed <= ring.gAvail
        invariant ring == old(ring).(gUsed := ring.gUsed)
        invariant out == Carried(old(ring), old(ring.gUsed), ring.gUsed)
        invariant !more ==> ring.gUsed == ring.gAvail
        decreases ring.gAvail - ring.gUsed, more
      {
        ghost var p := ring.gUsed;
        var ret, b := Txr();
        if ret == 1 {
          CarriedNext(old(ring), old(ring.gUsed), p);
          out := out + [b];
        } else {
          more := false;
        }
      }
    }

    /** Shut down with the host stopped: collect what it completed, then reclaim
        the rest.  Both loops end, every outstanding buffer comes back exactly
        once, in ring order, and all ids are free again. */
    method Reclaim() returns (out: seq<Buf>)
      requires GuestValid() && ring.gUsed <= ring.hUsed
      modifies `g, state, `ring, `book
      ensures GuestValid()
      ensures ring == old(ring).(gUsed := old(ring.gAvail))
      ensures out == Carried(old(ring), old(ring.gUsed), old(ring.gAvail))
      ensures |book.free| == n
    {
      ghost var r := ring;
      var done := CollectAll();
      ghost var r' := ring;
      var rest := ReclaimRest();
      CarriedJoin(r, r', r.gUsed, r.hUsed, r.gAvail);
      out := done + rest;
    }

    /** Ask for an interrupt at the `min`-th completion from now: the store of the event word. */
    method ArmInterrupt(min: nat) returns (idx: nat, wrap: bool)
      requires GuestValid() && EventsValid() && 1 <= min <= n
      modifies `driverEvent, `driverPos
      ensures EventsValid()
      ensures driverPos == ring.gUsed + min - 1 && driverEvent == DescEvent(driverPos, n)
      ensures Cursor(idx, wrap) == At(driverPos, n)
    {
      AtAhead(ring.gUsed, min - 1, n);
      idx, wrap := g.nextUsedIdx + (min - 1), g.usedWrap;
      if idx >= n {
        idx := idx - n;
        wrap := !wrap;
      }
      driverEvent := Event(idx + (if wrap then 0x8000 else 0), EVENT_FLAG_DESC);
      driverPos := ring.gUsed + min - 1;
    }

    // ----- host -------------------------------------------------------------------------

    /** Ask for a kick at the next publication, or for none. */
    method Notification(enable: bool)
      requires QueueValid() && EventsValid()
      modifies `h, `deviceEvent, `devicePos
      ensures QueueValid() && EventsValid()
      ensures enable ==> deviceEvent == DescEvent(ring.hAvail, n) && devicePos == ring.hAvail
      ensures !enable ==> deviceEvent == old(deviceEvent).(flags := EVENT_FLAG_DISABLE)
      ensures h == old(h).(deviceEventFlags := deviceEvent.flags)
    {
      if !enable {
        h := h.(deviceEventFlags := EVENT_FLAG_DISABLE);
        deviceEvent := deviceEvent.(flags := EVENT_FLAG_DISABLE);
      } else {
        HostCursors(View(), HostView(), book, ring);
        deviceEvent := Event(h.nextAvailIdx + (if h.availWrap then 0x8000 else 0), EVENT_FLAG_DESC);
        h := h.(deviceEventFlags := deviceEvent.flags);
        devicePos := ring.hAvail;
      }
    }

    method MoreAvail() returns (more: bool)
      requires QueueValid()
      ensures more <==> ring.hAvail < ring.gAvail
    {
      AvailTestExact(View(), HostView(), book, ring);
      more := IsAvail(desc[h.nextAvailIdx].flags, h.availWrap);
    }

    method AdvanceAvail()
      modifies `h
      ensures Cursor(h.nextAvailIdx, h.availWrap) == Advance(old(Cursor(h.nextAvailIdx, h.availWrap)), n)
      ensures h == old(h).(nextAvailIdx := h.nextAvailIdx, availWrap := h.availWrap)
    {
      h := h.(nextAvailIdx := h.nextAvailIdx + 1);
      if h.nextAvailIdx >= n {
        h := h.(nextAvailIdx := 0);
        h := h.(availWrap := !h.availWrap);
      }
    }

    method AdvanceUsed()
      requires h.availUsedFlags == UsedFlags(h.usedWrap)
      modifies `h
      ensures Cursor(h.nextUsedIdx, h.usedWrap) == Advance(old(Cursor(h.nextUsedIdx, h.usedWrap)), n)
      ensures h.availUsedFlags == UsedFlags(h.usedWrap)
      ensures h == old(h).(nextUsedIdx := h.nextUsedIdx, usedWrap := h.usedWrap, availUsedFlags := h.availUsedFlags)
    {
      h := h.(nextUsedIdx := h.nextUsedIdx + 1);
      if h.nextUsedIdx >= n {
        FlagToggle(h.usedWrap);
        h := h.(nextUsedIdx := 0);
        h := h.(usedWrap := !h.usedWrap);
        h := h.(availUsedFlags := h.availUsedFlags ^ (F_AVAIL | F_USED));
      }
    }

    method SwapAcquired(s: nat, t: nat)
      requires s < desc.Length && t < desc.Length && SwapAllowed(s, t, desc[s].flags, desc[t].flags)
      modifies desc
      ensures desc[..] == SwapContents(old(desc[..]), s, t)
    {
      var temp := desc[s];
      desc[s] := desc[s].(addr := desc[t].addr, len := desc[t].len, id := desc[t].id);
      desc[t] := desc[t].(addr := temp.addr, len := temp.len, id := temp.id);
      assert SwapAllowed(s, t, desc[s].flags, desc[t].flags);
    }

    /** The loads and stores of a release, with the guard for "nothing in flight". */
    method FinishId(id: nat)
      requires desc.Length == hvMap.Length == n && h.nextUsedIdx < n && id < n
      requires hvMap[id] < n && desc[h.nextUsedIdx].id < n
      requires SwapAllowed(h.nextUsedIdx, hvMap[id], desc[h.nextUsedIdx].flags, desc[hvMap[id]].flags)
      requires h.availUsedFlags == UsedFlags(h.usedWrap)
      modifies `h, desc, hvMap
      ensures old(h.pendingInuse) == 0 ==>
        View() == old(View()) && HostView() == old(HostView()) && h.pendingUsed == old(h.pendingUsed)
      ensures old(h.pendingInuse) > 0 ==>
        && View() == FinishMem(old(View()), old(h.nextUsedIdx), old(hvMap[id]), old(h.availUsedFlags))
        && HostView() == FinishHost(old(HostView()), old(desc[h.nextUsedIdx].id), old(hvMap[id]), n)
        && h.pendingUsed == old(h.pendingUsed) + 1
    {
      var usedIdx := h.nextUsedIdx;
      if h.pendingInuse == 0 {
        return;
      }
      var idx := hvMap[id];
      if idx != usedIdx {
        hvMap[desc[usedIdx].id] := idx;
        SwapAcquired(usedIdx, idx);
      }
      assert desc[..] == SwapContents(old(desc[..]), usedIdx, idx);
      desc[usedIdx] := desc[usedIdx].(flags := h.availUsedFlags);
      h := h.(pendingInuse := h.pendingInuse - 1);
      AdvanceUsed();
      h := h.(pendingUsed := h.pendingUsed + 1);
    }

    /** The scheduler gives back buffer `b`, known to it by the id it was handed. */
    method Release(id: nat, ghost b: nat)
      requires QueueValid() && b in ring.held && book.idOf[b] == id
      modifies `h, desc, hvMap, `ring, `book
      ensures QueueValid()
      ensures ring == Apply(old(ring), PackedModel.Release(b))
      ensures book.idOf == old(book.idOf) && book.free == old(book.free)
      ensures h.pendingUsed == old(h.pendingUsed) + 1
    {
      ghost var m, w, k, r := View(), HostView(), book, ring;
      ReleaseBounds(m, w, k, r, b);
      FinishId(id);
      assert h.pendingUsed == old(h.pendingUsed) + 1;
      ghost var r' := Apply(r, PackedModel.Release(b));
      assert r'.n == n;
      ghost var k' := ReleaseQueueOk(m, w, k, r, b, View(), HostView());
      Represent(r', k');
    }

    /** The loads and stores of one acquisition; the verdict is the scheduler's answer. */
    method AcquireDesc(v: Verdict) returns (id: nat)
      requires desc.Length == hvMap.Length == n && AcquireFits(View(), HostView())
      requires h.availUsedFlags == UsedFlags(h.usedWrap)
      requires SwapAllowed(h.nextUsedIdx, h.nextAvailIdx, desc[h.nextUsedIdx].flags, desc[h.nextAvailIdx].flags)
      modifies `h, desc, hvMap
      ensures (View(), HostView()) == AcquireResult(old(View()), old(HostView()), v, n)
      ensures id == old(desc[h.nextAvailIdx].id)
      ensures h.pendingUsed == old(h.pendingUsed) + (if v == Dropped && old(h.pendingInuse) > 0 then 1 else 0)
    {
      var availIdx := h.nextAvailIdx;
      id := desc[availIdx].id;
      if v != Untranslatable {
        Record(id, availIdx);
        if v == Dropped {
          FinishId(id);
        }
      }
      CountTaken();
    }

    method CountTaken()
      requires desc.Length == hvMap.Length == n
      modifies `h
      ensures HostView() == SeenHost(old(HostView()), n) && h.pendingUsed == old(h.pendingUsed)
    {
      h := h.(pendingInuse := h.pendingInuse + 1);
      AdvanceAvail();
    }

    method Record(id: nat, slot: nat)
      requires id < hvMap.Length
      modifies hvMap
      ensures HostView() == RecordHost(old(HostView()), id, slot)
    {
      hvMap[id] := slot;
    }

    /** One round of the acquire loop: take the next descriptor and hand it to the scheduler. */
    method AcquireOne(v: Verdict) returns (id: nat)
      requires QueueValid() && ring.hAvail < ring.gAvail
      modifies `h, desc, hvMap, `ring, `book
      ensures QueueValid()
      ensures ring == Apply(old(ring), Acquire(v))
      ensures id == book.idOf[old(ring.hAvail)]
      ensures book.idOf == old(book.idOf) && book.free == old(book.free)
      ensures h.pendingUsed - old(h.pendingUsed) == ring.hUsed - old(ring.hUsed)
    {
      ghost var m, w, k, r := View(), HostView(), book, ring;
      AcquireBounds(m, w, k, r);
      id := AcquireDesc(v);
      ghost var r' := Apply(r, Acquire(v));
      assert r'.n == n && h.pendingUsed - old(h.pendingUsed) == r'.hUsed - r.hUsed;
      ghost var k' := AcquireQueueOk(m, w, k, r, v, View(), HostView());
      Represent(r', k');
    }

    /** One round of the drain loop: the descriptor was processed on the spot. */
    method DrainOne()
      requires QueueValid() && Enabled(ring, Drain)
      modifies `h, desc, `ring
      ensures QueueValid()
      ensures ring == Apply(old(ring), Drain)
    {
      ghost var m, w, k, r := View(), HostView(), book, ring;
      DrainSlot(m, w, k, r);
      DrainKeeps(m, w, k, r);
      var usedIdx := h.nextUsedIdx;
      desc[usedIdx] := desc[usedIdx].(flags := h.availUsedFlags);
      AdvanceAvail();
      AdvanceUsed();
      assert View() == m.(desc := SetFlags(m.desc, usedIdx, w.flags));
      assert HostView() == DrainHost(w, n);
      ring := Apply(r, Drain);
    }

    /** Does the guest want an interrupt for the last `num` completions? */
    method IntrNeeded(num: nat) returns (intr: bool)
      requires QueueValid()
      ensures intr == EventFires(driverEvent, At(ring.hUsed, n), num, n)
    {
      HostCursors(View(), HostView(), book, ring);
      intr := EventCheck(driverEvent, h.nextUsedIdx, h.usedWrap, num, n);
    }

    /** Decide once for all completions since the last call; `None` leaves the old decision. */
    method Notify() returns (count: nat, notify: Option<bool>)
      requires QueueValid()
      modifies `h
      ensures QueueValid() && ring == old(ring)
      ensures count == old(h.pendingUsed) && h.pendingUsed == 0
      ensures notify == if count > 0 then Some(EventFires(driverEvent, At(ring.hUsed, n), count, n)) else None
    {
      count, notify := h.pendingUsed, None;
      if count > 0 {
        var intr := IntrNeeded(count);
        notify := Some(intr);
        h := h.(pendingUsed := 0);
      }
      assert HostView() == old(HostView());
    }
  }
}
