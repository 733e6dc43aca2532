/** The host's loops over a packed queue: taking descriptors for the scheduler, and sending
    them on the spot.  The driver goes on transmitting and polling meanwhile.  `env[e]` is what it
    does just before the host tests for work for the `e`-th time, possibly nothing. */
module PackedHost {
  import opened Common
  import opened PackedEvents
  import opened PackedModel
  import opened PackedLayout
  import opened PackedVirtq
  import opened PackedSteps
  import opened PackedDriver

  /** Test for work, after whatever the driver has done. */
  method Test(q: Virtq, acts: seq<GuestAct<Buf>>, ghost r0: Ring, ghost steps: seq<Step>)
      returns (more: bool, ghost steps': seq<Step>)
    requires Sound(q) && Ran(r0, steps, q.ring)
    modifies q`g, q`h, q`ring, q`book, q`txFree, q`owned, q`ownedBufs, q`driverEvent, q`driverPos
    modifies q.desc, q.state, q.hvMap
    ensures Sound(q) && Ran(r0, steps', q.ring) && Takes(steps') == Takes(steps)
    ensures q.ring.hAvail == old(q.ring).hAvail && q.ring.hUsed == old(q.ring).hUsed && q.h == old(q.h)
    ensures more <==> q.ring.hAvail < q.ring.gAvail
  {
    steps' := GuestTurn(q, acts, r0, steps);
    assert Unseal(0);
    more := q.MoreAvail();
  }

  function ActsAt(env: seq<seq<GuestAct<Buf>>>, e: nat): seq<GuestAct<Buf>> { if e < |env| then env[e] else [] }

  method Notify(q: Virtq, enable: bool)
    requires Sound(q)
    modifies q`h, q`deviceEvent, q`devicePos
    ensures Sound(q)
    ensures if enable then q.deviceEvent == DescEvent(q.ring.hAvail, q.n) else q.deviceEvent.flags == EVENT_FLAG_DISABLE
    ensures q.h.pendingUsed == old(q.h).pendingUsed
  {
    assert Unseal(0);
    q.Notification(enable);
  }

  /** Test for work; if there is none ask for a kick and test again. */
  method LookForWork(q: Virtq, canSend: bool, env: seq<seq<GuestAct<Buf>>>, e: nat, ghost r0: Ring,
      ghost steps: seq<Step>)
      returns (more: bool, e': nat, ghost steps': seq<Step>)
    requires Sound(q) && Ran(r0, steps, q.ring)
    requires canSend ==> q.deviceEvent.flags == EVENT_FLAG_DISABLE
    modifies q`g, q`h, q`ring, q`book, q`txFree, q`owned, q`ownedBufs, q`driverEvent, q`driverPos
    modifies q`deviceEvent, q`devicePos, q.desc, q.state, q.hvMap
    ensures Sound(q) && Ran(r0, steps', q.ring) && Takes(steps') == Takes(steps)
    ensures e < e' <= e + 2
    ensures q.ring.hAvail == old(q.ring).hAvail && q.ring.hUsed == old(q.ring).hUsed
    ensures more <==> q.ring.hAvail < q.ring.gAvail
    ensures canSend ==>
      if more then q.deviceEvent.flags == EVENT_FLAG_DISABLE else q.deviceEvent == DescEvent(q.ring.hAvail, q.n)
    ensures q.h.pendingUsed == old(q.h).pendingUsed
  {
    more, steps' := Test(q, ActsAt(env, e), r0, steps);
    e' := e + 1;
    if !more && canSend {
      Notify(q, true);
      more, steps' := Test(q, ActsAt(env, e'), r0, steps');
      e' := e' + 1;
      if more {
        Notify(q, false);
      }
    }
  }

  /** Turn kicks off, unless the host polls anyway. */
  method Begin(q: Virtq, canSend: bool)
    requires Sound(q)
    modifies q`h, q`deviceEvent, q`devicePos
    ensures Sound(q) && Ran(q.ring, [], q.ring) && q.h.pendingUsed == old(q.h).pendingUsed
    ensures canSend ==> q.deviceEvent.flags == EVENT_FLAG_DISABLE
  {
    assert Unseal(0);
    QueueInv(q.View(), q.HostView(), q.book, q.ring);
    RanNothing(q.ring);
    if canSend {
      Notify(q, false);
    }
  }

  /** Take descriptors and hand them to the scheduler, up to the budget.  `verdicts` are the
      scheduler's answers; without `canSend` the host polls and leaves kicks alone. */
  method Acquire(q: Virtq, canSend: bool, verdicts: seq<Verdict>, env: seq<seq<GuestAct<Buf>>>)
      returns (count: nat, why: Stop, ghost steps: seq<Step>)
    requires Sound(q)
    modifies q, q.desc, q.state, q.hvMap
    ensures Sound(q) && Ran(old(q.ring), steps, q.ring) && count == Takes(steps) <= TX_BUDGET
    ensures q.ring.hAvail == old(q.ring).hAvail + count
    ensures why == Empty ==>
      q.ring.hAvail == q.ring.gAvail && (canSend ==> q.deviceEvent == DescEvent(q.ring.hAvail, q.n))
    ensures why != Empty ==> count == TX_BUDGET && (canSend ==> q.deviceEvent.flags == EVENT_FLAG_DISABLE)
    ensures q.h.pendingUsed - old(q.h).pendingUsed == q.ring.hUsed - old(q.ring).hUsed
  {
    Begin(q, canSend);
    count, why, steps := AcquireLoop(q, canSend, verdicts, env);
  }

  method AcquireLoop(q: Virtq, canSend: bool, verdicts: seq<Verdict>, env: seq<seq<GuestAct<Buf>>>)
      returns (count: nat, why: Stop, ghost steps: seq<Step>)
    requires Sound(q)
    requires Ran(q.ring, [], q.ring) && (canSend ==> q.deviceEvent.flags == EVENT_FLAG_DISABLE)
    modifies q`g, q`h, q`ring, q`book, q`txFree, q`owned, q`ownedBufs, q`driverEvent, q`driverPos
    modifies q`deviceEvent, q`devicePos, q.desc, q.state, q.hvMap
    ensures Sound(q) && Ran(old(q.ring), steps, q.ring) && count == Takes(steps) <= TX_BUDGET
    ensures q.ring.hAvail == old(q.ring).hAvail + count
    ensures why == Empty ==>
      q.ring.hAvail == q.ring.gAvail && (canSend ==> q.deviceEvent == DescEvent(q.ring.hAvail, q.n))
    ensures why != Empty ==> count == TX_BUDGET && (canSend ==> q.deviceEvent.flags == EVENT_FLAG_DISABLE)
    ensures q.h.pendingUsed - old(q.h).pendingUsed == q.ring.hUsed - old(q.ring).hUsed
  {
    ghost var r0 := q.ring;
    count, why, steps := 0, Empty, [];
    var e: nat := 0;
    while true
      invariant Sound(q) && Ran(r0, steps, q.ring) && count == Takes(steps) <= TX_BUDGET
      invariant q.ring.hAvail == r0.hAvail + count && (canSend ==> q.deviceEvent.flags == EVENT_FLAG_DISABLE)
      invariant q.h.pendingUsed - old(q.h).pendingUsed == q.ring.hUsed - r0.hUsed
      decreases TX_BUDGET - count
    {
      var more;
      more, e, steps := LookForWork(q, canSend, env, e, r0, steps);
      if !more {
        break;
      }
      if count >= TX_BUDGET {
        why := Budget;
        break;
      }
      steps := TakeOne(q, if count < |verdicts| then verdicts[count] else Enqueued, r0, steps);
      count := count + 1;
    }
  }

  /** Send descriptors on the spot, in order, up to the budget or to one that the backend
      refuses; then decide on an interrupt.  An untranslatable descriptor is skipped: it
      counts as taken, and `answers` says so. */
  method Drain(q: Virtq, canSend: bool, answers: seq<Answer>, env: seq<seq<GuestAct<Buf>>>)
      returns (count: nat, notify: bool, why: Stop, ghost steps: seq<Step>)
    requires Sound(q) && q.ring.hUsed == q.ring.hAvail
    modifies q, q.desc, q.state, q.hvMap
    ensures Sound(q) && Ran(old(q.ring), steps, q.ring) && count == Takes(steps) <= TX_BUDGET
    ensures q.ring.hAvail == q.ring.hUsed == old(q.ring).hAvail + count
    ensures why == Empty ==>
      q.ring.hAvail == q.ring.gAvail && (canSend ==> q.deviceEvent == DescEvent(q.ring.hAvail, q.n))
    ensures why == Budget ==> count == TX_BUDGET
    ensures why.Refused? ==> q.ring.hAvail < q.ring.gAvail && why.answer == AnswerTo(answers, count) != Accepted
    ensures why != Empty && canSend ==> q.deviceEvent.flags == EVENT_FLAG_DISABLE
    ensures notify <==> count > 0 && EventFires(q.driverEvent, At(q.ring.hUsed, q.n), count, q.n)
  {
    Begin(q, canSend);
    count, why, steps := DrainLoop(q, canSend, answers, env);
    notify := false;
    if count > 0 {
      assert Unseal(0);
      notify := q.IntrNeeded(count);
    }
  }

  method DrainLoop(q: Virtq, canSend: bool, answers: seq<Answer>, env: seq<seq<GuestAct<Buf>>>)
      returns (count: nat, why: Stop, ghost steps: seq<Step>)
    requires Sound(q) && q.ring.hUsed == q.ring.hAvail
    requires Ran(q.ring, [], q.ring) && (canSend ==> q.deviceEvent.flags == EVENT_FLAG_DISABLE)
    modifies q`g, q`h, q`ring, q`book, q`txFree, q`owned, q`ownedBufs, q`driverEvent, q`driverPos
    modifies q`deviceEvent, q`devicePos, q.desc, q.state, q.hvMap
    ensures Sound(q) && Ran(old(q.ring), steps, q.ring) && count == Takes(steps) <= TX_BUDGET
    ensures q.ring.hAvail == q.ring.hUsed == old(q.ring).hAvail + count
    ensures why == Empty ==>
      q.ring.hAvail == q.ring.gAvail && (canSend ==> q.deviceEvent == DescEvent(q.ring.hAvail, q.n))
    ensures why == Budget ==> count == TX_BUDGET
    ensures why.Refused? ==> q.ring.hAvail < q.ring.gAvail && why.answer == AnswerTo(answers, count) != Accepted
    ensures why != Empty && canSend ==> q.deviceEvent.flags == EVENT_FLAG_DISABLE
  {
    ghost var r0 := q.ring;
    count, why, steps := 0, Empty, [];
    var e: nat := 0;
    while true
      invariant Sound(q) && Ran(r0, steps, q.ring) && count == Takes(steps) <= TX_BUDGET
      invariant q.ring.hAvail == q.ring.hUsed == r0.hAvail + count
                && (canSend ==> q.deviceEvent.flags == EVENT_FLAG_DISABLE)
      decreases TX_BUDGET - count
    {
      var more;
      more, e, steps := LookForWork(q, canSend, env, e, r0, steps);
      if !more {
        break;
      }
      if count >= TX_BUDGET {
        why := Budget;
        break;
      }
      var answer := AnswerTo(answers, count);
      if answer != Accepted {
        why := Refused(answer);
        break;
      }
      steps := SendOne(q, r0, steps);
      count := count + 1;
    }
  }
}
