/** When guest and host of a packed queue wait for each other, if the requests for interrupts are
    those that the driver makes. */
module PackedDeadlock {
  import opened Common
  import opened PackedEvents
  import opened PackedModel
  import opened PackedLoss
  import opened PackedProtocol

  // ----- the requests the driver makes -------------------------------------------------

  /** The request can always be made, with and without buffers outstanding. */
  lemma HalfPendingFits(s: Sys)
    requires SysInv(s) && s.guest == GuestIdle
    ensures 1 <= HalfPending(s.ring.n, s.txFree) <= s.ring.n && Can(s, Arm(HalfPending(s.ring.n, s.txFree)))
  {}

  ghost predicate DriverArmAt(n: nat, actions: seq<Action>, k: nat)
    requires 0 < n <= 0x8000 && k < |actions|
  {
    actions[k].Arm? ==>
      Run(n, actions[..k]).Some? && actions[k].min == HalfPending(n, Run(n, actions[..k]).value.txFree)
  }

  /** Every request for an interrupt in the run is the driver's: half of what is outstanding, and one. */
  ghost predicate DriverArms(n: nat, actions: seq<Action>)
    requires 0 < n <= 0x8000
  {
    forall k :: 0 <= k < |actions| ==> DriverArmAt(n, actions, k)
  }

  lemma ArmsBefore(n: nat, actions: seq<Action>, m: nat)
    requires 0 < n <= 0x8000 && m <= |actions| && DriverArms(n, actions)
    ensures DriverArms(n, actions[..m])
  {
    forall k | 0 <= k < m ensures DriverArmAt(n, actions[..m], k) {
      assert DriverArmAt(n, actions, k);
      assert actions[..m][..k] == actions[..k];
    }
  }

  /** The request names the middle of what was outstanding when it was made. */
  ghost predicate AskInv(s: Sys) {
    && s.askedOut <= s.askedEnd <= s.ring.gAvail && s.askedEnd - s.askedOut <= s.ring.gUsed
    && s.driverPos == s.askedEnd - s.askedOut + s.askedOut / 2
  }

  /** Unless a poll is under way, one is due, or the completion last asked for is not there, or the
      host has yet to decide on it. */
  ghost predicate PollInv(s: Sys) {
    !s.polling ==> s.pollDue || s.slipped || s.ring.hUsed - s.pendingUsed <= s.driverPos
  }

  lemma NextIsNoEarlier(s: Sys)
    requires SysInv(s) && AskInv(s)
    ensures s.driverPos <= s.ring.gUsed + HalfPending(s.ring.n, s.txFree) - 1
  {}

  lemma AskedHalf(s: Sys, min: nat, s': Sys)
    requires SysInv(s) && AskInv(s) && PollInv(s) && Can(s, Arm(min)) && s' == Do(s, Arm(min))
    requires min == HalfPending(s.ring.n, s.txFree)
    ensures AskInv(s') && PollInv(s')
  {
    NextIsNoEarlier(s);
  }

  /** What a ring action leaves alone, and what it moves. */
  ghost predicate RingMoved(s: Sys, s': Sys) {
    && s'.driverPos == s.driverPos && s'.askedOut == s.askedOut && s'.askedEnd == s.askedEnd
    && s'.polling == s.polling && s'.pollDue == s.pollDue && s'.slipped == s.slipped
    && s'.ring.gAvail >= s.ring.gAvail && s'.ring.gUsed >= s.ring.gUsed
    && s'.ring.hUsed - s'.pendingUsed == s.ring.hUsed - s.pendingUsed
  }

  lemma RingMoves(s: Sys, a: Action, step: Step, s': Sys)
    requires SysInv(s) && Can(s, a) && s' == Do(s, a) && RingStep(a) == [step]
    ensures RingMoved(s, s')
  {
    DoOnRing(s, a);
    RingStepShape(s.ring, step);
    match a
    case Publish(b) =>
    case Collect =>
    case Take(v) =>
    case Process =>
    case Release(b) =>
  }

  lemma NotifyKeeps(s: Sys, s': Sys)
    requires SysInv(s) && AskInv(s) && PollInv(s) && Can(s, Notify) && s' == Do(s, Notify)
    ensures AskInv(s') && PollInv(s')
  {}

  lemma OthersKeep(s: Sys, a: Action, s': Sys)
    requires SysInv(s) && AskInv(s) && PollInv(s) && Can(s, a) && s' == Do(s, a)
    requires RingStep(a) == [] && !a.Arm? && !a.Notify?
    ensures AskInv(s') && PollInv(s')
  {}

  lemma ActionKeepsAsk(s: Sys, a: Action, s': Sys)
    requires SysInv(s) && AskInv(s) && PollInv(s) && Can(s, a) && s' == Do(s, a)
    requires a.Arm? ==> a.min == HalfPending(s.ring.n, s.txFree)
    ensures AskInv(s') && PollInv(s')
  {
    if RingStep(a) != [] {
      RingMoves(s, a, RingStep(a)[0], s');
    } else if a.Arm? {
      AskedHalf(s, a.min, s');
    } else if a.Notify? {
      NotifyKeeps(s, s');
    } else {
      OthersKeep(s, a, s');
    }
  }

  lemma {:induction false} DriverAsks(n: nat, actions: seq<Action>)
    requires 0 < n <= 0x8000 && Run(n, actions).Some? && DriverArms(n, actions)
    ensures AskInv(Run(n, actions).value) && PollInv(Run(n, actions).value)
  {
    if actions != [] {
      var k := |actions| - 1;
      ArmsBefore(n, actions, k);
      RunLast(n, actions);
      DriverAsks(n, actions[..k]);
      assert DriverArmAt(n, actions, k);
      ActionKeepsAsk(Run(n, actions[..k]).value, actions[k], Run(n, actions).value);
    }
  }

  /** Requests never move back: the one the driver would make now names no earlier completion than the
      last one. */
  lemma RequestsAdvance(n: nat, actions: seq<Action>)
    requires 0 < n <= 0x8000 && Run(n, actions).Some? && DriverArms(n, actions)
    ensures var s := Run(n, actions).value;
            s.driverPos <= s.ring.gUsed + HalfPending(n, s.txFree) - 1
  {
    assert Unseal(0);
    DriverAsks(n, actions);
    NextIsNoEarlier(Run(n, actions).value);
  }

  // ----- a poll is due when it should be --------------------------------------------------------

  /** Only a decision on more than a lap can pass over the completion last asked for. */
  lemma SlipsBeyondALap(s: Sys)
    requires SysInv(s) && Slips(s)
    ensures s.pendingUsed > s.ring.n
  {
    if s.pendingUsed <= s.ring.n {
      FiresBehind(s.driverPos, s.ring.hUsed, s.pendingUsed, s.ring.n);
    }
  }

  ghost predicate LapDecisionAt(n: nat, actions: seq<Action>, k: nat)
    requires 0 < n <= 0x8000 && k < |actions|
  {
    actions[k].Notify? ==> Run(n, actions[..k]).Some? && Run(n, actions[..k]).value.pendingUsed <= n
  }

  /** The host decides at least once in every lap of completions. */
  ghost predicate LapDecisions(n: nat, actions: seq<Action>)
    requires 0 < n <= 0x8000
  {
    forall k :: 0 <= k < |actions| ==> LapDecisionAt(n, actions, k)
  }

  lemma SlipsNot(s: Sys, a: Action, s': Sys)
    requires SysInv(s) && Can(s, a) && s' == Do(s, a) && !s.slipped && (a.Notify? ==> s.pendingUsed <= s.ring.n)
    ensures !s'.slipped
  {
    if a.Notify? && Slips(s) {
      SlipsBeyondALap(s);
    }
  }

  lemma {:induction false} NothingSlips(n: nat, actions: seq<Action>)
    requires 0 < n <= 0x8000 && Run(n, actions).Some? && LapDecisions(n, actions)
    ensures !Run(n, actions).value.slipped
  {
    if actions != [] {
      var k := |actions| - 1;
      forall j | 0 <= j < k ensures LapDecisionAt(n, actions[..k], j) {
        assert LapDecisionAt(n, actions, j);
        assert actions[..k][..j] == actions[..j];
      }
      RunLast(n, actions);
      NothingSlips(n, actions[..k]);
      assert LapDecisionAt(n, actions, k);
      SlipsNot(Run(n, actions[..k]).value, actions[k], Run(n, actions).value);
    }
  }

  /** Whether or not the answer after a transmission is heeded: once the completion last asked for is
      there and decided on, a poll is due, or under way. */
  lemma PollIsDue(n: nat, actions: seq<Action>)
    requires 0 < n <= 0x8000 && Run(n, actions).Some? && DriverArms(n, actions) && LapDecisions(n, actions)
    ensures var s := Run(n, actions).value;
            s.driverPos < s.ring.hUsed - s.pendingUsed ==> s.pollDue || s.polling
  {
    DriverAsks(n, actions);
    NothingSlips(n, actions);
  }

  // ----- waiting on each other ------------------------------------------------------------------

  /** The host is asleep without a kick, the scheduler holds nothing and everything completed has been
      decided on. */
  ghost predicate HostWaits(s: Sys) {
    Asleep(s.host) && !s.kicked && s.ring.held == {} && s.pendingUsed == 0
  }

  /** Neither side will do anything: no poll is due or under way either. */
  ghost predicate BothWait(s: Sys) {
    HostWaits(s) && s.guest == GuestIdle && !s.polling && !s.pollDue && !s.slipped
  }

  /** Everything not completed is lost. */
  ghost predicate OnlyLostOut(r: Ring) {
    forall p :: r.hUsed <= p < r.gAvail ==> p < |r.at| && r.at[p] in r.lost
  }

  lemma {:induction false} CountOf(at: seq<nat>, lo: nat, hi: nat, s: set<nat>)
    requires lo <= hi <= |at| && (forall p, q :: lo <= p < q < hi ==> at[p] != at[q])
    requires forall x :: x in s <==> exists p :: lo <= p < hi && at[p] == x
    ensures |s| == hi - lo
    decreases hi
  {
    if lo == hi {
      assert s == {};
    } else {
      var x := at[hi - 1];
      forall y ensures y in s - {x} <==> exists p :: lo <= p < hi - 1 && at[p] == y {}
      CountOf(at, lo, hi - 1, s - {x});
      assert s == (s - {x}) + {x};
    }
  }

  /** With nothing held by the scheduler, the buffers between the two host counters are the lost ones. */
  lemma LostAreBetween(r: Ring)
    requires Inv(r) && r.held == {}
    ensures |r.lost| == r.hAvail - r.hUsed
    ensures forall p :: r.hUsed <= p < r.hAvail ==> r.at[p] in r.lost
  {
    forall x ensures x in r.lost <==> exists p :: r.hUsed <= p < r.hAvail && r.at[p] == x {
      if x in r.lost {
        assert r.at[r.pos[x]] == x;
      }
    }
    CountOf(r.at, r.hUsed, r.hAvail, r.lost);
  }

  /** A guest told to wait, whatever it asked for: the completion it waits for is not there, and what is
      outstanding up to it is lost, unless the host went to sleep on a failed backend. */
  lemma NoDeadlock(n: nat, actions: seq<Action>)
    requires 0 < n <= 0x8000 && Run(n, actions).Some?
    requires var s := Run(n, actions).value;
             && HostWaits(s) && s.host != Failed && s.guest == GuestIdle && s.confirmed && !s.raised && !s.missed
             && s.ring.gUsed <= s.driverPos
    ensures var s := Run(n, actions).value;
            s.ring.hUsed <= s.driverPos && s.ring.hAvail == s.ring.gAvail && OnlyLostOut(s.ring)
  {
    assert Unseal(0);
    NoLostKick(n, actions);
    NoLostInterrupt(n, actions);
    LostAreBetween(Run(n, actions).value.ring);
  }

  /** With the driver's requests: both sides wait only with nothing outstanding, or with nothing
      outstanding but lost buffers up to one before the last of which the driver wants an interrupt,
      or because the host went to sleep on a failed backend. */
  lemma WaitsOnlyFor(n: nat, actions: seq<Action>)
    requires 0 < n <= 0x8000 && Run(n, actions).Some? && DriverArms(n, actions) && BothWait(Run(n, actions).value)
    ensures var s := Run(n, actions).value;
            || s.host == Failed
            || (s.ring.gAvail == s.ring.gUsed && s.txFree == n)
            || (&& s.ring.hUsed <= s.driverPos < s.ring.gAvail == s.ring.hAvail
                && s.ring.lost != {} && OnlyLostOut(s.ring))
  {
    assert Unseal(0);
    NoLostKick(n, actions);
    DriverAsks(n, actions);
    LostAreBetween(Run(n, actions).value.ring);
  }

  /** How many lost buffers it takes: half of what was outstanding at the driver's last request, rounded
      up, and everything published since. */
  function EnoughLost(s: Sys): int { s.askedOut - s.askedOut / 2 + (s.ring.gAvail - s.askedEnd) }

  /** Exactly when: with the host waiting for a kick, the completion asked for never comes if and only if
      that many buffers are lost; otherwise a poll is due. */
  lemma WedgedExactly(n: nat, actions: seq<Action>)
    requires 0 < n <= 0x8000 && Run(n, actions).Some? && DriverArms(n, actions)
    requires var s := Run(n, actions).value;
             HostWaits(s) && s.host == Stopped && s.guest == GuestIdle && !s.polling && !s.slipped
    ensures var s := Run(n, actions).value;
            && (s.ring.hUsed <= s.driverPos <==> |s.ring.lost| >= EnoughLost(s))
            && (|s.ring.lost| < EnoughLost(s) ==> s.pollDue)
  {
    assert Unseal(0);
    NoLostKick(n, actions);
    DriverAsks(n, actions);
    LostAreBetween(Run(n, actions).value.ring);
  }

  // ----- without losses ----------------------------------------------------------------------------

  ghost predicate SafeAt(n: nat, actions: seq<Action>, k: nat)
    requires 0 < n <= 0x8000 && k < |actions|
  {
    actions[k].Take? ==>
      Run(n, actions[..k]).Some? && !Losing(Run(n, actions[..k]).value.ring, Acquire(actions[k].verdict))
  }

  /** The run loses no buffer. */
  ghost predicate LosesNothing(n: nat, actions: seq<Action>)
    requires 0 < n <= 0x8000
  {
    forall k :: 0 <= k < |actions| ==> SafeAt(n, actions, k)
  }

  lemma SafeStep(s: Sys, a: Action, s': Sys)
    requires SysInv(s) && Can(s, a) && s' == Do(s, a) && s.ring.lost == {}
    requires a.Take? ==> !Losing(s.ring, Acquire(a.verdict))
    ensures s'.ring.lost == {}
  {
    DoOnRing(s, a);
    if RingStep(a) != [] {
      forall b ensures b !in s'.ring.lost {
        if b >= 0 {
          LossStep(s.ring, RingStep(a)[0], b);
        }
      }
    }
  }

  lemma {:induction false} NothingLost(n: nat, actions: seq<Action>)
    requires 0 < n <= 0x8000 && Run(n, actions).Some? && LosesNothing(n, actions)
    ensures Run(n, actions).value.ring.lost == {}
  {
    if actions != [] {
      var k := |actions| - 1;
      forall j | 0 <= j < k ensures SafeAt(n, actions[..k], j) {
        assert SafeAt(n, actions, j);
        assert actions[..k][..j] == actions[..j];
      }
      RunLast(n, actions);
      NothingLost(n, actions[..k]);
      assert SafeAt(n, actions, k);
      SafeStep(Run(n, actions[..k]).value, actions[k], Run(n, actions).value);
    }
  }

  /** In runs that lose no buffer both sides wait only with nothing outstanding, or because the host went
      to sleep on a failed backend. */
  lemma DriverNeverDeadlocks(n: nat, actions: seq<Action>)
    requires 0 < n <= 0x8000 && Run(n, actions).Some? && DriverArms(n, actions) && LosesNothing(n, actions)
    requires BothWait(Run(n, actions).value)
    ensures var s := Run(n, actions).value; s.host == Failed || (s.ring.gAvail == s.ring.gUsed && s.txFree == n)
  {
    WaitsOnlyFor(n, actions);
    NothingLost(n, actions);
  }
}
