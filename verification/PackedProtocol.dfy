/** Guest and host of a packed queue running side by side.

    Every action is one access to shared memory with the private work around it;
    the fences in the source order each side's store before its next load, so runs
    are interleavings of actions.  The host's program counter walks through its
    acquire or drain loop; the guest's through publish, collect and arm.
 */
module PackedProtocol {
  import opened Common
  import opened PackedEvents
  import opened PackedModel

  datatype HostPc =
    | Start          // about to turn kicks off
    | Look           // about to test for work
    | Ask            // saw none, about to ask for a kick
    | Recheck        // asked, about to test again
    | Unask          // saw some, about to turn kicks off again
    | Work           // about to process one descriptor
    | Yielded        // out of budget: polls without a timeout, so it runs again at once
    | Blocked        // the backend would block: runs again when that takes packets
    | Failed         // the backend failed: sleeps, with kicks off
    | Stopped        // saw none after asking: sleeps until a kick

  datatype Sys = Sys(
    ring: Ring,
    txFree: int,        // the driver's count of slots it may still use
    deviceEvent: Event, driverEvent: Event,
    driverPos: nat,     // the completion the guest last asked an interrupt for
    guest: GuestPc, host: HostPc,
    count: nat,         // descriptors taken in this call
    pendingUsed: nat,   // completions since the host last decided on an interrupt
    kicked: bool,       // a kick was raised since the host last woke up
    raised: bool,       // an interrupt was raised since the guest last armed
    missed: bool,       // a decision passed over the awaited completion since then
    confirmed: bool,    // the guest looked after arming and was told to wait
    polling: bool,      // the guest's poll has turned interrupts off and not looked again yet
    pollDue: bool,      // a poll was scheduled, by an interrupt or by the last poll, and has not begun
    slipped: bool,      // a decision passed over the completion last asked for
    askedOut: nat,      // how many buffers were outstanding when the guest last armed
    askedEnd: nat       // how many had been published by then
  )

  function InitSys(n: nat): Sys
    requires 0 < n
  {
    Sys(InitRing(n), n, DescEvent(0, n), DescEvent(0, n), 0, GuestIdle, Start, 0, 0,
        false, false, false, false, false, false, false, 0, 0)
  }

  datatype Action =
    | Publish(buf: Buf) | ReadEvent | Collect | Arm(min: nat)
    | LookAgain      // after a transmission: wait unless the completions are there
    | LookAway       // after a transmission with polling: the answer is ignored
    | BeginPoll      // turn interrupts off
    | EndPoll        // look again, and schedule another poll if the completions are there
    | Wake | TurnOff | Test | AskKick | TestAgain | TurnOffAgain
    | Take(verdict: Verdict) | Process | Yield | Block | Fail | Resume | Release(b: nat) | Notify

  /** Only a kick wakes the host, or traffic in the other direction. */
  predicate Asleep(host: HostPc) { host == Stopped || host == Failed }

  ghost predicate Can(s: Sys, a: Action) {
    match a
    case Publish(b) => s.guest == GuestIdle && !s.polling && 1 <= s.txFree
    case ReadEvent => s.guest == Checking
    case Collect => s.guest == GuestIdle && Enabled(s.ring, PackedModel.Collect)
    case Arm(min) => s.guest == GuestIdle && 1 <= min <= s.ring.n
    case LookAgain => s.guest == Armed && !s.polling
    case LookAway => s.guest == Armed && !s.polling
    case BeginPoll => s.guest == GuestIdle && !s.polling
    case EndPoll => s.guest == Armed && s.polling
    case Wake => Asleep(s.host)
    case TurnOff => s.host == Start
    case Test => s.host == Look
    case AskKick => s.host == Ask
    case TestAgain => s.host == Recheck
    case TurnOffAgain => s.host == Unask
    case Take(v) => s.host == Work && s.count < TX_BUDGET && Enabled(s.ring, Acquire(v))
    case Process => s.host == Work && s.count < TX_BUDGET && Enabled(s.ring, Drain)
    case Yield => s.host == Work && s.count >= TX_BUDGET
    case Block => s.host == Work
    case Fail => s.host == Work
    case Resume => s.host == Yielded || s.host == Blocked
    case Release(b) => Enabled(s.ring, PackedModel.Release(b))
    case Notify => 0 < s.pendingUsed
  }

  /** A host step on the ring: completions are remembered for the next decision. */
  ghost function HostStep(s: Sys, step: Step, host: HostPc, count: nat): Sys
    requires Inv(s.ring) && Enabled(s.ring, step)
  {
    var r := Apply(s.ring, step);
    s.(ring := r, host := host, count := count,
       pendingUsed := s.pendingUsed + (if r.hUsed > s.ring.hUsed then r.hUsed - s.ring.hUsed else 0))
  }

  /** The driver's count is exact, so that a publication it allows finds a free slot. */
  ghost predicate CreditInv(s: Sys) { s.txFree + (s.ring.gAvail - s.ring.gUsed) == s.ring.n }

  /** The host decides on completions among which is the awaited one, and does not interrupt. */
  ghost predicate Misses(s: Sys)
    requires 0 < s.ring.n
  {
    && s.confirmed && s.ring.gUsed <= s.driverPos < s.ring.hUsed <= s.driverPos + s.pendingUsed
    && !EventFires(s.driverEvent, At(s.ring.hUsed, s.ring.n), s.pendingUsed, s.ring.n)
  }

  /** The same for a guest that may not have been told to wait. */
  ghost predicate Slips(s: Sys)
    requires 0 < s.ring.n
  {
    && !s.polling && s.driverPos < s.ring.hUsed <= s.driverPos + s.pendingUsed
    && !EventFires(s.driverEvent, At(s.ring.hUsed, s.ring.n), s.pendingUsed, s.ring.n)
  }

  ghost function Do(s: Sys, a: Action): Sys
    requires 0 < s.ring.n && Inv(s.ring) && CreditInv(s) && Can(s, a)
  {
    var r, n := s.ring, s.ring.n;
    match a
    case Publish(b) => s.(ring := Apply(r, PackedModel.Publish(b)), txFree := s.txFree - 1, guest := Checking)
    case ReadEvent =>
      s.(guest := GuestIdle, kicked := s.kicked || EventFires(s.deviceEvent, At(r.gAvail, n), 1, n))
    case Collect => s.(ring := Apply(r, PackedModel.Collect), txFree := s.txFree + 1)
    case Arm(min) =>
      var e := r.gUsed + min - 1;
      s.(driverEvent := DescEvent(e, n), driverPos := e, guest := Armed, raised := false, missed := false,
         confirmed := false, askedOut := r.gAvail - r.gUsed, askedEnd := r.gAvail)
    case LookAgain => s.(guest := GuestIdle, confirmed := !(s.driverPos < r.hUsed))
    case LookAway => s.(guest := GuestIdle)
    case BeginPoll =>
      s.(driverEvent := s.driverEvent.(flags := EVENT_FLAG_DISABLE), confirmed := false, polling := true,
         pollDue := false)
    case EndPoll =>
      s.(guest := GuestIdle, polling := false, confirmed := !(s.driverPos < r.hUsed),
         pollDue := s.pollDue || s.driverPos < r.hUsed)
    case Wake => s.(host := Start, kicked := false)
    case TurnOff => s.(host := Look, count := 0, deviceEvent := s.deviceEvent.(flags := EVENT_FLAG_DISABLE))
    case Test => s.(host := if r.hAvail < r.gAvail then Work else Ask)
    case AskKick => s.(host := Recheck, deviceEvent := DescEvent(r.hAvail, n))
    case TestAgain => s.(host := if r.hAvail < r.gAvail then Unask else Stopped)
    case TurnOffAgain => s.(host := Work, deviceEvent := s.deviceEvent.(flags := EVENT_FLAG_DISABLE))
    case Take(v) => HostStep(s, Acquire(v), Look, s.count + 1)
    case Process => HostStep(s, Drain, Look, s.count + 1)
    case Yield => s.(host := Yielded)
    case Block => s.(host := Blocked)
    case Fail => s.(host := Failed)
    case Resume => s.(host := Start)
    case Release(b) => HostStep(s, PackedModel.Release(b), s.host, s.count)
    case Notify =>
      var fires := EventFires(s.driverEvent, At(r.hUsed, n), s.pendingUsed, n);
      s.(pendingUsed := 0, raised := s.raised || fires, missed := s.missed || Misses(s),
         pollDue := s.pollDue || fires, slipped := s.slipped || Slips(s))
  }

  /** The host is between turning kicks off and asking for one. */
  predicate KicksOff(host: HostPc) {
    host == Look || host == Ask || host == Work || host == Yielded || host == Blocked || host == Failed
  }

  /** The host has seen work it has not taken. */
  predicate SawWork(host: HostPc) {
    host == Unask || host == Work || host == Yielded || host == Blocked || host == Failed
  }

  /** While the host waits, its request names the next publication; and unless a
      kick is on its way, nothing is published but what the guest is about to check. */
  ghost predicate KickInv(s: Sys)
    requires 0 < s.ring.n
  {
    && (KicksOff(s.host) ==> s.deviceEvent.flags == EVENT_FLAG_DISABLE)
    && (SawWork(s.host) ==> s.ring.hAvail < s.ring.gAvail)
    && (s.host == Recheck || s.host == Stopped ==> s.deviceEvent == DescEvent(s.ring.hAvail, s.ring.n))
    && (s.host == Stopped ==>
          || s.kicked
          || s.ring.gAvail == s.ring.hAvail
          || (s.guest == Checking && s.ring.gAvail == s.ring.hAvail + 1))
  }

  /** While the guest waits for completion `driverPos`, either the interrupt was
      raised or the host has yet to decide for it. */
  ghost predicate IntrInv(s: Sys)
    requires 0 < s.ring.n
  {
    && s.pendingUsed <= s.ring.hUsed
    && (!s.polling || s.guest == Armed ==> s.driverEvent == DescEvent(s.driverPos, s.ring.n))
    && (s.confirmed && s.ring.gUsed <= s.driverPos ==>
          && s.driverEvent == DescEvent(s.driverPos, s.ring.n)
          && (s.raised || s.missed || s.ring.hUsed - s.pendingUsed <= s.driverPos))
  }

  ghost predicate SysInv(s: Sys) {
    0 < s.ring.n <= 0x8000 && Inv(s.ring) && CreditInv(s) && KickInv(s) && IntrInv(s)
  }

  /** What a ring step may change: counters only grow, and only by the side that owns them. */
  lemma RingStepShape(r: Ring, step: Step)
    requires Inv(r) && Enabled(r, step)
    ensures var q := Apply(r, step);
            && Inv(q) && q.n == r.n
            && q.gAvail == r.gAvail + (if step.Publish? then 1 else 0)
            && q.gUsed == r.gUsed + (if step.Collect? then 1 else 0)
            && q.hAvail == r.hAvail + (if step.Acquire? || step.Drain? then 1 else 0)
            && r.hUsed <= q.hUsed
            && (step.Publish? || step.Collect? ==> q.hUsed == r.hUsed)
  {
    StepKeepsInv(r, step);
  }

  lemma RingActionKeeps(s: Sys, a: Action, step: Step)
    requires SysInv(s) && Can(s, a)
    requires || (a.Publish? && step == PackedModel.Publish(a.buf)) || (a.Collect? && step == PackedModel.Collect)
             || (a.Take? && step == Acquire(a.verdict)) || (a.Process? && step == Drain)
             || (a.Release? && step == PackedModel.Release(a.b))
    ensures SysInv(Do(s, a)) && Do(s, a).ring.n == s.ring.n
  {
    RingStepShape(s.ring, step);
  }

  lemma ReadEventKeeps(s: Sys)
    requires SysInv(s) && s.guest == Checking
    ensures SysInv(Do(s, ReadEvent))
  {
    if s.host == Stopped && s.ring.gAvail == s.ring.hAvail + 1 {
      FiresBehind(s.ring.hAvail, s.ring.gAvail, 1, s.ring.n);
    }
  }

  /** Exactly when a decision passes over the awaited completion: its 16-bit argument keeps less
      of the count than it takes to reach back to it, which needs 65536 completions or more. */
  lemma MissesExactly(s: Sys)
    requires SysInv(s)
    ensures Misses(s) <==>
      && s.confirmed && s.ring.gUsed <= s.driverPos < s.ring.hUsed <= s.driverPos + s.pendingUsed
      && U16(s.pendingUsed) < s.ring.hUsed - s.driverPos
    ensures Misses(s) ==> s.pendingUsed >= 0x1_0000
  {
    if s.confirmed && s.ring.gUsed <= s.driverPos < s.ring.hUsed {
      FiresBehind(s.driverPos, s.ring.hUsed, s.pendingUsed, s.ring.n);
    }
  }

  /** It does happen: the completion waited for is the last of a decision on 65536. */
  lemma LongBatchMisses(s: Sys)
    requires SysInv(s) && s.confirmed && s.ring.gUsed <= s.driverPos == s.ring.hUsed - 1 && s.pendingUsed == 0x1_0000
    ensures Can(s, Notify) && Do(s, Notify).missed && Do(s, Notify).raised == s.raised
  {
    FiresBehind(s.driverPos, s.ring.hUsed, s.pendingUsed, s.ring.n);
  }

  /** The guest asks for an interrupt and looks. */
  lemma ArmKeeps(s: Sys, a: Action)
    requires SysInv(s) && Can(s, a) && (a.Arm? || a.LookAgain? || a.LookAway?)
    ensures SysInv(Do(s, a)) && Do(s, a).ring == s.ring
  {}

  /** Its poll begins and ends. */
  lemma PollKeeps(s: Sys, a: Action)
    requires SysInv(s) && Can(s, a) && (a.BeginPoll? || a.EndPoll?)
    ensures SysInv(Do(s, a)) && Do(s, a).ring == s.ring
  {}

  /** The host wakes up and turns kicks off. */
  lemma BeginKeeps(s: Sys, a: Action)
    requires SysInv(s) && Can(s, a) && (a.Wake? || a.Resume? || a.TurnOff? || a.TurnOffAgain?)
    ensures SysInv(Do(s, a)) && Do(s, a).ring == s.ring
  {}

  /** It looks for work, and asks for a kick. */
  lemma LookKeeps(s: Sys, a: Action)
    requires SysInv(s) && Can(s, a) && (a.Test? || a.AskKick? || a.TestAgain?)
    ensures SysInv(Do(s, a)) && Do(s, a).ring == s.ring
  {}

  /** It leaves work behind, or decides on an interrupt. */
  lemma LeaveKeeps(s: Sys, a: Action)
    requires SysInv(s) && Can(s, a) && (a.Yield? || a.Block? || a.Fail? || a.Notify?)
    ensures SysInv(Do(s, a)) && Do(s, a).ring == s.ring
  {}

  lemma ActionKeepsInv(s: Sys, a: Action)
    requires SysInv(s) && Can(s, a)
    ensures SysInv(Do(s, a)) && Do(s, a).ring.n == s.ring.n
  {
    match a
    case Publish(b) => RingActionKeeps(s, a, PackedModel.Publish(b));
    case ReadEvent => ReadEventKeeps(s);
    case Collect => RingActionKeeps(s, a, PackedModel.Collect);
    case Take(v) => RingActionKeeps(s, a, Acquire(v));
    case Process => RingActionKeeps(s, a, Drain);
    case Release(b) => RingActionKeeps(s, a, PackedModel.Release(b));
    case Arm(_) | LookAgain | LookAway => ArmKeeps(s, a);
    case BeginPoll | EndPoll => PollKeeps(s, a);
    case Wake | Resume | TurnOff | TurnOffAgain => BeginKeeps(s, a);
    case Test | AskKick | TestAgain => LookKeeps(s, a);
    case Yield | Block | Fail | Notify => LeaveKeeps(s, a);
  }

  // ----- whole runs --------------------------------------------------------------------

  /** The system invariant, as one sealed fact. */
  ghost predicate Good(s: Sys) { forall k: nat :: Unseal(k) ==> SysInv(s) }

  /** The state after an interleaving; `None` if some action could not be taken. */
  ghost function Run(n: nat, actions: seq<Action>): (s: Option<Sys>)
    requires 0 < n <= 0x8000
    ensures s.Some? ==> Good(s.value) && s.value.ring.n == n
  {
    if actions == [] then Some(InitSys(n)) else
    match Run(n, actions[..|actions| - 1])
    case None => None
    case Some(q) =>
      var a := actions[|actions| - 1];
      if Can(q, a) then
        assert Unseal(0);
        ActionKeepsInv(q, a);
        Some(Do(q, a))
      else None
  }

  /** No lost kick: when the host sleeps and the guest is not between publishing and checking, the
      ring is empty or a kick was raised since the host last woke, unless the host went to sleep on a
      backend that failed. */
  lemma NoLostKick(n: nat, actions: seq<Action>)
    requires 0 < n <= 0x8000 && Run(n, actions).Some?
    ensures var s := Run(n, actions).value;
            Asleep(s.host) && s.guest != Checking ==> s.ring.hAvail == s.ring.gAvail || s.kicked || s.host == Failed
  {
    assert Unseal(0);
    assert KickInv(Run(n, actions).value);
  }

  /** Exactly then: a host asleep without a kick leaves work behind if and only if the backend failed. */
  lemma SleepsOnWorkExactly(n: nat, actions: seq<Action>)
    requires 0 < n <= 0x8000 && Run(n, actions).Some?
    requires var s := Run(n, actions).value; Asleep(s.host) && s.guest != Checking && !s.kicked
    ensures var s := Run(n, actions).value; s.ring.hAvail < s.ring.gAvail <==> s.host == Failed
  {
    assert Unseal(0);
    NoLostKick(n, actions);
    assert KickInv(Run(n, actions).value);
  }

  lemma DeafStep(s: Sys, a: Action, s': Sys)
    requires 0 < s.ring.n && Inv(s.ring) && CreditInv(s) && KickInv(s) && s.host == Failed
    requires Can(s, a) && !a.Wake? && s' == Do(s, a)
    ensures s'.host == Failed && s'.kicked == s.kicked
  {
    match a
    case ReadEvent => assert !EventFires(s.deviceEvent, At(s.ring.gAvail, s.ring.n), 1, s.ring.n);
    case Release(b) =>
    case Notify =>
    case _ =>
  }

  /** The last action of a run. */
  lemma RunLast(n: nat, actions: seq<Action>)
    requires 0 < n <= 0x8000 && Run(n, actions).Some? && actions != []
    ensures var k := |actions| - 1;
            && Run(n, actions[..k]).Some? && SysInv(Run(n, actions[..k]).value)
            && Can(Run(n, actions[..k]).value, actions[k])
            && Run(n, actions).value == Do(Run(n, actions[..k]).value, actions[k])
  {
    assert Unseal(0);
  }

  /** And publishing does not wake it: until something else does, no kick is raised. */
  lemma {:induction false} FailedIsDeaf(n: nat, actions: seq<Action>, more: seq<Action>)
    requires 0 < n <= 0x8000 && Run(n, actions).Some? && Run(n, actions).value.host == Failed
    requires Run(n, actions + more).Some? && forall k :: 0 <= k < |more| ==> !more[k].Wake?
    ensures var s, t := Run(n, actions).value, Run(n, actions + more).value;
            t.host == Failed && t.kicked == s.kicked
  {
    if more == [] {
      assert actions + more == actions;
    } else {
      var k, all := |more| - 1, actions + more;
      assert all[..|all| - 1] == actions + more[..k] && all[|all| - 1] == more[k];
      RunLast(n, all);
      FailedIsDeaf(n, actions, more[..k]);
      DeafStep(Run(n, actions + more[..k]).value, more[k], Run(n, all).value);
    }
  }

  /** The host never lets 65536 completions pass without a decision. */
  ghost predicate ShortDecisions(n: nat, actions: seq<Action>)
    requires 0 < n <= 0x8000
  {
    forall k :: 0 <= k < |actions| && actions[k].Notify? ==> ShortDecisionAt(n, actions, k)
  }

  ghost predicate ShortDecisionAt(n: nat, actions: seq<Action>, k: nat)
    requires 0 < n <= 0x8000 && k < |actions|
  {
    Run(n, actions[..k]).Some? && Run(n, actions[..k]).value.pendingUsed < 0x1_0000
  }

  lemma MissesNothing(s: Sys, a: Action, s': Sys)
    requires SysInv(s) && Can(s, a) && s' == Do(s, a)
    requires !s.missed && (a.Notify? ==> s.pendingUsed < 0x1_0000)
    ensures !s'.missed
  {
    MissesExactly(s);
  }

  lemma {:induction false} NothingMissed(n: nat, actions: seq<Action>)
    requires 0 < n <= 0x8000 && Run(n, actions).Some? && ShortDecisions(n, actions)
    ensures !Run(n, actions).value.missed
  {
    if actions != [] {
      var k := |actions| - 1;
      ShortBefore(n, actions, k);
      NothingMissed(n, actions[..k]);
      assert actions[k].Notify? ==> ShortDecisionAt(n, actions, k);
      assert Unseal(0);
      MissesNothing(Run(n, actions[..k]).value, actions[k], Run(n, actions).value);
    }
  }

  lemma ShortBefore(n: nat, actions: seq<Action>, m: nat)
    requires 0 < n <= 0x8000 && m <= |actions| && ShortDecisions(n, actions)
    ensures ShortDecisions(n, actions[..m])
  {
    forall k | 0 <= k < m && actions[k].Notify? ensures ShortDecisionAt(n, actions[..m], k) {
      assert ShortDecisionAt(n, actions, k);
      assert actions[..m][..k] == actions[..k];
    }
  }

  /** No lost interrupt: when the guest was told to wait for a completion, has not
      collected it itself, and the host has decided on everything it completed,
      then a completed wait has raised the interrupt, unless a decision on 65536 completions or
      more missed it. */
  lemma NoLostInterrupt(n: nat, actions: seq<Action>)
    requires 0 < n <= 0x8000 && Run(n, actions).Some?
    ensures var s := Run(n, actions).value;
            s.confirmed && s.ring.gUsed <= s.driverPos < s.ring.hUsed && s.pendingUsed == 0 ==> s.raised || s.missed
    ensures ShortDecisions(n, actions) ==> !Run(n, actions).value.missed
  {
    assert Unseal(0);
    assert IntrInv(Run(n, actions).value);
    if ShortDecisions(n, actions) {
      NothingMissed(n, actions);
    }
  }

  /** Over every run the driver's count is exact: free slots plus outstanding buffers are the ring,
      and so a publication the driver allows finds a free slot. */
  lemma CreditIsExact(n: nat, actions: seq<Action>)
    requires 0 < n <= 0x8000 && Run(n, actions).Some?
    ensures var s := Run(n, actions).value;
            && s.txFree + (s.ring.gAvail - s.ring.gUsed) == n && 0 <= s.txFree
            && (forall b :: Can(s, Action.Publish(b)) ==> Enabled(s.ring, PackedModel.Publish(b)))
  {
    assert Unseal(0);
  }

  /** The rings met along a run are those of a run of the ring model: what is proved
      about those (exactly-once in particular) holds here. */
  ghost function RingSteps(actions: seq<Action>): seq<Step> {
    if actions == [] then []
    else RingSteps(actions[..|actions| - 1]) + RingStep(actions[|actions| - 1])
  }

  function RingStep(a: Action): seq<Step> {
    match a
    case Publish(b) => [PackedModel.Publish(b)]
    case Collect => [PackedModel.Collect]
    case Take(v) => [Acquire(v)]
    case Process => [Drain]
    case Release(b) => [PackedModel.Release(b)]
    case _ => []
  }

  lemma DoOnRing(s: Sys, a: Action)
    requires SysInv(s) && Can(s, a)
    ensures RingStep(a) == [] ==> Do(s, a).ring == s.ring
    ensures RingStep(a) != [] ==>
      Enabled(s.ring, RingStep(a)[0]) && Do(s, a).ring == Apply(s.ring, RingStep(a)[0])
  {}

  lemma ExecOneMore(n: nat, steps: seq<Step>, step: Step)
    requires Exec(n, steps).Some? && Enabled(Exec(n, steps).value, step)
    ensures Exec(n, steps + [step]) == Some(Apply(Exec(n, steps).value, step))
  {
    assert (steps + [step])[..|steps|] == steps;
  }

  lemma {:induction false} RunsRefineTheRing(n: nat, actions: seq<Action>)
    requires 0 < n <= 0x8000 && Run(n, actions).Some?
    ensures Exec(n, RingSteps(actions)) == Some(Run(n, actions).value.ring)
  {
    assert Unseal(0);
    if actions != [] {
      var before, a := actions[..|actions| - 1], actions[|actions| - 1];
      RunsRefineTheRing(n, before);
      DoOnRing(Run(n, before).value, a);
      if RingStep(a) == [] {
        assert RingSteps(before) + [] == RingSteps(before);
      } else {
        ExecOneMore(n, RingSteps(before), RingStep(a)[0]);
      }
    }
  }
}
