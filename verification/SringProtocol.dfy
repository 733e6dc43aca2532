/** Guest and host of a shared-ring transmit queue running side by side.

    Every action is one access to shared memory with the private work around it; the
    fences in the source order each side's store before its next load, so runs are
    interleavings of actions.
 */
module SringProtocol {
  import opened Common
  import opened SringModel

  datatype HostPc =
    | Start          // about to load the guest's index
    | Loaded         // about to turn kicks off
    | Look           // about to compare, and to load the index again if nothing known is left
    | Ask            // found none, about to ask for kicks
    | Recheck        // asked, about to load again
    | Unask          // found some, about to turn kicks off again
    | Finish(why: Stop)     // about to publish its own index
    | Decide(why: Stop)     // about to load the threshold
    | Yielded        // out of budget: polls without a timeout, so it runs again at once
    | Blocked        // the backend would block: runs again when that takes packets
    | Failed         // the backend failed: sleeps, with kicks off
    | Stopped        // found none after asking: sleeps until a kick

  datatype Sys = Sys(
    n: nat, ring: Ring, txFree: int,
    kick: bool, intrAt: nat,
    guest: GuestPc, host: HostPc,
    next: nat, seen: nat,    // the host's private index and what it knows of the guest's, in packets
    first: nat,              // the host's public index before its last batch
    threshold: nat,          // the position the guest last asked an interrupt for
    sent: seq<seq<Buf>>, returned: seq<seq<Buf>>,
    kicked: bool,            // a kick was raised since the host last woke up
    raised: bool,            // an interrupt was raised since the guest last armed
    confirmed: bool          // the guest looked after arming and was told to wait
  )

  function InitSys(n: nat): Sys {
    Sys(n, Ring([], 0, 0), n, true, 0, GuestIdle, Start, 0, 0, 0, 0, [], [], false, false, false)
  }

  datatype Action =
    | Publish(bufs: seq<Buf>) | LoadKick | Collect | Arm(min: nat) | LoadCons
    | Wake | LoadFirst | TurnOff | Compare | AskKick | LoadAgain | TurnOffAgain
    | Send | Refuse(answer: Answer) | StoreCons | LoadIntr | Resume

  /** Only a kick wakes the host, or traffic in the other direction. */
  predicate Asleep(host: HostPc) { host == Stopped || host == Failed }

  ghost predicate Can(s: Sys, a: Action)
    requires s.ring.clear <= |s.ring.pkts|
  {
    match a
    case Publish(bufs) => s.guest == GuestIdle && 1 <= |bufs| <= MAX_BUFS && |bufs| <= s.txFree
    case LoadKick => s.guest == Checking
    case Collect => s.guest == GuestIdle && s.ring.clear < s.ring.cons
    case Arm(min) => s.guest == GuestIdle && 1 <= min
    case LoadCons => s.guest == Armed
    case Wake => Asleep(s.host)
    case LoadFirst => s.host == Start
    case TurnOff => s.host == Loaded
    case Compare => s.host == Look
    case AskKick => s.host == Ask
    case LoadAgain => s.host == Recheck
    case TurnOffAgain => s.host == Unask
    case Send => s.host == Look && s.next < s.seen && s.next - s.ring.cons < TX_BUDGET
    case Refuse(answer) => s.host == Look && s.next < s.seen && answer != Accepted
    case StoreCons => s.host.Finish?
    case LoadIntr => s.host.Decide?
    case Resume => s.host == Yielded || s.host == Blocked
  }

  function Done(why: Stop): HostPc {
    match why
    case Empty => Stopped
    case Budget => Yielded
    case Refused(answer) => if answer == SendFailed then Failed else Blocked
  }

  ghost function Do(s: Sys, a: Action): Sys
    requires s.ring.clear <= s.ring.cons <= |s.ring.pkts| && s.next <= s.seen <= |s.ring.pkts|
             && s.first <= |s.ring.pkts| && Can(s, a)
  {
    var r := s.ring;
    match a
    case Publish(bufs) =>
      s.(ring := r.(pkts := r.pkts + [bufs]), txFree := s.txFree - |bufs|, guest := Checking)
    case LoadKick => s.(guest := GuestIdle, kicked := s.kicked || s.kick)
    case Collect =>
      s.(ring := r.(clear := r.clear + 1), txFree := s.txFree + |r.pkts[r.clear]|,
          returned := s.returned + [r.pkts[r.clear]])
    case Arm(min) =>
      var e := Pos(r.pkts, r.clear) + min - 1;
      s.(guest := Armed, intrAt := Word(e), threshold := e, raised := false, confirmed := false)
    case LoadCons => s.(guest := GuestIdle, confirmed := Pos(r.pkts, r.cons) <= s.threshold)
    case Wake => s.(host := Start, kicked := false)
    case LoadFirst => s.(host := Loaded, next := r.cons, seen := |r.pkts|)
    case TurnOff => s.(host := Look, kick := false)
    case Compare =>
      if s.next < s.seen then
        s.(host := if s.next - r.cons >= TX_BUDGET then Finish(Budget) else Look)
      else
        s.(seen := |r.pkts|, host := if s.next < |r.pkts| then Look else Ask)
    case AskKick => s.(host := Recheck, kick := true)
    case LoadAgain => s.(seen := |r.pkts|, host := if s.next < |r.pkts| then Unask else Finish(Empty))
    case TurnOffAgain => s.(host := Look, kick := false)
    case Send => s.(next := s.next + 1, sent := s.sent + [r.pkts[s.next]])
    case Refuse(answer) => s.(host := Finish(Refused(answer)))
    case StoreCons =>
      if s.next == r.cons then s.(host := Done(s.host.why))
      else s.(host := Decide(s.host.why), first := r.cons, ring := r.(cons := s.next))
    case LoadIntr =>
      s.(host := Done(s.host.why),
         raised := s.raised || Passed(s.intrAt, Word(Pos(r.pkts, s.first)), Word(Pos(r.pkts, r.cons))))
    case Resume => s.(host := Start)
  }

  // ----- invariant ------------------------------------------------------------------------------

  predicate Leaving(host: HostPc) { host.Finish? || host.Decide? }

  /** The host found nothing after asking for kicks. */
  predicate FoundNone(host: HostPc) { host == Stopped || (Leaving(host) && host.why == Empty) }

  /** The host leaves, or has left, packets behind it knows of. */
  predicate LeftWork(host: HostPc) {
    host == Yielded || host == Blocked || host == Failed || (Leaving(host) && host.why != Empty)
  }

  /** The host has not begun, or has published all it did. */
  predicate Between(host: HostPc) {
    host == Start || host == Stopped || host == Yielded || host == Blocked || host == Failed || host.Decide?
  }

  ghost predicate RingInv(s: Sys) {
    && 0 < s.n <= 0x8000_0000 && RingOk(s.ring, s.n)
    && s.txFree + Used(s.ring) == s.n
    && s.ring.cons <= s.next <= s.seen <= |s.ring.pkts|
    && (Between(s.host) ==> s.next == s.ring.cons)
    && s.sent == s.ring.pkts[..s.next] && s.returned == s.ring.pkts[..s.ring.clear]
  }

  /** While the host waits, kicks are on; and unless one is on its way, nothing is published
      but what the guest is about to check.  While it works, and when it leaves work, they are off. */
  ghost predicate KickInv(s: Sys) {
    && (s.host == Recheck || FoundNone(s.host) ==> s.kick)
    && (s.host == Look || s.host == Ask || LeftWork(s.host) ==> !s.kick)
    && (LeftWork(s.host) ==> s.next < |s.ring.pkts|)
    && (FoundNone(s.host) ==>
          || s.kicked
          || |s.ring.pkts| == s.next
          || (s.guest == Checking && |s.ring.pkts| == s.next + 1))
  }

  ghost predicate Waiting(s: Sys)
    requires s.ring.clear <= |s.ring.pkts|
  {
    s.confirmed && Pos(s.ring.pkts, s.ring.clear) <= s.threshold
  }

  /** While the guest waits for position `threshold`, it was raised, or is not reached, or the
      host is about to find that its batch reached it. */
  ghost predicate IntrInv(s: Sys)
    requires s.ring.clear <= s.ring.cons <= |s.ring.pkts|
  {
    && s.first <= s.ring.cons
    && (s.host.Decide? ==> Pos(s.ring.pkts, s.ring.cons) <= Pos(s.ring.pkts, s.first) + s.n)
    && (s.guest == Armed || s.confirmed ==> s.intrAt == Word(s.threshold))
    && (Waiting(s) ==>
          || s.raised
          || Pos(s.ring.pkts, s.ring.cons) <= s.threshold
          || (s.host.Decide? && Pos(s.ring.pkts, s.first) <= s.threshold))
  }

  ghost predicate SysInv(s: Sys) { RingInv(s) && KickInv(s) && IntrInv(s) }

  lemma InitInv(n: nat)
    requires 0 < n <= 0x8000_0000
    ensures SysInv(InitSys(n))
  {}

  lemma PublishKeeps(s: Sys, a: Action)
    requires SysInv(s) && Can(s, a) && a.Publish?
    ensures SysInv(Do(s, a))
  {
    var r := s.ring;
    PosAfterPublish(r.pkts, a.bufs, r.clear);
    PosAfterPublish(r.pkts, a.bufs, r.cons);
    PosAfterPublish(r.pkts, a.bufs, s.first);
    assert (r.pkts + [a.bufs])[..s.next] == r.pkts[..s.next];
    assert (r.pkts + [a.bufs])[..r.clear] == r.pkts[..r.clear];
  }

  lemma CollectKeepsRing(s: Sys, s': Sys)
    requires RingInv(s) && s.first <= s.ring.cons && Can(s, Action.Collect) && s' == Do(s, Action.Collect)
    ensures RingInv(s')
  {
    PacketEnds(s.ring.pkts, s.ring.clear);
  }

  lemma CollectKeeps(s: Sys)
    requires SysInv(s) && Can(s, Action.Collect)
    ensures SysInv(Do(s, Action.Collect))
  {
    PacketEnds(s.ring.pkts, s.ring.clear);
    CollectKeepsRing(s, Do(s, Action.Collect));
  }

  lemma StoreKeeps(s: Sys)
    requires SysInv(s) && Can(s, StoreCons)
    ensures SysInv(Do(s, StoreCons))
  {
    var s' := Do(s, StoreCons);
    StoreKeepsRing(s, s');
    StoreKeepsIntr(s, s');
  }

  lemma StoreKeepsRing(s: Sys, s': Sys)
    requires RingInv(s) && s.first <= s.ring.cons && KickInv(s) && Can(s, StoreCons) && s' == Do(s, StoreCons)
    ensures RingInv(s') && KickInv(s')
  {}

  lemma StoreKeepsIntr(s: Sys, s': Sys)
    requires RingInv(s) && IntrInv(s) && Can(s, StoreCons) && s' == Do(s, StoreCons)
    ensures IntrInv(s')
  {
    PosMonotone(s.ring.pkts, s.ring.cons, s.next);
    PosMonotone(s.ring.pkts, s.ring.clear, s.ring.cons);
  }

  /** The decision cannot miss a threshold inside the batch, across the wrap-around. */
  lemma DecideKeeps(s: Sys)
    requires SysInv(s) && Can(s, LoadIntr)
    ensures SysInv(Do(s, LoadIntr))
  {
    var from, to := Pos(s.ring.pkts, s.first), Pos(s.ring.pkts, s.ring.cons);
    PosMonotone(s.ring.pkts, s.first, s.ring.cons);
    if Waiting(s) && from <= s.threshold < to {
      PassedExact(s.threshold, from, to);
    }
  }

  lemma SendKeeps(s: Sys)
    requires SysInv(s) && Can(s, Send)
    ensures SysInv(Do(s, Send))
  {
    assert s.ring.pkts[..s.next + 1] == s.ring.pkts[..s.next] + [s.ring.pkts[s.next]];
  }

  /** The guest's other loads and stores. */
  lemma GuestKeeps(s: Sys, a: Action)
    requires SysInv(s) && Can(s, a) && (a.LoadKick? || a.Arm? || a.LoadCons?)
    ensures SysInv(Do(s, a))
  {}

  /** The host wakes up and loads the guest's index. */
  lemma BeginKeeps(s: Sys, a: Action)
    requires SysInv(s) && Can(s, a) && (a.Wake? || a.Resume? || a.LoadFirst?)
    ensures SysInv(Do(s, a))
  {}

  /** It looks for packets. */
  lemma LookKeeps(s: Sys, a: Action)
    requires SysInv(s) && Can(s, a) && (a.Compare? || a.Refuse?)
    ensures SysInv(Do(s, a))
  {}

  /** It turns kicks off, asks for them, and looks again. */
  lemma AskKeeps(s: Sys, a: Action)
    requires SysInv(s) && Can(s, a) && (a.TurnOff? || a.AskKick? || a.LoadAgain? || a.TurnOffAgain?)
    ensures SysInv(Do(s, a))
  {}

  lemma ActionKeepsInv(s: Sys, a: Action)
    requires SysInv(s) && Can(s, a)
    ensures SysInv(Do(s, a)) && Do(s, a).n == s.n
  {
    match a
    case Publish(bufs) => PublishKeeps(s, a);
    case Collect => CollectKeeps(s);
    case StoreCons => StoreKeeps(s);
    case LoadIntr => DecideKeeps(s);
    case Send => SendKeeps(s);
    case LoadKick | Arm(_) | LoadCons => GuestKeeps(s, a);
    case Wake | Resume | LoadFirst => BeginKeeps(s, a);
    case Compare | Refuse(_) => LookKeeps(s, a);
    case TurnOff | AskKick | LoadAgain | TurnOffAgain => AskKeeps(s, a);
  }

  // ----- whole runs -------------------------------------------------------------------------------

  /** The system invariant, as one sealed fact. */
  ghost predicate Good(s: Sys) { forall k: nat :: Unseal(k) ==> SysInv(s) }

  /** The state after an interleaving; `None` if some action could not be taken. */
  ghost function Run(n: nat, actions: seq<Action>): (s: Option<Sys>)
    requires 0 < n <= 0x8000_0000
    ensures s.Some? ==> Good(s.value) && s.value.n == n
  {
    if actions == [] then
      InitInv(n);
      Some(InitSys(n))
    else
      match Run(n, actions[..|actions| - 1])
      case None => None
      case Some(q) =>
        var a := actions[|actions| - 1];
        assert Unseal(0);
        if Can(q, a) then
          ActionKeepsInv(q, a);
          Some(Do(q, a))
        else None
  }

  /** No lost kick: when the host sleeps and the guest is not between publishing and checking, all
      packets are sent or a kick was raised since the host last woke, unless the host went to sleep on
      a backend that failed. */
  lemma NoLostKick(n: nat, actions: seq<Action>)
    requires 0 < n <= 0x8000_0000 && Run(n, actions).Some?
    ensures var s := Run(n, actions).value;
            Asleep(s.host) && s.guest != Checking ==> s.ring.cons == |s.ring.pkts| || s.kicked || s.host == Failed
  {
    assert Unseal(0);
    var s := Run(n, actions).value;
    assert RingInv(s) && KickInv(s);
  }

  /** Exactly then: a host asleep without a kick leaves packets behind if and only if the backend failed. */
  lemma SleepsOnWorkExactly(n: nat, actions: seq<Action>)
    requires 0 < n <= 0x8000_0000 && Run(n, actions).Some?
    requires var s := Run(n, actions).value; Asleep(s.host) && s.guest != Checking && !s.kicked
    ensures var s := Run(n, actions).value; s.ring.cons < |s.ring.pkts| <==> s.host == Failed
  {
    assert Unseal(0);
    NoLostKick(n, actions);
    var s := Run(n, actions).value;
    assert RingInv(s) && KickInv(s);
  }

  lemma DeafStep(s: Sys, a: Action, s': Sys)
    requires RingInv(s) && s.first <= s.ring.cons && KickInv(s) && s.host == Failed
    requires Can(s, a) && !a.Wake? && s' == Do(s, a)
    ensures s'.host == Failed && s'.kicked == s.kicked
  {}

  lemma DeafLast(n: nat, actions: seq<Action>)
    requires 0 < n <= 0x8000_0000 && actions != [] && Run(n, actions).Some?
    ensures Run(n, actions[..|actions| - 1]).Some?
    ensures var s := Run(n, actions[..|actions| - 1]).value;
            s.host == Failed && actions[|actions| - 1] != Wake ==>
              Run(n, actions).value.host == Failed && Run(n, actions).value.kicked == s.kicked
  {
    var s, a := Run(n, actions[..|actions| - 1]).value, actions[|actions| - 1];
    if s.host == Failed && a != Wake {
      assert Unseal(0);
      DeafStep(s, a, Run(n, actions).value);
    }
  }

  /** And then nothing the guest does wakes it: whatever is published, no kick is raised. */
  lemma {:induction false} FailedIsDeaf(n: nat, actions: seq<Action>, more: seq<Action>)
    requires 0 < n <= 0x8000_0000 && Run(n, actions).Some? && Run(n, actions).value.host == Failed
    requires Run(n, actions + more).Some? && forall k :: 0 <= k < |more| ==> !more[k].Wake?
    ensures var s, t := Run(n, actions).value, Run(n, actions + more).value;
            t.host == Failed && t.kicked == s.kicked
  {
    if more == [] {
      assert actions + more == actions;
    } else {
      var k, all := |more| - 1, actions + more;
      assert all[..|all| - 1] == actions + more[..k] && all[|all| - 1] == more[k];
      DeafLast(n, all);
      FailedIsDeaf(n, actions, more[..k]);
    }
  }

  /** No lost interrupt: when the guest was told to wait for a position and has not gone past it
      itself, and the host has decided on its last batch, a position reached has raised the interrupt. */
  lemma NoLostInterrupt(n: nat, actions: seq<Action>)
    requires 0 < n <= 0x8000_0000 && Run(n, actions).Some?
    ensures var s := Run(n, actions).value;
            s.ring.clear <= s.ring.cons <= |s.ring.pkts| &&
            (Waiting(s) && s.threshold < Pos(s.ring.pkts, s.ring.cons) && !s.host.Decide? ==> s.raised)
  {
    assert Unseal(0);
    assert IntrInv(Run(n, actions).value);
  }

  /** Both sides wait: the host without a kick on its way, the guest without an interrupt for the
      position it asked for. */
  ghost predicate BothWait(s: Sys)
    requires s.ring.clear <= |s.ring.pkts|
  {
    Asleep(s.host) && !s.kicked && s.guest == GuestIdle && Waiting(s) && !s.raised
  }

  /** The two sides can only both wait if the guest asked for more completions than it has
      published, or the host went to sleep on a backend that failed. */
  lemma NoDeadlock(n: nat, actions: seq<Action>)
    requires 0 < n <= 0x8000_0000 && Run(n, actions).Some?
    ensures var s := Run(n, actions).value;
            s.ring.clear <= s.ring.cons <= |s.ring.pkts| && 
            (BothWait(s) ==> s.host == Failed || |Flat(s.ring.pkts)| <= s.threshold)
  {
    assert Unseal(0);
    NoLostKick(n, actions);
    NoLostInterrupt(n, actions);
    PosEnd(Run(n, actions).value.ring.pkts);
  }

  // ----- the requests the driver makes ----------------------------------------------------------

  ghost predicate DriverArmAt(n: nat, actions: seq<Action>, k: nat)
    requires 0 < n <= 0x8000_0000 && k < |actions|
  {
    actions[k].Arm? ==>
      Run(n, actions[..k]).Some? && actions[k].min == HalfPending(n, Run(n, actions[..k]).value.txFree)
  }

  /** Every request for an interrupt in the run is the driver's: half of what is outstanding, and one. */
  ghost predicate DriverArms(n: nat, actions: seq<Action>)
    requires 0 < n <= 0x8000_0000
  {
    forall k :: 0 <= k < |actions| ==> DriverArmAt(n, actions, k)
  }

  /** The driver's request names a descriptor that is out, or one that is not and none before it is. */
  ghost predicate AskInv(s: Sys)
    requires s.ring.clear <= |s.ring.pkts|
  {
    s.threshold < |Flat(s.ring.pkts)| || s.threshold <= Pos(s.ring.pkts, s.ring.clear)
  }

  lemma ActionKeepsAsk(s: Sys, a: Action, s': Sys)
    requires RingInv(s) && s.first <= s.ring.cons && AskInv(s) && Can(s, a) && s' == Do(s, a)
    requires a.Arm? ==> a.min == HalfPending(s.n, s.txFree)
    ensures s'.ring.clear <= |s'.ring.pkts| && AskInv(s')
  {
    if a.Publish? {
      PosAfterPublish(s.ring.pkts, a.bufs, s.ring.clear);
    } else if a.Collect? {
      PacketEnds(s.ring.pkts, s.ring.clear);
    } else if a.Arm? {
      FlatPrefix(s.ring.pkts, s.ring.clear);
    }
  }

  lemma {:induction false} DriverAsks(n: nat, actions: seq<Action>)
    requires 0 < n <= 0x8000_0000 && Run(n, actions).Some? && DriverArms(n, actions)
    ensures var s := Run(n, actions).value; s.ring.clear <= |s.ring.pkts| && AskInv(s)
  {
    if actions != [] {
      var k := |actions| - 1;
      forall j | 0 <= j < k ensures DriverArmAt(n, actions[..k], j) {
        assert DriverArmAt(n, actions, j);
        assert actions[..k][..j] == actions[..j];
      }
      DriverAsks(n, actions[..k]);
      assert DriverArmAt(n, actions, k);
      assert Unseal(0);
      ActionKeepsAsk(Run(n, actions[..k]).value, actions[k], Run(n, actions).value);
    }
  }

  /** In every run whose requests are the driver's, both sides wait only with nothing outstanding, or
      on a backend that failed. */
  lemma DriverNeverDeadlocks(n: nat, actions: seq<Action>)
    requires 0 < n <= 0x8000_0000 && Run(n, actions).Some? && DriverArms(n, actions)
    ensures var s := Run(n, actions).value;
            && s.ring.clear <= |s.ring.pkts|
            && (BothWait(s) && s.host != Failed ==> s.ring.clear == |s.ring.pkts| && s.txFree == n)
            && (BothWait(s) && s.host == Failed ==> s.ring.clear < |s.ring.pkts| && s.txFree < n)
  {
    NoDeadlock(n, actions);
    DriverAsks(n, actions);
    var s := Run(n, actions).value;
    if BothWait(s) {
      if s.host == Failed {
        SomethingOut(s);
      } else {
        NothingOut(s);
      }
    }
  }

  lemma NothingOut(s: Sys)
    requires Good(s) && s.ring.clear <= |s.ring.pkts| && |Flat(s.ring.pkts)| <= Pos(s.ring.pkts, s.ring.clear)
    ensures s.ring.clear == |s.ring.pkts| && s.txFree == s.n
  {
    assert Unseal(0);
    PosMonotone(s.ring.pkts, s.ring.clear, |s.ring.pkts|);
    PosEnd(s.ring.pkts);
  }

  lemma SomethingOut(s: Sys)
    requires Good(s) && s.host == Failed
    ensures s.ring.clear < |s.ring.pkts| && s.txFree < s.n
  {
    assert Unseal(0);
    FlatPrefix(s.ring.pkts, s.ring.clear);
    PosMonotone(s.ring.pkts, s.ring.clear, |s.ring.pkts| - 1);
    PacketEnds(s.ring.pkts, |s.ring.pkts| - 1);
    PosEnd(s.ring.pkts);
  }

  // ----- the ring underneath -----------------------------------------------------------------------

  /** What an action is to the ring. */
  function RingStep(s: Sys, a: Action): seq<Step> {
    match a
    case Publish(bufs) => [Step.Publish(bufs)]
    case Collect => [Step.Collect]
    case StoreCons => if s.next > s.ring.cons then [Complete(s.next - s.ring.cons)] else []
    case _ => []
  }

  ghost function RingSteps(n: nat, actions: seq<Action>): seq<Step>
    requires 0 < n <= 0x8000_0000 && Run(n, actions).Some?
  {
    if actions == [] then []
    else
      var k := |actions| - 1;
      RingSteps(n, actions[..k]) + RingStep(Run(n, actions[..k]).value, actions[k])
  }

  lemma DoOnRing(s: Sys, a: Action)
    requires RingInv(s) && s.first <= s.ring.cons && Can(s, a)
    ensures RingStep(s, a) == [] ==> Do(s, a).ring == s.ring
    ensures RingStep(s, a) != [] ==>
      Enabled(s.ring, s.n, RingStep(s, a)[0]) && Do(s, a).ring == Apply(s.ring, RingStep(s, a)[0])
  {}

  /** The rings met along a run are those of a run of the ring model, whose steps are what the
      methods on the queue in memory do: what is proved about either holds of both. */
  lemma {:induction false} RunsRefineTheRing(n: nat, actions: seq<Action>)
    requires 0 < n <= 0x8000_0000 && Run(n, actions).Some?
    ensures ExecFrom(Ring([], 0, 0), n, RingSteps(n, actions)) == Some(Run(n, actions).value.ring)
  {
    if actions != [] {
      var k := |actions| - 1;
      RunsRefineTheRing(n, actions[..k]);
      var s, a := Run(n, actions[..k]).value, actions[k];
      assert Unseal(0);
      DoOnRing(s, a);
      if RingStep(s, a) == [] {
        assert RingSteps(n, actions[..k]) + [] == RingSteps(n, actions[..k]);
      } else {
        OneMoreStep(Ring([], 0, 0), n, RingSteps(n, actions[..k]), s.ring, RingStep(s, a)[0]);
      }
    }
  }

  /** Framing and order: in every state what the backend took is a prefix of what was published,
      packet by packet, and what the driver got back is a prefix of that; nothing twice,
      whatever was refused and offered again. */
  lemma SentAndReturnedInOrder(n: nat, actions: seq<Action>)
    requires 0 < n <= 0x8000_0000 && Run(n, actions).Some?
    ensures var s := Run(n, actions).value;
            s.returned <= s.sent <= s.ring.pkts && |s.returned| == s.ring.clear <= s.ring.cons <= |s.sent| == s.next
  {
    assert Unseal(0);
    var s := Run(n, actions).value;
    assert RingInv(s);
  }

  /** The driver's credit, the descriptors in use and the two guest indices as 32-bit words agree. */
  ghost predicate CreditExact(s: Sys) {
    && s.ring.clear <= |s.ring.pkts| && s.txFree == s.n - Used(s.ring) && 0 <= s.txFree <= s.n
    && s.txFree + Word(Word(|Flat(s.ring.pkts)|) - Word(Pos(s.ring.pkts, s.ring.clear))) == s.n
  }

  lemma CreditOf(s: Sys)
    requires RingInv(s)
    ensures CreditExact(s)
  {
    FlatPrefix(s.ring.pkts, s.ring.clear);
    WordsEqual(Pos(s.ring.pkts, s.ring.clear), |Flat(s.ring.pkts)|);
  }

  /** The driver's credit is the free space of the ring, so publishing never overwrites a
      descriptor that has not come back. */
  lemma CreditIsFreeSpace(n: nat, actions: seq<Action>)
    requires 0 < n <= 0x8000_0000 && Run(n, actions).Some?
    ensures CreditExact(Run(n, actions).value)
  {
    assert Unseal(0);
    CreditOf(Run(n, actions).value);
  }
}
