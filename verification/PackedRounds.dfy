/** The backend with a packet scheduler works in rounds: it takes up to a budget of buffers, gives back
    what the scheduler has sent, and decides on an interrupt.  Decisions are then too short to miss one. */
module PackedRounds {
  import opened Common
  import opened PackedModel
  import opened PackedProtocol

  ghost predicate EarlyAt(n: nat, actions: seq<Action>, k: nat)
    requires 0 < n <= 0x8000 && k < |actions|
  {
    actions[k].Take? || actions[k].Process? ==>
      Run(n, actions[..k]).Some? && Run(n, actions[..k]).value.pendingUsed < TX_BUDGET
  }

  /** Whenever the host takes a buffer, fewer completions than the budget are undecided.  So it is in
      rounds: each begins with none and takes before it gives back, and taking a buffer completes at most one. */
  ghost predicate InRounds(n: nat, actions: seq<Action>)
    requires 0 < n <= 0x8000
  {
    forall k :: 0 <= k < |actions| ==> EarlyAt(n, actions, k)
  }

  lemma RoundsBefore(n: nat, actions: seq<Action>, m: nat)
    requires 0 < n <= 0x8000 && m <= |actions| && InRounds(n, actions)
    ensures InRounds(n, actions[..m])
  {
    forall k | 0 <= k < m ensures EarlyAt(n, actions[..m], k) {
      assert EarlyAt(n, actions, k);
      assert actions[..m][..k] == actions[..k];
    }
  }

  /** Undecided completions and what the host still has to complete, together. */
  ghost predicate RoundBound(s: Sys) { s.pendingUsed + s.ring.hAvail - s.ring.hUsed <= TX_BUDGET + s.ring.n }

  lemma StepCounters(r: Ring, step: Step, q: Ring)
    requires Inv(r) && Enabled(r, step) && q == Apply(r, step)
    ensures q.n == r.n && r.hUsed <= q.hUsed <= r.hUsed + 1 && q.hAvail <= q.hUsed + q.n
    ensures !(step.Acquire? || step.Drain?) ==> q.hUsed - r.hUsed + q.hAvail - q.hUsed <= r.hAvail - r.hUsed
  {
    StepKeepsInv(r, step);
  }

  /** Every completion is remembered until the next decision. */
  lemma Remembers(s: Sys, a: Action, s': Sys)
    requires 0 < s.ring.n && Inv(s.ring) && CreditInv(s) && Can(s, a) && s' == Do(s, a)
    ensures s'.pendingUsed <= s.pendingUsed + if s'.ring.hUsed > s.ring.hUsed then s'.ring.hUsed - s.ring.hUsed else 0
  {
    match a
    case Take(v) => assert s' == HostStep(s, Acquire(v), Look, s.count + 1);
    case Process => assert s' == HostStep(s, Drain, Look, s.count + 1);
    case Release(b) => assert s' == HostStep(s, PackedModel.Release(b), s.host, s.count);
    case Notify =>
    case _ =>
  }

  lemma RoundMoves(s: Sys, step: Step, s': Sys)
    requires Inv(s.ring) && Enabled(s.ring, step) && s'.ring == Apply(s.ring, step) && RoundBound(s)
    requires s'.pendingUsed <= s.pendingUsed + if s'.ring.hUsed > s.ring.hUsed then s'.ring.hUsed - s.ring.hUsed else 0
    requires step.Acquire? || step.Drain? ==> s.pendingUsed < TX_BUDGET
    ensures RoundBound(s')
  {
    StepCounters(s.ring, step, s'.ring);
  }

  lemma RoundStep(s: Sys, a: Action, s': Sys)
    requires SysInv(s) && RoundBound(s) && Can(s, a) && s' == Do(s, a)
    requires a.Take? || a.Process? ==> s.pendingUsed < TX_BUDGET
    ensures RoundBound(s')
  {
    Remembers(s, a, s');
    DoOnRing(s, a);
    if RingStep(a) != [] {
      RoundMoves(s, RingStep(a)[0], s');
    }
  }

  /** Over every run in rounds, no more is undecided than a ring and a budget of completions. */
  lemma {:induction false} RoundsAreShort(n: nat, actions: seq<Action>)
    requires 0 < n <= 0x8000 && Run(n, actions).Some? && InRounds(n, actions)
    ensures RoundBound(Run(n, actions).value) && Run(n, actions).value.pendingUsed <= TX_BUDGET + n
  {
    assert Unseal(0);
    if actions != [] {
      var k := |actions| - 1;
      RoundsBefore(n, actions, k);
      RunLast(n, actions);
      RoundsAreShort(n, actions[..k]);
      assert EarlyAt(n, actions, k);
      RoundStep(Run(n, actions[..k]).value, actions[k], Run(n, actions).value);
    }
  }

  lemma PrefixRuns(n: nat, actions: seq<Action>, m: nat)
    requires 0 < n <= 0x8000 && Run(n, actions).Some? && m <= |actions|
    ensures Run(n, actions[..m]).Some?
    decreases |actions|
  {
    if m == |actions| {
      assert actions[..m] == actions;
    } else {
      RunLast(n, actions);
      PrefixRuns(n, actions[..|actions| - 1], m);
      assert actions[..|actions| - 1][..m] == actions[..m];
    }
  }

  /** So every decision is short, and no interrupt the guest waits for is missed. */
  lemma RoundsMissNothing(n: nat, actions: seq<Action>)
    requires 0 < n <= 0x8000 && Run(n, actions).Some? && InRounds(n, actions)
    ensures ShortDecisions(n, actions)
    ensures var s := Run(n, actions).value;
            s.confirmed && s.ring.gUsed <= s.driverPos < s.ring.hUsed && s.pendingUsed == 0 ==> s.raised
  {
    forall k | 0 <= k < |actions| && actions[k].Notify? ensures ShortDecisionAt(n, actions, k) {
      PrefixRuns(n, actions, k);
      RoundsBefore(n, actions, k);
      RoundsAreShort(n, actions[..k]);
    }
    NoLostInterrupt(n, actions);
  }
}
