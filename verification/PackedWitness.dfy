/** Runs of a packed queue in which something goes wrong. */
module PackedWitness {
  import opened Common
  import opened PackedEvents
  import opened PackedModel
  import opened PackedProtocol
  import opened PackedDeadlock

  lemma RunNext(n: nat, actions: seq<Action>, s: Sys, a: Action)
    requires 0 < n <= 0x8000 && Run(n, actions) == Some(s) && Can(s, a)
    ensures SysInv(s) && Run(n, actions + [a]) == Some(Do(s, a))
  {
    assert Unseal(0);
    assert (actions + [a])[..|actions|] == actions;
  }

  lemma RunTo(n: nat, actions: seq<Action>, s: Sys, a: Action) returns (s': Sys)
    requires 0 < n <= 0x8000 && Run(n, actions) == Some(s) && Can(s, a)
    ensures Run(n, actions + [a]) == Some(s')
    ensures 0 < s.ring.n && Inv(s.ring) && CreditInv(s) && s' == Do(s, a)
  {
    RunNext(n, actions, s, a);
    s' := Do(s, a);
  }

  // ----- one action more ------------------------------------------------------------------------------

  lemma AfterTurnOff(n: nat, acts: seq<Action>, s: Sys)
    requires 0 < n <= 0x8000 && Run(n, acts) == Some(s) && s.host == Start
    ensures Run(n, acts + [TurnOff])
         == Some(s.(host := Look, count := 0, deviceEvent := s.deviceEvent.(flags := EVENT_FLAG_DISABLE)))
  {
    RunNext(n, acts, s, TurnOff);
  }

  lemma AfterTest(n: nat, acts: seq<Action>, s: Sys)
    requires 0 < n <= 0x8000 && Run(n, acts) == Some(s) && s.host == Look
    ensures Run(n, acts + [Test]) == Some(s.(host := if s.ring.hAvail < s.ring.gAvail then Work else Ask))
  {
    RunNext(n, acts, s, Test);
  }

  lemma AfterAskKick(n: nat, acts: seq<Action>, s: Sys)
    requires 0 < n <= 0x8000 && Run(n, acts) == Some(s) && s.host == Ask
    ensures Run(n, acts + [AskKick]) == Some(s.(host := Recheck, deviceEvent := DescEvent(s.ring.hAvail, n)))
  {
    RunNext(n, acts, s, AskKick);
  }

  lemma AfterTestAgain(n: nat, acts: seq<Action>, s: Sys)
    requires 0 < n <= 0x8000 && Run(n, acts) == Some(s) && s.host == Recheck
    ensures Run(n, acts + [TestAgain]) == Some(s.(host := if s.ring.hAvail < s.ring.gAvail then Unask else Stopped))
  {
    RunNext(n, acts, s, TestAgain);
  }

  lemma AfterWake(n: nat, acts: seq<Action>, s: Sys)
    requires 0 < n <= 0x8000 && Run(n, acts) == Some(s) && Asleep(s.host)
    ensures Run(n, acts + [Wake]) == Some(s.(host := Start, kicked := false))
  {
    RunNext(n, acts, s, Wake);
  }

  lemma AfterFail(n: nat, acts: seq<Action>, s: Sys)
    requires 0 < n <= 0x8000 && Run(n, acts) == Some(s) && s.host == Work
    ensures Run(n, acts + [Fail]) == Some(s.(host := Failed))
  {
    RunNext(n, acts, s, Fail);
  }

  lemma PublishDoes(s: Sys, buf: Buf, s': Sys)
    requires 0 < s.ring.n && Inv(s.ring) && CreditInv(s) && Can(s, Action.Publish(buf))
    requires s' == Do(s, Action.Publish(buf))
    ensures s' == s.(ring := Append(s.ring, buf), txFree := s.txFree - 1, guest := Checking)
  {}

  lemma AfterPublish(n: nat, acts: seq<Action>, s: Sys, buf: Buf) returns (s': Sys)
    requires 0 < n <= 0x8000 && Run(n, acts) == Some(s) && s.guest == GuestIdle && !s.polling && s.txFree >= 1
    ensures Run(n, acts + [Action.Publish(buf)]) == Some(s')
    ensures s' == s.(ring := Append(s.ring, buf), txFree := s.txFree - 1, guest := Checking)
  {
    s' := RunTo(n, acts, s, Action.Publish(buf));
    PublishDoes(s, buf, s');
  }

  lemma AfterReadEvent(n: nat, acts: seq<Action>, s: Sys) returns (s': Sys)
    requires 0 < n <= 0x8000 && Run(n, acts) == Some(s) && s.guest == Checking
    ensures Run(n, acts + [ReadEvent]) == Some(s') && s' == s.(guest := GuestIdle, kicked := s'.kicked)
    ensures s.deviceEvent.flags == EVENT_FLAG_DISABLE ==> s'.kicked == s.kicked
  {
    RunNext(n, acts, s, ReadEvent);
    s' := Do(s, ReadEvent);
  }

  lemma RefuseDoes(s: Sys, s': Sys)
    requires 0 < s.ring.n && Inv(s.ring) && CreditInv(s) && Can(s, Take(Dropped)) && s.ring.hUsed == s.ring.hAvail
    requires s' == Do(s, Take(Dropped))
    ensures s' == s.(ring := Lose(s.ring), host := Look, count := s.count + 1)
  {}

  lemma AfterRefuse(n: nat, acts: seq<Action>, s: Sys) returns (s': Sys)
    requires 0 < n <= 0x8000 && Run(n, acts) == Some(s) && s.host == Work && s.count < TX_BUDGET
    requires s.ring.hUsed == s.ring.hAvail < s.ring.gAvail
    ensures Run(n, acts + [Take(Dropped)]) == Some(s')
    ensures s' == s.(ring := Lose(s.ring), host := Look, count := s.count + 1)
  {
    s' := RunTo(n, acts, s, Take(Dropped));
    RefuseDoes(s, s');
  }

  lemma EnqueueDoes(s: Sys, s': Sys)
    requires 0 < s.ring.n && Inv(s.ring) && CreditInv(s) && Can(s, Take(Enqueued)) && s' == Do(s, Take(Enqueued))
    ensures s' == s.(ring := Enqueue(s.ring), host := Look, count := s.count + 1)
  {}

  lemma AfterEnqueue(n: nat, acts: seq<Action>, s: Sys) returns (s': Sys)
    requires 0 < n <= 0x8000 && Run(n, acts) == Some(s) && s.host == Work && s.count < TX_BUDGET
    requires s.ring.hAvail < s.ring.gAvail
    ensures Run(n, acts + [Take(Enqueued)]) == Some(s')
    ensures s' == s.(ring := Enqueue(s.ring), host := Look, count := s.count + 1)
  {
    s' := RunTo(n, acts, s, Take(Enqueued));
    EnqueueDoes(s, s');
  }

  lemma AfterRelease(n: nat, acts: seq<Action>, s: Sys, b: nat) returns (s': Sys)
    requires 0 < n <= 0x8000 && Run(n, acts) == Some(s) && s.ring.held == {b}
    ensures Run(n, acts + [Action.Release(b)]) == Some(s')
    ensures s' == s.(ring := s'.ring, pendingUsed := s.pendingUsed + 1)
    ensures s'.ring == s.ring.(at := s'.ring.at, pos := s'.ring.pos, hUsed := s.ring.hUsed + 1, held := {})
  {
    RunNext(n, acts, s, Action.Release(b));
    s' := Do(s, Action.Release(b));
    assert {b} - {b} == {};
  }

  lemma CollectDoes(s: Sys, s': Sys)
    requires 0 < s.ring.n && Inv(s.ring) && CreditInv(s) && Can(s, Action.Collect) && s' == Do(s, Action.Collect)
    ensures s' == s.(ring := s.ring.(gUsed := s.ring.gUsed + 1), txFree := s.txFree + 1)
  {}

  lemma AfterCollect(n: nat, acts: seq<Action>, s: Sys) returns (s': Sys)
    requires 0 < n <= 0x8000 && Run(n, acts) == Some(s) && s.guest == GuestIdle && s.ring.gUsed < s.ring.hUsed
    ensures Run(n, acts + [Action.Collect]) == Some(s')
    ensures s' == s.(ring := s.ring.(gUsed := s.ring.gUsed + 1), txFree := s.txFree + 1)
  {
    s' := RunTo(n, acts, s, Action.Collect);
    CollectDoes(s, s');
  }

  /** Ask for the next completion, and look. */
  lemma AfterArm(n: nat, acts: seq<Action>, s: Sys) returns (s': Sys)
    requires 0 < n <= 0x8000 && Run(n, acts) == Some(s) && s.guest == GuestIdle && !s.polling
    requires s.ring.gUsed == s.ring.hUsed
    ensures Run(n, acts + [Arm(1)]).Some? && Run(n, acts + [Arm(1)] + [LookAgain]) == Some(s')
    ensures s'.confirmed && s'.driverPos == s.ring.gUsed && !s'.raised
    ensures s' == s.(driverPos := s'.driverPos, driverEvent := s'.driverEvent, raised := false, missed := false,
                     confirmed := true, askedOut := s'.askedOut, askedEnd := s'.askedEnd)
  {
    RunNext(n, acts, s, Arm(1));
    RunNext(n, acts + [Arm(1)], Do(s, Arm(1)), LookAgain);
    s' := Do(Do(s, Arm(1)), LookAgain);
  }

  // ----- one buffer is published, and the host takes it or not ---------------------------------------

  function Seeing(buf: Buf): seq<Action> { [TurnOff] + [Action.Publish(buf)] + [ReadEvent] + [Test] }

  /** Kicks are off, one buffer is out, and the host has seen it. */
  ghost predicate OneSeen(s: Sys, n: nat, buf: Buf) {
    && s.ring == Append(InitRing(n), buf) && s.txFree == n - 1 && s.host == Work && s.count == 0
    && s.guest == GuestIdle && !s.kicked && s.pendingUsed == 0 && !s.polling && !s.pollDue && !s.slipped
  }

  lemma SeeOne(n: nat, buf: Buf) returns (s: Sys)
    requires 0 < n <= 0x8000
    ensures Run(n, Seeing(buf)) == Some(s) && OneSeen(s, n, buf)
  {
    s := InitSys(n);
    AfterTurnOff(n, [], s);
    assert [] + [TurnOff] == [TurnOff];
    s := s.(host := Look, count := 0, deviceEvent := s.deviceEvent.(flags := EVENT_FLAG_DISABLE));
    s := AfterPublish(n, [TurnOff], s, buf);
    s := AfterReadEvent(n, [TurnOff] + [Action.Publish(buf)], s);
    AfterTest(n, [TurnOff] + [Action.Publish(buf)] + [ReadEvent], s);
    s := s.(host := Work);
  }

  /** The backend fails on the first packet: the host sleeps on it, and nothing the guest does by itself
      will wake it. */
  lemma FailedSendSleeps(n: nat, buf: Buf)
    requires 0 < n <= 0x8000
    ensures var run := Run(n, Seeing(buf) + [Fail]);
            && run.Some? && run.value.host == Failed && !run.value.kicked && run.value.guest == GuestIdle
            && run.value.ring.hAvail < run.value.ring.gAvail
  {
    var s := SeeOne(n, buf);
    AfterFail(n, Seeing(buf), s);
  }

  function Refusing(buf: Buf): seq<Action> { Seeing(buf) + [Take(Dropped)] + [Test] + [AskKick] + [TestAgain] }

  /** The scheduler refuses the first packet, and the host goes to sleep. */
  lemma RefuseOne(n: nat, buf: Buf) returns (s: Sys)
    requires 0 < n <= 0x8000
    ensures Run(n, Refusing(buf)) == Some(s) && s.ring == Lose(Append(InitRing(n), buf)) && s.txFree == n - 1
    ensures s.host == Stopped && s.guest == GuestIdle && !s.kicked && s.pendingUsed == 0
    ensures !s.polling && !s.pollDue && !s.slipped
  {
    s := SeeOne(n, buf);
    s := AfterRefuse(n, Seeing(buf), s);
    AfterTest(n, Seeing(buf) + [Take(Dropped)], s);
    s := s.(host := Ask);
    AfterAskKick(n, Seeing(buf) + [Take(Dropped)] + [Test], s);
    s := s.(host := Recheck, deviceEvent := DescEvent(s.ring.hAvail, n));
    AfterTestAgain(n, Seeing(buf) + [Take(Dropped)] + [Test] + [AskKick], s);
    s := s.(host := Stopped);
  }

  function WedgingRun(buf: Buf): seq<Action> { Refusing(buf) + [Arm(1)] + [LookAgain] }

  lemma OneArm(n: nat, acts: seq<Action>, s: Sys)
    requires 0 < n <= 0x8000 && Run(n, acts) == Some(s) && s.txFree == n - 1
    requires forall k :: 0 <= k < |acts| ==> !acts[k].Arm?
    ensures DriverArms(n, acts + [Arm(1)] + [LookAgain])
  {
    var all := acts + [Arm(1)] + [LookAgain];
    forall k | 0 <= k < |all| ensures DriverArmAt(n, all, k) {
      if all[k].Arm? {
        assert k == |acts| && all[..k] == acts;
      }
    }
  }

  /** A refused buffer wedges the queue: the host sleeps, the driver makes its request and is told to
      wait, one buffer is outstanding, and nobody is left to act. */
  lemma LostBufferWedges(n: nat, buf: Buf)
    requires 0 < n <= 0x8000
    ensures Run(n, WedgingRun(buf)).Some? && DriverArms(n, WedgingRun(buf))
    ensures var s := Run(n, WedgingRun(buf)).value;
            BothWait(s) && s.host == Stopped && s.confirmed && s.ring.gAvail == s.ring.gUsed + 1
  {
    var s := RefuseOne(n, buf);
    OneArm(n, Refusing(buf), s);
    s := AfterArm(n, Refusing(buf), s);
  }

  // ----- a decision on 65536 completions ------------------------------------------------------------

  /** A ring of one slot after `m` buffers, none of them decided on. */
  ghost predicate Idle(s: Sys, m: nat) {
    && s.ring.n == 1 && s.ring.gUsed == s.ring.hUsed == s.ring.hAvail == s.ring.gAvail == m && s.ring.held == {}
    && s.txFree == 1 && s.guest == GuestIdle && s.host == Start && s.pendingUsed == m && !s.polling
  }

  /** One more is published. */
  ghost predicate Filled(s: Sys, m: nat) {
    && s.ring.n == 1 && s.ring.gUsed == s.ring.hUsed == s.ring.hAvail == m && s.ring.gAvail == m + 1
    && s.ring.held == {} && s.txFree == 0 && s.guest == GuestIdle && s.host == Start && s.pendingUsed == m && !s.polling
  }

  /** And completed. */
  ghost predicate Emptied(s: Sys, m: nat) {
    && s.ring.n == 1 && s.ring.gUsed == m && s.ring.hUsed == s.ring.hAvail == s.ring.gAvail == m + 1
    && s.ring.held == {} && s.txFree == 0 && s.guest == GuestIdle && s.host == Look && s.pendingUsed == m + 1
    && !s.polling
  }

  lemma FillOne(acts: seq<Action>, s: Sys, m: nat, buf: Buf) returns (acts': seq<Action>, s': Sys)
    requires Run(1, acts) == Some(s) && Idle(s, m)
    ensures Run(1, acts') == Some(s') && Filled(s', m)
  {
    s' := AfterPublish(1, acts, s, buf);
    acts' := acts + [Action.Publish(buf)];
    s' := AfterReadEvent(1, acts', s');
    acts' := acts' + [ReadEvent];
  }

  lemma EmptyOne(acts: seq<Action>, s: Sys, m: nat) returns (acts': seq<Action>, s': Sys)
    requires Run(1, acts) == Some(s) && Filled(s, m)
    ensures Run(1, acts') == Some(s') && Emptied(s', m)
    ensures s'.confirmed == s.confirmed && s'.driverPos == s.driverPos && s'.raised == s.raised
  {
    AfterTurnOff(1, acts, s);
    acts' := acts + [TurnOff];
    s' := s.(host := Look, count := 0, deviceEvent := s.deviceEvent.(flags := EVENT_FLAG_DISABLE));
    AfterTest(1, acts', s');
    acts', s' := acts' + [Test], s'.(host := Work);
    s' := AfterEnqueue(1, acts', s');
    acts' := acts' + [Take(Enqueued)];
    assert s'.ring.held == {m};
    s' := AfterRelease(1, acts', s', m);
    acts' := acts' + [Action.Release(m)];
  }

  lemma SleepOne(acts: seq<Action>, s: Sys) returns (acts': seq<Action>, s': Sys)
    requires Run(1, acts) == Some(s) && s.host == Look && s.ring.hAvail == s.ring.gAvail
    ensures Run(1, acts') == Some(s') && s' == s.(host := Stopped, deviceEvent := s'.deviceEvent)
  {
    AfterTest(1, acts, s);
    acts', s' := acts + [Test], s.(host := Ask);
    AfterAskKick(1, acts', s');
    acts', s' := acts' + [AskKick], s'.(host := Recheck, deviceEvent := DescEvent(s'.ring.hAvail, 1));
    AfterTestAgain(1, acts', s');
    acts', s' := acts' + [TestAgain], s'.(host := Stopped);
  }

  lemma CollectOne(acts: seq<Action>, s: Sys, m: nat) returns (acts': seq<Action>, s': Sys)
    requires Run(1, acts) == Some(s) && Emptied(s, m)
    ensures Run(1, acts') == Some(s') && Idle(s', m + 1)
  {
    s' := AfterCollect(1, acts, s);
    acts', s' := SleepOne(acts + [Action.Collect], s');
    AfterWake(1, acts', s');
    acts', s' := acts' + [Wake], s'.(host := Start, kicked := false);
  }

  lemma {:induction false} Undecided(m: nat, buf: Buf) returns (acts: seq<Action>, s: Sys)
    ensures Run(1, acts) == Some(s) && Idle(s, m)
  {
    if m == 0 {
      acts, s := [], InitSys(1);
    } else {
      acts, s := Undecided(m - 1, buf);
      acts, s := FillOne(acts, s, m - 1, buf);
      acts, s := EmptyOne(acts, s, m - 1);
      acts, s := CollectOne(acts, s, m - 1);
    }
  }

  /** A run that loses an interrupt: after 65535 completions without a decision the guest asks for the
      next one and is told to wait; the decision on all 65536 passes over it. */
  lemma LongBatchRun(buf: Buf) returns (acts: seq<Action>)
    ensures Run(1, acts).Some?
    ensures var s := Run(1, acts).value;
            && s.confirmed && s.guest == GuestIdle && s.ring.gUsed <= s.driverPos < s.ring.hUsed
            && s.pendingUsed == 0 && s.missed && !s.raised
  {
    var m := 0xffff;
    var s;
    acts, s := Undecided(m, buf);
    acts, s := FillOne(acts, s, m, buf);
    s := AfterArm(1, acts, s);
    acts := acts + [Arm(1)] + [LookAgain];
    acts, s := EmptyOne(acts, s, m);
    RunNext(1, acts, s, Notify);
    LongBatchMisses(s);
    acts := acts + [Notify];
  }
}
