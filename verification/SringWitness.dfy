/** A run of a shared-ring queue in which the backend fails. */
module SringWitness {
  import opened Common
  import opened SringModel
  import opened SringProtocol

  lemma RunTo(n: nat, acts: seq<Action>, s: Sys, a: Action, s': Sys)
    requires 0 < n <= 0x8000_0000 && Run(n, acts) == Some(s) && s.ring.clear <= s.ring.cons <= |s.ring.pkts|
    requires s.next <= s.seen <= |s.ring.pkts| && s.first <= |s.ring.pkts| && Can(s, a) && s' == Do(s, a)
    ensures Run(n, acts + [a]) == Some(s')
  {
    assert (acts + [a])[..|acts|] == acts;
  }

  function Seeing(bufs: seq<Buf>): seq<Action> {
    [LoadFirst] + [TurnOff] + [Action.Publish(bufs)] + [LoadKick] + [Compare]
  }

  /** Kicks are off, one packet is out, and the host has seen it. */
  function OneSeen(n: nat, bufs: seq<Buf>): Sys
    requires 0 < |bufs| <= n
  {
    Sys(n, Ring([bufs], 0, 0), n - |bufs|, false, 0, GuestIdle, Look, 0, 1, 0, 0, [], [], false, false, false)
  }

  lemma SeeOne(n: nat, bufs: seq<Buf>)
    requires 0 < n <= 0x8000_0000 && 0 < |bufs| <= n && |bufs| <= MAX_BUFS
    ensures Run(n, Seeing(bufs)) == Some(OneSeen(n, bufs))
  {
    var s := InitSys(n);
    RunTo(n, [], s, LoadFirst, s.(host := Loaded));
    assert [] + [LoadFirst] == [LoadFirst];
    s := s.(host := Loaded);
    RunTo(n, [LoadFirst], s, TurnOff, s.(host := Look, kick := false));
    s := s.(host := Look, kick := false);
    var s' := s.(ring := Ring([bufs], 0, 0), txFree := n - |bufs|, guest := Checking);
    assert s.ring.pkts + [bufs] == [bufs];
    RunTo(n, [LoadFirst] + [TurnOff], s, Action.Publish(bufs), s');
    RunTo(n, [LoadFirst] + [TurnOff] + [Action.Publish(bufs)], s', LoadKick, s'.(guest := GuestIdle));
    s := s'.(guest := GuestIdle);
    RunTo(n, [LoadFirst] + [TurnOff] + [Action.Publish(bufs)] + [LoadKick], s, Compare, s.(seen := 1));
  }

  function Failing(bufs: seq<Buf>): seq<Action> { Seeing(bufs) + [Refuse(SendFailed)] + [StoreCons] }

  /** The backend fails on the first packet: the host sleeps on it, with kicks off. */
  lemma FailedSendSleeps(n: nat, bufs: seq<Buf>)
    requires 0 < n <= 0x8000_0000 && 0 < |bufs| <= n && |bufs| <= MAX_BUFS
    ensures Run(n, Failing(bufs)) == Some(OneSeen(n, bufs).(host := Failed))
  {
    SeeOne(n, bufs);
    var s := OneSeen(n, bufs);
    RunTo(n, Seeing(bufs), s, Refuse(SendFailed), s.(host := Finish(Refused(SendFailed))));
    s := s.(host := Finish(Refused(SendFailed)));
    RunTo(n, Seeing(bufs) + [Refuse(SendFailed)], s, StoreCons, s.(host := Failed));
  }

  function WedgingRun(n: nat, bufs: seq<Buf>): seq<Action>
    requires 0 < |bufs| <= n
  {
    Failing(bufs) + [Arm(HalfPending(n, n - |bufs|))] + [LoadCons]
  }

  lemma OneArm(n: nat, acts: seq<Action>, s: Sys)
    requires 0 < n <= 0x8000_0000 && Run(n, acts) == Some(s) && s.txFree <= n
    requires forall k :: 0 <= k < |acts| ==> !acts[k].Arm?
    ensures DriverArms(n, acts + [Arm(HalfPending(n, s.txFree))] + [LoadCons])
  {
    var all := acts + [Arm(HalfPending(n, s.txFree))] + [LoadCons];
    forall k | 0 <= k < |all| ensures DriverArmAt(n, all, k) {
      if all[k].Arm? {
        assert k == |acts| && all[..k] == acts;
      }
    }
  }

  /** The driver makes its request and is told to wait. */
  lemma ToldToWait(n: nat, bufs: seq<Buf>)
    requires 0 < n <= 0x8000_0000 && 0 < |bufs| <= n && |bufs| <= MAX_BUFS
    ensures Run(n, WedgingRun(n, bufs)).Some?
    ensures var s := OneSeen(n, bufs).(host := Failed);
            var min := HalfPending(n, n - |bufs|);
            Run(n, WedgingRun(n, bufs)).value == s.(intrAt := Word(min - 1), threshold := min - 1, confirmed := true)
  {
    FailedSendSleeps(n, bufs);
    var s, min := OneSeen(n, bufs).(host := Failed), HalfPending(n, n - |bufs|);
    var s' := s.(guest := Armed, intrAt := Word(min - 1), threshold := min - 1);
    RunTo(n, Failing(bufs), s, Arm(min), s');
    RunTo(n, Failing(bufs) + [Arm(min)], s', LoadCons, s'.(guest := GuestIdle, confirmed := true));
  }

  /** And then it waits for good: nobody is left to act on the packet it published. */
  lemma FailedSendWedges(n: nat, bufs: seq<Buf>)
    requires 0 < n <= 0x8000_0000 && 0 < |bufs| <= n && |bufs| <= MAX_BUFS
    ensures Run(n, WedgingRun(n, bufs)).Some? && DriverArms(n, WedgingRun(n, bufs))
    ensures var s := Run(n, WedgingRun(n, bufs)).value;
            s.ring.clear <= |s.ring.pkts| && BothWait(s) && s.host == Failed && s.ring.pkts == [bufs] && s.txFree < n
  {
    FailedSendSleeps(n, bufs);
    OneArm(n, Failing(bufs), OneSeen(n, bufs).(host := Failed));
    ToldToWait(n, bufs);
  }
}
