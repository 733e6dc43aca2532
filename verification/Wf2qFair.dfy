/** How much service WF2Q+ gives a flow, against virtual time.

    Over any stretch in which a flow is backlogged, its start time moves by exactly the bytes
    it is sent, over its weight; and its start time is never more than one longest packet ahead
    of virtual time.  Together they bound the service a flow can get.
 */
module Wf2qFair {
  import opened Common
  import opened Wf2qModel

  // ----- the start time counts the bytes sent -------------------------------------------------

  /** The bytes of flow `i` sent by one event. */
  function SentBytes(e: Event, i: nat): nat { if e.Left? && e.flow == i then e.pkt.len else 0 }

  function Bytes(es: seq<Event>, i: nat, k: nat): nat
    requires k <= |es|
  {
    if k == 0 then 0 else Bytes(es, i, k - 1) + SentBytes(es[k - 1], i)
  }

  lemma DrainKeepsFlow(t: St, w: seq<nat>, t1: St, i: nat)
    requires Loose(t, w) && DrainsOne(t, w, t1) && Backlogged(t, i)
    ensures Loose(t1, w) && Backlogged(t1, i) && t1.flows[i] == t.flows[i] && t1.v == t.v
  {
    DrainKeepsLoose(t, w, t1);
  }

  lemma ServeStamps(t: St, w: seq<nat>, j: nat, v: int, v': int, t': St, p: Pkt, i: nat)
    requires Loose(t, w) && ServesAt(t, w, j, v, v', t') && Backlogged(t, i) && p == t.flows[j].q[0]
    ensures i < |w| == |t'.flows| && w[i] > 0
    ensures t'.flows[i].s == t.flows[i].s + SentBytes(Left(j, p, v), i) * InvW(w[i])
  {
    BackloggedAreScheduled(t, w, i);
    assert FlowOk(t.flows[i], t.v, w[i]);
    var u := Settled(t, v);
    assert u.flows[i] == PromotedAt(t.flows[i], v);
    assert Serve(u, w, j).flows[i] == if i == j then Served(u.flows[i], Serve(u, w, j).v, w[i]) else u.flows[i];
  }

  lemma LeftStamps(t: St, w: seq<nat>, j: nat, p: Pkt, v: int, t': St, i: nat)
    requires Loose(t, w) && Serves(t, w, j, v, t') && j < |t.flows| && t.flows[j].q != [] && p == t.flows[j].q[0]
             && Backlogged(t, i)
    ensures i < |w| == |t'.flows| && w[i] > 0
    ensures t'.flows[i].s == t.flows[i].s + SentBytes(Left(j, p, v), i) * InvW(w[i])
  {
    var t1, v' :| DrainsOne(t, w, t1) && ServesAt(t1, w, j, v, v', t');
    DrainKeepsFlow(t, w, t1, i);
    DrainKeepsFlow(t, w, t1, j);
    ServeStamps(t1, w, j, v, v', t', p, i);
  }

  /** A backlogged flow's start time moves only when it is sent a packet, by that packet over its weight. */
  lemma StampStep(t: St, w: seq<nat>, e: Event, t': St, i: nat)
    requires Inv(t, w) && Next(t, w, e, t') && Backlogged(t, i) && !e.Nothing?
    ensures i < |w| == |t'.flows| && w[i] > 0
    ensures t'.flows[i].s == t.flows[i].s + SentBytes(e, i) * InvW(w[i])
  {
    assert FlowOk(t.flows[i], t.v, w[i]);
    if e.Left? {
      LeftStamps(t, w, e.flow, e.pkt, e.v, t', i);
    }
  }

  /** Flow `i` has packets throughout. */
  ghost predicate Busy(ts: seq<St>, i: nat) { forall k :: 0 <= k < |ts| ==> Backlogged(ts[k], i) }

  lemma BusyMeansSomething(t: St, w: seq<nat>, e: Event, t': St, i: nat)
    requires Next(t, w, e, t') && Backlogged(t, i)
    ensures !e.Nothing?
  {}

  /** The time at rate `inv` of the bytes sent. */
  function Worked(es: seq<Event>, i: nat, inv: nat, k: nat): nat
    requires k <= |es|
  {
    if k == 0 then 0 else Worked(es, i, inv, k - 1) + SentBytes(es[k - 1], i) * inv
  }

  lemma {:induction false} WorkedIsBytes(es: seq<Event>, i: nat, inv: nat, k: nat)
    requires k <= |es|
    ensures Worked(es, i, inv, k) == Bytes(es, i, k) * inv
  {
    if k > 0 {
      WorkedIsBytes(es, i, inv, k - 1);
      assert (Bytes(es, i, k - 1) + SentBytes(es[k - 1], i)) * inv
          == Bytes(es, i, k - 1) * inv + SentBytes(es[k - 1], i) * inv;
    }
  }

  lemma LedgerStart(ts: seq<St>, w: seq<nat>, es: seq<Event>, i: nat)
    requires IsRun(ts, w, es) && Busy(ts, i)
    ensures i < |w| == |ts[0].flows| && w[i] > 0
  {
    assert Backlogged(ts[0], i) && FlowOk(ts[0].flows[i], ts[0].v, w[i]);
  }

  lemma LedgerStep(ts: seq<St>, w: seq<nat>, es: seq<Event>, i: nat, k: nat)
    requires IsRun(ts, w, es) && Busy(ts, i) && k < |es|
    ensures i < |w| == |ts[k].flows| == |ts[k + 1].flows| && w[i] > 0
    ensures ts[k + 1].flows[i].s == ts[k].flows[i].s + SentBytes(es[k], i) * InvW(w[i])
  {
    RunKeepsInv(ts, w, es, k);
    assert StepAt(ts, w, es, k) && Backlogged(ts[k], i);
    BusyMeansSomething(ts[k], w, es[k], ts[k + 1], i);
    StampStep(ts[k], w, es[k], ts[k + 1], i);
  }

  lemma {:induction false} StampWork(ts: seq<St>, w: seq<nat>, es: seq<Event>, i: nat, k: nat)
    requires IsRun(ts, w, es) && k <= |es| && Busy(ts, i)
    ensures i < |w| == |ts[0].flows| == |ts[k].flows| && w[i] > 0
    ensures ts[k].flows[i].s == ts[0].flows[i].s + Worked(es, i, InvW(w[i]), k)
  {
    LedgerStart(ts, w, es, i);
    if k > 0 {
      StampWork(ts, w, es, i, k - 1);
      LedgerStep(ts, w, es, i, k - 1);
    }
  }

  /** Over every run, for a flow that stays backlogged: its start time is what it was plus the
      bytes sent over its weight. */
  lemma StampLedger(ts: seq<St>, w: seq<nat>, es: seq<Event>, i: nat, k: nat)
    requires IsRun(ts, w, es) && k <= |es| && Busy(ts, i)
    ensures i < |w| == |ts[0].flows| == |ts[k].flows| && w[i] > 0
    ensures ts[k].flows[i].s == ts[0].flows[i].s + Bytes(es, i, k) * InvW(w[i])
  {
    StampWork(ts, w, es, i, k);
    WorkedIsBytes(es, i, InvW(w[i]), k);
  }

  // ----- no flow is far ahead of virtual time ---------------------------------------------------

  /** At most the longest packet's time ahead, and no longer packet queued. */
  ghost predicate NotAhead(x: Flow, v: int, w: nat, maxLen: nat) {
    && w > 0
    && (x.place != Out ==> x.s <= v + maxLen * InvW(w))
    && (forall k :: 0 <= k < |x.q| ==> x.q[k].len <= maxLen)
  }

  ghost predicate NoneAhead(t: St, w: seq<nat>, maxLen: nat) {
    |t.flows| == |w| && forall i :: 0 <= i < |w| ==> NotAhead(t.flows[i], t.v, w[i], maxLen)
  }

  lemma LaterNotAhead(x: Flow, v: int, v': int, w: nat, maxLen: nat)
    requires NotAhead(x, v, w, maxLen) && v <= v'
    ensures NotAhead(x, v', w, maxLen)
  {}

  lemma PutNotAhead(t: St, w: seq<nat>, maxLen: nat, t': St, i: nat)
    requires NoneAhead(t, w, maxLen) && i < |w| == |t'.flows| && t.v <= t'.v && t'.flows == t.flows[i := t'.flows[i]]
    requires NotAhead(t'.flows[i], t'.v, w[i], maxLen)
    ensures NoneAhead(t', w, maxLen)
  {
    forall j | 0 <= j < |w| ensures NotAhead(t'.flows[j], t'.v, w[j], maxLen) {
      if j != i {
        LaterNotAhead(t.flows[j], t.v, t'.v, w[j], maxLen);
      }
    }
  }

  lemma SettledNotAhead(t: St, w: seq<nat>, maxLen: nat, v: int)
    requires NoneAhead(t, w, maxLen) && t.v <= v
    ensures NoneAhead(Settled(t, v), w, maxLen)
  {
    forall j | 0 <= j < |w| ensures NotAhead(Settled(t, v).flows[j], v, w[j], maxLen) {
      LaterNotAhead(t.flows[j], t.v, v, w[j], maxLen);
    }
  }

  lemma ActivateNotAhead(t: St, w: seq<nat>, maxLen: nat, i: nat, p: Pkt)
    requires Inv(t, w) && NoneAhead(t, w, maxLen) && i < |w| && t.flows[i].q == [] && p.len <= maxLen
    ensures NoneAhead(Activate(t, w, i, p, Alone(t)), w, maxLen)
  {
    var u, x := Activate(t, w, i, p, Alone(t)), t.flows[i];
    assert FlowOk(x, t.v, w[i]) && NotAhead(x, t.v, w[i], maxLen);
    NonNegative(maxLen, InvW(w[i]));
    PutNotAhead(t, w, maxLen, u, i);
  }

  lemma EnqueueNotAhead(t: St, w: seq<nat>, maxLen: nat, i: nat, p: Pkt, dropped: bool, t': St)
    requires Inv(t, w) && NoneAhead(t, w, maxLen) && Enqueues(t, w, i, p, dropped, t') && p.len <= maxLen
    ensures NoneAhead(t', w, maxLen)
  {
    if !dropped && t.flows[i].q == [] {
      ActivateNotAhead(t, w, maxLen, i, p);
    } else if !dropped {
      assert NotAhead(t.flows[i], t.v, w[i], maxLen);
      PutNotAhead(t, w, maxLen, t', i);
    }
  }

  lemma DrainNotAhead(t: St, w: seq<nat>, maxLen: nat, t1: St)
    requires NoneAhead(t, w, maxLen) && DrainsOne(t, w, t1)
    ensures NoneAhead(t1, w, maxLen)
  {
    if t1 != t {
      var i: nat :| i < |t.flows| && t1 == Forget(t, w, i);
      ForgetNotAhead(t, w, maxLen, i);
    }
  }

  lemma ForgetNotAhead(t: St, w: seq<nat>, maxLen: nat, i: nat)
    requires NoneAhead(t, w, maxLen) && i < |t.flows|
    ensures NoneAhead(Forget(t, w, i), w, maxLen)
  {
    assert NotAhead(t.flows[i], t.v, w[i], maxLen);
    PutNotAhead(t, w, maxLen, Forget(t, w, i), i);
  }

  /** A served flow had started, so its next start time is at most one packet ahead. */
  lemma ServeNotAhead(t: St, w: seq<nat>, maxLen: nat, i: nat)
    requires Loose(t, w) && NoneAhead(t, w, maxLen) && i < |w| && t.flows[i].place == Sch && w[i] > 0
             && t.flows[i].q != []
    ensures t.v <= Serve(t, w, i).v && NoneAhead(Serve(t, w, i), w, maxLen)
  {
    var x, u := t.flows[i], Serve(t, w, i);
    assert FlowOk(x, t.v, w[i]) && NotAhead(x, t.v, w[i], maxLen);
    NonNegative(x.q[0].len, t.invWsum);
    Monotone(x.q[0].len, maxLen, InvW(w[i]));
    PutNotAhead(t, w, maxLen, u, i);
  }

  lemma ServesNotAhead(t: St, w: seq<nat>, maxLen: nat, i: nat, v: int, v': int, t': St)
    requires Loose(t, w) && NoneAhead(t, w, maxLen) && ServesAt(t, w, i, v, v', t')
    ensures NoneAhead(t', w, maxLen)
  {
    SettledTight(t, w, v);
    SettledLoose(t, w, v);
    SettledNotAhead(t, w, maxLen, v);
    var u := Settled(t, v);
    ServeKeeps(u, w, i);
    ServeNotAhead(u, w, maxLen, i);
    SettledTight(Serve(u, w, i), w, v');
    SettledNotAhead(Serve(u, w, i), w, maxLen, v');
  }

  lemma ResetNotAhead(t: St, w: seq<nat>, maxLen: nat, t': St)
    requires Inv(t, w) && NoneAhead(t, w, maxLen) && Alone(t) && Resets(t, t')
    ensures NoneAhead(t', w, maxLen)
  {
    forall i | 0 <= i < |w| ensures NotAhead(t'.flows[i], t'.v, w[i], maxLen) {
      assert FlowOk(t.flows[i], t.v, w[i]) && NotAhead(t.flows[i], t.v, w[i], maxLen) && !Backlogged(t, i);
    }
  }

  lemma NextNotAhead(t: St, w: seq<nat>, maxLen: nat, e: Event, t': St)
    requires Inv(t, w) && NoneAhead(t, w, maxLen) && Next(t, w, e, t') && (e.Arrived? ==> e.pkt.len <= maxLen)
    ensures NoneAhead(t', w, maxLen)
  {
    match e
    case Arrived(i, p, dropped) => EnqueueNotAhead(t, w, maxLen, i, p, dropped, t');
    case Left(i, p, v) =>
      var t1, v' :| DrainsOne(t, w, t1) && ServesAt(t1, w, i, v, v', t');
      DrainKeepsLoose(t, w, t1);
      DrainNotAhead(t, w, maxLen, t1);
      ServesNotAhead(t1, w, maxLen, i, v, v', t');
    case Nothing => ResetNotAhead(t, w, maxLen, t');
  }

  ghost predicate ShortArrivals(es: seq<Event>, maxLen: nat) {
    forall k :: 0 <= k < |es| && es[k].Arrived? ==> es[k].pkt.len <= maxLen
  }

  /** In every state of every run, no flow's start time is more than one longest packet of that flow
      ahead of virtual time. */
  lemma {:induction false} RunNoneAhead(ts: seq<St>, w: seq<nat>, es: seq<Event>, maxLen: nat, k: nat)
    requires IsRun(ts, w, es) && k <= |es| && NoneAhead(ts[0], w, maxLen) && ShortArrivals(es, maxLen)
    ensures NoneAhead(ts[k], w, maxLen)
  {
    if k > 0 {
      RunNoneAhead(ts, w, es, maxLen, k - 1);
      RunKeepsInv(ts, w, es, k - 1);
      assert StepAt(ts, w, es, k - 1);
      NextNotAhead(ts[k - 1], w, maxLen, es[k - 1], ts[k]);
    }
  }

  /** The service bound: over every run, a flow that stays backlogged is sent at most what virtual time
      allows its weight, plus one longest packet. */
  lemma ServiceBound(ts: seq<St>, w: seq<nat>, es: seq<Event>, maxLen: nat, i: nat, k: nat)
    requires IsRun(ts, w, es) && k <= |es| && NoneAhead(ts[0], w, maxLen) && ShortArrivals(es, maxLen) && Busy(ts, i)
    ensures i < |w| == |ts[0].flows| && w[i] > 0
    ensures Bytes(es, i, k) * InvW(w[i]) <= ts[k].v - ts[0].flows[i].s + maxLen * InvW(w[i])
  {
    StampLedger(ts, w, es, i, k);
    RunNoneAhead(ts, w, es, maxLen, k);
    RunKeepsInv(ts, w, es, k);
    assert Backlogged(ts[k], i);
    BackloggedAreScheduled(ts[k], w, i);
    assert NotAhead(ts[k].flows[i], ts[k].v, w[i], maxLen);
  }

  // ----- two flows compared -----------------------------------------------------------------------

  /** The time of a longest packet, for the slower of two flows. */
  function Slack(maxLen: nat, w: nat, w': nat): nat
    requires w > 0 && w' > 0
  {
    maxLen * Max(InvW(w), InvW(w'))
  }

  lemma SlackCovers(maxLen: nat, w: nat, w': nat, len: nat)
    requires w > 0 && w' > 0 && len <= maxLen
    ensures len * InvW(w) <= Slack(maxLen, w, w') && len * InvW(w') <= Slack(maxLen, w, w')
  {
    Monotone(len, maxLen, InvW(w));
    Monotone(len, maxLen, InvW(w'));
    Monotone(InvW(w), Max(InvW(w), InvW(w')), maxLen);
    Monotone(InvW(w'), Max(InvW(w), InvW(w')), maxLen);
  }

  lemma StampsOf(t: St, w: seq<nat>, maxLen: nat, i: nat)
    requires Loose(t, w) && NoneAhead(t, w, maxLen) && Backlogged(t, i)
    ensures i < |w| && w[i] > 0 && t.flows[i].q[0].len <= maxLen
    ensures t.flows[i].f == t.flows[i].s + t.flows[i].q[0].len * InvW(w[i])
  {
    assert FlowOk(t.flows[i], t.v, w[i]) && NotAhead(t.flows[i], t.v, w[i], maxLen);
  }

  /** A flow that is served gets no further ahead of a backlogged one than a longest packet: either
      the other one had not started, or its packet was due no earlier. */
  lemma ServedStaysClose(t: St, w: seq<nat>, maxLen: nat, v: int, i: nat, j: nat)
    requires Loose(t, w) && NoneAhead(t, w, maxLen) && Backlogged(t, i) && Backlogged(t, j) && MayServe(t, v, i)
    ensures i < |w| && j < |w| && w[i] > 0 && w[j] > 0
    ensures t.flows[i].f - t.flows[j].s <= Slack(maxLen, w[i], w[j])
  {
    StampsOf(t, w, maxLen, i);
    StampsOf(t, w, maxLen, j);
    SlackCovers(maxLen, w[i], w[j], t.flows[i].q[0].len);
    SlackCovers(maxLen, w[i], w[j], t.flows[j].q[0].len);
  }

  lemma LeftStaysClose(t: St, w: seq<nat>, maxLen: nat, v: int, t': St, i: nat, j: nat)
    requires Inv(t, w) && NoneAhead(t, w, maxLen) && Serves(t, w, i, v, t') && Backlogged(t, i) && Backlogged(t, j)
    ensures i < |w| && j < |w| && w[i] > 0 && w[j] > 0
    ensures t.flows[i].s + t.flows[i].q[0].len * InvW(w[i]) - t.flows[j].s <= Slack(maxLen, w[i], w[j])
  {
    var t1, v' :| DrainsOne(t, w, t1) && ServesAt(t1, w, i, v, v', t');
    DrainKeepsFlow(t, w, t1, i);
    DrainKeepsFlow(t, w, t1, j);
    DrainNotAhead(t, w, maxLen, t1);
    TopIsTheChoice(t1, w, v, i);
    ServedStaysClose(t1, w, maxLen, v, i, j);
    StampsOf(t1, w, maxLen, i);
  }

  lemma GapStep(t: St, w: seq<nat>, maxLen: nat, e: Event, t': St, i: nat, j: nat)
    requires Inv(t, w) && NoneAhead(t, w, maxLen) && Next(t, w, e, t') && !e.Nothing?
    requires Backlogged(t, i) && Backlogged(t, j) && i != j
    ensures i < |w| == |t'.flows| && j < |w| && w[i] > 0 && w[j] > 0
    ensures t'.flows[i].s - t'.flows[j].s <= Max(t.flows[i].s - t.flows[j].s, Slack(maxLen, w[i], w[j]))
  {
    StampStep(t, w, e, t', i);
    StampStep(t, w, e, t', j);
    if e.Left? && e.flow == i {
      LeftStaysClose(t, w, maxLen, e.v, t', i, j);
    } else {
      NonNegative(SentBytes(e, j), InvW(w[j]));
    }
  }

  lemma GapAt(ts: seq<St>, w: seq<nat>, es: seq<Event>, maxLen: nat, i: nat, j: nat, k: nat)
    requires IsRun(ts, w, es) && k < |es| && NoneAhead(ts[0], w, maxLen) && ShortArrivals(es, maxLen)
    requires Busy(ts, i) && Busy(ts, j) && i != j
    ensures i < |w| == |ts[k].flows| == |ts[k + 1].flows| && j < |w| && w[i] > 0 && w[j] > 0
    ensures ts[k + 1].flows[i].s - ts[k + 1].flows[j].s
         <= Max(ts[k].flows[i].s - ts[k].flows[j].s, Slack(maxLen, w[i], w[j]))
  {
    RunKeepsInv(ts, w, es, k);
    RunNoneAhead(ts, w, es, maxLen, k);
    assert StepAt(ts, w, es, k) && Backlogged(ts[k], i) && Backlogged(ts[k], j);
    BusyMeansSomething(ts[k], w, es[k], ts[k + 1], i);
    GapStep(ts[k], w, maxLen, es[k], ts[k + 1], i, j);
  }

  lemma {:induction false} GapBound(ts: seq<St>, w: seq<nat>, es: seq<Event>, maxLen: nat, i: nat, j: nat, k: nat)
    requires IsRun(ts, w, es) && k <= |es| && NoneAhead(ts[0], w, maxLen) && ShortArrivals(es, maxLen)
    requires Busy(ts, i) && Busy(ts, j) && i != j
    ensures i < |w| && j < |w| && w[i] > 0 && w[j] > 0 && |ts[k].flows| == |ts[0].flows| == |w|
    ensures ts[k].flows[i].s - ts[k].flows[j].s
         <= Max(ts[0].flows[i].s - ts[0].flows[j].s, Slack(maxLen, w[i], w[j]))
  {
    LedgerStart(ts, w, es, i);
    LedgerStart(ts, w, es, j);
    if k > 0 {
      GapBound(ts, w, es, maxLen, i, j, k - 1);
      GapAt(ts, w, es, maxLen, i, j, k - 1);
    }
  }

  /** Two flows that stay backlogged get service in proportion to their weights, however long the run:
      what one gets more than the other, over its weight, is at most the time of one longest packet
      and the lead the other one had.  Read for the other flow, it is what that one gets at least. */
  lemma TwoFlowFairness(ts: seq<St>, w: seq<nat>, es: seq<Event>, maxLen: nat, i: nat, j: nat, k: nat)
    requires IsRun(ts, w, es) && k <= |es| && NoneAhead(ts[0], w, maxLen) && ShortArrivals(es, maxLen)
    requires Busy(ts, i) && Busy(ts, j) && i != j
    ensures i < |w| == |ts[0].flows| && j < |w| && w[i] > 0 && w[j] > 0
    ensures Bytes(es, i, k) * InvW(w[i]) - Bytes(es, j, k) * InvW(w[j])
         <= Max(0, Slack(maxLen, w[i], w[j]) + ts[0].flows[j].s - ts[0].flows[i].s)
  {
    StampLedger(ts, w, es, i, k);
    StampLedger(ts, w, es, j, k);
    GapBound(ts, w, es, maxLen, i, j, k);
  }

  // ----- virtual time ---------------------------------------------------------------------------

  lemma ServeTime(t: St, w: seq<nat>, i: nat, v: int, v': int, t': St)
    requires Loose(t, w) && ServesAt(t, w, i, v, v', t')
    ensures t.v <= v && t.wsum > 0 && t.wsum == SumOver(t.flows, w)
    ensures t'.v >= v + t.flows[i].q[0].len * (ONE_FP / t.wsum)
  {
    SettledTight(t, w, v);
    SettledLoose(t, w, v);
    var u := Settled(t, v);
    ServeKeeps(u, w, i);
    SettledTight(Serve(u, w, i), w, v');
    SumPositive(u.flows, w, i);
  }

  /** Serving a packet moves virtual time on by at least the packet over the sum of the weights of all
      flows in heaps, counted after the drain. */
  lemma TimeAdvances(t: St, w: seq<nat>, i: nat, p: Pkt, v: int, t': St)
    requires Loose(t, w) && Next(t, w, Left(i, p, v), t')
    ensures t.v <= v
    ensures exists t1 ::
              DrainsOne(t, w, t1) && t1.wsum == SumOver(t1.flows, w) > 0 && t'.v >= v + p.len * (ONE_FP / t1.wsum)
  {
    var t1, v' :| DrainsOne(t, w, t1) && ServesAt(t1, w, i, v, v', t');
    DrainKeepsFlow(t, w, t1, i);
    ServeTime(t1, w, i, v, v', t');
  }
}
