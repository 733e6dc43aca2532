/** WF2Q+ on values: virtual time and, flow by flow, timestamps, packets and whereabouts.

    A flow is in the heap `Sch` (eligible, keyed by finish time), in `Ne` (backlogged,
    keyed by start time), in `Idle` (no packets, timestamps still of interest), or in
    none of them (timestamps invalid, marked by F < S).
 */
module Wf2qModel {
  import opened Common

  const ONE_FP: nat := 0x1000_0000
  const MAX_LEN: nat := 0x4_0000_0000

  datatype Place = Out | Sch | Ne | Idle
  datatype Flow = Flow(s: int, f: int, q: seq<Pkt>, place: Place)

  datatype St = St(v: int, wsum: int, invWsum: nat, flows: seq<Flow>)

  function InvW(w: nat): nat
    requires w > 0
  {
    ONE_FP / w
  }

  function Max(a: int, b: int): int { if b > a then b else a }

  /** The key a flow has in its heap. */
  function Key(x: Flow): int { if x.place == Ne then x.s else x.f }

  // ----- sum of weights -------------------------------------------------------------

  function Counted(x: Flow, w: nat): nat { if x.place == Out then 0 else w }

  function SumOver(flows: seq<Flow>, w: seq<nat>): nat
    requires |flows| == |w|
  {
    if w == [] then 0 else SumOver(flows[..|w| - 1], w[..|w| - 1]) + Counted(flows[|w| - 1], w[|w| - 1])
  }

  lemma {:induction false} SumUpdate(flows: seq<Flow>, w: seq<nat>, i: nat, x: Flow)
    requires i < |flows| == |w|
    ensures SumOver(flows[i := x], w) == SumOver(flows, w) - Counted(flows[i], w[i]) + Counted(x, w[i])
  {
    var k := |w| - 1;
    if i == k {
      assert flows[i := x][..k] == flows[..k];
    } else {
      SumUpdate(flows[..k], w[..k], i, x);
      assert flows[i := x][..k] == flows[..k][i := x];
    }
  }

  lemma {:induction false} SumPositive(flows: seq<Flow>, w: seq<nat>, i: nat)
    requires i < |flows| == |w| && flows[i].place != Out && w[i] > 0
    ensures SumOver(flows, w) > 0
  {
    if i < |w| - 1 {
      SumPositive(flows[..|w| - 1], w[..|w| - 1], i);
    }
  }

  lemma {:induction false} SumZero(flows: seq<Flow>, w: seq<nat>)
    requires |flows| == |w| && forall i :: 0 <= i < |flows| ==> flows[i].place == Out
    ensures SumOver(flows, w) == 0
  {
    if w != [] {
      SumZero(flows[..|w| - 1], w[..|w| - 1]);
    }
  }

  // ----- invariants ------------------------------------------------------------------

  /** Finish minus start is the time the head packet takes at the flow's rate. */
  predicate Stamped(x: Flow, w: nat) {
    w > 0 && x.q != [] && x.f == x.s + x.q[0].len * InvW(w)
  }

  ghost predicate FlowOk(x: Flow, v: int, w: nat) {
    && w > 0
    && (forall k :: 0 <= k < |x.q| ==> x.q[k].len < MAX_LEN)
    && match x.place
       case Sch => Stamped(x, w) && x.s <= v
       case Ne => Stamped(x, w)
       case Idle => x.q == [] && x.f == x.s
       case Out => x.q == [] && x.s == x.f + 1
  }

  ghost predicate WeightsOk(t: St, w: seq<nat>) {
    && |t.flows| == |w|
    && t.wsum == SumOver(t.flows, w)
    && (t.wsum > 0 ==> t.invWsum == ONE_FP / t.wsum)
  }

  /** The invariant between the internal steps of a dequeue: a flow in `Ne` may have
      become eligible. */
  ghost predicate Loose(t: St, w: seq<nat>) {
    && WeightsOk(t, w)
    && (forall i :: 0 <= i < |t.flows| ==> FlowOk(t.flows[i], t.v, w[i]))
  }

  predicate Backlogged(t: St, i: int) { 0 <= i < |t.flows| && t.flows[i].q != [] }

  /** No eligible flow is left in `Ne`, and some flow is in `Sch` if any is backlogged. */
  ghost predicate Tight(t: St) {
    && (forall i :: 0 <= i < |t.flows| && t.flows[i].place == Ne ==> t.flows[i].s > t.v)
    && ((exists i :: Backlogged(t, i)) ==> exists i :: 0 <= i < |t.flows| && t.flows[i].place == Sch)
  }

  ghost predicate Inv(t: St, w: seq<nat>) { Loose(t, w) && Tight(t) }

  function InitSt(w: seq<nat>): St { St(0, 0, 0, seq(|w|, _ => Flow(1, 0, [], Out))) }

  lemma InitOk(w: seq<nat>)
    requires forall i :: 0 <= i < |w| ==> w[i] > 0
    ensures Inv(InitSt(w), w)
  {
    SumZero(InitSt(w).flows, w);
    assert forall i :: !Backlogged(InitSt(w), i);
  }

  /** In the heaps that serve, exactly the flows with packets. */
  lemma BackloggedAreScheduled(t: St, w: seq<nat>, i: nat)
    requires Loose(t, w) && i < |w|
    ensures Backlogged(t, i) <==> t.flows[i].place == Sch || t.flows[i].place == Ne
  {
    assert FlowOk(t.flows[i], t.v, w[i]);
  }

  /** Changing one flow and moving time forward. */
  function Put(t: St, v: int, i: nat, x: Flow): St
    requires i < |t.flows|
  {
    t.(v := v, flows := t.flows[i := x])
  }

  lemma PutKeeps(t: St, w: seq<nat>, v: int, i: nat, x: Flow)
    requires Loose(t, w) && i < |w| && v >= t.v && FlowOk(x, v, w[i])
    requires Counted(x, w[i]) == Counted(t.flows[i], w[i])
    ensures Loose(Put(t, v, i, x), w)
  {
    SumUpdate(t.flows, w, i, x);
    var u := Put(t, v, i, x);
    forall j | 0 <= j < |u.flows| ensures FlowOk(u.flows[j], v, w[j]) {
      assert FlowOk(t.flows[j], t.v, w[j]);
    }
  }

  function Inverse(wsum: int, inv: nat): nat {
    if wsum > 0 then ONE_FP / wsum else inv
  }

  /** Changing one flow so that it starts or stops to count. */
  function Recount(t: St, wsum: int, i: nat, x: Flow): St
    requires i < |t.flows|
  {
    t.(wsum := wsum, invWsum := Inverse(wsum, t.invWsum), flows := t.flows[i := x])
  }

  lemma RecountKeeps(t: St, w: seq<nat>, wsum: int, i: nat, x: Flow)
    requires Loose(t, w) && i < |w| && FlowOk(x, t.v, w[i])
    requires wsum == t.wsum - Counted(t.flows[i], w[i]) + Counted(x, w[i])
    ensures Loose(Recount(t, wsum, i, x), w)
  {
    SumUpdate(t.flows, w, i, x);
    var u := Recount(t, wsum, i, x);
    forall j | 0 <= j < |u.flows| ensures FlowOk(u.flows[j], t.v, w[j]) {
      assert FlowOk(t.flows[j], t.v, w[j]);
    }
  }

  // ----- draining idle flows ------------------------------------------------------------

  /** Forget an idle flow: its timestamps become invalid, its weight no longer counts. */
  function Forget(t: St, w: seq<nat>, i: nat): St
    requires i < |t.flows| == |w|
  {
    var x := t.flows[i];
    Recount(t, t.wsum - w[i], i, x.(s := x.f + 1, place := Out))
  }

  lemma ForgetKeeps(t: St, w: seq<nat>, i: nat)
    requires Loose(t, w) && i < |w| && t.flows[i].place == Idle
    ensures Loose(Forget(t, w, i), w)
  {
    var x := t.flows[i];
    assert FlowOk(x, t.v, w[i]);
    RecountKeeps(t, w, t.wsum - w[i], i, x.(s := x.f + 1, place := Out));
  }

  /** With no flow in any heap the sum of weights is zero without being reset. */
  lemma AllForgotten(t: St, w: seq<nat>)
    requires Loose(t, w) && forall i :: 0 <= i < |t.flows| ==> t.flows[i].place == Out
    ensures t.wsum == 0
  {
    SumZero(t.flows, w);
  }

  // ----- enqueue -----------------------------------------------------------------------------

  ghost predicate Short(ps: seq<Pkt>) { forall k :: 0 <= k < |ps| ==> ps[k].len < MAX_LEN }

  /** Packets for a flow that already has some. */
  function AppendAll(t: St, i: nat, ps: seq<Pkt>): St
    requires i < |t.flows|
  {
    Put(t, t.v, i, t.flows[i].(q := t.flows[i].q + ps))
  }

  function Append(t: St, i: nat, p: Pkt): St
    requires i < |t.flows|
  {
    AppendAll(t, i, [p])
  }

  lemma AppendKeeps(t: St, w: seq<nat>, i: nat, ps: seq<Pkt>)
    requires Loose(t, w) && i < |w| && t.flows[i].q != [] && Short(ps)
    ensures Loose(AppendAll(t, i, ps), w)
  {
    assert FlowOk(t.flows[i], t.v, w[i]);
    PutKeeps(t, w, t.v, i, t.flows[i].(q := t.flows[i].q + ps));
  }

  /** The start time of a flow that wakes up. */
  function StartTime(t: St, x: Flow): int { if x.f < x.s then t.v else Max(x.f, t.v) }

  /** Time as seen by the flow that wakes up: a lone flow is always eligible. */
  function ArrivalTime(t: St, s: int, alone: bool): int { if alone then Max(s, t.v) else t.v }

  /** Waking flow `i` up with its first packet; `alone` says that no flow is backlogged. */
  function Activate(t: St, w: seq<nat>, i: nat, p: Pkt, alone: bool): St
    requires i < |t.flows| == |w| && w[i] > 0
  {
    var x := t.flows[i];
    var s := StartTime(t, x);
    var f := s + p.len * InvW(w[i]);
    var v := ArrivalTime(t, s, alone);
    var y := Flow(s, f, [p], if v < s then Ne else Sch);
    if x.f < x.s then Recount(t.(v := v), t.wsum + w[i], i, y) else Put(t, v, i, y)
  }

  lemma LaterKeeps(t: St, w: seq<nat>, v: int)
    requires Loose(t, w) && v >= t.v
    ensures Loose(t.(v := v), w)
  {
    forall j | 0 <= j < |t.flows| ensures FlowOk(t.flows[j], v, w[j]) {
      assert FlowOk(t.flows[j], t.v, w[j]);
    }
  }

  lemma ActivateKeeps(t: St, w: seq<nat>, i: nat, p: Pkt, alone: bool)
    requires Loose(t, w) && i < |w| && t.flows[i].q == [] && p.len < MAX_LEN
    ensures Loose(Activate(t, w, i, p, alone), w)
  {
    var x := t.flows[i];
    assert FlowOk(x, t.v, w[i]);
    var s := StartTime(t, x);
    var v := ArrivalTime(t, s, alone);
    var y := Flow(s, s + p.len * InvW(w[i]), [p], if v < s then Ne else Sch);
    if x.f < x.s {
      LaterKeeps(t, w, v);
      RecountKeeps(t.(v := v), w, t.wsum + w[i], i, y);
    } else {
      PutKeeps(t, w, v, i, y);
    }
  }

  // ----- dequeue -----------------------------------------------------------------------------

  /** Move a flow that has become eligible. */
  function Promote(t: St, i: nat): St
    requires i < |t.flows|
  {
    Put(t, t.v, i, t.flows[i].(place := Sch))
  }

  lemma PromoteKeeps(t: St, w: seq<nat>, i: nat)
    requires Loose(t, w) && i < |w| && t.flows[i].place == Ne && t.flows[i].s <= t.v
    ensures Loose(Promote(t, i), w)
  {
    assert FlowOk(t.flows[i], t.v, w[i]);
    PutKeeps(t, w, t.v, i, t.flows[i].(place := Sch));
  }

  /** A served flow: the head packet is gone, the rest is stamped anew. */
  function Served(x: Flow, v: int, w: nat): Flow
    requires w > 0 && x.q != []
  {
    var rest := x.q[1..];
    if rest == [] then Flow(x.f, x.f, rest, Idle)
    else Flow(x.f, x.f + rest[0].len * InvW(w), rest, if x.f <= v then Sch else Ne)
  }

  /** Serve flow `i`: time advances by the packet over all weights. */
  function Serve(t: St, w: seq<nat>, i: nat): St
    requires i < |t.flows| == |w| && w[i] > 0 && t.flows[i].q != []
  {
    var v := t.v + t.flows[i].q[0].len * t.invWsum;
    Put(t, v, i, Served(t.flows[i], v, w[i]))
  }

  lemma ServeKeeps(t: St, w: seq<nat>, i: nat)
    requires Loose(t, w) && i < |w| && t.flows[i].place == Sch
    ensures Loose(Serve(t, w, i), w)
  {
    var x := t.flows[i];
    assert FlowOk(x, t.v, w[i]);
    var v := t.v + x.q[0].len * t.invWsum;
    assert v >= t.v by {
      NonNegative(x.q[0].len, t.invWsum);
    }
    ServedOk(x, v, w[i]);
    PutKeeps(t, w, v, i, Served(x, v, w[i]));
  }

  lemma NonNegative(a: nat, b: nat)
    ensures a * b >= 0
  {}

  lemma ServedOk(x: Flow, v: int, w: nat)
    requires w > 0 && x.q != [] && forall k :: 0 <= k < |x.q| ==> x.q[k].len < MAX_LEN
    ensures FlowOk(Served(x, v, w), v, w)
  {}

  // ----- settling: raise time if nothing is eligible, promote what is ---------------------

  ghost predicate SomeIn(t: St, place: Place) {
    exists i :: 0 <= i < |t.flows| && t.flows[i].place == place
  }

  /** `m` is the least start time among the flows in `Ne`. */
  ghost predicate LeastStart(t: St, m: int) {
    && (exists i :: 0 <= i < |t.flows| && t.flows[i].place == Ne && t.flows[i].s == m)
    && (forall i :: 0 <= i < |t.flows| && t.flows[i].place == Ne ==> m <= t.flows[i].s)
  }

  /** Time as raised by settling: unchanged if some flow is in `Sch`, else at least the least start. */
  ghost predicate RaisedTime(t: St, v: int) {
    if SomeIn(t, Sch) || !SomeIn(t, Ne) then v == t.v
    else exists m :: LeastStart(t, m) && v == Max(t.v, m)
  }

  function PromotedAt(x: Flow, v: int): Flow {
    if x.place == Ne && x.s <= v then x.(place := Sch) else x
  }

  function Settled(t: St, v: int): St {
    t.(v := v, flows := seq(|t.flows|, i requires 0 <= i < |t.flows| => PromotedAt(t.flows[i], v)))
  }

  lemma {:induction false} SettledSum(flows: seq<Flow>, flows': seq<Flow>, w: seq<nat>, v: int)
    requires |flows| == |flows'| == |w|
    requires forall i :: 0 <= i < |w| ==> flows'[i] == PromotedAt(flows[i], v)
    ensures SumOver(flows', w) == SumOver(flows, w)
  {
    if w != [] {
      SettledSum(flows[..|w| - 1], flows'[..|w| - 1], w[..|w| - 1], v);
    }
  }

  lemma SettledLoose(t: St, w: seq<nat>, v: int)
    requires Loose(t, w) && v >= t.v
    ensures Loose(Settled(t, v), w)
  {
    var u := Settled(t, v);
    SettledSum(t.flows, u.flows, w, v);
    forall i | 0 <= i < |u.flows| ensures FlowOk(u.flows[i], v, w[i]) {
      assert FlowOk(t.flows[i], t.v, w[i]);
    }
  }

  lemma SettledTight(t: St, w: seq<nat>, v: int)
    requires Loose(t, w) && RaisedTime(t, v)
    ensures v >= t.v && Tight(Settled(t, v))
  {
    var u := Settled(t, v);
    if exists i :: Backlogged(u, i) {
      var i :| Backlogged(u, i);
      BackloggedAreScheduled(t, w, i);
      if t.flows[i].place == Ne && !SomeIn(t, Sch) {
        assert SomeIn(t, Ne);
        var m :| LeastStart(t, m) && v == Max(t.v, m);
        var k :| 0 <= k < |t.flows| && t.flows[k].place == Ne && t.flows[k].s == m;
        assert u.flows[k].place == Sch;
      } else {
        var k :| 0 <= k < |t.flows| && t.flows[k].place == Sch;
        assert u.flows[k].place == Sch;
      }
    }
  }

  // ----- the reference policy ---------------------------------------------------------------

  /** The time at which the next packet is chosen: now, or the least start time if no
      backlogged flow has started. */
  ghost predicate ChoiceTime(t: St, v: int) {
    || (v == t.v && exists i :: Backlogged(t, i) && t.flows[i].s <= t.v)
    || (&& (forall i :: Backlogged(t, i) ==> t.v < t.flows[i].s && v <= t.flows[i].s)
        && (exists i :: Backlogged(t, i) && t.flows[i].s == v))
  }

  /** Smallest eligible finish time first: at choice time `v`, flow `i` may be served. */
  ghost predicate MayServe(t: St, v: int, i: nat) {
    Unit(
      && ChoiceTime(t, v)
      && Backlogged(t, i) && t.flows[i].s <= v
      && (forall j :: Backlogged(t, j) && t.flows[j].s <= v ==> t.flows[i].f <= t.flows[j].f))
  }

  lemma RaisedIsChoice(t: St, w: seq<nat>, v: int)
    requires Loose(t, w) && RaisedTime(t, v) && exists i :: Backlogged(t, i)
    ensures ChoiceTime(t, v)
  {
    forall i | 0 <= i < |t.flows|
      ensures Backlogged(t, i) <==> t.flows[i].place == Sch || t.flows[i].place == Ne
      ensures t.flows[i].place == Sch ==> t.flows[i].s <= t.v
    {
      assert FlowOk(t.flows[i], t.v, w[i]);
    }
    if SomeIn(t, Sch) {
      var k :| 0 <= k < |t.flows| && t.flows[k].place == Sch;
      assert Backlogged(t, k);
    } else {
      var i :| Backlogged(t, i);
      assert SomeIn(t, Ne);
      var m :| LeastStart(t, m) && v == Max(t.v, m);
      var k :| 0 <= k < |t.flows| && t.flows[k].place == Ne && t.flows[k].s == m;
      assert Backlogged(t, k);
    }
  }

  /** The two-heap rule refines the policy: after settling, a flow of `Sch` with the least
      finish time is one the policy may serve. */
  lemma TopIsTheChoice(t: St, w: seq<nat>, v: int, i: nat)
    requires Loose(t, w) && RaisedTime(t, v)
    requires i < |w| && Settled(t, v).flows[i].place == Sch
    requires forall j :: 0 <= j < |w| && Settled(t, v).flows[j].place == Sch ==> t.flows[i].f <= t.flows[j].f
    ensures MayServe(t, v, i)
  {
    SettledTight(t, w, v);
    forall j | 0 <= j < |t.flows|
      ensures Backlogged(t, j) && t.flows[j].s <= v <==> Settled(t, v).flows[j].place == Sch
    {
      assert FlowOk(t.flows[j], t.v, w[j]);
    }
    assert Backlogged(t, i);
    RaisedIsChoice(t, w, v);
  }

  // ----- the scheduler's operations as relations ------------------------------------------

  ghost predicate Alone(t: St) { forall i :: !Backlogged(t, i) }

  /** Enqueue: a full queue drops the packet, an idle flow is woken up. */
  ghost predicate Enqueues(t: St, w: seq<nat>, i: nat, p: Pkt, dropped: bool, t': St) {
    && i < |t.flows| == |w| && w[i] > 0
    && (dropped <==> |t.flows[i].q| >= QUEUE_LIMIT)
    && t' == if dropped then t
             else if t.flows[i].q != [] then Append(t, i, p)
             else Activate(t, w, i, p, Alone(t))
  }

  /** At most one idle flow is forgotten, the least, if its time has passed. */
  ghost predicate DrainsOne(t: St, w: seq<nat>, t': St) {
    || (t' == t && forall j :: 0 <= j < |t.flows| && t.flows[j].place == Idle ==> t.v <= t.flows[j].f)
    || (exists i: nat ::
          && i < |t.flows| == |w| && t.flows[i].place == Idle && t.flows[i].f < t.v
          && (forall j :: 0 <= j < |t.flows| && t.flows[j].place == Idle ==> t.flows[i].f <= t.flows[j].f)
          && t' == Forget(t, w, i))
  }

  function Cleared(x: Flow): Flow {
    if x.place == Idle then x.(s := x.f + 1, place := Out) else x
  }

  /** Nothing is backlogged: every flow is forgotten and time starts again. */
  ghost predicate Resets(t: St, t': St) {
    && t'.v == 0 && t'.wsum == 0 && |t'.flows| == |t.flows|
    && (forall i :: 0 <= i < |t.flows| ==> t'.flows[i] == Cleared(t.flows[i]))
  }

  /** Flow `i` heads `Sch` after settling at `v`, is served, and time settles again at `v'`. */
  ghost predicate ServesAt(t: St, w: seq<nat>, i: nat, v: int, v': int, t': St) {
    && RaisedTime(t, v) && i < |t.flows| == |w| && w[i] > 0
    && t.flows[i].q != [] && Settled(t, v).flows[i].place == Sch
    && (forall j :: 0 <= j < |w| && Settled(t, v).flows[j].place == Sch ==> t.flows[i].f <= t.flows[j].f)
    && RaisedTime(Serve(Settled(t, v), w, i), v')
    && t' == Settled(Serve(Settled(t, v), w, i), v')
  }

  /** Dequeue of flow `i`, chosen at time `v`, after an idle flow may have been drained. */
  ghost predicate Serves(t: St, w: seq<nat>, i: nat, v: int, t': St) {
    exists t1, v' :: DrainsOne(t, w, t1) && ServesAt(t1, w, i, v, v', t')
  }

  lemma EnqueueKeepsInv(t: St, w: seq<nat>, i: nat, p: Pkt, dropped: bool, t': St)
    requires Inv(t, w) && Enqueues(t, w, i, p, dropped, t') && p.len < MAX_LEN
    ensures Inv(t', w)
  {
    if !dropped && t.flows[i].q != [] {
      AppendKeeps(t, w, i, [p]);
      AppendTight(t, w, i, [p]);
    } else if !dropped {
      ActivateKeeps(t, w, i, p, Alone(t));
      ActivateTight(t, w, i, p);
    }
  }

  lemma AppendTight(t: St, w: seq<nat>, i: nat, ps: seq<Pkt>)
    requires Inv(t, w) && i < |w| && t.flows[i].q != []
    ensures Tight(AppendAll(t, i, ps))
  {
    assert Backlogged(t, i);
    var k :| 0 <= k < |t.flows| && t.flows[k].place == Sch;
    assert AppendAll(t, i, ps).flows[k].place == Sch;
  }

  /** A flow that is not eligible on arrival finds another one in `Sch`. */
  lemma ArrivalFindsOthers(t: St, w: seq<nat>, i: nat, p: Pkt)
    requires Inv(t, w) && i < |w| && t.flows[i].q == []
    requires Activate(t, w, i, p, Alone(t)).flows[i].place == Ne
    ensures SomeIn(t, Sch)
  {
    assert !Alone(t);
  }

  lemma ActivateTight(t: St, w: seq<nat>, i: nat, p: Pkt)
    requires Inv(t, w) && i < |w| && t.flows[i].q == []
    ensures Tight(Activate(t, w, i, p, Alone(t)))
  {
    var u := Activate(t, w, i, p, Alone(t));
    assert FlowOk(t.flows[i], t.v, w[i]);
    forall j | 0 <= j < |t.flows| && j != i ensures u.flows[j] == t.flows[j] {}
    if u.flows[i].place == Ne {
      ArrivalFindsOthers(t, w, i, p);
      var k :| 0 <= k < |t.flows| && t.flows[k].place == Sch;
      assert k != i && u.flows[k].place == Sch;
    }
    if Alone(t) {
      forall j | 0 <= j < |t.flows| ensures t.flows[j].place != Ne {
        assert FlowOk(t.flows[j], t.v, w[j]) && !Backlogged(t, j);
      }
    }
  }

  // ----- a queue that is set up -------------------------------------------------------------------

  /** Its timestamps are marked as invalid. */
  function Unstamped(t: St, i: nat): St
    requires i < |t.flows|
  {
    Put(t, t.v, i, Flow(1, 0, [], Out))
  }

  /** If it comes with packets, the first one wakes it up and the others wait behind. */
  ghost function Adopted(t: St, w: seq<nat>, i: nat, mq: seq<Pkt>): St
    requires i < |t.flows| == |w| && w[i] > 0
  {
    var u := Unstamped(t, i);
    if mq == [] then u else AppendAll(Activate(u, w, i, mq[0], Alone(u)), i, mq[1..])
  }

  lemma UnstampedKeeps(t: St, w: seq<nat>, i: nat)
    requires Inv(t, w) && i < |w| && t.flows[i].place == Out
    ensures Inv(Unstamped(t, i), w)
  {
    var u := Unstamped(t, i);
    assert FlowOk(t.flows[i], t.v, w[i]);
    PutKeeps(t, w, t.v, i, Flow(1, 0, [], Out));
    if j :| Backlogged(u, j) {
      assert Backlogged(t, j);
      var k :| 0 <= k < |t.flows| && t.flows[k].place == Sch;
      assert u.flows[k].place == Sch;
    }
  }

  lemma Wakes(u: St, w: seq<nat>, i: nat, p: Pkt, a: St)
    requires Inv(u, w) && i < |w| && u.flows[i].q == [] && p.len < MAX_LEN && w[i] > 0
    requires a == Activate(u, w, i, p, Alone(u))
    ensures Inv(a, w) && a.flows[i].q == [p]
  {
    ActivateKeeps(u, w, i, p, Alone(u));
    ActivateTight(u, w, i, p);
  }

  lemma AppendKeepsInv(a: St, w: seq<nat>, i: nat, ps: seq<Pkt>, b: St)
    requires Inv(a, w) && i < |w| && a.flows[i].q != [] && Short(ps) && b == AppendAll(a, i, ps)
    ensures Inv(b, w) && i < |b.flows| && b.flows[i].q == a.flows[i].q + ps
  {
    AppendKeeps(a, w, i, ps);
    AppendTight(a, w, i, ps);
  }

  lemma WakesWith(u: St, w: seq<nat>, i: nat, mq: seq<Pkt>, a: St)
    requires Inv(u, w) && i < |w| && u.flows[i].q == [] && mq != [] && Short(mq) && w[i] > 0
    requires a == Activate(u, w, i, mq[0], Alone(u))
    ensures Inv(AppendAll(a, i, mq[1..]), w) && AppendAll(a, i, mq[1..]).flows[i].q == mq
  {
    Wakes(u, w, i, mq[0], a);
    AppendKeepsInv(a, w, i, mq[1..], AppendAll(a, i, mq[1..]));
  }

  /** The new queue has its packets, in order, and starts now; the scheduler is in order. */
  lemma AdoptedKeepsInv(t: St, w: seq<nat>, i: nat, mq: seq<Pkt>)
    requires Inv(t, w) && i < |w| && t.flows[i].place == Out && Short(mq)
    ensures w[i] > 0 && Inv(Adopted(t, w, i, mq), w) && Adopted(t, w, i, mq).flows[i].q == mq
    ensures mq != [] ==> Adopted(t, w, i, mq).flows[i].s == t.v
  {
    assert FlowOk(t.flows[i], t.v, w[i]);
    UnstampedKeeps(t, w, i);
    if mq != [] {
      var u := Unstamped(t, i);
      WakesWith(u, w, i, mq, Activate(u, w, i, mq[0], Alone(u)));
    }
  }

  lemma DrainKeepsLoose(t: St, w: seq<nat>, t1: St)
    requires Loose(t, w) && DrainsOne(t, w, t1)
    ensures Loose(t1, w) && t1.v == t.v
    ensures forall j :: Backlogged(t, j) <==> Backlogged(t1, j)
    ensures forall j :: Backlogged(t, j) ==> t1.flows[j] == t.flows[j]
  {
    if t1 != t {
      var i: nat :| i < |t.flows| == |w| && t.flows[i].place == Idle && t1 == Forget(t, w, i);
      ForgetKeeps(t, w, i);
      assert FlowOk(t.flows[i], t.v, w[i]);
    }
  }

  lemma ServesAtKeepsInv(t: St, w: seq<nat>, i: nat, v: int, v': int, t': St)
    requires Loose(t, w) && ServesAt(t, w, i, v, v', t')
    ensures Inv(t', w)
  {
    SettledTight(t, w, v);
    SettledLoose(t, w, v);
    var u := Serve(Settled(t, v), w, i);
    ServeKeeps(Settled(t, v), w, i);
    SettledTight(u, w, v');
    SettledLoose(u, w, v');
  }

  lemma ServesAtQueues(t: St, w: seq<nat>, i: nat, v: int, v': int, t': St)
    requires ServesAt(t, w, i, v, v', t')
    ensures |t'.flows| == |t.flows| && t'.flows[i].q == t.flows[i].q[1..]
    ensures forall j :: 0 <= j < |w| && j != i ==> t'.flows[j].q == t.flows[j].q
  {}

  /** The packet served is the head of a flow that the reference policy may serve now,
      and the invariant is restored even from a state where it held only loosely. */
  lemma DequeueRefinesPolicy(t: St, w: seq<nat>, i: nat, v: int, t': St)
    requires Loose(t, w) && Serves(t, w, i, v, t')
    ensures MayServe(t, v, i)
    ensures Inv(t', w)
  {
    var t1, v' :| DrainsOne(t, w, t1) && ServesAt(t1, w, i, v, v', t');
    DrainKeepsLoose(t, w, t1);
    TopIsTheChoice(t1, w, v, i);
    SameChoice(t, t1, v, i);
    ServesAtKeepsInv(t1, w, i, v, v', t');
  }

  lemma DequeueOnQueues(t: St, w: seq<nat>, i: nat, v: int, t': St)
    requires Serves(t, w, i, v, t')
    ensures i < |t.flows| == |t'.flows| == |w| && t.flows[i].q != [] && t'.flows[i].q == t.flows[i].q[1..]
    ensures forall j :: 0 <= j < |w| && j != i ==> t'.flows[j].q == t.flows[j].q
  {
    var t1, v' :| DrainsOne(t, w, t1) && ServesAt(t1, w, i, v, v', t');
    DrainQueues(t, w, t1);
    ServesAtQueues(t1, w, i, v, v', t');
  }

  lemma DrainQueues(t: St, w: seq<nat>, t1: St)
    requires DrainsOne(t, w, t1)
    ensures |t1.flows| == |t.flows| && forall j :: 0 <= j < |t.flows| ==> t1.flows[j].q == t.flows[j].q
  {}

  lemma SameChoice(t: St, t1: St, v: int, i: nat)
    requires MayServe(t1, v, i) && t1.v == t.v
    requires forall j :: Backlogged(t, j) <==> Backlogged(t1, j)
    requires forall j :: Backlogged(t, j) ==> t1.flows[j] == t.flows[j]
    ensures MayServe(t, v, i)
  {}

  lemma ResetKeepsInv(t: St, w: seq<nat>, t': St)
    requires Loose(t, w) && Alone(t) && Resets(t, t')
    ensures Inv(t', w)
  {
    forall i | 0 <= i < |t.flows| ensures FlowOk(t'.flows[i], 0, w[i]) && t'.flows[i].place == Out {
      assert FlowOk(t.flows[i], t.v, w[i]) && !Backlogged(t, i);
    }
    SumZero(t'.flows, w);
    assert forall i :: !Backlogged(t', i);
  }

  // ----- whole runs -----------------------------------------------------------------------------

  /** What happened: a packet arrived (and was kept or dropped), a packet of a flow left
      at choice time `v`, or there was nothing to send. */
  datatype Event = Arrived(flow: nat, pkt: Pkt, dropped: bool) | Left(flow: nat, pkt: Pkt, v: int) | Nothing

  ghost predicate Next(t: St, w: seq<nat>, e: Event, t': St) {
    Unit(
      match e
      case Arrived(i, p, dropped) => p.len < MAX_LEN && Enqueues(t, w, i, p, dropped, t')
      case Left(i, p, v) =>
        !Alone(t) && Serves(t, w, i, v, t') && i < |t.flows| && t.flows[i].q != [] && p == t.flows[i].q[0]
      case Nothing => Alone(t) && Resets(t, t'))
  }

  ghost predicate StepAt(ts: seq<St>, w: seq<nat>, es: seq<Event>, k: int) {
    0 <= k < |es| && k + 1 < |ts| && Next(ts[k], w, es[k], ts[k + 1])
  }

  ghost predicate Steps(ts: seq<St>, w: seq<nat>, es: seq<Event>) {
    |ts| == |es| + 1 && forall k :: 0 <= k < |es| ==> StepAt(ts, w, es, k)
  }

  ghost predicate IsRun(ts: seq<St>, w: seq<nat>, es: seq<Event>) { Steps(ts, w, es) && Inv(ts[0], w) }

  lemma NextKeepsInv(t: St, w: seq<nat>, e: Event, t': St)
    requires Inv(t, w) && Next(t, w, e, t')
    ensures Inv(t', w)
    ensures e.Left? ==> MayServe(t, e.v, e.flow)
  {
    match e
    case Arrived(i, p, dropped) => EnqueueKeepsInv(t, w, i, p, dropped, t');
    case Left(i, p, v) => DequeueRefinesPolicy(t, w, i, v, t');
    case Nothing => ResetKeepsInv(t, w, t');
  }

  /** In every run the invariant holds throughout and every packet leaves by the policy. */
  lemma {:induction false} RunKeepsInv(ts: seq<St>, w: seq<nat>, es: seq<Event>, k: nat)
    requires IsRun(ts, w, es) && k <= |es|
    ensures Inv(ts[k], w)
    ensures k < |es| && es[k].Left? ==> MayServe(ts[k], es[k].v, es[k].flow)
  {
    if k > 0 {
      RunKeepsInv(ts, w, es, k - 1);
      assert StepAt(ts, w, es, k - 1);
      NextKeepsInv(ts[k - 1], w, es[k - 1], ts[k]);
    }
    if k < |es| {
      assert StepAt(ts, w, es, k);
      NextKeepsInv(ts[k], w, es[k], ts[k + 1]);
    }
  }

  /** The packets of one flow that were accepted, or sent, by the first `k` events. */
  function Accepted(es: seq<Event>, i: nat, k: nat): seq<Pkt>
    requires k <= |es|
  {
    if k == 0 then [] else Accepted(es, i, k - 1) + Added(es[k - 1], i)
  }

  function SentBy(es: seq<Event>, i: nat, k: nat): seq<Pkt>
    requires k <= |es|
  {
    if k == 0 then [] else SentBy(es, i, k - 1) + Removed(es[k - 1], i)
  }

  function Added(e: Event, i: nat): seq<Pkt> {
    if e.Arrived? && e.flow == i && !e.dropped then [e.pkt] else []
  }

  function Removed(e: Event, i: nat): seq<Pkt> {
    if e.Left? && e.flow == i then [e.pkt] else []
  }

  lemma NextOnQueue(t: St, w: seq<nat>, e: Event, t': St, i: nat)
    requires Next(t, w, e, t') && i < |w| == |t.flows|
    ensures |t'.flows| == |w|
    ensures t.flows[i].q + Added(e, i) == Removed(e, i) + t'.flows[i].q
  {
    if e.Left? {
      DequeueOnQueues(t, w, e.flow, e.v, t');
    }
  }

  lemma ConservationStep(had: seq<Pkt>, acc: seq<Pkt>, sent: seq<Pkt>, t: St, w: seq<nat>, e: Event, t': St, i: nat)
    requires Next(t, w, e, t') && i < |w| == |t.flows| && had + acc == sent + t.flows[i].q
    ensures |t'.flows| == |w| && had + (acc + Added(e, i)) == (sent + Removed(e, i)) + t'.flows[i].q
  {
    NextOnQueue(t, w, e, t', i);
    Regroup(had, acc, sent, t.flows[i].q, Added(e, i), Removed(e, i), t'.flows[i].q);
  }

  /** Nothing is lost or reordered within a flow: what it had plus what was accepted is
      what was sent plus what it has. */
  lemma {:induction false} FlowConservation(ts: seq<St>, w: seq<nat>, es: seq<Event>, i: nat, k: nat)
    requires Steps(ts, w, es) && |ts[0].flows| == |w| && k <= |es| && i < |w|
    ensures |ts[k].flows| == |w|
    ensures ts[0].flows[i].q + Accepted(es, i, k) == SentBy(es, i, k) + ts[k].flows[i].q
  {
    if k > 0 {
      FlowConservation(ts, w, es, i, k - 1);
      assert StepAt(ts, w, es, k - 1);
      ConservationStep(ts[0].flows[i].q, Accepted(es, i, k - 1), SentBy(es, i, k - 1), ts[k - 1], w, es[k - 1], ts[k],
          i);
    }
  }
}
