/** The WF2Q+ scheduler in place: the three heaps, one record per flow, virtual time and
    the sum of weights. */
module Wf2q {
  import opened Common
  import opened Heap
  import opened Wf2qModel
  import opened FlowHeaps

  /** The per-flow record (the heap position is in the heaps' column). */
  datatype Queue = Queue(s: int, f: int, mq: seq<Pkt>)

  const QUARTER := 0x4000_0000_0000_0000

  // ----- how the memory represents the flows --------------------------------------------

  ghost function SpotOf(x: Flow): Spot { if x.place == Out then NOWHERE else Spot(x.place, Key(x)) }

  ghost function Spots(flows: seq<Flow>): seq<Spot> {
    seq(|flows|, i requires 0 <= i < |flows| => SpotOf(flows[i]))
  }

  lemma SpotsPut(flows: seq<Flow>, i: nat, x: Flow)
    requires i < |flows|
    ensures Spots(flows[i := x]) == Spots(flows)[i := SpotOf(x)]
  {}

  /** Moving one flow out of its heap and into another. */
  lemma SpotsMove(flows: seq<Flow>, i: nat, x: Flow)
    requires i < |flows|
    ensures Spots(flows)[i := NOWHERE][i := SpotOf(x)] == Spots(flows[i := x])
  {
    SpotsPut(flows, i, x);
  }

  lemma SpotsPlaces(flows: seq<Flow>, place: Place)
    ensures NoneIn(Spots(flows), place) <==> forall i :: 0 <= i < |flows| ==> flows[i].place != place
  {
    assert forall i :: 0 <= i < |flows| ==> Spots(flows)[i].place == flows[i].place;
  }

  /** The top of a heap has the least key of the flows there. */
  lemma SpotsLeast(flows: seq<Flow>, place: Place, i: nat)
    requires LeastIn(Spots(flows), place, i) && place != Out
    ensures i < |flows| && flows[i].place == place && Spots(flows)[i].key == Key(flows[i])
    ensures forall j :: 0 <= j < |flows| && flows[j].place == place ==> Key(flows[i]) <= Key(flows[j])
  {
    forall j | 0 <= j < |flows| && flows[j].place == place ensures Key(flows[i]) <= Key(flows[j]) {
      assert Spots(flows)[j] == Spot(place, Key(flows[j]));
    }
  }

  lemma ForgetLeast(t: St, w: seq<nat>, i: nat)
    requires Loose(t, w) && LeastIn(Spots(t.flows), Idle, i)
    ensures |t.flows| == |w| && LeastIdle(t, i) && Loose(Forget(t, w, i), w)
    ensures Spots(Forget(t, w, i).flows) == Spots(t.flows)[i := NOWHERE]
  {
    SpotsLeast(t.flows, Idle, i);
    ForgetKeeps(t, w, i);
    SpotsPut(t.flows, i, Forget(t, w, i).flows[i]);
  }

  ghost predicate Mirrors(fq: seq<Queue>, flows: seq<Flow>) {
    && |fq| == |flows|
    && forall i :: 0 <= i < |fq| ==> fq[i] == Queue(flows[i].s, flows[i].f, flows[i].q)
  }

  /** What the scheduler keeps outside its heaps. */
  datatype Memory = Memory(fq: seq<Queue>, v: int, wsum: int, invWsum: nat)

  /** The records, virtual time and sums represent `t`. */
  ghost predicate Agrees(m: Memory, t: St, w: seq<nat>) {
    Unit(&& |m.fq| == |w| < 0x7fff_ffff && m.v == t.v && m.wsum == t.wsum && m.invWsum == t.invWsum
         && Mirrors(m.fq, t.flows) && Loose(t, w))
  }

  /** Time and the timestamps of all flows in heaps lie within `bound` above `lo`. */
  ghost predicate Fits(t: St, lo: int, bound: nat) {
    && lo <= t.v < lo + bound
    && (forall i :: 0 <= i < |t.flows| && t.flows[i].place != Out ==>
          lo <= t.flows[i].s < lo + bound && lo <= t.flows[i].f < lo + bound)
  }

  lemma FitsWindow(t: St, lo: int, bound: nat)
    requires Fits(t, lo, bound) && bound <= HALF_RANGE
    ensures SpotsFit(Spots(t.flows), lo)
  {}

  lemma FitsWithout(spots: seq<Spot>, lo: int, i: nat)
    requires SpotsFit(spots, lo) && i < |spots|
    ensures SpotsFit(spots[i := NOWHERE], lo)
  {}

  lemma Product(a: nat, b: nat, c: nat, d: nat)
    requires a <= c && b <= d
    ensures 0 <= a * b <= c * d
  {
    assert a * b <= c * b <= c * d;
  }

  /** A packet's worth of time at any rate. */
  lemma ProductBound(a: nat, b: nat)
    requires a < MAX_LEN && b <= ONE_FP
    ensures 0 <= a * b < QUARTER
  {
    Product(a, b, MAX_LEN - 1, ONE_FP);
  }

  // ----- counting flows by place ----------------------------------------------------------

  ghost function Count(flows: seq<Flow>, place: Place): nat {
    if flows == [] then 0
    else Count(flows[..|flows| - 1], place) + if flows[|flows| - 1].place == place then 1 else 0
  }

  lemma {:induction false} CountPut(flows: seq<Flow>, place: Place, i: nat, x: Flow)
    requires i < |flows| && flows[i].place == place != x.place
    ensures Count(flows[i := x], place) == Count(flows, place) - 1
  {
    var k := |flows| - 1;
    if i == k {
      assert flows[i := x][..k] == flows[..k];
    } else {
      CountPut(flows[..k], place, i, x);
      assert flows[i := x][..k] == flows[..k][i := x];
    }
  }

  lemma {:induction false} CountBound(flows: seq<Flow>, place: Place)
    ensures Count(flows, place) <= |flows|
    ensures Count(flows, place) == 0 ==> forall i :: 0 <= i < |flows| ==> flows[i].place != place
  {
    if flows != [] {
      CountBound(flows[..|flows| - 1], place);
    }
  }

  // ----- draining the idle heap ---------------------------------------------------------------

  ghost predicate LeastIdle(t: St, i: nat) {
    && i < |t.flows| && t.flows[i].place == Idle
    && (forall j :: 0 <= j < |t.flows| && t.flows[j].place == Idle ==> t.flows[i].f <= t.flows[j].f)
  }

  /** Flow `i` is the next to be forgotten. */
  ghost predicate Drainable(t: St, force: bool, i: nat) { LeastIdle(t, i) && (force || t.flows[i].f < t.v) }

  /** No flow is left to be forgotten. */
  ghost predicate DoneDraining(t: St, force: bool) {
    forall j :: 0 <= j < |t.flows| && t.flows[j].place == Idle ==> !force && t.v <= t.flows[j].f
  }

  lemma LeastIsDrainable(t: St, force: bool, i: nat)
    requires LeastIdle(t, i) && !DoneDraining(t, force)
    ensures Drainable(t, force, i)
  {}

  /** The flows in `out` forgotten one after the other. */
  ghost function ForgetAll(t: St, w: seq<nat>, out: seq<nat>): (t': St)
    requires |t.flows| == |w|
    ensures |t'.flows| == |w| && t'.v == t.v
  {
    if out == [] then t
    else
      var u := ForgetAll(t, w, out[..|out| - 1]);
      if out[|out| - 1] < |w| then Forget(u, w, out[|out| - 1]) else u
  }

  /** Each flow of `out` was the next to be forgotten when its turn came. */
  ghost predicate Draining(t: St, w: seq<nat>, out: seq<nat>, force: bool)
    requires |t.flows| == |w|
  {
    out != [] ==>
      var before := out[..|out| - 1];
      Draining(t, w, before, force) && Drainable(ForgetAll(t, w, before), force, out[|out| - 1])
  }

  lemma ForgetFits(t: St, w: seq<nat>, i: nat, lo: int, bound: nat)
    requires Fits(t, lo, bound) && i < |t.flows| == |w|
    ensures Fits(Forget(t, w, i), lo, bound)
  {}

  lemma DrainMore(t: St, w: seq<nat>, out: seq<nat>, force: bool, i: nat)
    requires |t.flows| == |w| && Draining(t, w, out, force) && Drainable(ForgetAll(t, w, out), force, i)
    ensures Draining(t, w, out + [i], force) && ForgetAll(t, w, out + [i]) == Forget(ForgetAll(t, w, out), w, i)
  {
    assert (out + [i])[..|out|] == out;
  }

  lemma DrainedOnce(t: St, w: seq<nat>, out: seq<nat>)
    requires |t.flows| == |w| && Draining(t, w, out, false) && |out| <= 1
    requires out == [] ==> DoneDraining(t, false)
    ensures DrainsOne(t, w, ForgetAll(t, w, out))
  {
    if out != [] {
      assert out[..0] == [] && Drainable(t, false, out[0]);
      assert ForgetAll(t, w, out) == Forget(t, w, out[0]);
    }
  }

  /** Every flow is as before, or was idle and has been forgotten. */
  ghost predicate SomeCleared(flows: seq<Flow>, flows': seq<Flow>) {
    |flows| == |flows'| && forall i :: 0 <= i < |flows| ==> flows'[i] == flows[i] || flows'[i] == Cleared(flows[i])
  }

  lemma {:induction false} DrainCount(t: St, w: seq<nat>, out: seq<nat>, force: bool)
    requires |t.flows| == |w| && Draining(t, w, out, force)
    ensures SomeCleared(t.flows, ForgetAll(t, w, out).flows)
    ensures Count(ForgetAll(t, w, out).flows, Idle) == Count(t.flows, Idle) - |out|
  {
    if out != [] {
      var before, i := out[..|out| - 1], out[|out| - 1];
      DrainCount(t, w, before, force);
      var u := ForgetAll(t, w, before);
      CountPut(u.flows, Idle, i, Cleared(u.flows[i]));
      assert Forget(u, w, i).flows == u.flows[i := Cleared(u.flows[i])];
    }
  }

  /** Forced to drain as many flows as there are, the idle heap ends up empty. */
  lemma DrainedAll(t: St, w: seq<nat>, out: seq<nat>, n: nat, t': St)
    requires |t.flows| == |w| <= n && Draining(t, w, out, true) && |out| <= n && t' == ForgetAll(t, w, out)
    requires |out| < n ==> DoneDraining(t', true)
    ensures forall j :: 0 <= j < |w| ==> t'.flows[j] == Cleared(t.flows[j])
  {
    DrainCount(t, w, out, true);
    CountBound(t.flows, Idle);
    CountBound(t'.flows, Idle);
    assert forall j :: 0 <= j < |w| ==> t'.flows[j].place != Idle;
  }

  lemma InitAgrees(q: seq<Queue>, w: seq<nat>)
    requires |q| == |w| < 0x7fff_ffff && forall i :: 0 <= i < |w| ==> w[i] > 0 && q[i] == Queue(1, 0, [])
    ensures Agrees(Memory(q, 0, 0, 0), InitSt(w), w) && Tight(InitSt(w))
    ensures Spots(InitSt(w).flows) == seq(|w|, _ => NOWHERE)
  {
    InitOk(w);
  }

  /** Changing the record of one flow. */
  lemma AgreesPut(m: Memory, t: St, w: seq<nat>, i: nat, x: Flow, t': St)
    requires Agrees(m, t, w) && i < |w| && Loose(t', w) && t'.flows == t.flows[i := x]
    ensures Agrees(Memory(m.fq[i := Queue(x.s, x.f, x.q)], t'.v, t'.wsum, t'.invWsum), t', w)
  {}

  lemma AgreesFlow(m: Memory, t: St, w: seq<nat>, i: nat)
    requires Agrees(m, t, w) && i < |w|
    ensures |t.flows| == |m.fq| == |w| && m.v == t.v && m.wsum == t.wsum && m.invWsum == t.invWsum && Loose(t, w)
    ensures m.fq[i] == Queue(t.flows[i].s, t.flows[i].f, t.flows[i].q) && FlowOk(t.flows[i], t.v, w[i])
  {}

  // ----- waking a flow up ----------------------------------------------------------------------

  function Woken(s: int, f: int, p: Pkt, v: int): Flow { Flow(s, f, [p], if v < s then Ne else Sch) }

  lemma ActivateParts(t: St, w: seq<nat>, i: nat, p: Pkt, alone: bool, t': St)
    requires Loose(t, w) && i < |w| && t' == Activate(t, w, i, p, alone) && w[i] > 0
    ensures var x, s := t.flows[i], StartTime(t, t.flows[i]);
            && t'.v == ArrivalTime(t, s, alone)
            && t'.wsum == (if x.f < x.s then t.wsum + w[i] else t.wsum)
            && t'.invWsum == (if x.f < x.s then ONE_FP / (t.wsum + w[i]) else t.invWsum)
            && t'.flows == t.flows[i := Woken(s, s + p.len * InvW(w[i]), p, t'.v)]
  {}

  /** The pieces of an activation make up the activated state. */
  lemma WokenUp(m: Memory, t: St, w: seq<nat>, i: nat, p: Pkt, s: int, f: int, m': Memory, t': St)
    requires Agrees(m, t, w) && i < |w| == |t.flows| && w[i] > 0 && t.flows[i].q == [] && p.len < MAX_LEN
    requires t' == Activate(t, w, i, p, Alone(t)) && i < |m.fq| && m'.fq == m.fq[i := Queue(s, f, [p])]
    requires s == StartTime(t, t.flows[i]) && f == s + p.len * InvW(w[i]) && m'.v == ArrivalTime(t, s, Alone(t))
    requires var x := t.flows[i];
             && m'.wsum == (if x.f < x.s then t.wsum + w[i] else t.wsum)
             && m'.invWsum == (if x.f < x.s && t.wsum + w[i] > 0 then ONE_FP / (t.wsum + w[i]) else t.invWsum)
    ensures Agrees(m', t', w)
    ensures Spots(t.flows)[i := NOWHERE][i := SpotOf(Woken(s, f, p, m'.v))] == Spots(t'.flows)
  {
    ActivateKeeps(t, w, i, p, Alone(t));
    ActivateParts(t, w, i, p, Alone(t), t');
    AgreesPut(m, t, w, i, t'.flows[i], t');
    SpotsMove(t.flows, i, t'.flows[i]);
  }

  lemma RateBound(w: nat)
    requires w > 0
    ensures InvW(w) <= ONE_FP
  {}

  /** No flow is backlogged exactly if the two heaps that serve are empty. */
  lemma AloneIsEmpty(t: St, w: seq<nat>, i: nat, spots: seq<Spot>)
    requires Loose(t, w) && i < |w| && t.flows[i].q == [] && spots == Spots(t.flows)[i := NOWHERE]
    ensures Alone(t) <==> NoneIn(spots, Ne) && NoneIn(spots, Sch)
  {
    forall j: nat | j < |w|
      ensures Backlogged(t, j) <==> spots[j].place == Ne || spots[j].place == Sch
    {
      BackloggedAreScheduled(t, w, j);
    }
  }

  // ----- settling and serving ---------------------------------------------------------------

  /** Some flows that are eligible at `v` have been promoted. */
  ghost predicate PartlySettled(t: St, u: St) {
    && u.v == t.v && u.wsum == t.wsum && u.invWsum == t.invWsum && |u.flows| == |t.flows|
    && (forall k :: 0 <= k < |t.flows| ==> u.flows[k] == t.flows[k] || u.flows[k] == PromotedAt(t.flows[k], t.v))
  }

  ghost predicate NoneEligible(t: St) {
    Unit(forall k :: 0 <= k < |t.flows| && t.flows[k].place == Ne ==> t.v < t.flows[k].s)
  }

  ghost predicate Settling(t: St, u: St, lo: int) { Unit(PartlySettled(t, u) && Fits(u, lo, HALF_RANGE)) }

  lemma PromoteMore(t: St, u: St, i: nat, lo: int)
    requires Settling(t, u, lo) && i < |u.flows| && u.flows[i].place == Ne && u.flows[i].s <= u.v
    ensures Settling(t, Promote(u, i), lo) && Count(Promote(u, i).flows, Ne) < Count(u.flows, Ne)
  {
    CountPut(u.flows, Ne, i, u.flows[i].(place := Sch));
  }

  lemma AllPromoted(t0: St, t: St, u: St, lo: int)
    requires t == t0.(v := t.v) && Settling(t, u, lo) && NoneEligible(u)
    ensures u == Settled(t0, t.v)
  {
    assert u.flows == Settled(t0, t.v).flows;
  }

  /** Raising time by the top of `Ne`. */
  lemma RaisedBy(m: Memory, t: St, w: seq<nat>, v: int, y: Entry)
    requires Agrees(m, t, w)
    requires !NoneIn(Spots(t.flows), Ne) ==> LeastIn(Spots(t.flows), Ne, y.obj) && y.key == Spots(t.flows)[y.obj].key
    requires v == if NoneIn(Spots(t.flows), Sch) && !NoneIn(Spots(t.flows), Ne) then Max(m.v, y.key) else m.v
    ensures Agrees(m.(v := v), t.(v := v), w) && RaisedTime(t, v)
  {
    SpotsPlaces(t.flows, Sch);
    SpotsPlaces(t.flows, Ne);
    if NoneIn(Spots(t.flows), Sch) && !NoneIn(Spots(t.flows), Ne) {
      SpotsLeast(t.flows, Ne, y.obj);
      assert LeastStart(t, y.key);
    }
    LaterKeeps(t, w, v);
  }

  lemma RaisedFits(t: St, v: int, lo: int, bound: nat)
    requires RaisedTime(t, v) && Fits(t, lo, bound)
    ensures Fits(t.(v := v), lo, bound) && Fits(Settled(t, v), lo, bound)
  {}

  lemma PromoteReady(m: Memory, t: St, w: seq<nat>, i: nat, lo: int)
    requires Agrees(m, t, w) && LeastIn(Spots(t.flows), Ne, i) && !NoneEligible(t) && Fits(t, lo, HALF_RANGE)
    ensures i < |t.flows| == |m.fq| && t.flows[i].place == Ne && t.flows[i].s <= t.v
    ensures InWindow(m.fq[i].f, lo) && SpotsFit(Spots(t.flows)[i := NOWHERE], lo)
    ensures Agrees(m, Promote(t, i), w)
    ensures Spots(t.flows)[i := NOWHERE][i := Spot(Sch, m.fq[i].f)] == Spots(Promote(t, i).flows)
  {
    SpotsLeast(t.flows, Ne, i);
    FitsWindow(t, lo, HALF_RANGE);
    FitsWithout(Spots(t.flows), lo, i);
    AgreesFlow(m, t, w, i);
    PromoteKeeps(t, w, i);
    SpotsMove(t.flows, i, Promote(t, i).flows[i]);
    AgreesPut(m, t, w, i, Promote(t, i).flows[i], Promote(t, i));
    assert m.fq[i := m.fq[i]] == m.fq;
  }

  lemma ServeReady(m: Memory, t: St, w: seq<nat>, i: nat, lo: int)
    requires Agrees(m, t, w) && LeastIn(Spots(t.flows), Sch, i) && Fits(t, lo, QUARTER)
    ensures i < |w| == |t.flows| == |m.fq| && t.flows[i].place == Sch && w[i] > 0 && t.flows[i].q != []
    ensures m.fq[i] == Queue(t.flows[i].s, t.flows[i].f, t.flows[i].q) && InWindow(m.fq[i].f, lo)
    ensures InWindow(m.v + m.fq[i].mq[0].len * m.invWsum, lo)
    ensures |m.fq[i].mq| > 1 ==> InWindow(m.fq[i].f + m.fq[i].mq[1].len * InvW(w[i]), lo)
    ensures SpotsFit(Spots(t.flows)[i := NOWHERE], lo) && Fits(Serve(t, w, i), lo, HALF_RANGE)
  {
    SpotsLeast(t.flows, Sch, i);
    FitsWindow(t, lo, QUARTER);
    FitsWithout(Spots(t.flows), lo, i);
    AgreesFlow(m, t, w, i);
    ServedBounds(t, w, i, lo);
    ServeFits(t, w, i, lo);
  }

  /** A served flow is due for one of three heaps. */
  lemma ServedParts(m: Memory, t: St, w: seq<nat>, i: nat, v: int, y: Flow, t': St)
    requires Agrees(m, t, w) && i < |w| && t.flows[i].place == Sch && w[i] > 0 && t.flows[i].q != []
    requires v == m.v + t.flows[i].q[0].len * m.invWsum && y == Served(t.flows[i], v, w[i]) && t' == Serve(t, w, i)
    ensures Agrees(m.(fq := m.fq[i := Queue(y.s, y.f, y.q)], v := v), t', w)
    ensures Spots(t.flows)[i := NOWHERE][i := SpotOf(y)] == Spots(t'.flows)
  {
    ServeKeeps(t, w, i);
    AgreesPut(m, t, w, i, y, t');
    SpotsMove(t.flows, i, y);
  }

  /** Time and finish times advance by less than a quarter of the range. */
  lemma ServedBounds(t: St, w: seq<nat>, i: nat, lo: int)
    requires Loose(t, w) && i < |w| && t.flows[i].place == Sch && Fits(t, lo, QUARTER)
    ensures t.flows[i].q != [] && w[i] > 0 && InWindow(t.v + t.flows[i].q[0].len * t.invWsum, lo)
    ensures |t.flows[i].q| > 1 ==> InWindow(t.flows[i].f + t.flows[i].q[1].len * InvW(w[i]), lo)
    ensures InWindow(t.flows[i].f, lo)
  {
    var x := t.flows[i];
    assert FlowOk(x, t.v, w[i]);
    SumPositive(t.flows, w, i);
    RateBound(t.wsum);
    ProductBound(x.q[0].len, t.invWsum);
    if |x.q| > 1 {
      RateBound(w[i]);
      ProductBound(x.q[1].len, InvW(w[i]));
    }
  }

  lemma ServeFits(t: St, w: seq<nat>, i: nat, lo: int)
    requires Loose(t, w) && i < |w| && t.flows[i].place == Sch && Fits(t, lo, QUARTER) && w[i] > 0 && t.flows[i].q != []
    ensures Fits(Serve(t, w, i), lo, HALF_RANGE)
  {
    ServedBounds(t, w, i, lo);
    assert FlowOk(t.flows[i], t.v, w[i]);
  }

  // ----- dequeue ---------------------------------------------------------------------------------

  lemma DrainFits(t: St, w: seq<nat>, t': St, lo: int, bound: nat)
    requires DrainsOne(t, w, t') && Fits(t, lo, bound)
    ensures Fits(t', lo, bound)
  {}

  /** After settling there is a flow to serve. */
  lemma SettledServes(m: Memory, t: St, w: seq<nat>, v: int)
    requires Agrees(m, t, w) && RaisedTime(t, v) && !Alone(t)
    ensures !NoneIn(Spots(Settled(t, v).flows), Sch)
  {
    var i :| Backlogged(t, i);
    assert Backlogged(Settled(t, v), i);
    SettledTight(t, w, v);
    SpotsPlaces(Settled(t, v).flows, Sch);
  }

  lemma ServesParts(t: St, w: seq<nat>, v: int, i: nat, v': int, t': St)
    requires RaisedTime(t, v) && LeastIn(Spots(Settled(t, v).flows), Sch, i)
    requires i < |t.flows| == |w| && w[i] > 0 && Settled(t, v).flows[i].q != []
    requires RaisedTime(Serve(Settled(t, v), w, i), v') && t' == Settled(Serve(Settled(t, v), w, i), v')
    ensures ServesAt(t, w, i, v, v', t')
  {
    SpotsLeast(Settled(t, v).flows, Sch, i);
    forall j | 0 <= j < |w| && Settled(t, v).flows[j].place == Sch ensures t.flows[i].f <= t.flows[j].f {
      assert Key(Settled(t, v).flows[i]) <= Key(Settled(t, v).flows[j]);
    }
  }

  lemma ServeStillFits(m: Memory, t: St, w: seq<nat>, i: nat, lo: int)
    requires Agrees(m, t, w) && LeastIn(Spots(t.flows), Sch, i) && Fits(t, lo, QUARTER)
    requires i < |w| == |t.flows| && w[i] > 0 && t.flows[i].q != []
    ensures Fits(Serve(t, w, i), lo, HALF_RANGE)
  {
    SpotsLeast(t.flows, Sch, i);
    ServeFits(t, w, i, lo);
  }

  lemma BeforeServing(t: St, w: seq<nat>, out: seq<nat>, lo: int)
    requires Loose(t, w) && !Alone(t) && Fits(t, lo, QUARTER) && |t.flows| == |w|
    requires Draining(t, w, out, false) && |out| <= 1 && (|out| < 1 ==> DoneDraining(ForgetAll(t, w, out), false))
    ensures var t1 := ForgetAll(t, w, out); DrainsOne(t, w, t1) && !Alone(t1) && Fits(t1, lo, QUARTER)
  {
    DrainedOnce(t, w, out);
    var t1 := ForgetAll(t, w, out);
    DrainFits(t, w, t1, lo, QUARTER);
    DrainKeepsLoose(t, w, t1);
    var i :| Backlogged(t, i);
    assert Backlogged(t1, i);
  }

  lemma AfterServing(t: St, w: seq<nat>, t1: St, i: nat, p: Pkt, v: int, v': int, t': St)
    requires Loose(t, w) && !Alone(t) && DrainsOne(t, w, t1) && ServesAt(t1, w, i, v, v', t') && p == t1.flows[i].q[0]
    ensures Next(t, w, Left(i, p, v), t')
  {
    assert Serves(t, w, i, v, t');
    DequeueOnQueues(t, w, i, v, t');
    DrainQueues(t, w, t1);
  }

  lemma Emptied(m: Memory, t: St, w: seq<nat>, out: seq<nat>, n: nat, t1: St)
    requires Loose(t, w) && Alone(t) && Agrees(m, t1, w)
    requires |t.flows| == |w| <= n && Draining(t, w, out, true) && t1 == ForgetAll(t, w, out)
    requires |out| <= n && (|out| < n ==> DoneDraining(t1, true))
    ensures Agrees(m.(v := 0, wsum := 0), t1.(v := 0, wsum := 0), w) && Next(t, w, Nothing, t1.(v := 0, wsum := 0))
  {
    DrainedAll(t, w, out, n, t1);
    ResetKeepsInv(t, w, t1.(v := 0, wsum := 0));
  }

  lemma NothingBacklogged(m: Memory, t: St, w: seq<nat>)
    requires Agrees(m, t, w)
    ensures Alone(t) <==> NoneIn(Spots(t.flows), Sch) && NoneIn(Spots(t.flows), Ne)
    ensures Loose(t, w) && |t.flows| == |w| < 0x7fff_ffff
  {
    forall j: nat | j < |w|
      ensures Backlogged(t, j) <==> Spots(t.flows)[j].place == Ne || Spots(t.flows)[j].place == Sch
    {
      BackloggedAreScheduled(t, w, j);
    }
  }

  class Scheduler {
    const w: seq<nat>
    const fq: array<Queue>
    const hs: FlowHeaps
    var v: int
    var wsum: int
    var invWsum: nat
    ghost var st: St

    ghost function View(): Memory
      reads `v, `wsum, `invWsum, fq
    {
      Memory(fq[..], v, wsum, invWsum)
    }

    ghost predicate Records()
      reads this, fq
    {
      Agrees(View(), st, w)
    }

    ghost predicate Heaps()
      reads this, hs, hs.Repr
    {
      Unit(fq !in hs.Repr && this !in hs.Repr && hs.Valid() && hs.spots == Spots(st.flows))
    }

    ghost predicate Valid()
      reads this, fq, hs, hs.Repr
    {
      Heaps() && Records()
    }

    constructor (weights: seq<nat>)
      requires |weights| < 0x7fff_ffff
      requires forall i :: 0 <= i < |weights| ==> 1 <= weights[i] <= 100
      ensures Valid() && Tight(st) && w == weights && fresh(fq) && fresh(hs) && fresh(hs.Repr)
      ensures st == InitSt(weights)
    {
      w := weights;
      fq := new Queue[|weights|](_ => Queue(1, 0, []));
      hs := new FlowHeaps(|weights|);
      v, wsum, invWsum := 0, 0, 0;
      st := InitSt(weights);
      new;
      InitAgrees(fq[..], weights);
    }

    /** The record and the sum of weights after an idle flow was taken out. */
    method ForgetRecord(i: nat, ghost t: St)
      requires Records() && i < |w| && t == Forget(st, w, i) && Loose(t, w)
      modifies `wsum, `invWsum, `st, fq
      ensures Records() && st == t
    {
      ghost var q := fq[..];
      fq[i] := fq[i].(s := fq[i].f + 1);
      assert fq[..] == q[i := fq[i]];
      wsum := wsum - w[i];
      if wsum > 0 {
        invWsum := ONE_FP / wsum;
      }
      st := t;
    }

    /** Drop the idle flow with the least timestamp. */
    method ForgetTop(ghost lo: int) returns (ghost i: nat)
      requires Valid() && !NoneIn(hs.spots, Idle) && Fits(st, lo, HALF_RANGE)
      modifies `wsum, `invWsum, `st, fq, hs, hs.Repr
      ensures Valid() && hs.Repr == old(hs.Repr)
      ensures |st.flows| == |w| && LeastIdle(old(st), i) && st == Forget(old(st), w, i)
    {
      ghost var t := st;
      FitsWindow(t, lo, HALF_RANGE);
      var x := hs.TakeTop(Idle, lo);
      i := x.obj;
      ForgetLeast(t, w, i);
      ForgetRecord(x.obj, Forget(t, w, i));
    }

    /** Drain up to `n` flows from the idle heap, only those whose time has passed unless forced. */
    method IdleCheck(n: nat, force: bool, ghost lo: int) returns (ghost out: seq<nat>)
      requires Valid() && Fits(st, lo, HALF_RANGE) && |st.flows| == |w|
      modifies `wsum, `invWsum, `st, fq, hs, hs.Repr
      ensures Valid() && hs.Repr == old(hs.Repr)
      ensures Draining(old(st), w, out, force) && st == ForgetAll(old(st), w, out)
      ensures |out| <= n && (|out| < n ==> DoneDraining(st, force))
    {
      ghost var t := st;
      out := [];
      var left := n;
      while left > 0
        invariant Valid() && hs.Repr == old(hs.Repr) && Fits(st, lo, HALF_RANGE)
        invariant left >= 0 && left + |out| == n
        invariant Draining(t, w, out, force) && st == ForgetAll(t, w, out)
      {
        var more := NextIdle(force, lo);
        if !more {
          break;
        }
        ghost var u := st;
        ghost var i := ForgetTop(lo);
        LeastIsDrainable(u, force, i);
        ForgetFits(u, w, i, lo, HALF_RANGE);
        DrainMore(t, w, out, force, i);
        out := out + [i];
        left := left - 1;
      }
    }

    /** Is there an idle flow to drain? */
    method NextIdle(force: bool, ghost lo: int) returns (more: bool)
      requires Valid() && Fits(st, lo, HALF_RANGE)
      ensures more <==> !DoneDraining(st, force)
      ensures more ==> !NoneIn(hs.spots, Idle)
    {
      var empty, x := hs.Top(Idle);
      SpotsPlaces(st.flows, Idle);
      more := false;
      if !empty {
        SpotsLeast(st.flows, Idle, x.obj);
        var passed := DnHeap.Before(x.key, v, lo);
        more := force || passed;
      }
    }

    /** The later of two times. */
    static method Later(a: int, b: int, ghost lo: int) returns (r: int)
      requires InWindow(a, lo) && InWindow(b, lo)
      ensures r == Max(a, b)
    {
      var after := DnHeap.Before(a, b, lo);
      r := if after then b else a;
    }

    /** The heaps hold all flows but `i`. */
    ghost predicate HeapsBut(i: nat)
      reads this, hs, hs.Repr
    {
      fq !in hs.Repr && this !in hs.Repr && hs.Valid() && i < |st.flows| && hs.spots == Spots(st.flows)[i := NOWHERE]
    }

    /** A flow without packets starts again: it leaves the idle heap, or its weight counts from now on. */
    method Restart(i: nat, ghost lo: int) returns (s: int)
      requires Valid() && i < |w| == |st.flows| && st.flows[i].q == [] && Fits(st, lo, QUARTER)
      modifies `wsum, `invWsum, hs, hs.Repr
      ensures HeapsBut(i) && hs.Repr == old(hs.Repr) && SpotsFit(hs.spots, lo)
      ensures s == StartTime(st, st.flows[i]) && lo <= s < lo + QUARTER
      ensures var x := st.flows[i];
              && wsum == (if x.f < x.s then st.wsum + w[i] else st.wsum)
              && invWsum == (if x.f < x.s && st.wsum + w[i] > 0 then ONE_FP / (st.wsum + w[i]) else st.invWsum)
    {
      AgreesFlow(View(), st, w, i);
      FitsWindow(st, lo, QUARTER);
      FitsWithout(hs.spots, lo, i);
      var q := fq[i];
      KeyLtExact(q.f, q.s);
      if KeyLt(q.f, q.s) {
        s := v;
        wsum := wsum + w[i];
        invWsum := ONE_FP / wsum;
        assert hs.spots == hs.spots[i := NOWHERE];
      } else {
        hs.TakeIdle(i, lo);
        s := Later(q.f, v, lo);
      }
    }

    /** Put the flow that wakes up in a heap; if nothing is backlogged make sure it is eligible. */
    method Arrive(i: nat, s: int, f: int, ghost p: Pkt, ghost lo: int)
      requires HeapsBut(i) && i < |w| && Loose(st, w) && st.flows[i].q == [] && v == st.v
      requires SpotsFit(hs.spots, lo) && InWindow(v, lo) && InWindow(s, lo) && InWindow(f, lo)
      modifies `v, hs, hs.Repr
      ensures fq !in hs.Repr && this !in hs.Repr && hs.Valid() && hs.OnlyNew(old(hs.Repr))
      ensures v == ArrivalTime(st, s, Alone(st))
      ensures hs.spots == Spots(st.flows)[i := NOWHERE][i := SpotOf(Woken(s, f, p, v))]
    {
      AloneIsEmpty(st, w, i, hs.spots);
      var noNe, x := hs.Top(Ne);
      var noSch, y := hs.Top(Sch);
      if noNe && noSch {
        v := Later(s, v, lo);
      }
      var early := DnHeap.Before(v, s, lo);
      if early {
        hs.Add(Ne, s, i, lo);
      } else {
        hs.Add(Sch, f, i, lo);
      }
    }

    /** Timestamps, sums and heaps for a flow that wakes up. */
    method Schedule(i: nat, p: Pkt, ghost lo: int) returns (s: int, f: int)
      requires Valid() && i < |w| == |st.flows| && st.flows[i].q == [] && Fits(st, lo, QUARTER) && p.len < MAX_LEN
               && w[i] > 0
      modifies `v, `wsum, `invWsum, hs, hs.Repr
      ensures fq !in hs.Repr && this !in hs.Repr && hs.Valid() && hs.OnlyNew(old(hs.Repr))
      ensures s == StartTime(st, st.flows[i]) && f == s + p.len * InvW(w[i]) && v == ArrivalTime(st, s, Alone(st))
      ensures hs.spots == Spots(st.flows)[i := NOWHERE][i := SpotOf(Woken(s, f, p, v))]
      ensures var x := st.flows[i];
              && wsum == (if x.f < x.s then st.wsum + w[i] else st.wsum)
              && invWsum == (if x.f < x.s && st.wsum + w[i] > 0 then ONE_FP / (st.wsum + w[i]) else st.invWsum)
    {
      AgreesFlow(View(), st, w, i);
      s := Restart(i, lo);
      RateBound(w[i]);
      ProductBound(p.len, InvW(w[i]));
      f := s + p.len * InvW(w[i]);
      Arrive(i, s, f, p, lo);
    }

    /** The first packet of a flow that had none. */
    method WakeUp(i: nat, p: Pkt, ghost lo: int)
      requires Valid() && i < |w| == |st.flows| && st.flows[i].q == [] && Fits(st, lo, QUARTER) && p.len < MAX_LEN
               && w[i] > 0
      modifies `v, `wsum, `invWsum, `st, fq, hs, hs.Repr
      ensures Valid() && hs.OnlyNew(old(hs.Repr))
      ensures st == Activate(old(st), w, i, p, Alone(old(st)))
    {
      ghost var t, m := st, View();
      var s, f := Schedule(i, p, lo);
      fq[i] := Queue(s, f, [p]);
      assert fq[..] == m.fq[i := Queue(s, f, [p])];
      st := Activate(t, w, i, p, Alone(t));
      WokenUp(m, t, w, i, p, s, f, View(), st);
    }

    /** A packet for flow `i`; a full queue drops it. */
    method Enqueue(i: nat, p: Pkt, ghost lo: int) returns (dropped: bool)
      requires Valid() && Tight(st) && i < |w| && p.len < MAX_LEN && Fits(st, lo, QUARTER)
      modifies `v, `wsum, `invWsum, `st, fq, hs, hs.Repr
      ensures Valid() && Tight(st) && hs.OnlyNew(old(hs.Repr))
      ensures Next(old(st), w, Arrived(i, p, dropped), st)
    {
      ghost var t := st;
      AgreesFlow(View(), t, w, i);
      dropped := |fq[i].mq| >= QUEUE_LIMIT;
      if dropped {
        return;
      }
      if fq[i].mq != [] {
        PushBack(i, [p]);
      } else {
        WakeUp(i, p, lo);
      }
      EnqueueKeepsInv(t, w, i, p, dropped, st);
    }

    /** Packets for a flow that has some. */
    method PushBack(i: nat, ps: seq<Pkt>)
      requires Valid() && i < |w| == |st.flows| && st.flows[i].q != [] && Short(ps)
      modifies `st, fq
      ensures Valid() && st == AppendAll(old(st), i, ps)
    {
      ghost var t, m := st, View();
      AgreesFlow(m, t, w, i);
      AppendKeeps(t, w, i, ps);
      st := AppendAll(t, i, ps);
      AgreesPut(m, t, w, i, st.flows[i], st);
      SpotsPut(t.flows, i, st.flows[i]);
      fq[i] := fq[i].(mq := fq[i].mq + ps);
      assert fq[..] == m.fq[i := fq[i]];
      assert Spots(st.flows) == Spots(t.flows);
    }

    /** Mark the timestamps of a queue that is in no heap as invalid. */
    method Unstamp(i: nat)
      requires Valid() && Tight(st) && i < |w| == |st.flows| && st.flows[i].place == Out
      modifies `st, fq
      ensures Valid() && st == Unstamped(old(st), i)
    {
      ghost var t, m := st, View();
      AgreesFlow(m, t, w, i);
      UnstampedKeeps(t, w, i);
      st := Unstamped(t, i);
      AgreesPut(m, t, w, i, st.flows[i], st);
      SpotsPut(t.flows, i, st.flows[i]);
      fq[i] := Queue(1, 0, []);
      assert fq[..] == m.fq[i := fq[i]];
      assert Spots(st.flows) == Spots(t.flows);
    }

    /** Set a queue up.  If it comes with packets it is enqueued at once. */
    method NewQueue(i: nat, mq: seq<Pkt>, ghost lo: int)
      requires Valid() && Tight(st) && i < |w| == |st.flows| && w[i] > 0 && st.flows[i].place == Out
      requires Short(mq) && Fits(st, lo, QUARTER)
      modifies `v, `wsum, `invWsum, `st, fq, hs, hs.Repr
      ensures Valid() && Tight(st) && hs.OnlyNew(old(hs.Repr))
      ensures st == Adopted(old(st), w, i, mq) && st.flows[i].q == mq
    {
      ghost var t := st;
      AgreesFlow(View(), t, w, i);
      AdoptedKeepsInv(t, w, i, mq);
      Unstamp(i);
      if mq != [] {
        WakeWith(i, mq, lo);
      }
    }

    method WakeWith(i: nat, mq: seq<Pkt>, ghost lo: int)
      requires Valid() && i < |w| == |st.flows| && w[i] > 0 && st.flows[i].q == []
      requires mq != [] && Short(mq) && Fits(st, lo, QUARTER)
      modifies `v, `wsum, `invWsum, `st, fq, hs, hs.Repr
      ensures Valid() && hs.OnlyNew(old(hs.Repr))
      ensures st == AppendAll(Activate(old(st), w, i, mq[0], Alone(old(st))), i, mq[1..])
    {
      WakeUp(i, mq[0], lo);
      PushBack(i, mq[1..]);
    }

    /** If nothing is eligible, time jumps to the least start time. */
    method RaiseTime(ghost lo: int)
      requires Valid() && Fits(st, lo, HALF_RANGE)
      modifies `v, `st
      ensures Valid() && RaisedTime(old(st), v) && st == old(st).(v := v)
    {
      ghost var t, m := st, View();
      FitsWindow(t, lo, HALF_RANGE);
      var noSch, x := hs.Top(Sch);
      var noNe, y := hs.Top(Ne);
      if noSch && !noNe {
        v := Later(v, y.key, lo);
      }
      RaisedBy(m, t, w, v, y);
      st := t.(v := v);
    }

    /** The flow with the least start time changes heaps. */
    method PromoteHeaps(ghost lo: int) returns (ghost i: nat)
      requires Valid() && Fits(st, lo, HALF_RANGE) && !NoneEligible(st)
      modifies hs, hs.Repr
      ensures fq !in hs.Repr && this !in hs.Repr && hs.Valid() && hs.OnlyNew(old(hs.Repr))
      ensures i < |st.flows| && st.flows[i].place == Ne && st.flows[i].s <= st.v
      ensures hs.spots == Spots(Promote(st, i).flows) && Agrees(View(), Promote(st, i), w)
    {
      FitsWindow(st, lo, HALF_RANGE);
      SpotsPlaces(st.flows, Ne);
      var x := hs.TakeTop(Ne, lo);
      i := x.obj;
      PromoteReady(View(), st, w, i, lo);
      hs.Add(Sch, fq[x.obj].f, x.obj, lo);
    }

    /** Move the flow with the least start time to the heap of eligible flows. */
    method PromoteTop(ghost t: St, ghost lo: int) returns (more: bool)
      requires Valid() && Settling(t, st, lo) && !NoneEligible(st)
      modifies `st, hs, hs.Repr
      ensures Valid() && hs.OnlyNew(old(hs.Repr))
      ensures Settling(t, st, lo) && Count(st.flows, Ne) < Count(old(st).flows, Ne)
      ensures more <==> !NoneEligible(st)
    {
      ghost var i := PromoteHeaps(lo);
      PromoteMore(t, st, i, lo);
      st := Promote(st, i);
      more := NextEligible(lo);
    }

    /** Is there a flow to promote? */
    method NextEligible(ghost lo: int) returns (more: bool)
      requires Valid() && Fits(st, lo, HALF_RANGE)
      ensures more <==> !NoneEligible(st)
    {
      var empty, x := hs.Top(Ne);
      SpotsPlaces(st.flows, Ne);
      more := false;
      if !empty {
        SpotsLeast(st.flows, Ne, x.obj);
        var late := DnHeap.Before(v, x.key, lo);
        more := !late;
      }
    }

    /** Promote all flows that are eligible. */
    method PromoteAll(ghost lo: int)
      requires Valid() && Fits(st, lo, HALF_RANGE)
      modifies `st, hs, hs.Repr
      ensures Valid() && hs.OnlyNew(old(hs.Repr))
      ensures Settling(old(st), st, lo) && NoneEligible(st)
    {
      ghost var t, r := st, hs.Repr;
      var more := NextEligible(lo);
      while more
        invariant Heaps() && Records() && Settling(t, st, lo)
        invariant hs.OnlyNew(r)
        invariant more <==> !NoneEligible(st)
        decreases Count(st.flows, Ne)
      {
        more := PromoteTop(t, lo);
      }
    }

    /** Make sure that a flow is eligible if any is backlogged, and that all eligible flows are known to be. */
    method Settle(ghost lo: int)
      requires Valid() && Fits(st, lo, HALF_RANGE)
      modifies `v, `st, hs, hs.Repr
      ensures Valid() && hs.OnlyNew(old(hs.Repr))
      ensures RaisedTime(old(st), v) && st == Settled(old(st), v)
    {
      ghost var t0 := st;
      RaiseTime(lo);
      ghost var t := st;
      RaisedFits(t0, v, lo, HALF_RANGE);
      PromoteAll(lo);
      AllPromoted(t0, t, st, lo);
    }

    /** The flow just served goes where it belongs. */
    method Reinsert(i: nat, ghost lo: int) returns (q: Queue)
      requires HeapsBut(i) && i < |w| && i < fq.Length && w[i] > 0 && st.flows[i].q != []
      requires fq[i] == Queue(st.flows[i].s, st.flows[i].f, st.flows[i].q)
      requires SpotsFit(hs.spots, lo) && InWindow(v, lo) && InWindow(fq[i].f, lo)
      requires |fq[i].mq| > 1 ==> InWindow(fq[i].f + fq[i].mq[1].len * InvW(w[i]), lo)
      modifies hs, hs.Repr
      ensures fq !in hs.Repr && this !in hs.Repr && hs.Valid() && hs.OnlyNew(old(hs.Repr))
      ensures var y := Served(st.flows[i], v, w[i]);
              q == Queue(y.s, y.f, y.q) && hs.spots == Spots(st.flows)[i := NOWHERE][i := SpotOf(y)]
    {
      var rest := fq[i].mq[1..];
      q := Queue(fq[i].f, fq[i].f, rest);
      if rest == [] {
        hs.Add(Idle, q.f, i, lo);
      } else {
        q := q.(f := q.f + rest[0].len * InvW(w[i]));
        var late := DnHeap.Before(v, q.s, lo);
        if late {
          hs.Add(Ne, q.s, i, lo);
        } else {
          hs.Add(Sch, q.f, i, lo);
        }
      }
    }

    /** Time and the heaps, when the eligible flow with the least finish time is served. */
    method ServeHeaps(ghost lo: int) returns (i: nat, q: Queue)
      requires Valid() && !NoneIn(hs.spots, Sch) && Fits(st, lo, QUARTER)
      modifies `v, hs, hs.Repr
      ensures fq !in hs.Repr && this !in hs.Repr && hs.Valid() && hs.OnlyNew(old(hs.Repr))
      ensures LeastIn(Spots(st.flows), Sch, i)
      ensures i < |w| == |st.flows| == fq.Length && w[i] > 0 && fq[i].mq == st.flows[i].q != []
      ensures v == old(v) + st.flows[i].q[0].len * invWsum
      ensures var y := Served(st.flows[i], v, w[i]);
              q == Queue(y.s, y.f, y.q) && hs.spots == Spots(st.flows)[i := NOWHERE][i := SpotOf(y)]
    {
      FitsWindow(st, lo, QUARTER);
      var x := hs.TakeTop(Sch, lo);
      i := x.obj;
      ServeReady(View(), st, w, i, lo);
      v := v + fq[i].mq[0].len * invWsum;
      q := Reinsert(i, lo);
    }

    /** Serve the flow with the least finish time among the eligible ones. */
    method ServeTop(ghost lo: int) returns (i: nat, p: Pkt)
      requires Valid() && !NoneIn(hs.spots, Sch) && Fits(st, lo, QUARTER)
      modifies `v, `st, fq, hs, hs.Repr
      ensures Valid() && hs.OnlyNew(old(hs.Repr))
      ensures LeastIn(Spots(old(st).flows), Sch, i)
      ensures i < |w| == |old(st).flows| && w[i] > 0 && old(st).flows[i].q != [] && p == old(st).flows[i].q[0]
      ensures st == Serve(old(st), w, i)
    {
      ghost var t, m := st, View();
      var q;
      i, q := ServeHeaps(lo);
      p := fq[i].mq[0];
      fq[i] := q;
      assert fq[..] == m.fq[i := q];
      st := Serve(t, w, i);
      SpotsLeast(t.flows, Sch, i);
      ServedParts(m, t, w, i, v, Served(t.flows[i], v, w[i]), st);
    }

    /** The first half of a dequeue: settle, then take the packet. */
    method TakeNext(ghost lo: int) returns (i: nat, p: Pkt, ghost v1: int)
      requires Valid() && !Alone(st) && Fits(st, lo, QUARTER)
      modifies `v, `st, fq, hs, hs.Repr
      ensures Valid() && hs.OnlyNew(old(hs.Repr)) && Fits(st, lo, HALF_RANGE)
      ensures var t := Settled(old(st), v1);
              && RaisedTime(old(st), v1) && LeastIn(Spots(t.flows), Sch, i) && i < |w| == |t.flows| && w[i] > 0
              && t.flows[i].q != [] && p == t.flows[i].q[0] && st == Serve(t, w, i)
    {
      ghost var t, m := st, View();
      assert Agrees(m, t, w);
      Settle(lo);
      v1 := v;
      SettledServes(m, t, w, v1);
      RaisedFits(t, v1, lo, QUARTER);
      ghost var u, m1 := st, View();
      assert Agrees(m1, u, w);
      i, p := ServeTop(lo);
      ServeStillFits(m1, u, w, i, lo);
    }

    /** Settle, serve the eligible flow with the least finish time, settle again. */
    method ServeNext(ghost lo: int) returns (i: nat, p: Pkt, ghost v1: int)
      requires Valid() && !Alone(st) && Fits(st, lo, QUARTER)
      modifies `v, `st, fq, hs, hs.Repr
      ensures Valid() && hs.OnlyNew(old(hs.Repr))
      ensures ServesAt(old(st), w, i, v1, v, st) && p == old(st).flows[i].q[0]
    {
      ghost var t := st;
      i, p, v1 := TakeNext(lo);
      Settle(lo);
      ServesParts(t, w, v1, i, v, st);
    }

    /** Nothing to send: forget everything and start over. */
    method StartOver(ghost lo: int)
      requires Valid() && Alone(st) && Fits(st, lo, HALF_RANGE)
      modifies `v, `wsum, `invWsum, `st, fq, hs, hs.Repr
      ensures Valid() && hs.Repr == old(hs.Repr) && Next(old(st), w, Nothing, st)
    {
      ghost var t := st;
      NothingBacklogged(View(), t, w);
      ghost var out := IdleCheck(0x7fff_ffff, true, lo);
      ghost var t1 := st;
      Emptied(View(), t, w, out, 0x7fff_ffff, t1);
      ZeroTime();
    }

    method ZeroTime()
      requires Valid() && Agrees(View().(v := 0, wsum := 0), st.(v := 0, wsum := 0), w)
      modifies `v, `wsum, `st
      ensures Valid() && st == old(st).(v := 0, wsum := 0)
    {
      v, wsum := 0, 0;
      st := st.(v := 0, wsum := 0);
    }

    /** Drain an idle flow if there is one whose time has passed, then serve. */
    method DrainAndServe(ghost lo: int) returns (i: nat, p: Pkt, ghost v1: int)
      requires Valid() && !Alone(st) && Fits(st, lo, QUARTER) && |st.flows| == |w| && Loose(st, w)
      modifies `v, `wsum, `invWsum, `st, fq, hs, hs.Repr
      ensures Valid() && hs.OnlyNew(old(hs.Repr))
      ensures Next(old(st), w, Left(i, p, v1), st)
    {
      ghost var t := st;
      ghost var out := IdleCheck(1, false, lo);
      BeforeServing(t, w, out, lo);
      ghost var t1 := st;
      i, p, v1 := ServeNext(lo);
      AfterServing(t, w, t1, i, p, v1, v, st);
    }

    /** The next packet, chosen by the policy; none only if no flow is backlogged. */
    method Dequeue(ghost lo: int) returns (found: bool, p: Pkt, ghost e: Event)
      requires Valid() && Tight(st) && Fits(st, lo, QUARTER)
      modifies `v, `wsum, `invWsum, `st, fq, hs, hs.Repr
      ensures Valid() && Tight(st) && hs.OnlyNew(old(hs.Repr))
      ensures found <==> !Alone(old(st))
      ensures Next(old(st), w, e, st) && (found ==> e.Left? && e.pkt == p && MayServe(old(st), e.v, e.flow))
    {
      ghost var t := st;
      NothingBacklogged(View(), t, w);
      var noSch, x := hs.Top(Sch);
      var noNe, y := hs.Top(Ne);
      found, p, e := false, Pkt(0, 0), Nothing;
      if noSch && noNe {
        StartOver(lo);
      } else {
        ghost var v1;
        var i;
        i, p, v1 := DrainAndServe(lo);
        found, e := true, Left(i, p, v1);
      }
      NextKeepsInv(t, w, e, st);
    }
  }
}
