/** Deficit round robin on values: the round-robin list and, flow by flow, packets,
    credit, quantum and whether the flow is listed.  Credits are 32-bit words. */
module DrrModel {
  import opened Common
  import opened Modular

  datatype Flow = Flow(q: seq<Pkt>, credit: nat, quantum: nat, listed: bool)
  datatype St = St(list: seq<nat>, flows: seq<Flow>)

  // ----- sums over flows ----------------------------------------------------------------

  function Sum(ns: seq<nat>): nat {
    if ns == [] then 0 else Sum(ns[..|ns| - 1]) + ns[|ns| - 1]
  }

  lemma {:induction false} SumPut(ns: seq<nat>, i: nat, n: nat)
    requires i < |ns|
    ensures Sum(ns[i := n]) == Sum(ns) - ns[i] + n
  {
    var k := |ns| - 1;
    if i == k {
      assert ns[i := n][..k] == ns[..k];
    } else {
      SumPut(ns[..k], i, n);
      assert ns[i := n][..k] == ns[..k][i := n];
    }
  }

  function Share(x: Flow): nat { if x.listed then x.quantum else 0 }

  /** What the head packet of a listed flow lacks in credit. */
  function Lack(x: Flow): nat {
    if x.listed && x.q != [] && x.q[0].len > x.credit then x.q[0].len - x.credit else 0
  }

  function Shares(flows: seq<Flow>): seq<nat> { seq(|flows|, i requires 0 <= i < |flows| => Share(flows[i])) }
  function Lacks(flows: seq<Flow>): seq<nat> { seq(|flows|, i requires 0 <= i < |flows| => Lack(flows[i])) }

  /** The sum of the quanta of the listed flows. */
  function Total(flows: seq<Flow>): nat { Sum(Shares(flows)) }

  function TotalLack(flows: seq<Flow>): nat { Sum(Lacks(flows)) }

  lemma TotalPut(flows: seq<Flow>, i: nat, x: Flow)
    requires i < |flows|
    ensures Total(flows[i := x]) == Total(flows) - Share(flows[i]) + Share(x)
  {
    assert Shares(flows[i := x]) == Shares(flows)[i := Share(x)];
    SumPut(Shares(flows), i, Share(x));
  }

  lemma LackPut(flows: seq<Flow>, i: nat, x: Flow)
    requires i < |flows|
    ensures TotalLack(flows[i := x]) == TotalLack(flows) - Lack(flows[i]) + Lack(x)
  {
    assert Lacks(flows[i := x]) == Lacks(flows)[i := Lack(x)];
    SumPut(Lacks(flows), i, Lack(x));
  }

  // ----- invariant ------------------------------------------------------------------------

  ghost predicate FlowOk(x: Flow) {
    0 < x.quantum < WORD && x.credit < WORD && (x.q != [] ==> x.listed)
  }

  /** The list holds every listed flow once, and no other. */
  ghost predicate ListOk(t: St) {
    && NoRepeats(t.list)
    && (forall k :: 0 <= k < |t.list| ==> t.list[k] < |t.flows| && t.flows[t.list[k]].listed)
    && (forall i: nat :: i < |t.flows| && t.flows[i].listed ==> i in t.list)
  }

  ghost predicate FlowsOk(t: St) { forall i :: 0 <= i < |t.flows| ==> FlowOk(t.flows[i]) }

  ghost predicate Inv(t: St) { ListOk(t) && FlowsOk(t) }

  /** Lengths that leave room for a quantum in a credit, and the credits this leads to. */
  ghost predicate Short(x: Flow, maxLen: nat) {
    && maxLen + x.quantum <= WORD && x.credit < maxLen + x.quantum
    && (forall k :: 0 <= k < |x.q| ==> x.q[k].len <= maxLen)
  }

  ghost predicate Bounded(t: St, maxLen: nat) {
    0 < maxLen && forall i :: 0 <= i < |t.flows| ==> Short(t.flows[i], maxLen)
  }

  // ----- the list operations ----------------------------------------------------------------

  function Put(t: St, i: nat, x: Flow): St
    requires i < |t.flows|
  {
    t.(flows := t.flows[i := x])
  }

  /** List a flow, with a fresh credit. */
  function Append(t: St, i: nat): St
    requires i < |t.flows|
  {
    St(t.list + [i], t.flows[i := t.flows[i].(listed := true, credit := t.flows[i].quantum)])
  }

  function RemoveHead(t: St): St
    requires t.list != [] && t.list[0] < |t.flows|
  {
    St(t.list[1..], t.flows[t.list[0] := t.flows[t.list[0]].(listed := false)])
  }

  function Rotated(list: seq<nat>): seq<nat>
    requires list != []
  {
    list[1..] + [list[0]]
  }

  lemma PutKeeps(t: St, i: nat, x: Flow)
    requires Inv(t) && i < |t.flows| && FlowOk(x) && x.listed == t.flows[i].listed
    ensures Inv(Put(t, i, x))
  {}

  lemma FlowsOkPut(t: St, i: nat, x: Flow, t': St)
    requires FlowsOk(t) && i < |t.flows| && FlowOk(x) && t'.flows == t.flows[i := x]
    ensures FlowsOk(t')
  {}

  lemma AppendListOk(t: St, i: nat)
    requires ListOk(t) && i < |t.flows| && !t.flows[i].listed
    ensures i !in t.list && ListOk(Append(t, i))
  {
    var u := Append(t, i);
    forall j: nat | j < |u.flows| && u.flows[j].listed ensures j in u.list {
      assert j == i ==> u.list[|t.list|] == i;
    }
  }

  lemma AppendKeeps(t: St, i: nat)
    requires Inv(t) && i < |t.flows| && !t.flows[i].listed
    ensures Inv(Append(t, i))
  {
    AppendListOk(t, i);
    assert FlowOk(t.flows[i]);
  }

  lemma RemoveListOk(t: St)
    requires ListOk(t) && t.list != []
    ensures ListOk(RemoveHead(t))
  {
    var u, h := RemoveHead(t), t.list[0];
    forall j: nat | j < |u.flows| && u.flows[j].listed ensures j in u.list {
      var k :| 0 <= k < |t.list| && t.list[k] == j;
      assert u.list[k - 1] == j;
    }
  }

  lemma RemoveKeeps(t: St)
    requires Inv(t) && t.list != [] && t.flows[t.list[0]].q == []
    ensures Inv(RemoveHead(t))
  {
    RemoveListOk(t);
    assert FlowOk(t.flows[t.list[0]]);
  }

  lemma RotateKeeps(t: St)
    requires ListOk(t) && t.list != []
    ensures ListOk(t.(list := Rotated(t.list)))
  {
    var r := Rotated(t.list);
    assert forall k :: 0 <= k < |r| ==> r[k] == if k < |r| - 1 then t.list[k + 1] else t.list[0];
    forall j: nat | j < |t.flows| && t.flows[j].listed ensures j in r {
      var k :| 0 <= k < |t.list| && t.list[k] == j;
      assert r[if k == 0 then |r| - 1 else k - 1] == j;
    }
  }

  // ----- positions in the list ------------------------------------------------------------------

  function IndexOf(list: seq<nat>, x: nat): (k: nat)
    ensures k <= |list| && (x in list <==> k < |list|) && (k < |list| ==> list[k] == x)
  {
    if list == [] then 0 else if list[0] == x then 0 else IndexOf(list[1..], x) + 1
  }

  lemma IndexUnique(list: seq<nat>, k: nat)
    requires NoRepeats(list) && k < |list|
    ensures IndexOf(list, list[k]) == k
  {}

  lemma IndexInRotated(list: seq<nat>, x: nat)
    requires NoRepeats(list) && x in list
    ensures IndexOf(Rotated(list), x) == if x == list[0] then |list| - 1 else IndexOf(list, x) - 1
  {
    var r := Rotated(list);
    assert forall k :: 0 <= k < |r| ==> r[k] == if k < |r| - 1 then list[k + 1] else list[0];
    IndexUnique(r, if x == list[0] then |list| - 1 else IndexOf(list, x) - 1);
  }

  lemma IndexInAppended(list: seq<nat>, x: nat, y: nat)
    requires NoRepeats(list + [y]) && x in list
    ensures IndexOf(list + [y], x) == IndexOf(list, x)
  {
    IndexUnique(list + [y], IndexOf(list, x));
  }

  // ----- enqueue and one iteration of dequeue ------------------------------------------------

  /** A packet for flow `i`: a full queue drops it, an unlisted flow is listed. */
  function Enqueue(t: St, i: nat, p: Pkt): St
    requires i < |t.flows|
  {
    var x := t.flows[i];
    if |x.q| >= QUEUE_LIMIT then t
    else
      var u := Put(t, i, x.(q := x.q + [p]));
      if x.q != [] || x.listed then u else Append(u, i)
  }

  predicate Serving(t: St) {
    && t.list != [] && t.list[0] < |t.flows|
    && t.flows[t.list[0]].q != [] && t.flows[t.list[0]].q[0].len <= t.flows[t.list[0]].credit
  }

  /** The head has a packet it cannot afford yet. */
  predicate Turning(t: St) {
    && t.list != [] && t.list[0] < |t.flows|
    && t.flows[t.list[0]].q != [] && t.flows[t.list[0]].q[0].len > t.flows[t.list[0]].credit
  }

  function Iterate(t: St): St
    requires t.list != [] && t.list[0] < |t.flows|
  {
    var h := t.list[0];
    var x := t.flows[h];
    if x.q == [] then RemoveHead(t)
    else if x.q[0].len > x.credit then
      St(Rotated(t.list), t.flows[h := x.(credit := (x.credit + x.quantum) % WORD)])
    else Put(t, h, x.(credit := x.credit - x.q[0].len, q := x.q[1..]))
  }

  lemma EnqueueKeeps(t: St, i: nat, p: Pkt)
    requires Inv(t) && i < |t.flows|
    ensures Inv(Enqueue(t, i, p))
  {
    var x := t.flows[i];
    assert FlowOk(x);
    if |x.q| < QUEUE_LIMIT {
      if x.listed {
        PutKeeps(t, i, x.(q := x.q + [p]));
      } else {
        AppendKeeps(t, i);
        PutKeeps(Append(t, i), i, Append(t, i).flows[i].(q := [p]));
        assert x.q + [p] == [p];
        assert Enqueue(t, i, p).flows == Append(t, i).flows[i := Append(t, i).flows[i].(q := [p])];
        assert Enqueue(t, i, p) == Put(Append(t, i), i, Append(t, i).flows[i].(q := [p]));
      }
    }
  }

  lemma IterateKeeps(t: St)
    requires Inv(t) && t.list != []
    ensures Inv(Iterate(t))
  {
    var h := t.list[0];
    var x := t.flows[h];
    assert FlowOk(x);
    if x.q == [] {
      RemoveKeeps(t);
    } else if x.q[0].len > x.credit {
      PutKeeps(t, h, Iterate(t).flows[h]);
      RotateKeeps(Put(t, h, Iterate(t).flows[h]));
    } else {
      PutKeeps(t, h, x.(credit := x.credit - x.q[0].len, q := x.q[1..]));
    }
  }

  // ----- lengths that leave room for a quantum -----------------------------------------------

  /** Within the bounds a turn adds exactly one quantum: the 32-bit sum does not wrap. */
  lemma TurnIsExact(t: St, maxLen: nat)
    requires Inv(t) && Bounded(t, maxLen) && Turning(t)
    ensures var x := t.flows[t.list[0]];
            Iterate(t) == St(Rotated(t.list), t.flows[t.list[0] := x.(credit := x.credit + x.quantum)])
    ensures Short(Iterate(t).flows[t.list[0]], maxLen)
  {
    assert Short(t.flows[t.list[0]], maxLen);
  }

  /** Beyond them it need not: a credit just short of the longest packet wraps and shrinks. */
  lemma TurnMayWrap(maxLen: nat, quantum: nat)
    requires maxLen < WORD < maxLen + quantum && quantum < WORD
    ensures var t := St([0], [Flow([Pkt(0, maxLen)], maxLen - 1, quantum, true)]);
            Inv(t) && Turning(t) && Iterate(t).flows[0].credit < t.flows[0].credit
  {
    var t := St([0], [Flow([Pkt(0, maxLen)], maxLen - 1, quantum, true)]);
    assert t.list[0] == 0;
  }

  lemma IterateKeepsBounds(t: St, maxLen: nat)
    requires Inv(t) && Bounded(t, maxLen) && t.list != []
    ensures Bounded(Iterate(t), maxLen)
  {
    assert Short(t.flows[t.list[0]], maxLen);
    if Turning(t) {
      TurnIsExact(t, maxLen);
    }
  }

  lemma EnqueueKeepsBounds(t: St, maxLen: nat, i: nat, p: Pkt)
    requires Bounded(t, maxLen) && i < |t.flows| && p.len <= maxLen
    ensures Bounded(Enqueue(t, i, p), maxLen)
  {
    assert Short(t.flows[i], maxLen);
  }

  function Measure(t: St): nat { |t.list| + TotalLack(t.flows) }

  /** Every iteration that does not serve brings a dequeue closer to its end. */
  lemma IterateDecreases(t: St, maxLen: nat)
    requires Inv(t) && Bounded(t, maxLen) && t.list != [] && !Serving(t)
    ensures Measure(Iterate(t)) < Measure(t)
  {
    var h := t.list[0];
    LackPut(t.flows, h, Iterate(t).flows[h]);
    assert Short(t.flows[h], maxLen);
    if Turning(t) {
      TurnIsExact(t, maxLen);
    }
  }

  // ----- the loop of a dequeue ---------------------------------------------------------------------

  /** The first `n` iterations of a dequeue. */
  ghost function LoopN(t: St, n: nat): St {
    if n == 0 then t
    else
      var u := LoopN(t, n - 1);
      if u.list != [] && u.list[0] < |u.flows| then Iterate(u) else u
  }

  /** None of the first `n` iterations ends the dequeue. */
  ghost predicate Searching(t: St, n: nat) {
    forall k :: 0 <= k < n ==> LoopN(t, k).list != [] && !Serving(LoopN(t, k))
  }

  /** The dequeue ends after exactly `n` iterations that find nothing. */
  ghost predicate EndsAt(t: St, n: nat) {
    Searching(t, n) && (LoopN(t, n).list == [] || Serving(LoopN(t, n)))
  }

  ghost predicate Ends(t: St) { exists n: nat :: EndsAt(t, n) }

  lemma SearchOn(t: St, n: nat, u: St)
    requires Searching(t, n) && u == LoopN(t, n) && Inv(u) && u.list != [] && !Serving(u)
    ensures Searching(t, n + 1) && LoopN(t, n + 1) == Iterate(u)
    ensures FlowsOk(Iterate(u))
  {
    IterateKeeps(u);
  }

  /** What every iteration that finds nothing keeps holds along a search. */
  lemma {:induction false} SearchInvariant(t: St, n: nat, inv: (nat, St) -> bool)
    requires Searching(t, n) && inv(0, t)
    requires forall k: nat, u: St :: inv(k, u) && u.list != [] && !Serving(u) ==>
               u.list[0] < |u.flows| && inv(k + 1, Iterate(u))
    ensures inv(n, LoopN(t, n))
  {
    if n > 0 {
      SearchInvariant(t, n - 1, inv);
      assert LoopN(t, n - 1).list != [];
    }
  }

  ghost predicate SameQueues(t: St, u: St) {
    |u.flows| == |t.flows| && forall i :: 0 <= i < |t.flows| ==> u.flows[i].q == t.flows[i].q
  }

  lemma SearchKeepsQueues(t: St, n: nat)
    requires Inv(t) && Searching(t, n)
    ensures Inv(LoopN(t, n)) && SameQueues(t, LoopN(t, n))
  {
    var inv: (nat, St) -> bool := (k: nat, u: St) => Inv(u) && SameQueues(t, u);
    forall k: nat, u: St | inv(k, u) && u.list != [] && !Serving(u)
      ensures u.list[0] < |u.flows| && inv(k + 1, Iterate(u))
    {
      IterateKeeps(u);
    }
    SearchInvariant(t, n, inv);
    assert inv(n, LoopN(t, n));
  }

  /** Within the bounds, with `k` of at most `m` iterations done. */
  ghost predicate Near(t: St, maxLen: nat, m: nat, k: nat) { Inv(t) && Bounded(t, maxLen) && Measure(t) + k <= m }

  lemma NearStep(t: St, maxLen: nat, m: nat, k: nat)
    requires Near(t, maxLen, m, k) && t.list != [] && !Serving(t)
    ensures Near(Iterate(t), maxLen, m, k + 1)
  {
    IterateKeeps(t);
    IterateKeepsBounds(t, maxLen);
    IterateDecreases(t, maxLen);
  }

  /** Within the bounds a search is short. */
  lemma SearchIsShort(t: St, maxLen: nat, n: nat)
    requires Inv(t) && Bounded(t, maxLen) && Searching(t, n)
    ensures Bounded(LoopN(t, n), maxLen) && n <= Measure(t)
  {
    var m := Measure(t);
    var inv: (nat, St) -> bool := (k: nat, u: St) => Near(u, maxLen, m, k);
    forall k: nat, u: St | inv(k, u) && u.list != [] && !Serving(u)
      ensures u.list[0] < |u.flows| && inv(k + 1, Iterate(u))
    {
      NearStep(u, maxLen, m, k);
    }
    SearchInvariant(t, n, inv);
    assert inv(n, LoopN(t, n));
  }

  ghost predicate Backlogged(t: St) { exists i :: 0 <= i < |t.flows| && t.flows[i].q != [] }

  /** Work conservation: the search for a packet fails exactly if there is none. */
  lemma SearchFails(t: St, n: nat)
    requires Inv(t) && EndsAt(t, n)
    ensures Backlogged(t) <==> LoopN(t, n).list != []
  {
    SearchKeepsQueues(t, n);
    var u := LoopN(t, n);
    forall i: nat | i < |t.flows| && t.flows[i].q != [] ensures i in u.list {
      assert FlowOk(u.flows[i]);
    }
    if u.list != [] {
      assert t.flows[u.list[0]].q != [];
    }
  }

  // ----- exactly when the loop ends ---------------------------------------------------------------

  /** The flow has a packet, and turns alone can bring its credit up to the length.  The credit
      moves in steps of the quantum modulo 2^32, so it meets the values that agree with it modulo
      their greatest common divisor, and no others. */
  predicate Payable(x: Flow) { x.q != [] && x.q[0].len <= Peak(x.credit, x.quantum, WORD) }

  ghost predicate SomePayable(t: St) { exists i :: 0 <= i < |t.flows| && Payable(t.flows[i]) }

  /** The packet can be paid for after `k` turns. */
  predicate PaidAfter(x: Flow, k: nat) { x.q != [] && After(x.credit, x.quantum, WORD, k) >= x.q[0].len }

  lemma PayableAfterTurns(x: Flow)
    requires FlowOk(x) && x.q != []
    ensures Payable(x) <==> exists k: nat :: PaidAfter(x, k)
  {
    ReachesAtLeast(x.credit, x.quantum, WORD, x.q[0].len);
    if Payable(x) {
      var k: nat :| After(x.credit, x.quantum, WORD, k) >= x.q[0].len;
      assert PaidAfter(x, k);
    }
  }

  function TurnOf(x: Flow): Flow { x.(credit := (x.credit + x.quantum) % WORD) }

  lemma TurnKeepsPayable(x: Flow)
    requires FlowOk(x)
    ensures Payable(TurnOf(x)) <==> Payable(x)
  {
    PeakKept(x.credit, x.quantum, WORD, 1);
  }

  lemma TurnCounts(x: Flow, k: nat)
    requires FlowOk(x) && PaidAfter(x, k) && x.q[0].len > x.credit
    ensures k > 0 && PaidAfter(TurnOf(x), k - 1)
  {
    AfterZero(x);
    AfterNext(x.credit, x.quantum, WORD, k);
  }

  lemma AfterZero(x: Flow)
    requires FlowOk(x)
    ensures After(x.credit, x.quantum, WORD, 0) == x.credit
  {}

  lemma AffordableIsPayable(x: Flow)
    requires FlowOk(x) && x.q != [] && x.q[0].len <= x.credit
    ensures Payable(x)
  {
    BelowPeak(x.credit, x.quantum, WORD);
  }

  lemma {:induction false} LoopShift(t: St, n: nat)
    requires t.list != [] && t.list[0] < |t.flows|
    ensures LoopN(t, n + 1) == LoopN(Iterate(t), n)
  {
    if n > 0 {
      LoopShift(t, n - 1);
    }
  }

  lemma EndsLater(t: St, n: nat)
    requires Inv(t) && t.list != [] && !Serving(t) && EndsAt(Iterate(t), n)
    ensures EndsAt(t, n + 1)
  {
    LoopShift(t, n);
    forall k | 0 <= k < n + 1 ensures LoopN(t, k).list != [] && !Serving(LoopN(t, k)) {
      if k > 0 {
        LoopShift(t, k - 1);
        assert LoopN(Iterate(t), k - 1).list != [];
      }
    }
  }

  /** A flow that can pay after `k` turns gets them, wherever in the list it stands. */
  lemma {:induction false} PayableEnds(t: St, i: nat, k: nat)
    requires Inv(t) && i in t.list && PaidAfter(t.flows[i], k)
    ensures Ends(t)
    decreases k, IndexOf(t.list, i)
  {
    if Serving(t) {
      assert EndsAt(t, 0);
    } else {
      var h, u := t.list[0], Iterate(t);
      IterateKeeps(t);
      assert FlowOk(t.flows[h]);
      if h == i {
        TurnCounts(t.flows[i], k);
        assert u.list[|u.list| - 1] == i;
        PayableEnds(u, i, k - 1);
      } else {
        IndexAfterTurn(t, i);
        PayableEnds(u, i, k);
      }
      var n: nat :| EndsAt(u, n);
      EndsLater(t, n);
    }
  }

  lemma IndexAfterTurn(t: St, i: nat)
    requires Inv(t) && i in t.list && t.list[0] != i && !Serving(t)
    ensures Iterate(t).flows[i] == t.flows[i]
    ensures i in Iterate(t).list && IndexOf(Iterate(t).list, i) == IndexOf(t.list, i) - 1
  {
    if Turning(t) {
      IndexInRotated(t.list, i);
      assert Rotated(t.list)[IndexOf(t.list, i) - 1] == i;
    } else {
      assert t.list[1..][IndexOf(t.list, i) - 1] == i;
    }
  }

  lemma {:induction false} IdleEnds(t: St)
    requires Inv(t) && !Backlogged(t)
    ensures Ends(t)
    decreases |t.list|
  {
    if t.list == [] {
      assert EndsAt(t, 0);
    } else {
      IterateKeeps(t);
      IdleEnds(Iterate(t));
      var n: nat :| EndsAt(Iterate(t), n);
      EndsLater(t, n);
    }
  }

  /** Packets, and no flow that could ever pay for its first one. */
  ghost predicate Stuck(t: St) { Inv(t) && Backlogged(t) && !SomePayable(t) }

  lemma StuckSearches(t: St)
    requires Stuck(t)
    ensures t.list != [] && !Serving(t)
  {
    var i :| 0 <= i < |t.flows| && t.flows[i].q != [];
    assert FlowOk(t.flows[i]);
    if Serving(t) {
      AffordableIsPayable(t.flows[t.list[0]]);
    }
  }

  /** An iteration that finds nothing leaves every flow its packets and its chance to pay. */
  lemma FlowAfterSearch(t: St, i: nat)
    requires Inv(t) && t.list != [] && !Serving(t) && i < |t.flows|
    ensures |Iterate(t).flows| == |t.flows| && Iterate(t).flows[i].q == t.flows[i].q
    ensures Payable(Iterate(t).flows[i]) <==> Payable(t.flows[i])
  {
    var x := t.flows[t.list[0]];
    assert FlowOk(x);
    TurnKeepsPayable(x);
    assert Iterate(t).flows[t.list[0]] == if x.q == [] then x.(listed := false) else TurnOf(x);
  }

  lemma StuckStays(t: St)
    requires Stuck(t)
    ensures t.list != [] && !Serving(t) && Stuck(Iterate(t))
  {
    StuckSearches(t);
    IterateKeeps(t);
    var i :| 0 <= i < |t.flows| && t.flows[i].q != [];
    FlowAfterSearch(t, i);
    forall j | 0 <= j < |Iterate(t).flows| ensures !Payable(Iterate(t).flows[j]) {
      FlowAfterSearch(t, j);
    }
  }

  /** A condition that no ending state meets and every iteration keeps means an endless loop. */
  lemma {:induction false} LoopForever(t: St, n: nat, inv: St -> bool)
    requires inv(t)
    requires forall u: St :: inv(u) ==>
               u.list != [] && !Serving(u) && u.list[0] < |u.flows| && inv(Iterate(u))
    ensures Searching(t, n) && inv(LoopN(t, n))
  {
    if n > 0 {
      LoopForever(t, n - 1, inv);
    }
  }

  lemma StuckForever(t: St, n: nat)
    requires Stuck(t)
    ensures Searching(t, n) && Stuck(LoopN(t, n))
  {
    var inv: St -> bool := u => Stuck(u);
    forall u: St | inv(u)
      ensures u.list != [] && !Serving(u) && u.list[0] < |u.flows| && inv(Iterate(u))
    {
      StuckStays(u);
    }
    LoopForever(t, n, inv);
    assert inv(LoopN(t, n));
  }

  /** A dequeue ends if and only if there are no packets at all or some flow can pay: its first
      packet is no longer than 2^32 - g + credit mod g, with g the greatest common divisor of its
      quantum and 2^32. */
  lemma EndsExactly(t: St)
    requires Inv(t)
    ensures Ends(t) <==> !Backlogged(t) || SomePayable(t)
  {
    if !Backlogged(t) {
      IdleEnds(t);
    } else if SomePayable(t) {
      var i :| 0 <= i < |t.flows| && Payable(t.flows[i]);
      assert FlowOk(t.flows[i]);
      PayableAfterTurns(t.flows[i]);
      var k: nat :| PaidAfter(t.flows[i], k);
      PayableEnds(t, i, k);
    } else if n: nat :| EndsAt(t, n) {
      StuckForever(t, n);
      StuckSearches(LoopN(t, n));
    }
  }

  /** The only flow with packets is served if and only if it can pay. */
  lemma LoneFlow(t: St, h: nat)
    requires Inv(t) && h < |t.flows| && t.flows[h].q != []
    requires forall i :: 0 <= i < |t.flows| && i != h ==> t.flows[i].q == []
    ensures (exists n: nat :: EndsAt(t, n) && Serving(LoopN(t, n))) <==> Payable(t.flows[h])
  {
    EndsExactly(t);
    if n: nat :| EndsAt(t, n) {
      SearchFails(t, n);
    }
  }

  lemma DivisorIsLess(a: nat, g: nat)
    requires a > 0 && g > 0 && a % g == 0
    ensures g <= a
  {}

  /** Lengths up to 2^32 less the quantum can always be paid for. */
  lemma ShortIsPayable(x: Flow, maxLen: nat)
    requires FlowOk(x) && Short(x, maxLen) && x.q != []
    ensures Payable(x)
  {
    GcdDivides(x.quantum, WORD);
    DivisorIsLess(x.quantum, Gcd(x.quantum, WORD));
  }

  lemma BoundedEnds(t: St, maxLen: nat)
    requires Inv(t) && Bounded(t, maxLen)
    ensures Ends(t)
  {
    EndsExactly(t);
    if i :| 0 <= i < |t.flows| && t.flows[i].q != [] {
      assert FlowOk(t.flows[i]) && Short(t.flows[i], maxLen);
      ShortIsPayable(t.flows[i], maxLen);
    }
  }

  lemma DefaultDivisor()
    ensures Gcd(1500, WORD) == 4
  {
    assert Gcd(WORD, 1500) == Gcd(1500, 796) == Gcd(796, 704) == Gcd(704, 92);
    assert Gcd(704, 92) == Gcd(92, 60) == Gcd(60, 32) == Gcd(32, 28) == Gcd(28, 4) == 4;
  }

  /** A length that fits 32 bits and is never served: the default quantum of 1500 moves the
      credit in steps that a packet of 2^32 - 1 bytes falls between. */
  lemma LongestIsNeverServed(id: nat, n: nat)
    ensures var t := St([0], [Flow([Pkt(id, WORD - 1)], 1500, 1500, true)]);
            Inv(t) && Searching(t, n) && LoopN(t, n).list != []
  {
    var x := Flow([Pkt(id, WORD - 1)], 1500, 1500, true);
    var t := St([0], [x]);
    DefaultDivisor();
    assert !Payable(x);
    assert t.flows[0].q != [] && t.list[0] == 0;
    StuckForever(t, n);
    StuckSearches(LoopN(t, n));
  }

  /** `u` is what `n` iterations that find nothing lead to, of the `last` that the dequeue takes. */
  ghost predicate Looking(t: St, n: nat, u: St, last: nat) {
    forall k: nat :: Unseal(k) ==> Inv(t) && Searching(t, n) && u == LoopN(t, n) && n <= last && EndsAt(t, last)
  }

  lemma LookOn(t: St, n: nat, u: St, last: nat, u': St)
    requires Looking(t, n, u, last) && Inv(u) && u.list != [] && !Serving(u) && u' == Iterate(u)
    ensures n < last && Looking(t, n + 1, u', last) && FlowsOk(u')
  {
    assert Unseal(0);
    SearchOn(t, n, u);
  }

  lemma LookDone(t: St, n: nat, u: St, last: nat)
    requires Looking(t, n, u, last) && (u.list == [] || Serving(u))
    ensures EndsAt(t, n) && u == LoopN(t, n) && (Backlogged(t) <==> u.list != [])
  {
    assert Unseal(0);
    SearchFails(t, n);
  }

  lemma LookFirst(t: St) returns (last: nat)
    requires Inv(t) && (!Backlogged(t) || SomePayable(t))
    ensures Looking(t, 0, t, last)
  {
    EndsExactly(t);
    last :| EndsAt(t, last);
  }

  // ----- whole runs -------------------------------------------------------------------------------

  /** Packets arrive; a dequeue is a number of loop iterations. */
  datatype Act = Arrive(flow: nat, pkt: Pkt) | Loop

  ghost predicate Next(t: St, a: Act, t': St) {
    match a
    case Arrive(i, p) => i < |t.flows| && t' == Enqueue(t, i, p)
    case Loop => t.list != [] && t.list[0] < |t.flows| && t' == Iterate(t)
  }

  ghost predicate StepAt(ts: seq<St>, acts: seq<Act>, k: int) {
    0 <= k < |acts| && k + 1 < |ts| && Next(ts[k], acts[k], ts[k + 1])
  }

  ghost predicate IsRun(ts: seq<St>, acts: seq<Act>) {
    && |ts| == |acts| + 1 && Inv(ts[0])
    && (forall k :: 0 <= k < |acts| ==> StepAt(ts, acts, k))
  }

  /** No packet is longer than `maxLen`, now or later. */
  ghost predicate ShortRun(ts: seq<St>, acts: seq<Act>, maxLen: nat) {
    && IsRun(ts, acts) && Bounded(ts[0], maxLen)
    && (forall k :: 0 <= k < |acts| && acts[k].Arrive? ==> acts[k].pkt.len <= maxLen)
  }

  ghost predicate SameQuanta(t: St, t': St) {
    |t'.flows| == |t.flows| && forall i :: 0 <= i < |t.flows| ==> t'.flows[i].quantum == t.flows[i].quantum
  }

  lemma NextKeeps(t: St, a: Act, t': St)
    requires Inv(t) && Next(t, a, t')
    ensures Inv(t')
  {
    match a
    case Arrive(i, p) => EnqueueKeeps(t, i, p);
    case Loop => IterateKeeps(t);
  }

  lemma NextKeepsBounds(t: St, a: Act, t': St, maxLen: nat)
    requires Inv(t) && Bounded(t, maxLen) && Next(t, a, t') && (a.Arrive? ==> a.pkt.len <= maxLen)
    ensures Bounded(t', maxLen)
  {
    match a
    case Arrive(i, p) => EnqueueKeepsBounds(t, maxLen, i, p);
    case Loop => IterateKeepsBounds(t, maxLen);
  }

  lemma NextKeepsQuanta(t: St, a: Act, t': St)
    requires Next(t, a, t')
    ensures SameQuanta(t, t')
  {}

  /** In every run, whatever the lengths: the list is exactly the listed flows, every flow with
      packets is listed, and quanta do not change. */
  lemma {:induction false} RunKeepsInv(ts: seq<St>, acts: seq<Act>, k: nat)
    requires IsRun(ts, acts) && k <= |acts|
    ensures Inv(ts[k]) && SameQuanta(ts[0], ts[k])
  {
    if k > 0 {
      RunKeepsInv(ts, acts, k - 1);
      assert StepAt(ts, acts, k - 1);
      NextKeeps(ts[k - 1], acts[k - 1], ts[k]);
      NextKeepsQuanta(ts[k - 1], acts[k - 1], ts[k]);
    }
  }

  /** In every run of packets that leave room for a quantum, every credit stays below the longest
      packet plus the quantum, so that every dequeue ends. */
  lemma {:induction false} RunKeepsBounds(ts: seq<St>, acts: seq<Act>, maxLen: nat, k: nat)
    requires ShortRun(ts, acts, maxLen) && k <= |acts|
    ensures Inv(ts[k]) && Bounded(ts[k], maxLen) && Ends(ts[k])
  {
    RunKeepsInv(ts, acts, k);
    if k > 0 {
      RunKeepsBounds(ts, acts, maxLen, k - 1);
      assert StepAt(ts, acts, k - 1);
      NextKeepsBounds(ts[k - 1], acts[k - 1], ts[k], maxLen);
    }
    BoundedEnds(ts[k], maxLen);
  }

  // ----- fairness: order in the list ---------------------------------------------------------

  predicate Ahead(list: seq<nat>, i: nat, j: nat) { IndexOf(list, i) < IndexOf(list, j) }

  function AsInt(b: bool): int { if b then 1 else 0 }

  /** Flow `i` is given a turn by this step. */
  predicate Turned(t: St, a: Act, i: nat) { a.Loop? && Turning(t) && t.list[0] == i }

  /** A turn moves a flow from ahead of another one to behind it; nothing else changes their order. */
  lemma TurnsSwapOrder(t: St, a: Act, t': St, i: nat, j: nat)
    requires Inv(t) && Next(t, a, t') && i != j
    requires i in t.list && j in t.list && i in t'.list && j in t'.list
    ensures AsInt(Turned(t, a, i)) - AsInt(Turned(t, a, j)) == AsInt(Ahead(t.list, i, j)) - AsInt(Ahead(t'.list, i, j))
  {
    NextKeeps(t, a, t');
    if a.Loop? {
      if Turning(t) {
        IndexInRotated(t.list, i);
        IndexInRotated(t.list, j);
      }
    } else if t'.list != t.list {
      IndexInAppended(t.list, i, a.flow);
      IndexInAppended(t.list, j, a.flow);
    }
  }

  function Visits(ts: seq<St>, acts: seq<Act>, i: nat, k: nat): nat
    requires k <= |acts| < |ts|
  {
    if k == 0 then 0 else Visits(ts, acts, i, k - 1) + AsInt(Turned(ts[k - 1], acts[k - 1], i))
  }

  ghost predicate Stays(ts: seq<St>, i: nat) { forall k :: 0 <= k < |ts| ==> i in ts[k].list }

  /** Round robin: two flows that stay listed have been visited equally often, or one of
      them once more. */
  lemma {:induction false} VisitsDiffer(ts: seq<St>, acts: seq<Act>, i: nat, j: nat, k: nat)
    requires IsRun(ts, acts) && k <= |acts| && i != j && Stays(ts, i) && Stays(ts, j)
    ensures Visits(ts, acts, i, k) - Visits(ts, acts, j, k)
         == AsInt(Ahead(ts[0].list, i, j)) - AsInt(Ahead(ts[k].list, i, j))
    ensures -1 <= Visits(ts, acts, i, k) - Visits(ts, acts, j, k) <= 1
  {
    if k > 0 {
      VisitsDiffer(ts, acts, i, j, k - 1);
      RunKeepsInv(ts, acts, k - 1);
      assert StepAt(ts, acts, k - 1);
      TurnsSwapOrder(ts[k - 1], acts[k - 1], ts[k], i, j);
    }
  }

  // ----- fairness: bytes -----------------------------------------------------------------------

  /** The bytes of flow `i` that this step sends. */
  function SentBytes(t: St, a: Act, i: nat): nat {
    if a.Loop? && Serving(t) && t.list[0] == i then t.flows[i].q[0].len else 0
  }

  function Bytes(ts: seq<St>, acts: seq<Act>, i: nat, k: nat): nat
    requires k <= |acts| < |ts|
  {
    if k == 0 then 0 else Bytes(ts, acts, i, k - 1) + SentBytes(ts[k - 1], acts[k - 1], i)
  }

  lemma CreditStep(t: St, a: Act, t': St, maxLen: nat, i: nat)
    requires Inv(t) && Bounded(t, maxLen) && Next(t, a, t') && i < |t.flows| && i in t.list && i in t'.list
    ensures |t'.flows| == |t.flows| && t'.flows[i].quantum == t.flows[i].quantum
    ensures t'.flows[i].credit
         == t.flows[i].credit + (if Turned(t, a, i) then t.flows[i].quantum else 0) - SentBytes(t, a, i)
  {
    NextKeeps(t, a, t');
    assert Short(t.flows[i], maxLen);
    if Turning(t) && a.Loop? {
      TurnIsExact(t, maxLen);
    }
  }

  lemma OneMore(v: nat, b: bool, q: nat)
    ensures (v + AsInt(b)) * q == v * q + if b then q else 0
  {}

  /** The credit of a flow that stays listed is what it had, plus a quantum per visit, minus
      the bytes sent. */
  lemma {:induction false} CreditLedger(ts: seq<St>, acts: seq<Act>, maxLen: nat, i: nat, k: nat)
    requires ShortRun(ts, acts, maxLen) && k <= |acts| && Stays(ts, i)
    ensures i < |ts[0].flows| == |ts[k].flows| && ts[k].flows[i].quantum == ts[0].flows[i].quantum
    ensures ts[k].flows[i].credit
         == ts[0].flows[i].credit + Visits(ts, acts, i, k) * ts[0].flows[i].quantum - Bytes(ts, acts, i, k)
  {
    RunKeepsInv(ts, acts, k);
    assert i in ts[0].list;
    if k > 0 {
      CreditLedger(ts, acts, maxLen, i, k - 1);
      RunKeepsBounds(ts, acts, maxLen, k - 1);
      assert StepAt(ts, acts, k - 1) && i in ts[k - 1].list && i in ts[k].list;
      CreditStep(ts[k - 1], acts[k - 1], ts[k], maxLen, i);
      OneMore(Visits(ts, acts, i, k - 1), Turned(ts[k - 1], acts[k - 1], i), ts[0].flows[i].quantum);
    }
  }

  /** What a stretch of a run was for a flow: visits, bytes sent, credit before and after. */
  datatype Tally = Tally(visits: nat, quantum: nat, bytes: nat, before: nat, after: nat)

  ghost predicate Adds(x: Tally, maxLen: nat) {
    && x.after == x.before + x.visits * x.quantum - x.bytes
    && x.before < maxLen + x.quantum && x.after < maxLen + x.quantum
  }

  /** The arithmetic of the bound. */
  lemma FairnessArithmetic(x: Tally, y: Tally, maxLen: nat)
    requires Adds(x, maxLen) && Adds(y, maxLen) && -1 <= x.visits - y.visits <= 1
    ensures var bound := 3 * (x.quantum * y.quantum) + maxLen * (x.quantum + y.quantum);
            -bound <= x.bytes * y.quantum - y.bytes * x.quantum <= bound
  {
    var e, e', qq := x.before - x.after, y.before - y.after, x.quantum * y.quantum;
    Scaled(x.bytes, x.visits, x.quantum, e, y.quantum, qq);
    Scaled(y.bytes, y.visits, y.quantum, e', x.quantum, qq);
    assert (x.visits - y.visits) * qq == x.visits * qq - y.visits * qq;
    Within(x.visits - y.visits, 1, qq);
    Within(e, maxLen + x.quantum, y.quantum);
    Within(e', maxLen + y.quantum, x.quantum);
    Expand(maxLen, x.quantum, y.quantum, qq);
  }

  lemma Scaled(b: int, v: int, q: int, e: int, m: int, qm: int)
    requires b == v * q + e && qm == q * m
    ensures b * m == v * qm + e * m
  {
    assert v * (q * m) == (v * q) * m;
  }

  lemma Expand(maxLen: nat, q: nat, q': nat, qq: nat)
    requires qq == q * q'
    ensures (maxLen + q) * q' + (maxLen + q') * q == 2 * qq + maxLen * (q + q')
  {}

  lemma Within(x: int, bound: nat, m: nat)
    requires 0 - bound <= x <= bound
    ensures 0 - bound * m <= x * m <= bound * m
  {}

  /** Deficit round robin is fair over every run: for two flows that stay listed, the bytes
      served in proportion to the quanta differ by a constant, however long the run. */
  lemma Fairness(ts: seq<St>, acts: seq<Act>, maxLen: nat, i: nat, j: nat, k: nat)
    requires ShortRun(ts, acts, maxLen) && k <= |acts| && i != j && Stays(ts, i) && Stays(ts, j)
    ensures i < |ts[0].flows| && j < |ts[0].flows|
    ensures var (q, q') := (ts[0].flows[i].quantum, ts[0].flows[j].quantum);
            var bound := 3 * (q * q') + maxLen * (q + q');
            -bound <= Bytes(ts, acts, i, k) * q' - Bytes(ts, acts, j, k) * q <= bound
  {
    RunKeepsBounds(ts, acts, maxLen, k);
    CreditLedger(ts, acts, maxLen, i, k);
    CreditLedger(ts, acts, maxLen, j, k);
    VisitsDiffer(ts, acts, i, j, k);
    var x, x', y, y' := ts[0].flows[i], ts[k].flows[i], ts[0].flows[j], ts[k].flows[j];
    assert Short(x, maxLen) && Short(x', maxLen) && Short(y, maxLen) && Short(y', maxLen);
    FairnessArithmetic(
      Tally(Visits(ts, acts, i, k), x.quantum, Bytes(ts, acts, i, k), x.credit, x'.credit),
      Tally(Visits(ts, acts, j, k), y.quantum, Bytes(ts, acts, j, k), y.credit, y'.credit), maxLen);
  }

  // ----- nothing lost or reordered within a flow --------------------------------------------------

  function Added(t: St, a: Act, i: nat): seq<Pkt> {
    if a.Arrive? && a.flow == i < |t.flows| && |t.flows[i].q| < QUEUE_LIMIT then [a.pkt] else []
  }

  function Removed(t: St, a: Act, i: nat): seq<Pkt> {
    if a.Loop? && Serving(t) && t.list[0] == i then [t.flows[i].q[0]] else []
  }

  function Accepted(ts: seq<St>, acts: seq<Act>, i: nat, k: nat): seq<Pkt>
    requires k <= |acts| < |ts|
  {
    if k == 0 then [] else Accepted(ts, acts, i, k - 1) + Added(ts[k - 1], acts[k - 1], i)
  }

  function Sent(ts: seq<St>, acts: seq<Act>, i: nat, k: nat): seq<Pkt>
    requires k <= |acts| < |ts|
  {
    if k == 0 then [] else Sent(ts, acts, i, k - 1) + Removed(ts[k - 1], acts[k - 1], i)
  }

  lemma NextOnQueue(t: St, a: Act, t': St, i: nat)
    requires Next(t, a, t') && i < |t.flows|
    ensures |t'.flows| == |t.flows| && t.flows[i].q + Added(t, a, i) == Removed(t, a, i) + t'.flows[i].q
  {}

  /** What a flow had plus what was accepted is what was sent plus what it has, in order. */
  lemma {:induction false} FlowConservation(ts: seq<St>, acts: seq<Act>, i: nat, k: nat)
    requires IsRun(ts, acts) && k <= |acts| && i < |ts[0].flows|
    ensures |ts[k].flows| == |ts[0].flows|
    ensures ts[0].flows[i].q + Accepted(ts, acts, i, k) == Sent(ts, acts, i, k) + ts[k].flows[i].q
  {
    if k > 0 {
      FlowConservation(ts, acts, i, k - 1);
      assert StepAt(ts, acts, k - 1);
      var t, a, t' := ts[k - 1], acts[k - 1], ts[k];
      NextOnQueue(t, a, t', i);
      Regroup(ts[0].flows[i].q, Accepted(ts, acts, i, k - 1), Sent(ts, acts, i, k - 1), t.flows[i].q,
              Added(t, a, i), Removed(t, a, i), t'.flows[i].q);
    }
  }
}
