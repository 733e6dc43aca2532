/** The deficit round robin scheduler in place: one record per flow, linked in a circle by
    `qnext`.  A reference to a queue is its number in the table of flows, -1 for none. */
module Drr {
  import opened Common
  import opened DrrModel

  datatype RrQueue = RrQueue(mq: seq<Pkt>, status: int, credit: nat, quantum: nat, qnext: int)

  const NIL := -1

  // ----- the circle ------------------------------------------------------------------------

  /** From `head` the links run through `list` to `tail` and back. */
  ghost predicate Linked(fq: seq<RrQueue>, head: int, tail: int, list: seq<nat>) {
    if list == [] then head == NIL && tail == NIL
    else
      && head == list[0] && tail == list[|list| - 1]
      && (forall k :: 0 <= k < |list| ==> list[k] < |fq|)
      && (forall k :: 0 <= k < |list| - 1 ==> fq[list[k]].qnext == list[k + 1])
      && fq[list[|list| - 1]].qnext == list[0]
  }

  /** Only the links matter. */
  lemma LinkedFrame(fq: seq<RrQueue>, head: int, tail: int, list: seq<nat>, i: nat, x: RrQueue)
    requires Linked(fq, head, tail, list) && i < |fq| && x.qnext == fq[i].qnext
    ensures Linked(fq[i := x], head, tail, list)
  {}

  lemma LinkAppend(fq: seq<RrQueue>, head: int, tail: int, list: seq<nat>, i: nat, fq': seq<RrQueue>)
    requires Linked(fq, head, tail, list) && i < |fq| == |fq'| && NoRepeats(list) && i !in list
    requires forall j :: 0 <= j < |fq| && j != i && j != tail ==> fq'[j].qnext == fq[j].qnext
    requires list != [] ==> fq'[tail].qnext == i && fq'[i].qnext == head
    requires list == [] ==> fq'[i].qnext == i
    ensures Linked(fq', if list == [] then i else head, i, list + [i])
  {
    var r := list + [i];
    forall k | 0 <= k < |r| - 1 ensures fq'[r[k]].qnext == r[k + 1] {
      assert k < |list| - 1 ==> list[k] != list[|list| - 1];
    }
  }

  lemma LinkRemove(fq: seq<RrQueue>, head: int, tail: int, list: seq<nat>, fq': seq<RrQueue>)
    requires Linked(fq, head, tail, list) && |list| > 1 && NoRepeats(list) && |fq'| == |fq|
    requires forall j :: 0 <= j < |fq| && j != tail ==> fq'[j].qnext == fq[j].qnext
    requires fq'[tail].qnext == fq[head].qnext
    ensures Linked(fq', fq[head].qnext, tail, list[1..])
  {
    var r := list[1..];
    forall k | 0 <= k < |r| - 1 ensures fq'[r[k]].qnext == r[k + 1] {
      assert list[k + 1] != list[|list| - 1];
    }
  }

  lemma LinkRotate(fq: seq<RrQueue>, head: int, tail: int, list: seq<nat>)
    requires Linked(fq, head, tail, list) && list != []
    ensures Linked(fq, fq[head].qnext, fq[tail].qnext, Rotated(list))
  {
    var r := Rotated(list);
    assert forall k :: 0 <= k < |r| ==> r[k] == if k < |r| - 1 then list[k + 1] else list[0];
  }

  // ----- how the records represent the flows ------------------------------------------------

  ghost predicate Records(x: RrQueue, y: Flow) {
    x.mq == y.q && x.credit == y.credit && x.quantum == y.quantum && x.status == if y.listed then 1 else 0
  }

  ghost predicate Mirrors(fq: seq<RrQueue>, flows: seq<Flow>) {
    |fq| == |flows| && forall i :: 0 <= i < |fq| ==> Records(fq[i], flows[i])
  }

  lemma TotalZero(flows: seq<Flow>)
    requires forall i :: 0 <= i < |flows| ==> !flows[i].listed
    ensures Total(flows) == 0
  {
    SumZero(Shares(flows));
  }

  lemma {:induction false} SumZero(ns: seq<nat>)
    requires forall i :: 0 <= i < |ns| ==> ns[i] == 0
    ensures Sum(ns) == 0
  {
    if ns != [] {
      SumZero(ns[..|ns| - 1]);
    }
  }

  ghost predicate Represents(fq: seq<RrQueue>, head: int, tail: int, qTot: nat, t: St) {
    Unit(Linked(fq, head, tail, t.list) && Mirrors(fq, t.flows) && qTot == Total(t.flows) && ListOk(t))
  }

  /** Changing the packets or the credit of one flow. */
  lemma RepresentsPut(fq: seq<RrQueue>, head: int, tail: int, qTot: nat, t: St, i: nat, x: RrQueue, y: Flow)
    requires Represents(fq, head, tail, qTot, t) && i < |t.flows| && Records(x, y)
    requires i < |fq| && x.qnext == fq[i].qnext && y.listed == t.flows[i].listed
    requires y.listed ==> y.quantum == t.flows[i].quantum
    ensures Represents(fq[i := x], head, tail, qTot, Put(t, i, y))
  {
    LinkedFrame(fq, head, tail, t.list, i, x);
    TotalPut(t.flows, i, y);
  }

  lemma RepresentsRecord(fq: seq<RrQueue>, head: int, tail: int, qTot: nat, t: St, i: nat)
    requires Represents(fq, head, tail, qTot, t)
    ensures |fq| == |t.flows| && (i < |fq| ==> Records(fq[i], t.flows[i]))
    ensures t.list == [] <==> head == NIL
    ensures t.list != [] ==> head == t.list[0] < |fq|
  {}

  function Unmarked(fq: seq<RrQueue>, i: int): seq<RrQueue>
    requires 0 <= i < |fq|
  {
    fq[i := fq[i].(status := 0)]
  }

  /** The records after the head has left the circle. */
  lemma RemoveRepresents(fq: seq<RrQueue>, head: int, tail: int, qTot: nat, t: St)
    requires Represents(fq, head, tail, qTot, t) && t.list != []
    ensures 0 <= head < |fq| && 0 <= tail < |fq| && fq[head].quantum <= qTot && t.list[0] < |t.flows|
    ensures head == tail ==> Represents(Unmarked(fq, head), NIL, NIL, qTot - fq[head].quantum, RemoveHead(t))
    ensures head != tail ==>
      Represents(Unmarked(fq, head)[tail := Unmarked(fq, head)[tail].(qnext := fq[head].qnext)], fq[head].qnext, tail,
                 qTot - fq[head].quantum, RemoveHead(t))
  {
    RemoveListOk(t);
    TotalPut(t.flows, t.list[0], RemoveHead(t).flows[t.list[0]]);
    if head != tail {
      LinkRemove(fq, head, tail, t.list,
          Unmarked(fq, head)[tail := Unmarked(fq, head)[tail].(qnext := fq[head].qnext)]);
    }
  }

  lemma RepresentsInv(fq: seq<RrQueue>, head: int, tail: int, qTot: nat, t: St)
    requires Represents(fq, head, tail, qTot, t)
    ensures ListOk(t)
  {}

  function BoundVar(v: int, dflt: int, lo: int, hi: int): int {
    if v < lo then dflt else if v > hi then hi else v
  }

  function Clip(quantum: int): int { if quantum >= WORD then WORD - 1 else quantum }

  /** The quantum of a new queue: weight times step, both bounded, clipped to 32 bits. */
  function NewQuantum(weight: int, step: int): int {
    Clip(BoundVar(weight, 1, 1, 65536) * BoundVar(step, 1500, 60, 2048))
  }

  /** The clipping never happens: the bounds already keep the product below 2^32. */
  lemma QuantumIsProduct(weight: int, step: int)
    ensures NewQuantum(weight, step) == BoundVar(weight, 1, 1, 65536) * BoundVar(step, 1500, 60, 2048)
    ensures 60 <= NewQuantum(weight, step) <= 0x800_0000
  {
    Monotone(1, BoundVar(weight, 1, 1, 65536), BoundVar(step, 1500, 60, 2048));
    Monotone(BoundVar(weight, 1, 1, 65536), 65536, BoundVar(step, 1500, 60, 2048));
  }

  class Rr {
    const fq: array<RrQueue>
    var head: int
    var tail: int
    var qTot: nat
    ghost var st: St

    /** The list is consistent; what the flows hold is not looked at. */
    ghost predicate Consistent()
      reads this, fq
    {
      Represents(fq[..], head, tail, qTot, st)
    }

    ghost predicate Valid()
      reads this, fq
    {
      Consistent() && FlowsOk(st)
    }

    constructor (weights: seq<int>, steps: seq<int>)
      requires |weights| == |steps|
      ensures Valid() && fresh(fq) && st.list == [] && |st.flows| == |weights|
      ensures forall i :: 0 <= i < |weights| ==>
                st.flows[i] == Flow([], NewQuantum(weights[i], steps[i]), NewQuantum(weights[i], steps[i]), false)
    {
      forall i | 0 <= i < |weights| ensures 60 <= NewQuantum(weights[i], steps[i]) < WORD {
        QuantumIsProduct(weights[i], steps[i]);
      }
      fq := new RrQueue[|weights|](i requires 0 <= i < |weights| == |steps| && NewQuantum(weights[i], steps[i]) >= 0 =>
        var q := NewQuantum(weights[i], steps[i]); RrQueue([], 0, q, q, NIL));
      head, tail, qTot := NIL, NIL, 0;
      st := St([], seq(|weights|, i requires 0 <= i < |weights| && NewQuantum(weights[i], steps[i]) >= 0 =>
        var q := NewQuantum(weights[i], steps[i]); Flow([], q, q, false)));
      new;
      TotalZero(st.flows);
    }

    /** Append a flow to the circle. */
    method Append(i: nat)
      requires Consistent() && i < |st.flows| && !st.flows[i].listed
      modifies this, fq
      ensures Consistent() && st == DrrModel.Append(old(st), i)
    {
      ghost var f, t, head0 := fq[..], st, head;
      RepresentsRecord(f, head, tail, qTot, t, i);
      AppendListOk(t, i);
      TotalPut(t.flows, i, DrrModel.Append(t, i).flows[i]);
      fq[i] := fq[i].(status := 1, credit := fq[i].quantum);
      qTot := qTot + fq[i].quantum;
      if head == NIL {
        head := i;
      } else {
        fq[tail] := fq[tail].(qnext := i);
      }
      ghost var tail0 := tail;
      tail := i;
      fq[i] := fq[i].(qnext := head);
      LinkAppend(f, head0, tail0, t.list, i, fq[..]);
      st := DrrModel.Append(t, i);
    }

    /** Remove the head from the circle; an empty circle is left alone. */
    method RemoveHead()
      requires Consistent()
      modifies this, fq
      ensures Consistent() && old(st.list == [] || st.list[0] < |st.flows|)
      ensures st == if old(st).list == [] then old(st) else DrrModel.RemoveHead(old(st))
    {
      ghost var f, t, h := fq[..], st, head;
      RepresentsRecord(f, head, tail, qTot, t, 0);
      if head == NIL {
        return;
      }
      RemoveRepresents(f, head, tail, qTot, t);
      fq[head] := fq[head].(status := 0);
      qTot := qTot - fq[head].quantum;
      st := DrrModel.RemoveHead(t);
      if head == tail {
        head, tail := NIL, NIL;
        assert fq[..] == Unmarked(f, h);
      } else {
        head := fq[head].qnext;
        fq[tail] := fq[tail].(qnext := head);
        assert fq[..] == Unmarked(f, h)[tail := Unmarked(f, h)[tail].(qnext := head)];
      }
    }

    /** Rotate the circle; an empty one is left alone. */
    method NextPointer()
      requires Consistent()
      modifies `head, `tail, `st
      ensures Consistent()
      ensures st == if old(st).list == [] then old(st) else old(st).(list := Rotated(old(st).list))
    {
      RepresentsRecord(fq[..], head, tail, qTot, st, 0);
      if head == NIL {
        return;
      }
      LinkRotate(fq[..], head, tail, st.list);
      RotateKeeps(st);
      head, tail := fq[head].qnext, fq[tail].qnext;
      st := st.(list := Rotated(st.list));
    }

    /** A packet for flow `i`; a full queue drops it. */
    method Enqueue(i: nat, p: Pkt) returns (dropped: bool)
      requires Valid() && i < |st.flows|
      modifies this, fq
      ensures Valid() && DrrModel.Next(old(st), Arrive(i, p), st)
      ensures dropped <==> |old(st).flows[i].q| >= QUEUE_LIMIT
    {
      ghost var f, t := fq[..], st;
      RepresentsRecord(f, head, tail, qTot, t, i);
      RepresentsInv(f, head, tail, qTot, t);
      EnqueueKeeps(t, i, p);
      dropped := |fq[i].mq| >= QUEUE_LIMIT;
      if dropped {
        return;
      }
      var x := fq[i].(mq := fq[i].mq + [p]);
      st := Put(t, i, t.flows[i].(q := x.mq));
      RepresentsPut(f, head, tail, qTot, t, i, x, st.flows[i]);
      fq[i] := x;
      assert fq[..] == f[i := x];
      if |x.mq| > 1 || x.status == 1 {
        return;
      }
      Append(i);
    }

    /** The head pays for its packet and gives it up. */
    method ServeHead() returns (p: Pkt)
      requires Valid() && Serving(st)
      modifies `st, fq
      ensures Valid() && p == old(st).flows[old(st).list[0]].q[0] && st == Iterate(old(st))
    {
      ghost var f, t := fq[..], st;
      RepresentsRecord(f, head, tail, qTot, t, t.list[0]);
      RepresentsInv(f, head, tail, qTot, t);
      IterateKeeps(t);
      p := fq[head].mq[0];
      var x := fq[head].(credit := fq[head].credit - p.len, mq := fq[head].mq[1..]);
      st := Iterate(t);
      RepresentsPut(f, head, tail, qTot, t, head, x, st.flows[head]);
      fq[head] := x;
      assert fq[..] == f[head := x];
    }

    /** The head earns a quantum and the turn passes on. */
    method Turn()
      requires Valid() && Turning(st)
      modifies `head, `tail, `st, fq
      ensures Valid() && st == Iterate(old(st))
    {
      ghost var f, t := fq[..], st;
      RepresentsRecord(f, head, tail, qTot, t, t.list[0]);
      RepresentsInv(f, head, tail, qTot, t);
      IterateKeeps(t);
      var x := fq[head].(credit := (fq[head].credit + fq[head].quantum) % WORD);
      st := Put(t, head, Iterate(t).flows[head]);
      RepresentsPut(f, head, tail, qTot, t, head, x, st.flows[head]);
      fq[head] := x;
      assert fq[..] == f[head := x];
      NextPointer();
    }

    /** The next packet.  The loop ends exactly if there is no packet at all or some flow can come
        to pay for its first one; the search fails only if no flow has any. */
    method Dequeue() returns (found: bool, p: Pkt, ghost n: nat)
      requires Valid() && (!Backlogged(st) || SomePayable(st))
      modifies this, fq
      ensures Valid() && EndsAt(old(st), n)
      ensures var t := LoopN(old(st), n);
              if found then Serving(t) && p == t.flows[t.list[0]].q[0] && st == Iterate(t)
              else t.list == [] && st == t
      ensures found <==> Backlogged(old(st))
    {
      n := 0;
      ghost var t := st;
      RepresentsInv(fq[..], head, tail, qTot, t);
      ghost var last := LookFirst(t);
      found, p := false, Pkt(0, 0);
      while head != NIL
        invariant Valid() && Looking(t, n, st, last)
        decreases last - n
      {
        RepresentsRecord(fq[..], head, tail, qTot, st, head);
        RepresentsInv(fq[..], head, tail, qTot, st);
        ghost var u := st;
        if fq[head].mq == [] {
          RemoveHead();
        } else if fq[head].mq[0].len > fq[head].credit {
          Turn();
        } else {
          LookDone(t, n, u, last);
          p := ServeHead();
          found := true;
          return;
        }
        LookOn(t, n, u, last, st);
        n := n + 1;
      }
      RepresentsRecord(fq[..], head, tail, qTot, st, 0);
      LookDone(t, n, st, last);
    }

    /** Set up the record of an unused flow; if it comes with packets it is listed at once. */
    method NewQueue(i: nat, weight: int, step: int, mq: seq<Pkt>)
      requires Valid() && i < |st.flows| && !st.flows[i].listed
      modifies this, fq
      ensures Valid() && |st.flows| == |old(st).flows|
      ensures st.flows == old(st).flows[i := Flow(mq, NewQuantum(weight, step), NewQuantum(weight, step), mq != [])]
      ensures st.list == if mq == [] then old(st).list else old(st).list + [i]
    {
      ghost var f, t := fq[..], st;
      RepresentsRecord(f, head, tail, qTot, t, i);
      QuantumIsProduct(weight, step);
      var q := NewQuantum(weight, step);
      var x := fq[i].(mq := mq, quantum := q, credit := q, status := 0);
      st := Put(t, i, Flow(mq, q, q, false));
      RepresentsPut(f, head, tail, qTot, t, i, x, st.flows[i]);
      fq[i] := x;
      assert fq[..] == f[i := x];
      if mq != [] {
        Append(i);
      }
      FlowsOkPut(t, i, Flow(mq, q, q, mq != []), st);
    }
  }
}
