/** Steps of the host on a queue that the driver shares with it, and turns made of them. */
module PackedSteps {
  import opened Common
  import opened PackedEvents
  import opened PackedModel
  import opened PackedLayout
  import opened PackedVirtq

  // ----- what the scheduler holds ---------------------------------------------------------------------

  /** `owned` lists the ids of the buffers in `held`; `bufs` says which they are. */
  ghost predicate Lists(held: set<nat>, idOf: seq<nat>, owned: seq<nat>, bufs: seq<nat>) {
    && |owned| == |bufs|
    && (forall i :: 0 <= i < |bufs| ==> bufs[i] in held && bufs[i] < |idOf| && idOf[bufs[i]] == owned[i])
    && (forall i, j :: 0 <= i < j < |bufs| ==> bufs[i] != bufs[j])
    && (forall b :: b in held ==> b in bufs)
  }

  /** The same as one sealed fact. */
  ghost predicate Owns(held: set<nat>, idOf: seq<nat>, owned: seq<nat>, bufs: seq<nat>) {
    forall k: nat :: Unseal(k) ==> Lists(held, idOf, owned, bufs)
  }

  lemma OwnsLonger(held: set<nat>, idOf: seq<nat>, owned: seq<nat>, bufs: seq<nat>, idOf': seq<nat>)
    requires Owns(held, idOf, owned, bufs) && idOf <= idOf'
    ensures Owns(held, idOf', owned, bufs)
  {
    assert Unseal(0);
  }

  lemma OwnsOneMore(held: set<nat>, idOf: seq<nat>, owned: seq<nat>, bufs: seq<nat>, b: nat)
    requires Owns(held, idOf, owned, bufs) && b !in held && b < |idOf|
    ensures Owns(held + {b}, idOf, owned + [idOf[b]], bufs + [b])
  {
    assert Unseal(0);
    assert (bufs + [b])[|bufs|] == b;
    forall c | c in held + {b} ensures c in bufs + [b] {
      assert c == b || c in bufs;
    }
  }

  lemma OwnsAt(held: set<nat>, idOf: seq<nat>, owned: seq<nat>, bufs: seq<nat>, i: nat)
    requires Owns(held, idOf, owned, bufs) && i < |owned|
    ensures |bufs| == |owned| && bufs[i] in held && bufs[i] < |idOf| && idOf[bufs[i]] == owned[i]
  {
    assert Unseal(0);
  }

  lemma OwnsOneLess(held: set<nat>, idOf: seq<nat>, owned: seq<nat>, bufs: seq<nat>, i: nat)
    requires Owns(held, idOf, owned, bufs) && i < |owned| == |bufs|
    ensures Owns(held - {bufs[i]}, idOf, owned[..i] + owned[i + 1..], bufs[..i] + bufs[i + 1..])
  {
    assert Unseal(0);
    var rest := bufs[..i] + bufs[i + 1..];
    forall c | c in held - {bufs[i]} ensures c in rest {
      var j :| 0 <= j < |bufs| && bufs[j] == c;
      assert c == rest[if j < i then j else j - 1];
    }
  }

  // ----- a sound queue ----------------------------------------------------------------------------------

  /** The queue is valid, as one sealed fact. */
  ghost predicate SealedValid(q: Virtq)
    reads q`g, q`h, q`ring, q`book, q`driverEvent, q`deviceEvent, q`driverPos, q`devicePos, q.desc, q.state, q.hvMap
  {
    forall k: nat :: Unseal(k) ==> q.Valid()
  }

  /** The queue is valid, the credit exact, and the scheduler knows what it holds. */
  ghost predicate Sound(q: Virtq)
    reads q, q.desc, q.state, q.hvMap
  {
    && 0 < q.n && q.ring.gUsed <= q.ring.hUsed <= q.ring.hAvail <= q.ring.gAvail && q.Credit()
    && SealedValid(q)
    && Owns(q.ring.held, q.book.idOf, q.owned, q.ownedBufs)
  }

  lemma QueueInv(m: Mem, h: HostMem, k: Book, r: Ring)
    requires QueueOk(m, h, k, r)
    ensures Inv(r) && h.pending == r.hAvail - r.hUsed && |k.idOf| == |r.bufs| == r.gAvail
  {}

  // ----- one step of the host -----------------------------------------------------------------------

  /** What a step of the host may change. */
  ghost predicate HostMoved(r: Ring, q: Ring) {
    && q.n == r.n && q.gUsed == r.gUsed && q.gAvail == r.gAvail && q.bufs == r.bufs
    && r.hUsed <= q.hUsed && r.hAvail <= q.hAvail
  }

  lemma HostMoves(r: Ring, s: Step, q: Ring)
    requires Inv(r) && Enabled(r, s) && (s.Acquire? || s.Release? || s.Drain?) && q == Apply(r, s)
    ensures HostMoved(r, q) && q.hAvail == r.hAvail + (if s.Release? then 0 else 1)
    ensures q.gUsed <= q.hUsed <= q.hAvail <= q.gAvail
  {
    StepKeepsInv(r, s);
  }

  lemma HeldAfter(r: Ring, v: Verdict)
    requires Inv(r) && r.hAvail < r.gAvail
    ensures r.hAvail !in r.held
    ensures Apply(r, Acquire(v)).held == if v == Enqueued then r.held + {r.hAvail} else r.held
  {
    assert r.at[r.hAvail] == r.hAvail;
    assert r.pos[r.hAvail] == r.hAvail;
  }

  lemma OwnedAfter(r: Ring, v: Verdict, r': Ring, idOf: seq<nat>, owned: seq<nat>, bufs: seq<nat>)
    requires Inv(r) && r.hAvail < r.gAvail && r' == Apply(r, Acquire(v)) && r.hAvail < |idOf|
    requires Owns(r.held, idOf, owned, bufs)
    ensures v == Enqueued ==> Owns(r'.held, idOf, owned + [idOf[r.hAvail]], bufs + [r.hAvail])
    ensures v != Enqueued ==> Owns(r'.held, idOf, owned, bufs)
  {
    HeldAfter(r, v);
    if v == Enqueued {
      OwnsOneMore(r.held, idOf, owned, bufs, r.hAvail);
    }
  }

  /** Take a descriptor, on a valid queue. */
  method AcquireValid(q: Virtq, v: Verdict) returns (id: nat)
    requires SealedValid(q) && q.ring.hAvail < q.ring.gAvail
    modifies q`h, q.desc, q.hvMap, q`ring, q`book
    ensures SealedValid(q) && q.book.idOf == old(q.book.idOf)
    ensures Inv(old(q.ring)) && q.ring == Apply(old(q.ring), Acquire(v))
    ensures old(q.ring).hAvail < |q.book.idOf| && id == q.book.idOf[old(q.ring).hAvail]
    ensures q.h.pendingUsed - old(q.h).pendingUsed == q.ring.hUsed - old(q.ring).hUsed
  {
    assert Unseal(0);
    QueueInv(q.View(), q.HostView(), q.book, q.ring);
    id := q.AcquireOne(v);
  }

  method SetOwned(q: Virtq, owned: seq<nat>, ghost bufs: seq<nat>)
    requires SealedValid(q) && Owns(q.ring.held, q.book.idOf, owned, bufs)
    modifies q`owned, q`ownedBufs
    ensures SealedValid(q) && Owns(q.ring.held, q.book.idOf, q.owned, q.ownedBufs)
  {
    q.owned := owned;
    q.ownedBufs := bufs;
  }

  /** And remember what the scheduler was handed. */
  method AcquireOwned(q: Virtq, v: Verdict)
    requires SealedValid(q) && q.ring.hAvail < q.ring.gAvail && Owns(q.ring.held, q.book.idOf, q.owned, q.ownedBufs)
    modifies q`h, q.desc, q.hvMap, q`ring, q`book, q`owned, q`ownedBufs
    ensures SealedValid(q) && Owns(q.ring.held, q.book.idOf, q.owned, q.ownedBufs)
    ensures Inv(old(q.ring)) && q.ring == Apply(old(q.ring), Acquire(v))
    ensures q.h.pendingUsed - old(q.h).pendingUsed == q.ring.hUsed - old(q.ring).hUsed
  {
    ghost var r := q.ring;
    var id := AcquireValid(q, v);
    OwnedAfter(r, v, q.ring, q.book.idOf, q.owned, q.ownedBufs);
    if v == Enqueued {
      SetOwned(q, q.owned + [id], q.ownedBufs + [r.hAvail]);
    }
  }

  method TakeOne(q: Virtq, v: Verdict, ghost r0: Ring, ghost steps: seq<Step>) returns (ghost steps': seq<Step>)
    requires Sound(q) && Ran(r0, steps, q.ring) && q.ring.hAvail < q.ring.gAvail
    modifies q`h, q.desc, q.hvMap, q`ring, q`book, q`owned, q`ownedBufs
    ensures Sound(q) && Ran(r0, steps', q.ring) && Takes(steps') == Takes(steps) + 1
    ensures HostMoved(old(q.ring), q.ring) && q.ring.hAvail == old(q.ring).hAvail + 1
    ensures q.h.pendingUsed - old(q.h).pendingUsed == q.ring.hUsed - old(q.ring).hUsed
  {
    ghost var r, s := q.ring, Acquire(v);
    AcquireOwned(q, v);
    HostMoves(r, s, q.ring);
    RanOneMore(r0, steps, r, s, q.ring);
    TakesOneMore(steps, s);
    steps' := steps + [s];
  }

  /** Send one on the spot, on a valid queue. */
  method DrainValid(q: Virtq)
    requires SealedValid(q) && Enabled(q.ring, Drain)
    modifies q`h, q.desc, q`ring
    ensures SealedValid(q) && Inv(old(q.ring)) && q.ring == Apply(old(q.ring), Drain)
  {
    assert Unseal(0);
    QueueInv(q.View(), q.HostView(), q.book, q.ring);
    q.DrainOne();
  }

  method SendOne(q: Virtq, ghost r0: Ring, ghost steps: seq<Step>) returns (ghost steps': seq<Step>)
    requires Sound(q) && Ran(r0, steps, q.ring) && Enabled(q.ring, Drain)
    modifies q`h, q.desc, q`ring
    ensures Sound(q) && Ran(r0, steps', q.ring) && Takes(steps') == Takes(steps) + 1
    ensures HostMoved(old(q.ring), q.ring) && q.ring.hAvail == q.ring.hUsed == old(q.ring).hAvail + 1
  {
    ghost var r, s := q.ring, Drain;
    DrainValid(q);
    HostMoves(r, s, q.ring);
    RanOneMore(r0, steps, r, s, q.ring);
    TakesOneMore(steps, s);
    steps' := steps + [s];
  }

  /** Give back buffer `b`, on a valid queue. */
  method ReleaseValid(q: Virtq, id: nat, ghost b: nat)
    requires SealedValid(q) && b in q.ring.held && b < |q.book.idOf| && q.book.idOf[b] == id
    modifies q`h, q.desc, q.hvMap, q`ring, q`book
    ensures SealedValid(q) && q.book.idOf == old(q.book.idOf)
    ensures Inv(old(q.ring)) && q.ring == Apply(old(q.ring), Release(b))
  {
    assert Unseal(0);
    QueueInv(q.View(), q.HostView(), q.book, q.ring);
    q.Release(id, b);
  }

  /** Give back the `i`-th buffer the scheduler holds. */
  method ReleaseOwned(q: Virtq, i: nat, ghost b: nat)
    requires SealedValid(q) && Owns(q.ring.held, q.book.idOf, q.owned, q.ownedBufs)
    requires i < |q.owned| == |q.ownedBufs| && b == q.ownedBufs[i]
    modifies q`h, q.desc, q.hvMap, q`ring, q`book, q`owned, q`ownedBufs
    ensures SealedValid(q) && Owns(q.ring.held, q.book.idOf, q.owned, q.ownedBufs)
    ensures Inv(old(q.ring)) && b in old(q.ring).held && q.ring == Apply(old(q.ring), Release(b))
  {
    OwnsAt(q.ring.held, q.book.idOf, q.owned, q.ownedBufs, i);
    OwnsOneLess(q.ring.held, q.book.idOf, q.owned, q.ownedBufs, i);
    ReleaseValid(q, q.owned[i], b);
    SetOwned(q, q.owned[..i] + q.owned[i + 1..], q.ownedBufs[..i] + q.ownedBufs[i + 1..]);
  }

  method GiveBackOne(q: Virtq, i: nat, ghost r0: Ring, ghost steps: seq<Step>) returns (ghost steps': seq<Step>)
    requires Sound(q) && Ran(r0, steps, q.ring) && i < |q.owned|
    modifies q`h, q.desc, q.hvMap, q`ring, q`book, q`owned, q`ownedBufs
    ensures Sound(q) && Ran(r0, steps', q.ring) && Takes(steps') == Takes(steps)
    ensures HostMoved(old(q.ring), q.ring) && q.ring.hAvail == old(q.ring).hAvail
  {
    OwnsAt(q.ring.held, q.book.idOf, q.owned, q.ownedBufs, i);
    ghost var r, s := q.ring, Release(q.ownedBufs[i]);
    ReleaseOwned(q, i, q.ownedBufs[i]);
    HostMoves(r, s, q.ring);
    RanOneMore(r0, steps, r, s, q.ring);
    TakesOneMore(steps, s);
    steps' := steps + [s];
  }

  // ----- a turn of the host ----------------------------------------------------------------------------

  /** What the host may do to the ring: take a descriptor for the scheduler, give back the `i`-th
      buffer that holds, or send one on the spot.  What is not possible is left undone. */
  datatype HostAct = Take(verdict: Verdict) | GiveBack(i: nat) | Send

  method CanTake(q: Virtq) returns (more: bool, idle: bool)
    requires Sound(q)
    ensures more <==> q.ring.hAvail < q.ring.gAvail
    ensures idle <==> q.ring.hUsed == q.ring.hAvail
  {
    assert Unseal(0);
    QueueInv(q.View(), q.HostView(), q.book, q.ring);
    more := q.MoreAvail();
    idle := q.h.pendingInuse == 0;
  }

  method HostActs(q: Virtq, a: HostAct, ghost r0: Ring, ghost steps: seq<Step>) returns (ghost steps': seq<Step>)
    requires Sound(q) && Ran(r0, steps, q.ring)
    modifies q`h, q.desc, q.hvMap, q`ring, q`book, q`owned, q`ownedBufs
    ensures Sound(q) && Ran(r0, steps', q.ring) && HostMoved(old(q.ring), q.ring)
    ensures Takes(steps') == Takes(steps) + (q.ring.hAvail - old(q.ring).hAvail)
  {
    var more, idle := CanTake(q);
    steps' := steps;
    match a
    case Take(v) =>
      if more {
        steps' := TakeOne(q, v, r0, steps);
      }
    case GiveBack(i) =>
      if i < |q.owned| {
        steps' := GiveBackOne(q, i, r0, steps);
      }
    case Send =>
      if more && idle {
        steps' := SendOne(q, r0, steps);
      }
  }

  /** Some things the host does, one after the other. */
  method HostTurn(q: Virtq, acts: seq<HostAct>, ghost r0: Ring, ghost steps: seq<Step>)
      returns (ghost steps': seq<Step>)
    requires Sound(q) && Ran(r0, steps, q.ring)
    modifies q`h, q.desc, q.hvMap, q`ring, q`book, q`owned, q`ownedBufs
    ensures Sound(q) && Ran(r0, steps', q.ring) && HostMoved(old(q.ring), q.ring)
    ensures Takes(steps') == Takes(steps) + (q.ring.hAvail - old(q.ring).hAvail)
    ensures acts == [] ==> q.ring == old(q.ring) && q.h == old(q.h)
  {
    steps' := steps;
    for i := 0 to |acts|
      invariant Sound(q) && Ran(r0, steps', q.ring) && HostMoved(old(q.ring), q.ring)
      invariant Takes(steps') == Takes(steps) + (q.ring.hAvail - old(q.ring).hAvail)
      invariant i == 0 ==> q.ring == old(q.ring) && q.h == old(q.h)
    {
      steps' := HostActs(q, acts[i], r0, steps');
    }
  }
}
