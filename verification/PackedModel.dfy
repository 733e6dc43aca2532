/** The packed ring seen as four unbounded counters and a permutation.

    Buffers are numbered by order of publication.  Position `p` of the ring is
    filled by publication `p`; when the host completes buffers out of order it
    exchanges two acquired positions, so `at[p]` says which buffer position `p`
    carries now, and `pos` is the inverse.  Positions below `gUsed` have been
    returned to the guest.

      [gUsed, hUsed)   completed, not collected yet
      [hUsed, hAvail)  acquired by the host and not completed
      [hAvail, gAvail) published and not seen by the host
 */
module PackedModel {
  import opened Common

  /** What becomes of an acquired descriptor: handed to the packet scheduler,
      refused by it, or not translatable to a host address. */
  datatype Verdict = Enqueued | Dropped | Untranslatable

  datatype Ring = Ring(
    n: nat,
    gUsed: nat, hUsed: nat, hAvail: nat, gAvail: nat,
    bufs: seq<Buf>,
    at: seq<nat>,
    pos: seq<nat>,
    held: set<nat>,  // buffers the scheduler owns
    lost: set<nat>   // buffers acquired that nobody will ever release
  )

  function InitRing(n: nat): Ring { Ring(n, 0, 0, 0, 0, [], [], [], {}, {}) }

  /** `at` is a permutation and `pos` its inverse. */
  ghost predicate Inverse(at: seq<nat>, pos: seq<nat>) {
    && |at| == |pos|
    && (forall p :: 0 <= p < |at| ==> at[p] < |pos| && pos[at[p]] == p)
    && (forall b :: 0 <= b < |pos| ==> pos[b] < |at| && at[pos[b]] == b)
  }

  ghost predicate Inv(r: Ring) {
    && r.gUsed <= r.hUsed <= r.hAvail <= r.gAvail <= r.gUsed + r.n
    && |r.bufs| == |r.at| == r.gAvail
    && Inverse(r.at, r.pos)
    && (forall p :: r.hAvail <= p < r.gAvail ==> r.at[p] == p)
    && r.held !! r.lost
    && (forall p :: r.hUsed <= p < r.hAvail ==> r.at[p] in r.held || r.at[p] in r.lost)
    && (forall b :: b in r.held || b in r.lost ==> b < |r.pos| && r.hUsed <= r.pos[b] < r.hAvail)
  }

  // ----- steps --------------------------------------------------------------------

  datatype Step =
    | Publish(buf: Buf)
    | Acquire(verdict: Verdict)
    | Release(b: nat)
    | Drain          // process one buffer in order, with nothing in flight
    | Collect

  predicate Enabled(r: Ring, s: Step) {
    match s
    case Publish(_) => r.gAvail < r.gUsed + r.n
    case Acquire(_) => r.hAvail < r.gAvail
    case Release(b) => b in r.held
    case Drain => r.hUsed == r.hAvail < r.gAvail
    case Collect => r.gUsed < r.hUsed
  }

  /** Exchange what positions `p` and `q` carry. */
  function Swap(r: Ring, p: nat, q: nat): Ring
    requires p < |r.at| && q < |r.at| && r.at[p] < |r.pos| && r.at[q] < |r.pos|
  {
    r.(at := r.at[p := r.at[q]][q := r.at[p]], pos := r.pos[r.at[p] := q][r.at[q] := p])
  }

  /** Complete buffer `b` by exchanging it with the next position to complete. */
  ghost function Complete(r: Ring, b: nat): Ring
    requires Inverse(r.at, r.pos) && r.hUsed < |r.at| && b < |r.pos|
  {
    Swap(r, r.hUsed, r.pos[b]).(hUsed := r.hUsed + 1, held := r.held - {b})
  }

  /** Hand the next buffer to the scheduler. */
  function Enqueue(r: Ring): Ring { r.(held := r.held + {r.hAvail}, hAvail := r.hAvail + 1) }

  /** Take the next buffer and forget about it. */
  function Lose(r: Ring): Ring { r.(lost := r.lost + {r.hAvail}, hAvail := r.hAvail + 1) }

  function Append(r: Ring, buf: Buf): Ring {
    r.(bufs := r.bufs + [buf], at := r.at + [r.gAvail], pos := r.pos + [r.gAvail], gAvail := r.gAvail + 1)
  }

  ghost function Apply(r: Ring, s: Step): Ring
    requires Inv(r) && Enabled(r, s)
  {
    match s
    case Publish(buf) => Append(r, buf)
    case Acquire(Enqueued) => Enqueue(r)
    case Acquire(Untranslatable) => Lose(r)
    case Acquire(Dropped) =>
      // the release of a refused buffer is skipped when nothing else is in flight
      if r.hUsed == r.hAvail then Lose(r)
      else Complete(r, r.hAvail).(hAvail := r.hAvail + 1)
    case Release(b) => Complete(r, b)
    case Drain => r.(hUsed := r.hUsed + 1, hAvail := r.hAvail + 1)
    case Collect => r.(gUsed := r.gUsed + 1)
  }

  lemma SwapKeepsInverse(r: Ring, p: nat, q: nat)
    requires Inverse(r.at, r.pos) && p < |r.at| && q < |r.at|
    ensures Inverse(Swap(r, p, q).at, Swap(r, p, q).pos)
  {}

  lemma CompleteKeepsInv(r: Ring, b: nat)
    requires Inv(r) && b in r.held
    ensures Inv(Complete(r, b))
  {
    SwapKeepsInverse(r, r.hUsed, r.pos[b]);
  }

  lemma NextIsUnowned(r: Ring)
    requires Inv(r) && r.hAvail < r.gAvail
    ensures r.at[r.hAvail] == r.pos[r.hAvail] == r.hAvail
    ensures r.hAvail !in r.held && r.hAvail !in r.lost
  {}

  lemma AcquireKeepsInv(r: Ring)
    requires Inv(r) && r.hAvail < r.gAvail
    ensures Inv(Enqueue(r)) && Inv(Lose(r))
  {
    NextIsUnowned(r);
  }

  /** With something in flight, a refused buffer ends like one that is acquired and released. */
  lemma DropIsAcquireThenRelease(r: Ring)
    requires Inv(r) && r.hUsed < r.hAvail < r.gAvail
    ensures Inv(Enqueue(r)) && Enabled(Enqueue(r), Release(r.hAvail))
    ensures Apply(r, Acquire(Dropped)) == Apply(Enqueue(r), Release(r.hAvail))
  {
    AcquireKeepsInv(r);
    assert r.held + {r.hAvail} - {r.hAvail} == r.held - {r.hAvail};
  }

  lemma DropKeepsInv(r: Ring)
    requires Inv(r) && r.hUsed < r.hAvail < r.gAvail
    ensures Inv(Apply(r, Acquire(Dropped)))
  {
    DropIsAcquireThenRelease(r);
    CompleteKeepsInv(Enqueue(r), r.hAvail);
  }

  lemma StepKeepsInv(r: Ring, s: Step)
    requires Inv(r) && Enabled(r, s)
    ensures Inv(Apply(r, s))
  {
    match s
    case Publish(_) =>
    case Acquire(v) =>
      if v == Dropped && r.hUsed < r.hAvail {
        DropKeepsInv(r);
      } else {
        AcquireKeepsInv(r);
      }
    case Release(b) =>
      CompleteKeepsInv(r, b);
    case Drain =>
    case Collect =>
  }

  // ----- whole runs ------------------------------------------------------------------

  /** The state after a run from the empty ring; `None` if some step was not
      enabled where it was taken. */
  ghost function Exec(n: nat, steps: seq<Step>): (r: Option<Ring>)
    ensures r.Some? ==> Inv(r.value) && r.value.n == n
  {
    if steps == [] then Some(InitRing(n)) else
    match Exec(n, steps[..|steps| - 1])
    case None => None
    case Some(q) => Taken(q, steps[|steps| - 1])
  }

  ghost function Taken(q: Ring, s: Step): (r: Option<Ring>)
    requires Inv(q)
    ensures r.Some? <==> Enabled(q, s)
    ensures r.Some? ==> Inv(r.value) && r.value.n == q.n
  {
    if Enabled(q, s) then
      StepKeepsInv(q, s);
      Some(Apply(q, s))
    else None
  }

  /** The buffers published along a run, in order. */
  function Published(steps: seq<Step>): seq<Buf> {
    if steps == [] then []
    else Published(steps[..|steps| - 1]) + PublishedBy(steps[|steps| - 1])
  }

  function PublishedBy(s: Step): seq<Buf> {
    if s.Publish? then [s.buf] else []
  }

  /** The buffers handed back to the guest along a run, in order. */
  ghost function Returned(n: nat, steps: seq<Step>): seq<Buf>
    requires Exec(n, steps).Some?
  {
    if steps == [] then []
    else
      var k := |steps| - 1;
      Returned(n, steps[..k]) + ReturnedBy(Exec(n, steps[..k]).value, steps[k])
  }

  ghost function ReturnedBy(r: Ring, s: Step): seq<Buf>
    requires Inv(r) && Enabled(r, s)
  {
    if s.Collect? then [r.bufs[r.at[r.gUsed]]] else []
  }

  /** Positions already completed keep the buffer they carry. */
  lemma CompletedIsFrozen(r: Ring, s: Step)
    requires Inv(r) && Enabled(r, s)
    ensures var r' := Apply(r, s);
            && |r'.at| >= |r.at|
            && (forall p :: 0 <= p < r.hUsed ==> r'.at[p] == r.at[p])
            && r'.bufs == r.bufs + PublishedBy(s)
            && r'.gUsed == r.gUsed + (if s.Collect? then 1 else 0)
  {
    match s
    case Release(b) =>
      assert r.hUsed <= r.pos[b];
    case Acquire(_) =>
      NextIsUnowned(r);
    case _ =>
  }

  /** `out` lists, position by position, the buffers below the collection point. */
  ghost predicate Accounts(r: Ring, out: seq<Buf>) {
    && Inv(r)
    && |out| == r.gUsed
    && (forall k :: 0 <= k < |out| ==> out[k] == r.bufs[r.at[k]])
  }

  lemma StepKeepsAccounts(r: Ring, s: Step, out: seq<Buf>)
    requires Accounts(r, out) && Enabled(r, s)
    ensures Accounts(Taken(r, s).value, out + ReturnedBy(r, s))
    ensures Taken(r, s).value.bufs == r.bufs + PublishedBy(s)
  {
    CompletedIsFrozen(r, s);
  }

  lemma {:induction false} RunAccounts(n: nat, steps: seq<Step>)
    requires Exec(n, steps).Some?
    ensures Accounts(Exec(n, steps).value, Returned(n, steps))
    ensures Exec(n, steps).value.bufs == Published(steps)
  {
    if steps != [] {
      var k := |steps| - 1;
      RunAccounts(n, steps[..k]);
      StepKeepsAccounts(Exec(n, steps[..k]).value, steps[k], Returned(n, steps[..k]));
    }
  }

  /** Exactly once: the k-th buffer returned is the published buffer number
      `at[k]`, complete with cookie, address and length; no number occurs twice;
      what was published is what was returned plus what is outstanding. */
  lemma ExactlyOnce(n: nat, steps: seq<Step>)
    requires Exec(n, steps).Some?
    ensures var r := Exec(n, steps).value;
            var pub, out := Published(steps), Returned(n, steps);
            && |pub| == |out| + (r.gAvail - r.gUsed)
            && r.gAvail - r.gUsed <= n
            && |out| <= |r.at| == |pub|
            && (forall k :: 0 <= k < |out| ==> r.at[k] < |pub| && out[k] == pub[r.at[k]])
            && (forall k, j :: 0 <= k < j < |out| ==> r.at[k] != r.at[j])
  {
    RunAccounts(n, steps);
  }

  /** Every buffer the host took is completed, owned by the scheduler, or lost,
      and only one of these. */
  lemma AcquiredIsAccountedFor(n: nat, steps: seq<Step>, b: nat)
    requires Exec(n, steps).Some? && b < Exec(n, steps).value.hAvail
    ensures var r := Exec(n, steps).value;
            var completed := r.pos[b] < r.hUsed;
            && (completed || b in r.held || b in r.lost)
            && (completed ==> b !in r.held && b !in r.lost)
            && (b in r.held ==> b !in r.lost)
  {
    var r := Exec(n, steps).value;
    assert r.at[r.pos[b]] == b;
  }

  // ----- runs continued ---------------------------------------------------------------

  /** The ring after some steps; `None` if one of them was not enabled. */
  ghost function ExecFrom(r: Ring, steps: seq<Step>): (q: Option<Ring>)
    requires Inv(r)
    ensures q.Some? ==> Inv(q.value) && q.value.n == r.n
  {
    if steps == [] then Some(r) else
    match ExecFrom(r, steps[..|steps| - 1])
    case None => None
    case Some(p) => Taken(p, steps[|steps| - 1])
  }

  lemma LastStep(before: seq<Step>, steps: seq<Step>)
    requires steps != []
    ensures var all, k := before + steps, |before + steps| - 1;
            all[..k] == before + steps[..|steps| - 1] && all[k] == steps[|steps| - 1]
  {}

  /** A run continued is a run. */
  lemma {:induction false} ExecContinues(n: nat, before: seq<Step>, steps: seq<Step>)
    requires Exec(n, before).Some?
    ensures Exec(n, before + steps) == ExecFrom(Exec(n, before).value, steps)
  {
    if steps == [] {
      assert before + steps == before;
    } else {
      var k := |steps| - 1;
      ExecContinues(n, before, steps[..k]);
      LastStep(before, steps);
    }
  }

  lemma {:induction false} ExecFromContinues(r: Ring, before: seq<Step>, steps: seq<Step>)
    requires Inv(r) && ExecFrom(r, before).Some?
    ensures ExecFrom(r, before + steps) == ExecFrom(ExecFrom(r, before).value, steps)
  {
    if steps == [] {
      assert before + steps == before;
    } else {
      var k := |steps| - 1;
      ExecFromContinues(r, before, steps[..k]);
      LastStep(before, steps);
    }
  }

  /** `steps` lead from `r` to `q`, as one sealed fact. */
  ghost predicate Ran(r: Ring, steps: seq<Step>, q: Ring) {
    forall k: nat :: Unseal(k) ==> Inv(r) && ExecFrom(r, steps) == Some(q)
  }

  lemma RanNothing(r: Ring)
    requires Inv(r)
    ensures Ran(r, [], r)
  {}

  lemma RanOneMore(r: Ring, steps: seq<Step>, q: Ring, s: Step, q': Ring)
    requires Ran(r, steps, q) && Inv(q) && Enabled(q, s) && q' == Apply(q, s)
    ensures Ran(r, steps + [s], q')
  {
    assert Unseal(0);
    assert (steps + [s])[..|steps|] == steps;
  }

  /** How many buffers the host took. */
  function Takes(steps: seq<Step>): nat {
    if steps == [] then 0
    else Takes(steps[..|steps| - 1]) + (if steps[|steps| - 1].Acquire? || steps[|steps| - 1].Drain? then 1 else 0)
  }

  lemma TakesOneMore(steps: seq<Step>, s: Step)
    ensures Takes(steps + [s]) == Takes(steps) + (if s.Acquire? || s.Drain? then 1 else 0)
  {
    assert (steps + [s])[..|steps|] == steps;
  }
}
