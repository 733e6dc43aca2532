/** Buffers that never come back.  Releasing a refused buffer is skipped while nothing else is in
    flight, and an untranslatable one is not handed to anybody: what that means for whole runs. */
module PackedLoss {
  import opened Common
  import opened PackedModel

  /** The step takes the next buffer and leaves nobody to release it. */
  predicate Losing(r: Ring, s: Step) {
    s == Acquire(Untranslatable) || (s == Acquire(Dropped) && r.hUsed == r.hAvail)
  }

  /** Step `k` of the run is such a step, and buffer number `b` is the one taken. */
  ghost predicate LosesAt(n: nat, steps: seq<Step>, b: nat, k: nat) {
    && k < |steps| && Exec(n, steps[..k]).Some?
    && Exec(n, steps[..k]).value.hAvail == b && Losing(Exec(n, steps[..k]).value, steps[k])
  }

  ghost predicate Lost(n: nat, steps: seq<Step>, b: nat) { exists k: nat :: LosesAt(n, steps, b, k) }

  /** Buffer number `b` has been handed back to the guest. */
  ghost predicate HandedBack(r: Ring, b: nat) { b < |r.pos| && r.pos[b] < r.gUsed }

  /** It has been if and only if the run returned it, complete with cookie, address and length. */
  lemma HandedBackIsReturned(n: nat, steps: seq<Step>, b: nat)
    requires Exec(n, steps).Some? && b < |Published(steps)|
    ensures var r := Exec(n, steps).value;
            && |r.at| == |Published(steps)|
            && (HandedBack(r, b) <==> exists k :: 0 <= k < |Returned(n, steps)| <= |r.at| && r.at[k] == b)
            && (HandedBack(r, b) ==> Returned(n, steps)[r.pos[b]] == Published(steps)[b])
  {
    RunAccounts(n, steps);
    var r := Exec(n, steps).value;
    if HandedBack(r, b) {
      assert r.at[r.pos[b]] == b;
    }
  }

  // ----- the ghost field records just these losses ----------------------------------------

  lemma LossStep(r: Ring, s: Step, b: nat)
    requires Inv(r) && Enabled(r, s)
    ensures b in Apply(r, s).lost <==> b in r.lost || (b == r.hAvail && Losing(r, s))
  {
    if s.Acquire? {
      NextIsUnowned(r);
    }
  }

  lemma PrefixOfPrefix(steps: seq<Step>, m: nat, k: nat)
    requires k <= m <= |steps|
    ensures steps[..m][..k] == steps[..k]
  {}

  lemma LostLater(n: nat, steps: seq<Step>, m: nat, b: nat)
    requires m <= |steps| && Lost(n, steps[..m], b)
    ensures Lost(n, steps, b)
  {
    var k: nat :| LosesAt(n, steps[..m], b, k);
    PrefixOfPrefix(steps, m, k);
    assert LosesAt(n, steps, b, k);
  }

  lemma LostByLast(n: nat, steps: seq<Step>, b: nat)
    requires steps != [] && Exec(n, steps[..|steps| - 1]).Some?
    ensures Lost(n, steps, b) <==>
            || Lost(n, steps[..|steps| - 1], b)
            || LosesAt(n, steps, b, |steps| - 1)
  {
    var m := |steps| - 1;
    if Lost(n, steps, b) {
      var k: nat :| LosesAt(n, steps, b, k);
      if k < m {
        PrefixOfPrefix(steps, m, k);
        assert LosesAt(n, steps[..m], b, k);
      }
    }
    if Lost(n, steps[..m], b) {
      LostLater(n, steps, m, b);
    }
  }

  lemma {:induction false} LostIsRecorded(n: nat, steps: seq<Step>, b: nat)
    requires Exec(n, steps).Some?
    ensures Lost(n, steps, b) <==> b in Exec(n, steps).value.lost
  {
    if steps != [] {
      var m := |steps| - 1;
      LostIsRecorded(n, steps[..m], b);
      LostByLast(n, steps, b);
      LossStep(Exec(n, steps[..m]).value, steps[m], b);
    }
  }

  // ----- everything else can still come back ----------------------------------------------

  ghost predicate BringsBack(r: Ring, b: nat, after: seq<Step>)
    requires Inv(r)
  {
    ExecFrom(r, after).Some? && HandedBack(ExecFrom(r, after).value, b)
  }

  lemma StepFirst(r: Ring, s: Step, b: nat, after: seq<Step>)
    requires Inv(r) && Enabled(r, s) && Inv(Apply(r, s)) && BringsBack(Apply(r, s), b, after)
    ensures BringsBack(r, b, [s] + after)
  {
    assert ExecFrom(r, [s]) == Some(Apply(r, s)) by {
      assert [s][..0] == [];
    }
    ExecFromContinues(r, [s], after);
  }

  lemma {:induction false} CompletedComesBack(r: Ring, b: nat) returns (after: seq<Step>)
    requires Inv(r) && b < r.gAvail && r.pos[b] < r.hUsed
    ensures BringsBack(r, b, after)
    decreases r.hUsed - r.gUsed
  {
    if r.pos[b] < r.gUsed {
      after := [];
    } else {
      StepKeepsInv(r, Collect);
      after := CompletedComesBack(Apply(r, Collect), b);
      StepFirst(r, Collect, b, after);
      after := [Collect] + after;
    }
  }

  lemma HeldComesBack(r: Ring, b: nat) returns (after: seq<Step>)
    requires Inv(r) && b in r.held
    ensures BringsBack(r, b, after)
  {
    StepKeepsInv(r, Release(b));
    assert Apply(r, Release(b)).pos[b] == r.hUsed;
    after := CompletedComesBack(Apply(r, Release(b)), b);
    StepFirst(r, Release(b), b, after);
    after := [Release(b)] + after;
  }

  lemma {:induction false} WaitingComesBack(r: Ring, b: nat) returns (after: seq<Step>)
    requires Inv(r) && r.hAvail <= b < r.gAvail
    ensures BringsBack(r, b, after)
    decreases b - r.hAvail
  {
    var s := Acquire(Enqueued);
    StepKeepsInv(r, s);
    if b == r.hAvail {
      after := HeldComesBack(Apply(r, s), b);
    } else {
      after := WaitingComesBack(Apply(r, s), b);
    }
    StepFirst(r, s, b, after);
    after := [s] + after;
  }

  lemma ComesBack(r: Ring, b: nat) returns (after: seq<Step>)
    requires Inv(r) && b < r.gAvail && b !in r.lost
    ensures BringsBack(r, b, after)
  {
    if r.hAvail <= b {
      after := WaitingComesBack(r, b);
    } else if b in r.held {
      after := HeldComesBack(r, b);
    } else {
      assert r.at[r.pos[b]] == b;
      after := CompletedComesBack(r, b);
    }
  }

  // ----- exactly which buffers never come back ----------------------------------------------

  /** No continuation of the run hands buffer number `b` back. */
  ghost predicate NeverBack(n: nat, steps: seq<Step>, b: nat) {
    forall after: seq<Step> :: Exec(n, steps + after).Some? ==> !HandedBack(Exec(n, steps + after).value, b)
  }

  lemma LostStaysOut(n: nat, steps: seq<Step>, b: nat, after: seq<Step>)
    requires Lost(n, steps, b) && Exec(n, steps + after).Some?
    ensures var r := Exec(n, steps + after).value;
            b < |r.pos| && r.hUsed <= r.pos[b] && !HandedBack(r, b)
  {
    assert (steps + after)[..|steps|] == steps;
    LostLater(n, steps + after, |steps|, b);
    LostIsRecorded(n, steps + after, b);
  }

  /** Over every run and for every published buffer: it can never come back if and only if some
      step of the run took it as untranslatable, or refused it while nothing else was in flight. */
  lemma NeverBackExactly(n: nat, steps: seq<Step>, b: nat)
    requires Exec(n, steps).Some? && b < Exec(n, steps).value.gAvail
    ensures NeverBack(n, steps, b) <==> Lost(n, steps, b)
  {
    if Lost(n, steps, b) {
      forall after: seq<Step> | Exec(n, steps + after).Some?
        ensures !HandedBack(Exec(n, steps + after).value, b)
      {
        LostStaysOut(n, steps, b, after);
      }
    } else {
      LostIsRecorded(n, steps, b);
      var after := ComesBack(Exec(n, steps).value, b);
      ExecContinues(n, steps, after);
      assert Exec(n, steps + after).Some?;
    }
  }

  /** The same about one step: what a run takes with verdict `v` never comes back if and only if
      it is untranslatable, or refused with nothing in flight. */
  lemma LossCondition(n: nat, before: seq<Step>, v: Verdict)
    requires Exec(n, before).Some? && Exec(n, before + [Acquire(v)]).Some?
    ensures var r := Exec(n, before).value;
            NeverBack(n, before + [Acquire(v)], r.hAvail)
            <==> v == Untranslatable || (v == Dropped && r.hUsed == r.hAvail)
  {
    var r, steps := Exec(n, before).value, before + [Acquire(v)];
    assert steps[..|before|] == before;
    NextIsUnowned(r);
    LostIsRecorded(n, before, r.hAvail);
    LostByLast(n, steps, r.hAvail);
    NeverBackExactly(n, steps, r.hAvail);
  }

  /** The shortest run that loses a buffer for good: one is published, and refused at once. */
  lemma RefusedWhenIdle(n: nat, buf: Buf)
    requires n > 0
    ensures var steps := [Publish(buf), Acquire(Dropped)];
            Exec(n, steps).Some? && Published(steps) == [buf] && NeverBack(n, steps, 0)
  {
    var first, steps := [Publish(buf)], [Publish(buf), Acquire(Dropped)];
    assert first[..0] == [] && steps[..1] == first;
    assert Exec(n, first) == Some(Append(InitRing(n), buf));
    assert Published(first) == [] + [buf] && Published(steps) == Published(first) + [];
    assert steps == first + [Acquire(Dropped)];
    LossCondition(n, first, Dropped);
  }
}
