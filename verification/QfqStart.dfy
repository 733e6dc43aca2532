/** The start time QFQ gives a class whose first packet arrives, and what that does to the buckets
    of its group. */
module QfqStart {
  import opened Common
  import opened QfqArith
  import opened QfqModel
  import opened Qfq

  /** `f` is the class's old finish time, `v` virtual time; `blocker` is the finish time of the first
      eligible group from the class's own on, if there is one. */
  function UpdateStart(f: nat, v: nat, sigma: nat, blocker: Option<nat>): nat
    requires sigma > 0
  {
    var roundedF, limit := RoundDown(f, sigma), RoundDown(v, sigma) + sigma;
    if f <= v || roundedF > limit then
      if blocker.Some? && roundedF > blocker.value then
        if limit > blocker.value then blocker.value else limit
      else v
    else f
  }

  /** The old finish time has passed and no group holds the class up. */
  predicate Stale(f: nat, v: nat, sigma: nat, blocker: Option<nat>)
    requires sigma > 0
  {
    f <= v && (blocker.None? || RoundDown(f, sigma) <= blocker.value)
  }

  lemma SlotsInOrder(x: nat, y: nat, sigma: nat)
    requires sigma > 0 && x <= y
    ensures x / sigma <= y / sigma
  {
    var d := y / sigma - x / sigma;
    assert sigma * d == sigma * (y / sigma) - sigma * (x / sigma);
    MultipleBound(sigma, d);
  }

  lemma NextSlot(v: nat, sigma: nat)
    requires sigma > 0
    ensures (RoundDown(v, sigma) + sigma) / sigma == v / sigma + 1
  {
    Rounding(v, sigma);
    assert sigma * (v / sigma) + sigma == (v / sigma + 1) * sigma + 0;
    QuotientIs(RoundDown(v, sigma) + sigma, sigma, v / sigma + 1, 0);
  }

  lemma RoundedSlot(f: nat, sigma: nat)
    requires sigma > 0
    ensures RoundDown(f, sigma) / sigma == f / sigma
  {
    Rounding(f, sigma);
    assert sigma * (f / sigma) == (f / sigma) * sigma + 0;
    QuotientIs(RoundDown(f, sigma), sigma, f / sigma, 0);
  }

  /** Whatever the case, the start is at most one slot ahead of virtual time. */
  lemma StartNearTime(f: nat, v: nat, sigma: nat, blocker: Option<nat>)
    requires sigma > 0
    ensures UpdateStart(f, v, sigma, blocker) / sigma <= v / sigma + 1
  {
    var limit := RoundDown(v, sigma) + sigma;
    NextSlot(v, sigma);
    RoundedSlot(f, sigma);
    if f > v && RoundDown(f, sigma) <= limit {
      SlotsInOrder(RoundDown(f, sigma), limit, sigma);
    } else if blocker.Some? && limit > blocker.value {
      SlotsInOrder(blocker.value, limit, sigma);
    }
  }

  /** So the buckets stay right as long as virtual time is fewer than 30 slots ahead of the group. */
  lemma EnqueueInReach(held: map<nat, nat>, base: nat, f: nat, v: nat, sigma: nat, blocker: Option<nat>)
    requires sigma > 0 && v / sigma <= base + 29 && base <= UpdateStart(f, v, sigma, blocker) / sigma
    ensures InReach(held, base, UpdateStart(f, v, sigma, blocker) / sigma)
  {
    StartNearTime(f, v, sigma, blocker);
  }

  /** A stale class starts now; its arrival in a group that is in use leaves buckets and bitmap right
      if and only if virtual time is at most 30 slots ahead of the group. */
  lemma StaleEnqueueExactly(held: map<nat, nat>, base: nat, f: nat, v: nat, sigma: nat, blocker: Option<nat>)
    requires sigma > 0 && held != map[] && base <= v / sigma && Stale(f, v, sigma, blocker)
    ensures UpdateStart(f, v, sigma, blocker) == v
    ensures InReach(held, base, UpdateStart(f, v, sigma, blocker) / sigma) <==> v / sigma <= base + 30
  {}

  // ----- packets within their configured lengths get beyond that ------------------------------------

  const HEAVY: nat := 1024
  const WIDTH: nat := Sigma(2)

  /** Two classes of weight 1024 with packets up to 16 bytes are in group 2, one of weight 1 with
      packets up to 1500 bytes in group 19; all bytes together move virtual time by this much each. */
  const PER_BYTE: nat := ONE_FP / (HEAVY + HEAVY + 1)

  lemma Setting()
    ensures LeastGroup(16 * (ONE_FP / HEAVY), 2) && LeastGroup(1500 * (ONE_FP / 1), 19)
    ensures WIDTH == 0x100_0000 == 16 * (ONE_FP / HEAVY) && PER_BYTE == 524032
  {
    Pow19();
    assert Pow2(2) == 2 * Pow2(1) == 4;
    assert Pow2(19) == 2 * Pow2(18);
  }

  /** The first heavy class sends a packet of 16 bytes and has another one; virtual time stays behind
      the group, so the light class is served, with a packet of `len` bytes.  Then the second heavy
      class gets its first packet.  Buckets and bitmap of the group survive if and only if virtual
      time has not left slot 31. */
  method StaleArrival(len: nat, odd: seq<bool>) returns (grp: QfqGroup, v: nat)
    requires len <= 1500 && |odd| == 64
    ensures fresh(grp) && grp.sigma == WIDTH && v == (16 + len) * PER_BYTE
    ensures grp.g.base == (if v / WIDTH < 1 then v / WIDTH else 1) && grp.held == map[0 := 1, 1 := v / WIDTH]
    ensures grp.Valid() <==> v / WIDTH <= 31
  {
    Setting();
    grp := new QfqGroup(WIDTH, 2);
    v := 0;
    grp.Enqueue(0, UpdateStart(0, v, WIDTH, None), odd);
    v := v + 16 * PER_BYTE;
    var c := grp.Serve(Some(16 * (ONE_FP / HEAVY)), odd);
    assert grp.held == map[0 := 1] && grp.g.base == 1 && v < grp.s;
    v := v + len * PER_BYTE;
    grp.Enqueue(1, UpdateStart(0, v, WIDTH, Some(grp.f)), odd);
  }

  /** With 1020 bytes the slot is the last one, with 1500 it is 15 beyond. */
  lemma WithinLengthsOverrun()
    ensures (16 + 1020) * PER_BYTE / WIDTH == 1 + 31
    ensures (16 + 1500) * PER_BYTE / WIDTH == 1 + 46
  {
    Setting();
  }
}
