/** How far a packet moves the start time of its class, in slots of the class's group: why a class
    that is served stays in reach of the group's front, and when it does not. */
module QfqReach {
  import opened Common
  import opened QfqArith

  /** Two times `d` apart, as slots and rests. */
  lemma SlotsMoved(sigma: nat, q: nat, r: nat, q': nat, r': nat, d: nat)
    requires r < sigma && r' < sigma && sigma * q + r + d == sigma * q' + r'
    ensures q <= q'
    ensures d <= sigma ==> q' <= q + 1
    ensures q' >= q + 31 ==> d > 30 * sigma
  {
    var e := q' - q;
    assert sigma * e == sigma * q' - sigma * q;
    assert sigma * (e - 1) == sigma * e - sigma;
    assert sigma * (e - 31) == sigma * e - 31 * sigma;
    MultipleBound(sigma, e);
    MultipleBound(sigma, e - 1);
    MultipleBound(sigma, e - 31);
  }

  lemma MovedBy(start: nat, d: nat, sigma: nat)
    requires sigma > 0
    ensures start / sigma <= (start + d) / sigma
    ensures d <= sigma ==> (start + d) / sigma <= start / sigma + 1
    ensures (start + d) / sigma >= start / sigma + 31 ==> d > 30 * sigma
  {
    SlotsMoved(sigma, start / sigma, start % sigma, (start + d) / sigma, (start + d) % sigma, d);
  }

  /** A packet of `len` bytes at `invW` per byte, no longer than the `lmax` that the group was chosen
      for, moves the start time of its class by one slot at most. */
  lemma NextStartInReach(lmax: nat, invW: nat, i: nat, start: nat, len: nat)
    requires LeastGroup(lmax * invW, i) && len <= lmax
    ensures start / Sigma(i) <= (start + len * invW) / Sigma(i) <= start / Sigma(i) + 1
  {
    Monotone(len, lmax, invW);
    MovedBy(start, len * invW, Sigma(i));
  }

  /** So only a packet more than 30 times too long puts the class 31 slots ahead. */
  lemma LateSlotNeedsLongPacket(lmax: nat, invW: nat, i: nat, start: nat, len: nat)
    requires LeastGroup(lmax * invW, i) && (start + len * invW) / Sigma(i) >= start / Sigma(i) + 31
    ensures len > 30 * lmax
  {
    MovedBy(start, len * invW, Sigma(i));
    assert 30 * (lmax * invW) == (30 * lmax) * invW;
    LessFactor(30 * lmax, len, invW);
  }

  lemma LessFactor(a: nat, b: nat, c: nat)
    requires a * c < b * c
    ensures a < b
  {
    if b <= a {
      Monotone(b, a, c);
    }
  }

  /** One that does: weight 65536, packets configured up to 256 bytes, a packet of 7936 bytes. */
  lemma LateSlotByLongPacket()
    ensures LeastGroup(256 * (ONE_FP / MAX_WEIGHT), 0)
    ensures (0 + 7936 * (ONE_FP / MAX_WEIGHT)) / Sigma(0) == 31
  {}
}
