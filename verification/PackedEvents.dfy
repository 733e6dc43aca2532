/** Ring positions and the 16-bit event arithmetic of the packed virtqueue
    (section 2.7 of VirtIO 1.1).

    Both sides of the ring count buffers without bound in this model.  What they
    really store is a `Cursor`: a slot index and a one-bit wrap counter.  `At`
    gives the cursor of a position by advancing one slot at a time, the way the
    guest and the host do.
 */
module PackedEvents {
  import opened Common

  /** A slot index with the wrap counter of the lap it belongs to (1 is `true`). */
  datatype Cursor = Cursor(idx: nat, wrap: bool)

  function Advance(c: Cursor, n: nat): Cursor {
    if c.idx + 1 >= n then Cursor(0, !c.wrap) else Cursor(c.idx + 1, c.wrap)
  }

  /** The cursor `k` slots after `c`, for at most one lap. */
  function Ahead(c: Cursor, k: nat, n: nat): Cursor
    requires c.idx < n && k <= n
  {
    if c.idx + k < n then Cursor(c.idx + k, c.wrap) else Cursor(c.idx + k - n, !c.wrap)
  }

  /** The cursor that names position `p` of a ring of `n` slots. */
  function At(p: nat, n: nat): (c: Cursor)
    requires 0 < n
    ensures c.idx < n
  {
    if p == 0 then Cursor(0, true) else Advance(At(p - 1, n), n)
  }

  lemma {:induction false} AtAhead(p: nat, k: nat, n: nat)
    requires 0 < n && k <= n
    ensures At(p + k, n) == Ahead(At(p, n), k, n)
  {
    if k > 0 {
      AtAhead(p, k - 1, n);
    }
  }

  lemma AtLapLater(p: nat, n: nat)
    requires 0 < n
    ensures At(p + n, n) == Cursor(At(p, n).idx, !At(p, n).wrap)
  {
    AtAhead(p, n, n);
  }

  /** Slot is the position modulo the ring size, wrap bit the parity of the lap. */
  lemma {:induction false} AtIsModulo(p: nat, n: nat)
    requires 0 < n
    ensures At(p, n).idx == p % n
    ensures At(p, n).wrap <==> (p / n) % 2 == 0
  {
    if p < n {
      AtAhead(0, p, n);
      QuotientIs(p, n, 0, p);
    } else {
      AtIsModulo(p - n, n);
      AtLapLater(p - n, n);
      LapBack(p, n);
    }
  }

  lemma LapBack(p: nat, n: nat)
    requires 0 < n <= p
    ensures p % n == (p - n) % n && p / n == (p - n) / n + 1
  {
    var q, r := (p - n) / n, (p - n) % n;
    assert q * n + n == (q + 1) * n;
    QuotientIs(p, n, q + 1, r);
  }

  // ----- event suppression words ------------------------------------------------

  const EVENT_FLAG_ENABLE := 0
  const EVENT_FLAG_DISABLE := 1
  const EVENT_FLAG_DESC := 2

  /** The descriptor event union: an offset word with the wrap counter in its top bit, and flags. */
  datatype Event = Event(offWrap: nat, flags: nat)

  function U16(x: int): nat { x % 0x1_0000 }

  /** Offset and wrap counter share one 16-bit word; a slot index never reaches bit 15. */
  function OffWrap(c: Cursor): nat { c.idx + (if c.wrap then 0x8000 else 0) }

  predicate NeedEvent(oldIdx: nat, eventIdx: nat, newIdx: nat) {
    U16(newIdx - eventIdx - 1) < U16(newIdx - oldIdx)
  }

  /** The test shared by the guest (kick needed?) and the host (interrupt needed?):
      `cur` is the side's own cursor after it moved by `count`, `event` the word
      the peer wrote. */
  predicate EventFires(event: Event, cur: Cursor, count: nat, n: nat) {
    if event.flags != EVENT_FLAG_DESC then
      event.flags == EVENT_FLAG_ENABLE
    else
      var oldIdx := U16(cur.idx - count);
      var eventIdx := event.offWrap % 0x8000;
      var wrap := event.offWrap / 0x8000 == 1;
      var rebased := if wrap != cur.wrap then U16(eventIdx - n) else eventIdx;
      NeedEvent(oldIdx, rebased, cur.idx)
  }

  function DescEvent(p: nat, n: nat): Event
    requires 0 < n
  {
    Event(OffWrap(At(p, n)), EVENT_FLAG_DESC)
  }

  lemma UnpackOffWrap(c: Cursor)
    requires c.idx < 0x8000
    ensures OffWrap(c) % 0x8000 == c.idx
    ensures OffWrap(c) / 0x8000 == 1 <==> c.wrap
  {}

  lemma U16Difference(x: int, y: int)
    ensures U16(x - U16(y)) == U16(x - y)
  {}

  /** What the 16-bit subtraction yields when the event is `d` slots behind the
      cursor (zero or negative when it is ahead). */
  function Distance(d: int, sameLap: bool, n: nat): int {
    if d > 0 then d - 1 else if sameLap then 0x1_0000 + d - 1 else d + 2 * n - 1
  }

  lemma FiresByDistance(event: Cursor, cur: Cursor, d: int, count: nat, n: nat)
    requires cur.idx < n && event.idx < n <= 0x8000 && 0 - n < d <= n
    requires cur.wrap == event.wrap ==> cur.idx - event.idx == d
    requires cur.wrap != event.wrap ==> cur.idx - event.idx == if d > 0 then d - n else d + n
    ensures EventFires(Event(OffWrap(event), EVENT_FLAG_DESC), cur, count, n)
            <==> Distance(d, cur.wrap == event.wrap, n) < U16(count)
  {
    var rebased := if event.wrap != cur.wrap then U16(event.idx - n) else event.idx;
    assert EventFires(Event(OffWrap(event), EVENT_FLAG_DESC), cur, count, n)
           == NeedEvent(U16(cur.idx - count), rebased, cur.idx) by {
      UnpackOffWrap(event);
    }
    U16Difference(cur.idx, cur.idx - count);
    RebasedDistance(event, cur, d, n);
  }

  lemma RebasedDistance(event: Cursor, cur: Cursor, d: int, n: nat)
    requires cur.idx < n && event.idx < n <= 0x8000 && 0 - n < d <= n
    requires cur.wrap == event.wrap ==> cur.idx - event.idx == d
    requires cur.wrap != event.wrap ==> cur.idx - event.idx == if d > 0 then d - n else d + n
    ensures var rebased := if event.wrap != cur.wrap then U16(event.idx - n) else event.idx;
            U16(cur.idx - rebased - 1) == Distance(d, cur.wrap == event.wrap, n)
  {
    if event.wrap != cur.wrap {
      U16Difference(cur.idx - 1, event.idx - n);
      U16Of(cur.idx - 1 - (event.idx - n));
    } else {
      U16Of(cur.idx - event.idx - 1);
    }
  }

  lemma U16Of(x: int)
    requires -0x1_0000 <= x < 0x1_0000
    ensures U16(x) == if x >= 0 then x else x + 0x1_0000
  {}

  /** The event position lies behind the mover's position `u` by at most one lap:
      the test fires exactly when the 16-bit count reaches back to it.  Counts of
      65536 and more are reduced, as the argument is a 16-bit integer. */
  lemma FiresBehind(e: nat, u: nat, count: nat, n: nat)
    requires 0 < n <= 0x8000
    requires u - n <= e < u
    ensures EventFires(DescEvent(e, n), At(u, n), count, n) <==> u - e <= U16(count)
  {
    AtAhead(e, u - e, n);
    FiresByDistance(At(e, n), At(u, n), u - e, count, n);
  }

  /** The event position is at or ahead of the mover's position: nothing fires for
      batches of at most one lap. */
  lemma SilentAhead(e: nat, u: nat, count: nat, n: nat)
    requires 0 < n <= 0x8000 && count <= n
    requires u <= e < u + n
    ensures !EventFires(DescEvent(e, n), At(u, n), count, n)
  {
    AtAhead(u, e - u, n);
    SilentAheadOf(At(u, n), e - u, count, n);
  }

  lemma SilentAheadOf(cur: Cursor, k: nat, count: nat, n: nat)
    requires cur.idx < n <= 0x8000 && count <= n && k < n
    ensures !EventFires(Event(OffWrap(Ahead(cur, k, n)), EVENT_FLAG_DESC), cur, count, n)
  {
    FiresByDistance(Ahead(cur, k, n), cur, 0 - k, count, n);
  }

  /** Rebasing is exact: within one lap either way the 16-bit test with wrap
      counters decides membership in the batch just moved over. */
  lemma RebasingExact(e: nat, u: nat, count: nat, n: nat)
    requires 0 < n <= 0x8000 && count <= n && count <= u
    requires u - n <= e < u + n
    ensures EventFires(DescEvent(e, n), At(u, n), count, n) <==> u - count <= e < u
  {
    if e < u {
      FiresBehind(e, u, count, n);
    } else {
      SilentAhead(e, u, count, n);
    }
  }

  /** The bound on the batch is needed: over one lap, an event one slot ahead of
      the mover can fire, here with 4 slots and a batch of 7. */
  lemma OverlongBatchMisfires()
    ensures EventFires(DescEvent(4, 4), At(3, 4), 7, 4)
  {
    AtAhead(0, 3, 4);
    AtAhead(0, 4, 4);
  }
}
