/** How the shared memory of a packed virtqueue represents a `Ring`.

    The guest's used cursor is the anchor: slot `s` stands for the only position
    of the lap starting there that falls on `s`.  Everything else (flag bits,
    descriptor contents, the chain of free ids, the host's map from ids to
    slots) is described slot by slot against that position.
 */
module PackedLayout {
  import opened Common
  import opened PackedEvents
  import opened PackedModel

  // ----- descriptor flags -----------------------------------------------------------

  const F_AVAIL: bv16 := 0x80
  const F_USED: bv16 := 0x8000

  function AvailFlags(wrap: bool): bv16 { if wrap then F_AVAIL else F_USED }
  function UsedFlags(wrap: bool): bv16 { if wrap then F_AVAIL | F_USED else 0 }

  /** The host's test for a new descriptor. */
  predicate IsAvail(flags: bv16, wrap: bool) {
    var avail, used := flags & F_AVAIL != 0, flags & F_USED != 0;
    avail != used && avail == wrap
  }

  /** The guest's test for a completed descriptor. */
  predicate IsUsed(flags: bv16, wrap: bool) {
    var avail, used := flags & F_AVAIL != 0, flags & F_USED != 0;
    avail == used && used == wrap
  }

  /** The guest's test for a descriptor that the host never completed. */
  predicate IsPending(flags: bv16, wrap: bool) {
    var avail, used := flags & F_AVAIL != 0, flags & F_USED != 0;
    avail != used && used != wrap
  }

  lemma FlagTests(w: bool, wrap: bool)
    ensures IsAvail(AvailFlags(w), wrap) <==> w == wrap
    ensures IsPending(AvailFlags(w), wrap) <==> w == wrap
    ensures !IsUsed(AvailFlags(w), wrap)
    ensures IsUsed(UsedFlags(w), wrap) <==> w == wrap
    ensures !IsAvail(UsedFlags(w), wrap) && !IsPending(UsedFlags(w), wrap)
  {}

  lemma FlagToggle(w: bool)
    ensures AvailFlags(w) ^ (F_AVAIL | F_USED) == AvailFlags(!w)
    ensures UsedFlags(w) ^ (F_AVAIL | F_USED) == UsedFlags(!w)
  {}

  // ----- memory -----------------------------------------------------------------------

  datatype Desc = Desc(addr: nat, len: nat, id: nat, flags: bv16, mark: nat)
  datatype DescState = DescState(cookie: nat, busy: bool, next: nat)

  /** The position slot `s` stands for in the lap that starts at `u`, the cursor of position `base`. */
  function PosOf(u: Cursor, base: nat, n: nat, s: nat): nat
    requires u.idx < n && s < n
  {
    if s >= u.idx then base + (s - u.idx) else base + n - u.idx + s
  }

  function LapOf(u: Cursor, s: nat): bool {
    if s >= u.idx then u.wrap else !u.wrap
  }

  lemma SlotOfPosition(u: Cursor, base: nat, n: nat, k: nat)
    requires u.idx < n && k < n
    ensures var c := Ahead(u, k, n);
            c.idx < n && PosOf(u, base, n, c.idx) == base + k && LapOf(u, c.idx) == c.wrap
  {}

  ghost predicate FlagOk(flags: bv16, lap: bool, p: nat, r: Ring) {
    if p < r.hUsed then flags == UsedFlags(lap)
    else if p < r.gAvail then flags == AvailFlags(lap)
    else flags == UsedFlags(!lap) || flags == AvailFlags(!lap)
  }

  ghost predicate FlagsOk(desc: seq<Desc>, u: Cursor, r: Ring)
    requires u.idx < r.n
  {
    && |desc| == r.n
    && (forall s {:trigger desc[s]} :: 0 <= s < |desc| ==>
        FlagOk(desc[s].flags, LapOf(u, s), PosOf(u, r.gUsed, r.n, s), r))
  }

  /** Slot contents: the descriptor of buffer `b` carries its address, length and id. */
  ghost predicate Carries(d: Desc, state: seq<DescState>, idOf: seq<nat>, r: Ring, b: nat) {
    && b < |r.bufs| == |idOf|
    && d.addr == r.bufs[b].paddr
    && d.len == r.bufs[b].len
    && d.id == idOf[b]
    && d.id < |state|
    && state[d.id].busy
    && state[d.id].cookie == r.bufs[b].cookie
  }

  /** The part of the ring the guest depends on: it does not mention what the host has seen. */
  ghost predicate Outstanding(r: Ring) {
    && 0 < r.n <= 0x8000
    && r.gUsed <= r.gAvail <= r.gUsed + r.n
    && |r.bufs| == |r.at| == r.gAvail
    && Inverse(r.at, r.pos)
  }

  ghost predicate ContentsOk(desc: seq<Desc>, state: seq<DescState>, idOf: seq<nat>, owner: seq<nat>, u: Cursor,
      r: Ring)
    requires u.idx < r.n && Outstanding(r)
  {
    && |desc| == |state| == |owner| == r.n
    && |idOf| == |r.bufs|
    && (forall s {:trigger desc[s]} :: 0 <= s < |desc| && PosOf(u, r.gUsed, r.n, s) < r.gAvail ==>
          && Carries(desc[s], state, idOf, r, r.at[PosOf(u, r.gUsed, r.n, s)])
          && owner[desc[s].id] == s)
  }

  /** `free` lists the chain of free ids that starts at `head`. */
  ghost predicate FreeOk(state: seq<DescState>, head: nat, free: seq<nat>) {
    && (forall i :: 0 <= i < |free| ==> free[i] < |state| && !state[free[i]].busy)
    && (forall i, j :: 0 <= i < j < |free| ==> free[i] != free[j])
    && (free != [] ==> head == free[0])
    && (forall i :: 0 <= i < |free| - 1 ==> state[free[i]].next == free[i + 1])
  }

  /** Every buffer the scheduler owns is found through the host's map, up to position `hi`. */
  ghost predicate HvMapOk(desc: seq<Desc>, hvMap: seq<nat>, u: Cursor, r: Ring, hi: nat)
    requires u.idx < r.n
  {
    && |desc| == |hvMap| == r.n
    && hi <= |r.at|
    && (forall s {:trigger desc[s]} :: 0 <= s < |desc| ==>
          var p := PosOf(u, r.gUsed, r.n, s);
          r.hUsed <= p < hi && r.at[p] in r.held ==> desc[s].id < |hvMap| && hvMap[desc[s].id] == s)
  }

  /** The guest's view of the queue: its two cursors, the head of the free chain,
      the descriptors and the per-id state. */
  datatype Mem = Mem(used: Cursor, avail: Cursor, flags: bv16, head: nat, desc: seq<Desc>, state: seq<DescState>)

  /** Bookkeeping that the memory does not hold: the id each buffer was given,
      the slot that holds an outstanding id, and the chain of free ids. */
  datatype Book = Book(idOf: seq<nat>, owner: seq<nat>, free: seq<nat>)

  ghost predicate GuestOk(m: Mem, k: Book, r: Ring) {
    Unit(
      && Outstanding(r) && r.hUsed <= r.gAvail
      && m.used == At(r.gUsed, r.n)
      && m.avail == Ahead(m.used, r.gAvail - r.gUsed, r.n)
      && m.flags == AvailFlags(m.avail.wrap)
      && FlagsOk(m.desc, m.used, r)
      && ContentsOk(m.desc, m.state, k.idOf, k.owner, m.used, r)
      && FreeOk(m.state, m.head, k.free)
      && |k.free| == r.n - (r.gAvail - r.gUsed))
  }

  /** The host's cursors and its map, up to position `hi`. */
  datatype HostMem = HostMem(used: Cursor, avail: Cursor, flags: bv16, pending: nat, hvMap: seq<nat>)

  ghost predicate HostOk(h: HostMem, m: Mem, r: Ring, hi: nat)
    requires m.used.idx < r.n
  {
    Unit(
      && r.gUsed <= r.hUsed <= r.hAvail <= r.gAvail <= r.gUsed + r.n
      && h.used == Ahead(m.used, r.hUsed - r.gUsed, r.n)
      && h.avail == Ahead(m.used, r.hAvail - r.gUsed, r.n)
      && h.flags == UsedFlags(h.used.wrap)
      && h.pending == r.hAvail - r.hUsed
      && HvMapOk(m.desc, h.hvMap, m.used, r, hi))
  }

  /** Guest and host agree that the memory represents `r`. */
  ghost predicate QueueOk(m: Mem, h: HostMem, k: Book, r: Ring) {
    Unit(GuestOk(m, k, r) && Inv(r) && HostOk(h, m, r, r.hAvail))
  }

  /** A queue as the constructor leaves it. */
  lemma InitQueueOk(m: Mem, h: HostMem, k: Book, n: nat)
    requires 0 < n <= 0x8000 && |m.desc| == |m.state| == |h.hvMap| == n
    requires forall i :: 0 <= i < n ==> m.desc[i] == Desc(0, 0, 0, 0, 0)
    requires forall i :: 0 <= i < n ==> m.state[i] == DescState(0, false, if i < n - 1 then i + 1 else 0)
    requires m.used == m.avail == h.used == h.avail == Cursor(0, true) && m.flags == F_AVAIL && m.head == 0
    requires h.flags == F_AVAIL | F_USED && h.pending == 0
    requires k == Book([], seq(n, _ => 0), seq(n, i => i))
    ensures QueueOk(m, h, k, InitRing(n))
  {}

  // ----- what the flag tests decide ----------------------------------------------------

  lemma FlagDecides(flags: bv16, lap: bool, p: nat, r: Ring)
    requires FlagOk(flags, lap, p, r) && r.hUsed <= r.gAvail
    ensures IsUsed(flags, lap) <==> p < r.hUsed
    ensures IsAvail(flags, lap) <==> r.hUsed <= p < r.gAvail
    ensures IsPending(flags, lap) <==> r.hUsed <= p < r.gAvail
    ensures p < r.gAvail ==> !IsAvail(flags, !lap)
  {
    FlagTests(lap, lap);
    FlagTests(!lap, lap);
    FlagTests(lap, !lap);
  }

  lemma GuestCursors(m: Mem, k: Book, r: Ring)
    requires GuestOk(m, k, r)
    ensures m.used.idx < |m.desc| == |m.state| == r.n
    ensures m.avail == At(r.gAvail, r.n)
  {
    AtAhead(r.gUsed, r.gAvail - r.gUsed, r.n);
  }

  lemma HostCursors(m: Mem, h: HostMem, k: Book, r: Ring)
    requires QueueOk(m, h, k, r)
    ensures h.avail == At(r.hAvail, r.n) && h.used == At(r.hUsed, r.n)
    ensures |m.desc| == |h.hvMap| == r.n
  {
    AtAhead(r.gUsed, r.hAvail - r.gUsed, r.n);
    AtAhead(r.gUsed, r.hUsed - r.gUsed, r.n);
  }

  /** At any position of the current lap the guest's test tells whether the host completed it. */
  lemma UsedTestExact(m: Mem, k: Book, r: Ring, p: nat)
    requires GuestOk(m, k, r) && r.gUsed <= p < r.gUsed + r.n
    ensures var c := At(p, r.n);
            c.idx < |m.desc| && (IsUsed(m.desc[c.idx].flags, c.wrap) <==> p < r.hUsed)
  {
    AtAhead(r.gUsed, p - r.gUsed, r.n);
    SlotOfPosition(m.used, r.gUsed, r.n, p - r.gUsed);
    FlagDecides(m.desc[At(p, r.n).idx].flags, At(p, r.n).wrap, p, r);
  }

  lemma PendingTestExact(m: Mem, k: Book, r: Ring)
    requires GuestOk(m, k, r)
    ensures m.used.idx < |m.desc|
    ensures IsPending(m.desc[m.used.idx].flags, m.used.wrap) <==> r.hUsed <= r.gUsed < r.gAvail
  {
    SlotOfPosition(m.used, r.gUsed, r.n, 0);
    FlagDecides(m.desc[m.used.idx].flags, m.used.wrap, r.gUsed, r);
  }

  lemma AvailTestExact(m: Mem, h: HostMem, k: Book, r: Ring)
    requires QueueOk(m, h, k, r)
    ensures h.avail.idx < |m.desc|
    ensures IsAvail(m.desc[h.avail.idx].flags, h.avail.wrap) <==> r.hAvail < r.gAvail
  {
    if r.hAvail < r.gUsed + r.n {
      SlotOfPosition(m.used, r.gUsed, r.n, r.hAvail - r.gUsed);
      FlagDecides(m.desc[h.avail.idx].flags, h.avail.wrap, r.hAvail, r);
    } else {
      // a full lap: the slot is still the guest's oldest position
      FlagDecides(m.desc[h.avail.idx].flags, m.used.wrap, r.gUsed, r);
    }
  }

  /** The buffers at positions `lo` to `hi`, in ring order. */
  ghost function Carried(r: Ring, lo: nat, hi: nat): (out: seq<Buf>)
    requires Outstanding(r) && lo <= hi <= r.gAvail
    ensures |out| == hi - lo
    ensures forall i :: 0 <= i < |out| ==> r.at[lo + i] < |r.bufs| && out[i] == r.bufs[r.at[lo + i]]
  {
    seq(hi - lo, i requires 0 <= i < hi - lo => r.bufs[r.at[lo + i]])
  }

  lemma CarriedNext(r: Ring, lo: nat, p: nat)
    requires Outstanding(r) && lo <= p < r.gAvail
    ensures Carried(r, lo, p + 1) == Carried(r, lo, p) + [r.bufs[r.at[p]]]
  {}

  lemma CarriedJoin(r: Ring, r': Ring, lo: nat, mid: nat, hi: nat)
    requires Outstanding(r) && Outstanding(r') && lo <= mid <= hi <= r.gAvail && r' == r.(gUsed := mid)
    ensures Carried(r, lo, mid) + Carried(r', mid, hi) == Carried(r, lo, hi)
  {}

  // ----- publishing ----------------------------------------------------------------------

  lemma PublishFlags(desc: seq<Desc>, u: Cursor, r: Ring, buf: Buf, d: Desc)
    requires u.idx < r.n && FlagsOk(desc, u, r) && r.hUsed <= r.gAvail && r.gUsed <= r.gAvail < r.gUsed + r.n
    requires d.flags == AvailFlags(Ahead(u, r.gAvail - r.gUsed, r.n).wrap)
    ensures FlagsOk(desc[Ahead(u, r.gAvail - r.gUsed, r.n).idx := d], u, Append(r, buf))
  {
    SlotOfPosition(u, r.gUsed, r.n, r.gAvail - r.gUsed);
  }

  lemma PublishContents(desc: seq<Desc>, state: seq<DescState>, idOf: seq<nat>, owner: seq<nat>, u: Cursor, r: Ring,
                        buf: Buf, d: Desc, ds: DescState)
    requires u.idx < r.n && Outstanding(r) && Outstanding(Append(r, buf)) && ContentsOk(desc, state, idOf, owner, u, r)
    requires d.id < r.n && d.addr == buf.paddr && d.len == buf.len && !state[d.id].busy
    requires ds.busy && ds.cookie == buf.cookie
    ensures var s := Ahead(u, r.gAvail - r.gUsed, r.n).idx;
            ContentsOk(desc[s := d], state[d.id := ds], idOf + [d.id], owner[d.id := s], u, Append(r, buf))
  {
    SlotOfPosition(u, r.gUsed, r.n, r.gAvail - r.gUsed);
  }

  lemma PublishFree(state: seq<DescState>, head: nat, free: seq<nat>, ds: DescState)
    requires FreeOk(state, head, free) && free != [] && ds.busy && ds.next == state[head].next
    ensures FreeOk(state[head := ds], ds.next, free[1..])
  {
    if |free| > 1 {
      assert state[free[0]].next == free[1];
    }
  }

  lemma PublishHvMap(desc: seq<Desc>, hvMap: seq<nat>, u: Cursor, r: Ring, buf: Buf, d: Desc)
    requires u.idx < r.n && Outstanding(r) && HvMapOk(desc, hvMap, u, r, r.hAvail)
    requires r.hAvail <= r.gAvail < r.gUsed + r.n
    ensures HvMapOk(desc[Ahead(u, r.gAvail - r.gUsed, r.n).idx := d], hvMap, u, Append(r, buf), r.hAvail)
  {
    SlotOfPosition(u, r.gUsed, r.n, r.gAvail - r.gUsed);
  }

  /** The guest's memory after publishing `d` under the free id at the head of the chain. */
  function PublishMem(m: Mem, d: Desc, ds: DescState, n: nat): Mem
    requires m.avail.idx < |m.desc| && m.head < |m.state|
  {
    var avail := Advance(m.avail, n);
    Mem(m.used, avail, AvailFlags(avail.wrap), ds.next, m.desc[m.avail.idx := d], m.state[m.head := ds])
  }

  lemma HeadIsFree(m: Mem, k: Book, r: Ring)
    requires GuestOk(m, k, r) && r.gAvail < r.gUsed + r.n
    ensures m.avail.idx < |m.desc| == r.n
    ensures m.head < |m.state| == r.n && !m.state[m.head].busy && m.head == k.free[0]
  {}

  lemma PublishOk(m: Mem, k: Book, r: Ring, buf: Buf, d: Desc, ds: DescState)
    requires GuestOk(m, k, r) && r.gAvail < r.gUsed + r.n
    requires m.head < |m.state| && m.avail.idx < |m.desc|
    requires d == Desc(buf.paddr, buf.len, m.head, AvailFlags(m.avail.wrap), d.mark)
    requires ds == DescState(buf.cookie, true, m.state[m.head].next)
    ensures GuestOk(PublishMem(m, d, ds, r.n),
                    Book(k.idOf + [m.head], k.owner[m.head := m.avail.idx], k.free[1..]),
                    Append(r, buf))
  {
    PublishFlags(m.desc, m.used, r, buf, d);
    PublishContents(m.desc, m.state, k.idOf, k.owner, m.used, r, buf, d, ds);
    PublishFree(m.state, m.head, k.free, ds);
  }

  lemma PublishHostOk(h: HostMem, m: Mem, r: Ring, buf: Buf, d: Desc, ds: DescState)
    requires m.used.idx < r.n && HostOk(h, m, r, r.hAvail) && Outstanding(r) && r.gAvail < r.gUsed + r.n
    requires m.avail == Ahead(m.used, r.gAvail - r.gUsed, r.n) && m.head < |m.state|
    ensures HostOk(h, PublishMem(m, d, ds, r.n),
                   Append(r, buf), r.hAvail)
  {
    PublishHvMap(m.desc, h.hvMap, m.used, r, buf, d);
  }

  lemma PublishQueueOk(m: Mem, h: HostMem, k: Book, r: Ring, buf: Buf, d: Desc, ds: DescState)
    requires QueueOk(m, h, k, r) && Enabled(r, Publish(buf))
    requires m.head < |m.state| && m.avail.idx < |m.desc|
    requires d == Desc(buf.paddr, buf.len, m.head, AvailFlags(m.avail.wrap), d.mark)
    requires ds == DescState(buf.cookie, true, m.state[m.head].next)
    ensures QueueOk(PublishMem(m, d, ds, r.n), h,
                    Book(k.idOf + [m.head], k.owner[m.head := m.avail.idx], k.free[1..]), Apply(r, Publish(buf)))
  {
    StepKeepsInv(r, Publish(buf));
    PublishOk(m, k, r, buf, d, ds);
    PublishHostOk(h, m, r, buf, d, ds);
  }

  // ----- collecting ------------------------------------------------------------------------

  lemma CollectFlags(desc: seq<Desc>, u: Cursor, r: Ring)
    requires u.idx < r.n && FlagsOk(desc, u, r) && Outstanding(r) && r.gUsed < r.gAvail && r.hUsed <= r.gAvail
    ensures FlagsOk(desc, Advance(u, r.n), r.(gUsed := r.gUsed + 1))
  {}

  lemma CollectContents(desc: seq<Desc>, state: seq<DescState>, idOf: seq<nat>, owner: seq<nat>, u: Cursor, r: Ring,
      ds: DescState)
    requires u.idx < r.n && Outstanding(r) && ContentsOk(desc, state, idOf, owner, u, r) && r.gUsed < r.gAvail
    ensures var id := desc[u.idx].id;
            && id < |state|
            && ContentsOk(desc, state[id := ds], idOf, owner, Advance(u, r.n), r.(gUsed := r.gUsed + 1))
  {
    assert PosOf(u, r.gUsed, r.n, u.idx) == r.gUsed;
  }

  lemma CollectFree(state: seq<DescState>, head: nat, free: seq<nat>, id: nat, ds: DescState)
    requires FreeOk(state, head, free) && id < |state| && state[id].busy
    requires !ds.busy && ds.next == head
    ensures FreeOk(state[id := ds], id, [id] + free)
  {}

  lemma CollectHvMap(desc: seq<Desc>, hvMap: seq<nat>, u: Cursor, r: Ring, hi: nat)
    requires u.idx < r.n && HvMapOk(desc, hvMap, u, r, hi) && r.gUsed < r.hUsed <= hi <= r.gUsed + r.n
    ensures HvMapOk(desc, hvMap, Advance(u, r.n), r.(gUsed := r.gUsed + 1), hi)
  {}

  /** The guest's memory after it took back the buffer at its used cursor. */
  function CollectMem(m: Mem, id: nat, n: nat): Mem
    requires id < |m.state|
  {
    Mem(Advance(m.used, n), m.avail, m.flags, id, m.desc,
        m.state[id := m.state[id].(busy := false, next := m.head)])
  }

  lemma CollectOk(m: Mem, k: Book, r: Ring)
    requires GuestOk(m, k, r) && r.gUsed < r.gAvail
    ensures m.used.idx < |m.desc| && m.desc[m.used.idx].id < |m.state|
    ensures Carries(m.desc[m.used.idx], m.state, k.idOf, r, r.at[r.gUsed])
    ensures var id := m.desc[m.used.idx].id;
            GuestOk(CollectMem(m, id, r.n), k.(free := [id] + k.free), r.(gUsed := r.gUsed + 1))
  {
    var id := m.desc[m.used.idx].id;
    assert PosOf(m.used, r.gUsed, r.n, m.used.idx) == r.gUsed;
    CollectFlags(m.desc, m.used, r);
    var ds := m.state[id].(busy := false, next := m.head);
    CollectContents(m.desc, m.state, k.idOf, k.owner, m.used, r, ds);
    CollectFree(m.state, m.head, k.free, id, ds);
  }

  lemma CollectHostOk(h: HostMem, m: Mem, r: Ring, id: nat)
    requires m.used.idx < r.n && HostOk(h, m, r, r.hAvail) && r.gUsed < r.hUsed && id < |m.state|
    ensures HostOk(h, CollectMem(m, id, r.n), r.(gUsed := r.gUsed + 1), r.hAvail)
  {
    CollectHvMap(m.desc, h.hvMap, m.used, r, r.hAvail);
  }

  /** A collection returns the buffer at the used cursor and keeps whatever held before. */
  lemma CollectKeeps(m: Mem, h: HostMem, k: Book, r: Ring)
    requires GuestOk(m, k, r) && r.gUsed < r.gAvail
    ensures m.used.idx < |m.desc| && m.desc[m.used.idx].id < |m.state|
    ensures var d := m.desc[m.used.idx];
            && m.state[d.id].busy
            && Buf(m.state[d.id].cookie, d.addr, d.len) == r.bufs[r.at[r.gUsed]]
            && GuestOk(CollectMem(m, d.id, r.n), k.(free := [d.id] + k.free), r.(gUsed := r.gUsed + 1))
            && (QueueOk(m, h, k, r) && r.gUsed < r.hUsed ==>
                  QueueOk(CollectMem(m, d.id, r.n), h, k.(free := [d.id] + k.free), r.(gUsed := r.gUsed + 1)))
  {
    CollectOk(m, k, r);
    if QueueOk(m, h, k, r) && r.gUsed < r.hUsed {
      StepKeepsInv(r, Collect);
      CollectHostOk(h, m, r, m.desc[m.used.idx].id);
    }
  }

  // ----- acquiring ---------------------------------------------------------------------------

  /** Recording the slot of the next buffer keeps the map exact for the buffers already owned. */
  lemma AcquireHvMap(desc: seq<Desc>, state: seq<DescState>, idOf: seq<nat>, owner: seq<nat>, hvMap: seq<nat>,
                     u: Cursor, r: Ring, held: set<nat>)
    requires u.idx < r.n && Outstanding(r) && ContentsOk(desc, state, idOf, owner, u, r)
    requires r.gUsed <= r.hUsed <= r.hAvail < r.gAvail && HvMapOk(desc, hvMap, u, r, r.hAvail)
    requires r.held <= held <= r.held + {r.at[r.hAvail]}
    ensures var s := Ahead(u, r.hAvail - r.gUsed, r.n).idx;
            && desc[s].id < r.n
            && HvMapOk(desc, hvMap[desc[s].id := s], u, r.(held := held), r.hAvail + 1)
  {
    SlotOfPosition(u, r.gUsed, r.n, r.hAvail - r.gUsed);
  }

  // ----- releasing -----------------------------------------------------------------------------

  /** Exchange address, length and id of two slots; flags and mark stay. */
  function SwapContents(desc: seq<Desc>, s: nat, t: nat): (d: seq<Desc>)
    requires s < |desc| && t < |desc|
  {
    desc[s := desc[s].(addr := desc[t].addr, len := desc[t].len, id := desc[t].id)]
        [t := desc[t].(addr := desc[s].addr, len := desc[s].len, id := desc[s].id)]
  }

  function SetFlags(desc: seq<Desc>, s: nat, flags: bv16): (d: seq<Desc>)
    requires s < |desc|
  {
    desc[s := desc[s].(flags := flags)]
  }

  /** Slot `s` is the next to complete and slot `t` holds buffer `b`, which may complete. */
  ghost predicate Releases(u: Cursor, r: Ring, b: nat, s: nat, t: nat) {
    && u.idx < r.n && Outstanding(r)
    && b < |r.pos| && r.gUsed <= r.hUsed <= r.pos[b]
    && s < r.n && PosOf(u, r.gUsed, r.n, s) == r.hUsed
    && t < r.n && PosOf(u, r.gUsed, r.n, t) == r.pos[b]
  }

  /** Acquired descriptors differ in their flags exactly when a lap boundary lies between them. */
  lemma AcquiredFlagsComplement(desc: seq<Desc>, u: Cursor, r: Ring, b: nat, s: nat, t: nat)
    requires Releases(u, r, b, s, t) && FlagsOk(desc, u, r)
    ensures SwapAllowed(s, t, desc[s].flags, desc[t].flags)
  {}

  lemma ReleaseFlags(desc: seq<Desc>, u: Cursor, r: Ring, b: nat, s: nat, t: nat)
    requires Releases(u, r, b, s, t) && FlagsOk(desc, u, r)
    ensures FlagsOk(SetFlags(SwapContents(desc, s, t), s, UsedFlags(LapOf(u, s))), u, Complete(r, b))
  {}

  lemma ReleaseContents(desc: seq<Desc>, state: seq<DescState>, idOf: seq<nat>, owner: seq<nat>,
                        u: Cursor, r: Ring, b: nat, s: nat, t: nat, flags: bv16)
    requires Releases(u, r, b, s, t) && ContentsOk(desc, state, idOf, owner, u, r)
    ensures desc[s].id < r.n && desc[t].id < r.n && Outstanding(Complete(r, b))
    ensures ContentsOk(SetFlags(SwapContents(desc, s, t), s, flags), state, idOf,
                       owner[desc[s].id := t][desc[t].id := s], u, Complete(r, b))
  {
    SwapKeepsInverse(r, r.hUsed, r.pos[b]);
  }

  lemma ReleaseHvMap(desc: seq<Desc>, state: seq<DescState>, idOf: seq<nat>, owner: seq<nat>, hvMap: seq<nat>,
                     u: Cursor, r: Ring, b: nat, s: nat, t: nat, flags: bv16, hi: nat)
    requires Releases(u, r, b, s, t) && ContentsOk(desc, state, idOf, owner, u, r)
    requires r.pos[b] < hi <= r.gAvail && HvMapOk(desc, hvMap, u, r, hi)
    ensures desc[s].id < r.n
    ensures var hvMap' := if s == t then hvMap else hvMap[desc[s].id := t];
            HvMapOk(SetFlags(SwapContents(desc, s, t), s, flags), hvMap', u, Complete(r, b), hi)
  {}

  /** Memory after the contents of slot `t` moved to slot `s` and `s` was marked. */
  function FinishMem(m: Mem, s: nat, t: nat, flags: bv16): Mem
    requires s < |m.desc| && t < |m.desc|
  {
    m.(desc := SetFlags(SwapContents(m.desc, s, t), s, flags))
  }

  /** The host's side of a completion: `id` is the id that moved to slot `t`. */
  function FinishHost(h: HostMem, id: nat, t: nat, n: nat): HostMem
    requires id < |h.hvMap| && h.pending > 0
  {
    var used := Advance(h.used, n);
    HostMem(used, h.avail, UsedFlags(used.wrap), h.pending - 1,
            if h.used.idx == t then h.hvMap else h.hvMap[id := t])
  }

  /** The completion of buffer `b`, which sits in slot `t` below position `hi`, is possible. */
  ghost predicate Finishes(m: Mem, h: HostMem, k: Book, r: Ring, b: nat, t: nat, hi: nat) {
    && GuestOk(m, k, r) && HostOk(h, m, r, hi)
    && b < |r.pos| && r.hUsed <= r.pos[b] < hi <= r.gAvail && r.hUsed < r.hAvail
    && t < r.n && PosOf(m.used, r.gUsed, r.n, t) == r.pos[b]
  }

  lemma FinishBounds(m: Mem, h: HostMem, k: Book, r: Ring, b: nat, t: nat, hi: nat)
    requires Finishes(m, h, k, r, b, t, hi)
    ensures |m.desc| == |m.state| == |h.hvMap| == |k.owner| == r.n
    ensures h.used.idx < r.n && t < r.n && h.pending > 0
    ensures Releases(m.used, r, b, h.used.idx, t)
    ensures h.flags == UsedFlags(LapOf(m.used, h.used.idx))
    ensures m.desc[h.used.idx].id < r.n && m.desc[t].id < r.n
  {
    SlotOfPosition(m.used, r.gUsed, r.n, r.hUsed - r.gUsed);
  }

  lemma FinishGuestOk(m: Mem, h: HostMem, k: Book, r: Ring, b: nat, t: nat, hi: nat)
    requires Finishes(m, h, k, r, b, t, hi) && h.used.idx < |m.desc| == |m.state| == |k.owner| && t < |m.desc|
    requires m.desc[h.used.idx].id < |k.owner| && m.desc[t].id < |k.owner|
    ensures var s := h.used.idx;
            GuestOk(FinishMem(m, s, t, h.flags),
                    k.(owner := k.owner[m.desc[s].id := t][m.desc[t].id := s]), Complete(r, b))
  {
    FinishBounds(m, h, k, r, b, t, hi);
    ReleaseFlags(m.desc, m.used, r, b, h.used.idx, t);
    ReleaseContents(m.desc, m.state, k.idOf, k.owner, m.used, r, b, h.used.idx, t, h.flags);
  }

  lemma FinishHostOk(m: Mem, h: HostMem, k: Book, r: Ring, b: nat, t: nat, hi: nat)
    requires Finishes(m, h, k, r, b, t, hi) && h.used.idx < |m.desc| && t < |m.desc|
    requires m.desc[h.used.idx].id < |h.hvMap| && h.pending > 0
    ensures var s := h.used.idx;
            HostOk(FinishHost(h, m.desc[s].id, t, r.n), FinishMem(m, s, t, h.flags), Complete(r, b), hi)
  {
    FinishHvMap(m, h, k, r, b, t, hi);
    FinishCursors(m, h, r, hi);
  }

  lemma FinishHvMap(m: Mem, h: HostMem, k: Book, r: Ring, b: nat, t: nat, hi: nat)
    requires Finishes(m, h, k, r, b, t, hi) && h.used.idx < |m.desc| && t < |m.desc|
    requires m.desc[h.used.idx].id < |h.hvMap| && h.pending > 0
    ensures var s := h.used.idx;
            HvMapOk(FinishMem(m, s, t, h.flags).desc, FinishHost(h, m.desc[s].id, t, r.n).hvMap, m.used,
                    Complete(r, b), hi)
  {
    FinishBounds(m, h, k, r, b, t, hi);
    ReleaseHvMap(m.desc, m.state, k.idOf, k.owner, h.hvMap, m.used, r, b, h.used.idx, t, h.flags, hi);
  }

  lemma FinishCursors(m: Mem, h: HostMem, r: Ring, hi: nat)
    requires m.used.idx < r.n && HostOk(h, m, r, hi) && r.hUsed < r.hAvail
    ensures h.pending > 0 && Advance(h.used, r.n) == Ahead(m.used, r.hUsed + 1 - r.gUsed, r.n)
  {}

  /** The slot an owned buffer occupies, as the host's map gives it. */
  lemma HeldSlot(m: Mem, h: HostMem, k: Book, r: Ring, b: nat)
    requires QueueOk(m, h, k, r) && b in r.held
    ensures b < |k.idOf| && k.idOf[b] < |h.hvMap| && h.hvMap[k.idOf[b]] < |m.desc| == r.n
    ensures Finishes(m, h, k, r, b, h.hvMap[k.idOf[b]], r.hAvail)
  {
    SlotOfPosition(m.used, r.gUsed, r.n, r.pos[b] - r.gUsed);
    var t := Ahead(m.used, r.pos[b] - r.gUsed, r.n).idx;
    assert r.at[r.pos[b]] == b;
    assert m.desc[t].id == k.idOf[b];
  }

  /** What the swap asserts about the flags of two acquired descriptors. */
  predicate SwapAllowed(s: nat, t: nat, f: bv16, g: bv16) {
    s == t || (s < t && f == g) || (s > t && f ^ g == F_AVAIL | F_USED)
  }

  lemma ReleaseBounds(m: Mem, h: HostMem, k: Book, r: Ring, b: nat)
    requires QueueOk(m, h, k, r) && b in r.held
    ensures |m.desc| == |m.state| == |h.hvMap| == |k.owner| == r.n
    ensures h.used.idx < r.n && h.pending > 0 && h.flags == UsedFlags(h.used.wrap)
    ensures b < |k.idOf| && k.idOf[b] < r.n && h.hvMap[k.idOf[b]] < r.n
    ensures var s, t := h.used.idx, h.hvMap[k.idOf[b]];
            && m.desc[s].id < r.n && m.desc[t].id < r.n
            && SwapAllowed(s, t, m.desc[s].flags, m.desc[t].flags)
  {
    HeldSlot(m, h, k, r, b);
    var t := h.hvMap[k.idOf[b]];
    FinishBounds(m, h, k, r, b, t, r.hAvail);
    AcquiredFlagsComplement(m.desc, m.used, r, b, h.used.idx, t);
  }

  lemma ReleaseQueueOk(m: Mem, h: HostMem, k: Book, r: Ring, b: nat, m': Mem, h': HostMem) returns (k': Book)
    requires QueueOk(m, h, k, r) && b in r.held && b < |k.idOf| && k.idOf[b] < |h.hvMap|
    requires var s, t := h.used.idx, h.hvMap[k.idOf[b]];
             && s < |m.desc| && t < |m.desc| && h.pending > 0 && m.desc[s].id < |h.hvMap|
             && m' == FinishMem(m, s, t, h.flags) && h' == FinishHost(h, m.desc[s].id, t, r.n)
    ensures k'.idOf == k.idOf && k'.free == k.free
    ensures QueueOk(m', h', k', Apply(r, Release(b)))
  {
    var s, t := h.used.idx, h.hvMap[k.idOf[b]];
    HeldSlot(m, h, k, r, b);
    FinishBounds(m, h, k, r, b, t, r.hAvail);
    k' := k.(owner := k.owner[m.desc[s].id := t][m.desc[t].id := s]);
    FinishGuestOk(m, h, k, r, b, t, r.hAvail);
    FinishHostOk(m, h, k, r, b, t, r.hAvail);
    StepKeepsInv(r, Release(b));
  }

  /** The host's cursor after it has taken one more descriptor. */
  function SeenHost(h: HostMem, n: nat): HostMem {
    h.(avail := Advance(h.avail, n), pending := h.pending + 1)
  }

  lemma SeenKeeps(h: HostMem, m: Mem, r: Ring, lost: set<nat>)
    requires m.used.idx < r.n && HostOk(h, m, r, r.hAvail + 1) && r.hAvail < r.gAvail
    ensures HostOk(SeenHost(h, r.n), m, r.(hAvail := r.hAvail + 1, lost := lost), r.hAvail + 1)
  {}

  /** The next descriptor to acquire. */
  lemma NextSlot(m: Mem, h: HostMem, k: Book, r: Ring)
    requires QueueOk(m, h, k, r) && r.hAvail < r.gAvail
    ensures h.avail.idx < |m.desc| == |h.hvMap| == r.n
    ensures PosOf(m.used, r.gUsed, r.n, h.avail.idx) == r.hAvail
    ensures r.hAvail < |k.idOf| && m.desc[h.avail.idx].id == k.idOf[r.hAvail] < r.n
  {
    SlotOfPosition(m.used, r.gUsed, r.n, r.hAvail - r.gUsed);
    NextIsUnowned(r);
  }

  function RecordHost(h: HostMem, id: nat, s: nat): HostMem
    requires id < |h.hvMap|
  {
    h.(hvMap := h.hvMap[id := s])
  }

  /** Until it is counted as acquired, the next buffer is nobody's: the map is exact with or without it. */
  lemma UnrecordedKeeps(m: Mem, h: HostMem, k: Book, r: Ring)
    requires QueueOk(m, h, k, r) && r.hAvail < r.gAvail
    ensures HostOk(h, m, r, r.hAvail + 1)
  {
    NextIsUnowned(r);
  }

  lemma RecordKeeps(m: Mem, h: HostMem, k: Book, r: Ring, held: set<nat>)
    requires QueueOk(m, h, k, r) && r.hAvail < r.gAvail
    requires h.avail.idx < |m.desc| && m.desc[h.avail.idx].id < |h.hvMap|
    requires r.held <= held <= r.held + {r.hAvail}
    ensures HostOk(RecordHost(h, m.desc[h.avail.idx].id, h.avail.idx), m, r.(held := held), r.hAvail + 1)
  {
    NextIsUnowned(r);
    AcquireHvMap(m.desc, m.state, k.idOf, k.owner, h.hvMap, m.used, r, held);
  }

  predicate AcquireFits(m: Mem, h: HostMem) {
    && h.avail.idx < |m.desc| && h.used.idx < |m.desc|
    && m.desc[h.avail.idx].id < |h.hvMap| && m.desc[h.used.idx].id < |h.hvMap|
  }

  /** Both sides' memory after the host took the descriptor at its avail cursor. */
  function AcquireResult(m: Mem, h: HostMem, v: Verdict, n: nat): (Mem, HostMem)
    requires AcquireFits(m, h)
  {
    var s, t := h.used.idx, h.avail.idx;
    if v == Untranslatable then (m, SeenHost(h, n)) else
    var h' := RecordHost(h, m.desc[t].id, t);
    if v == Enqueued || h.pending == 0 then (m, SeenHost(h', n))
    else (FinishMem(m, s, t, h.flags), SeenHost(FinishHost(h', m.desc[s].id, t, n), n))
  }

  lemma AcquireBounds(m: Mem, h: HostMem, k: Book, r: Ring)
    requires QueueOk(m, h, k, r) && r.hAvail < r.gAvail
    ensures |m.desc| == |m.state| == |h.hvMap| == r.n
    ensures h.avail.idx < r.n && h.used.idx < r.n && h.flags == UsedFlags(h.used.wrap)
    ensures m.desc[h.avail.idx].id < r.n && m.desc[h.used.idx].id < r.n
    ensures r.hAvail < |k.idOf| && m.desc[h.avail.idx].id == k.idOf[r.hAvail]
    ensures SwapAllowed(h.used.idx, h.avail.idx, m.desc[h.used.idx].flags, m.desc[h.avail.idx].flags)
  {
    NextSlot(m, h, k, r);
    SlotOfPosition(m.used, r.gUsed, r.n, r.hUsed - r.gUsed);
    NextIsUnowned(r);
    assert Releases(m.used, r, r.hAvail, h.used.idx, h.avail.idx);
    AcquiredFlagsComplement(m.desc, m.used, r, r.hAvail, h.used.idx, h.avail.idx);
  }

  /** The guest's memory does not depend on what the host has seen and who owns it. */
  lemma GuestIgnoresOwners(m: Mem, k: Book, r: Ring, hAvail: nat, held: set<nat>, lost: set<nat>)
    requires GuestOk(m, k, r)
    ensures GuestOk(m, k, r.(hAvail := hAvail, held := held, lost := lost))
  {
    var r' := r.(hAvail := hAvail, held := held, lost := lost);
    assert FlagsOk(m.desc, m.used, r');
    assert ContentsOk(m.desc, m.state, k.idOf, k.owner, m.used, r');
  }

  lemma HostEnqueued(m: Mem, h: HostMem, k: Book, r: Ring)
    requires QueueOk(m, h, k, r) && r.hAvail < r.gAvail
    requires h.avail.idx < |m.desc| && m.desc[h.avail.idx].id < |h.hvMap|
    ensures HostOk(SeenHost(RecordHost(h, m.desc[h.avail.idx].id, h.avail.idx), r.n), m, Enqueue(r), r.hAvail + 1)
  {
    RecordKeeps(m, h, k, r, r.held + {r.hAvail});
    SeenKeeps(RecordHost(h, m.desc[h.avail.idx].id, h.avail.idx), m, r.(held := r.held + {r.hAvail}), r.lost);
  }

  lemma AcquireEnqueued(m: Mem, h: HostMem, k: Book, r: Ring)
    requires QueueOk(m, h, k, r) && r.hAvail < r.gAvail
    requires h.avail.idx < |m.desc| && m.desc[h.avail.idx].id < |h.hvMap|
    ensures QueueOk(m, SeenHost(RecordHost(h, m.desc[h.avail.idx].id, h.avail.idx), r.n), k, Enqueue(r))
  {
    AcquireKeepsInv(r);
    GuestIgnoresOwners(m, k, r, r.hAvail + 1, r.held + {r.hAvail}, r.lost);
    HostEnqueued(m, h, k, r);
  }

  lemma AcquireLost(m: Mem, h: HostMem, k: Book, r: Ring, h': HostMem)
    requires QueueOk(m, h, k, r) && r.hAvail < r.gAvail
    requires HostOk(h', m, r, r.hAvail + 1)
    ensures QueueOk(m, SeenHost(h', r.n), k, Lose(r))
  {
    assert Inv(Lose(r)) by {
      AcquireKeepsInv(r);
    }
    assert GuestOk(m, k, Lose(r)) by {
      GuestIgnoresOwners(m, k, r, r.hAvail + 1, r.held, r.lost + {r.hAvail});
    }
    SeenKeeps(h', m, r, r.lost + {r.hAvail});
  }

  /** The refused buffer and the next one to complete change places before the former is counted. */
  lemma DropFinish(m: Mem, h: HostMem, k: Book, r: Ring, m': Mem, h': HostMem) returns (k': Book)
    requires QueueOk(m, h, k, r) && r.hUsed < r.hAvail < r.gAvail
    requires AcquireFits(m, h) && h.pending > 0
    requires m' == FinishMem(m, h.used.idx, h.avail.idx, h.flags)
    requires h' == FinishHost(RecordHost(h, m.desc[h.avail.idx].id, h.avail.idx), m.desc[h.used.idx].id, h.avail.idx,
             r.n)
    ensures k'.idOf == k.idOf && k'.free == k.free
    ensures GuestOk(m', k', Complete(r, r.hAvail))
    ensures HostOk(h', m', Complete(r, r.hAvail), r.hAvail + 1)
  {
    var s, t := h.used.idx, h.avail.idx;
    var h1 := RecordHost(h, m.desc[t].id, t);
    assert Finishes(m, h1, k, r, r.hAvail, t, r.hAvail + 1) by {
      NextSlot(m, h, k, r);
      NextIsUnowned(r);
      RecordKeeps(m, h, k, r, r.held);
      assert r.(held := r.held) == r;
    }
    FinishBounds(m, h1, k, r, r.hAvail, t, r.hAvail + 1);
    k' := k.(owner := k.owner[m.desc[s].id := t][m.desc[t].id := s]);
    FinishGuestOk(m, h1, k, r, r.hAvail, t, r.hAvail + 1);
    FinishHostOk(m, h1, k, r, r.hAvail, t, r.hAvail + 1);
  }

  /** After that exchange the refused buffer is counted. */
  lemma DropCount(m: Mem, h: HostMem, k: Book, r: Ring, n: nat, r': Ring)
    requires GuestOk(m, k, r) && HostOk(h, m, r, r.hAvail + 1) && r.hAvail < r.gAvail
    requires n == r.n && r' == r.(hAvail := r.hAvail + 1) && Inv(r')
    ensures QueueOk(m, SeenHost(h, n), k, r')
  {
    GuestIgnoresOwners(m, k, r, r.hAvail + 1, r.held, r.lost);
    SeenKeeps(h, m, r, r.lost);
  }

  lemma DropShape(r: Ring)
    requires Inv(r) && r.hUsed < r.hAvail < r.gAvail
    ensures var c := Complete(r, r.hAvail);
            && c.n == r.n && c.hAvail == r.hAvail && c.gAvail == r.gAvail
            && Apply(r, Acquire(Dropped)) == c.(hAvail := c.hAvail + 1)
            && Inv(c.(hAvail := c.hAvail + 1))
  {
    StepKeepsInv(r, Acquire(Dropped));
  }

  lemma CountDropped(m: Mem, h: HostMem, k: Book, r: Ring)
    requires Inv(r) && r.hUsed < r.hAvail < r.gAvail
    requires GuestOk(m, k, Complete(r, r.hAvail)) && HostOk(h, m, Complete(r, r.hAvail), r.hAvail + 1)
    ensures QueueOk(m, SeenHost(h, r.n), k, Apply(r, Acquire(Dropped)))
  {
    DropShape(r);
    DropCount(m, h, k, Complete(r, r.hAvail), r.n, Apply(r, Acquire(Dropped)));
  }

  lemma AcquireDropped(m: Mem, h: HostMem, k: Book, r: Ring, m': Mem, h': HostMem) returns (k': Book)
    requires QueueOk(m, h, k, r) && r.hUsed < r.hAvail < r.gAvail
    requires AcquireFits(m, h) && h.pending > 0
    requires m' == FinishMem(m, h.used.idx, h.avail.idx, h.flags)
    requires h' == FinishHost(RecordHost(h, m.desc[h.avail.idx].id, h.avail.idx), m.desc[h.used.idx].id, h.avail.idx,
             r.n)
    ensures k'.idOf == k.idOf && k'.free == k.free
    ensures QueueOk(m', SeenHost(h', r.n), k', Apply(r, Acquire(Dropped)))
  {
    k' := DropFinish(m, h, k, r, m', h');
    CountDropped(m', h', k', r);
  }

  lemma AcquireQueueOk(m: Mem, h: HostMem, k: Book, r: Ring, v: Verdict, m': Mem, h': HostMem) returns (k': Book)
    requires QueueOk(m, h, k, r) && r.hAvail < r.gAvail
    requires AcquireFits(m, h) && (m', h') == AcquireResult(m, h, v, r.n)
    ensures k'.idOf == k.idOf && k'.free == k.free
    ensures QueueOk(m', h', k', Apply(r, Acquire(v)))
  {
    var h1 := RecordHost(h, m.desc[h.avail.idx].id, h.avail.idx);
    k' := k;
    match v
    case Enqueued =>
      AcquireEnqueued(m, h, k, r);
    case Untranslatable =>
      UnrecordedKeeps(m, h, k, r);
      AcquireLost(m, h, k, r, h);
    case Dropped =>
      if r.hUsed < r.hAvail {
        k' := AcquireDropped(m, h, k, r, m', FinishHost(h1, m.desc[h.used.idx].id, h.avail.idx, r.n));
      } else {
        RecordKeeps(m, h, k, r, r.held);
        assert r.(held := r.held) == r;
        AcquireLost(m, h, k, r, h1);
      }
  }

  // ----- processing in order ---------------------------------------------------------------------

  /** The host's cursors after it marked the next descriptor used on the spot. */
  function DrainHost(h: HostMem, n: nat): HostMem {
    var used := Advance(h.used, n);
    HostMem(used, Advance(h.avail, n), UsedFlags(used.wrap), h.pending, h.hvMap)
  }

  lemma DrainKeeps(m: Mem, h: HostMem, k: Book, r: Ring)
    requires QueueOk(m, h, k, r) && Enabled(r, Drain)
    ensures h.used.idx < |m.desc|
    ensures QueueOk(m.(desc := SetFlags(m.desc, h.used.idx, h.flags)), DrainHost(h, r.n), k, Apply(r, Drain))
  {
    StepKeepsInv(r, Drain);
    DrainSlot(m, h, k, r);
    DrainGuestOk(m, k, r, h.used.idx, h.flags);
    DrainHostOk(m, h, r, h.used.idx);
  }

  lemma DrainSlot(m: Mem, h: HostMem, k: Book, r: Ring)
    requires QueueOk(m, h, k, r) && Enabled(r, Drain)
    ensures m.used.idx < r.n && h.used.idx < r.n == |m.desc| && |r.at| == r.gAvail && r.held == {}
    ensures PosOf(m.used, r.gUsed, r.n, h.used.idx) == r.hUsed && h.flags == UsedFlags(LapOf(m.used, h.used.idx))
  {
    SlotOfPosition(m.used, r.gUsed, r.n, r.hUsed - r.gUsed);
  }

  lemma DrainHostOk(m: Mem, h: HostMem, r: Ring, s: nat)
    requires m.used.idx < r.n && HostOk(h, m, r, r.hAvail) && r.hUsed == r.hAvail < r.gAvail && s < |m.desc|
    requires r.held == {} && |r.at| == r.gAvail
    ensures HostOk(DrainHost(h, r.n), m.(desc := SetFlags(m.desc, s, h.flags)),
                   r.(hUsed := r.hUsed + 1, hAvail := r.hAvail + 1), r.hAvail + 1)
  {}

  lemma DrainGuestOk(m: Mem, k: Book, r: Ring, s: nat, flags: bv16)
    requires GuestOk(m, k, r) && Enabled(r, Drain) && r.gUsed <= r.hUsed
    requires s < r.n && PosOf(m.used, r.gUsed, r.n, s) == r.hUsed && flags == UsedFlags(LapOf(m.used, s))
    ensures s < |m.desc|
    ensures GuestOk(m.(desc := SetFlags(m.desc, s, flags)), k, r.(hUsed := r.hUsed + 1, hAvail := r.hAvail + 1))
  {}
}
