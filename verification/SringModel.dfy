/** The shared ring with packets of several descriptors, on values.

    Positions count descriptors without bound; the memory holds them modulo 2^32.
    A ring of `n` descriptors keeps the descriptor at position `p` in slot `p mod n`;
    `n` divides 2^32 (the source insists on a power of two), so the slot can be
    computed from the word.
 */
module SringModel {
  import opened Common

  const MAX_BUFS: nat := 64

  function Word(p: int): nat { p % WORD }

  ghost predicate Sized(n: nat) { 0 < n <= 0x8000_0000 && exists k: nat :: n * k == WORD }

  function Slot(p: nat, n: nat): nat
    requires 0 < n
  {
    p % n
  }

  // ----- modular arithmetic -------------------------------------------------------------

  /** The slot of a position can be computed from its 32-bit word. */
  lemma WordSlot(p: nat, n: nat)
    requires Sized(n)
    ensures Slot(Word(p), n) == Slot(p, n)
  {
    var k: nat :| n * k == WORD;
    var a, b := p / WORD, Word(p) / n;
    assert (k * a) * n == (n * k) * a;
    assert (k * a + b) * n == (k * a) * n + b * n;
    QuotientIs(p, n, k * a + b, Word(p) % n);
  }

  /** Two positions less than a lap apart are in different slots. */
  lemma SlotsDiffer(p: nat, q: nat, n: nat)
    requires 0 < n && p < q < p + n
    ensures Slot(p, n) != Slot(q, n)
  {
    var d := q / n - p / n;
    assert q - p == n * d + (q % n - p % n);
    MultipleBound(n, d);
  }

  lemma NextWord(p: nat)
    ensures (Word(p) + 1) % WORD == Word(p + 1)
  {}

  /** Positions less than 2^32 apart are equal if their words are. */
  lemma WordsEqual(p: nat, q: nat)
    requires p <= q < p + WORD
    ensures Word(p) == Word(q) <==> p == q
    ensures Word(Word(q) - Word(p)) == q - p
  {}

  /** The test of the interrupt decision and of the reclaim, on words. */
  predicate Passed(at: nat, before: nat, after: nat) {
    Word(after - at - 1) < Word(after - before)
  }

  /** It tells exactly whether `at` is among the positions `before..after`, across the
      wrap-around, as long as `at` is less than 2^32 away. */
  lemma PassedExact(at: nat, before: nat, after: nat)
    requires before <= after < before + WORD && after <= at + WORD && at < before + WORD
    ensures Passed(Word(at), Word(before), Word(after)) <==> before <= at < after
  {
    WordDifference(after, at, 1);
    WordDifference(after, before, 0);
    WordSmall(after - at - 1);
    WordSmall(after - before);
  }

  lemma WordDifference(a: nat, b: nat, c: nat)
    ensures Word(Word(a) - Word(b) - c) == Word(a - b - c)
  {}

  lemma WordPlus(p: nat, m: nat)
    ensures (Word(p) + m) % WORD == Word(p + m)
  {
    QuotientIs(p + m, WORD, p / WORD + (Word(p) + m) / WORD, (Word(p) + m) % WORD);
  }

  lemma SumOfDifferences(a: nat, b: nat, c: nat)
    ensures (Word(Word(a) - Word(b)) + Word(c) - Word(a)) % WORD == Word(Word(c) - Word(b))
  {}

  /** Differences of words in order are differences of positions. */
  lemma WordsInOrder(a: nat, b: nat, c: nat)
    requires a <= b <= c < a + WORD
    ensures (Word(b) - Word(a)) % WORD == b - a
    ensures ((Word(b) - Word(a)) % WORD + Word(c) - Word(b)) % WORD == c - a
  {
    WordsEqual(a, b);
    WordsEqual(a, c);
    SumOfDifferences(b, a, c);
  }

  lemma WordSmall(x: int)
    requires -0x1_0000_0000 <= x < WORD
    ensures Word(x) == if x < 0 then x + WORD else x
  {}

  /** Outside that distance it is wrong: a threshold exactly 2^32 ahead of the batch's
      first completion fires. */
  lemma PassedTooFar(before: nat, after: nat)
    requires before < after < before + WORD
    ensures Passed(Word(before + WORD), Word(before), Word(after))
  {
    assert Word(before + WORD) == Word(before);
    PassedExact(before, before, after);
  }

  // ----- descriptors and packets --------------------------------------------------------------

  datatype Desc = Desc(buf: Buf, eop: bool)

  /** A descriptor has 16 bits for the length. */
  function Trunc(b: Buf): Buf { b.(len := b.len % 0x1_0000) }

  function Truncs(bufs: seq<Buf>): seq<Buf> { seq(|bufs|, i requires 0 <= i < |bufs| => Trunc(bufs[i])) }

  /** What comes back is what was published exactly if all lengths fit. */
  lemma TruncsExact(bufs: seq<Buf>)
    ensures Truncs(bufs) == bufs <==> forall i :: 0 <= i < |bufs| ==> bufs[i].len < 0x1_0000
  {
    if Truncs(bufs) == bufs {
      forall i | 0 <= i < |bufs| ensures bufs[i].len < 0x1_0000 {
        assert Truncs(bufs)[i].len == bufs[i].len % 0x1_0000;
      }
    }
  }

  /** The descriptors of a packet before its end is marked, and after. */
  function Plain(bufs: seq<Buf>): seq<Desc> { seq(|bufs|, i requires 0 <= i < |bufs| => Desc(Trunc(bufs[i]), false)) }

  function Frame(bufs: seq<Buf>): seq<Desc> {
    seq(|bufs|, i requires 0 <= i < |bufs| => Desc(Trunc(bufs[i]), i == |bufs| - 1))
  }

  /** All descriptors ever published. */
  ghost function Flat(pkts: seq<seq<Buf>>): seq<Desc> {
    if pkts == [] then [] else Flat(pkts[..|pkts| - 1]) + Frame(pkts[|pkts| - 1])
  }

  /** Where packet `k` begins. */
  ghost function Pos(pkts: seq<seq<Buf>>, k: nat): nat
    requires k <= |pkts|
  {
    |Flat(pkts[..k])|
  }

  lemma {:induction false} FlatPrefix(pkts: seq<seq<Buf>>, k: nat)
    requires k <= |pkts|
    ensures Flat(pkts[..k]) <= Flat(pkts)
    decreases |pkts| - k
  {
    if k == |pkts| {
      assert pkts[..k] == pkts;
    } else {
      assert pkts[..k + 1][..k] == pkts[..k];
      FlatPrefix(pkts, k + 1);
    }
  }

  lemma FlatStep(pkts: seq<seq<Buf>>, k: nat)
    requires k < |pkts|
    ensures Flat(pkts[..k + 1]) == Flat(pkts[..k]) + Frame(pkts[k])
  {
    assert pkts[..k + 1][..k] == pkts[..k];
  }

  /** Packet `k` lies between its position and the next one's. */
  lemma PacketEnds(pkts: seq<seq<Buf>>, k: nat)
    requires k < |pkts|
    ensures Pos(pkts, k + 1) == Pos(pkts, k) + |pkts[k]| <= |Flat(pkts)|
  {
    FlatStep(pkts, k);
    FlatPrefix(pkts, k + 1);
  }

  lemma FragmentAt(pkts: seq<seq<Buf>>, k: nat, j: nat)
    requires k < |pkts| && j < |pkts[k]|
    ensures Pos(pkts, k) + j < |Flat(pkts)|
    ensures Flat(pkts)[Pos(pkts, k) + j] == Desc(Trunc(pkts[k][j]), j == |pkts[k]| - 1)
  {
    PacketEnds(pkts, k);
    FlatStep(pkts, k);
    FlatPrefix(pkts, k + 1);
    assert Flat(pkts)[Pos(pkts, k) + j] == Flat(pkts[..k + 1])[Pos(pkts, k) + j] == Frame(pkts[k])[j];
  }

  lemma {:induction false} PosMonotone(pkts: seq<seq<Buf>>, a: nat, b: nat)
    requires a <= b <= |pkts| && forall k :: 0 <= k < |pkts| ==> pkts[k] != []
    ensures Pos(pkts, a) + (b - a) <= Pos(pkts, b) <= |Flat(pkts)|
    decreases b - a
  {
    FlatPrefix(pkts, b);
    if a < b {
      PosMonotone(pkts, a + 1, b);
      PacketEnds(pkts, a);
    }
  }

  lemma PosEnd(pkts: seq<seq<Buf>>)
    ensures Pos(pkts, |pkts|) == |Flat(pkts)|
  {
    assert pkts[..|pkts|] == pkts;
  }

  /** Publishing one more packet moves no earlier one. */
  lemma PosAfterPublish(pkts: seq<seq<Buf>>, bufs: seq<Buf>, k: nat)
    requires k <= |pkts|
    ensures Pos(pkts + [bufs], k) == Pos(pkts, k)
    ensures Flat(pkts + [bufs]) == Flat(pkts) + Frame(bufs)
  {
    assert (pkts + [bufs])[..k] == pkts[..k];
    assert (pkts + [bufs])[..|pkts|] == pkts;
  }

  // ----- the ring, counted in packets ------------------------------------------------------------

  /** Packets published; `cons` of them consumed by the host, `clear` returned to the driver. */
  datatype Ring = Ring(pkts: seq<seq<Buf>>, cons: nat, clear: nat)

  ghost predicate PktsOk(pkts: seq<seq<Buf>>) { forall k :: 0 <= k < |pkts| ==> 1 <= |pkts[k]| <= MAX_BUFS }

  ghost predicate RingOk(r: Ring, n: nat) {
    && r.clear <= r.cons <= |r.pkts| && PktsOk(r.pkts)
    && |Flat(r.pkts)| <= Pos(r.pkts, r.clear) + n
  }

  /** Descriptors in use. */
  ghost function Used(r: Ring): int
    requires r.clear <= |r.pkts|
  {
    |Flat(r.pkts)| - Pos(r.pkts, r.clear)
  }

  // ----- steps and runs -------------------------------------------------------------------

  datatype Step =
    | Publish(bufs: seq<Buf>)
    | Complete(count: nat)    // the host publishes its index, that many packets on
    | Collect

  ghost predicate Enabled(r: Ring, n: nat, s: Step)
    requires r.clear <= |r.pkts|
  {
    match s
    case Publish(bufs) => 1 <= |bufs| <= MAX_BUFS && Used(r) + |bufs| <= n
    case Complete(count) => r.cons + count <= |r.pkts|
    case Collect => r.clear < r.cons
  }

  function Apply(r: Ring, s: Step): Ring {
    match s
    case Publish(bufs) => r.(pkts := r.pkts + [bufs])
    case Complete(count) => r.(cons := r.cons + count)
    case Collect => r.(clear := r.clear + 1)
  }

  lemma PublishRing(r: Ring, n: nat, bufs: seq<Buf>, r': Ring)
    requires RingOk(r, n) && 1 <= |bufs| <= MAX_BUFS && Used(r) + |bufs| <= n && r' == Apply(r, Publish(bufs))
    ensures RingOk(r', n) && Used(r') == Used(r) + |bufs| && Flat(r'.pkts) == Flat(r.pkts) + Frame(bufs)
    ensures Pos(r'.pkts, r.clear) == Pos(r.pkts, r.clear) && Pos(r'.pkts, r.cons) == Pos(r.pkts, r.cons)
  {
    PosAfterPublish(r.pkts, bufs, r.clear);
    PosAfterPublish(r.pkts, bufs, r.cons);
    assert PktsOk(r'.pkts);
  }

  lemma StepKeepsOk(r: Ring, n: nat, s: Step)
    requires RingOk(r, n) && Enabled(r, n, s)
    ensures RingOk(Apply(r, s), n)
  {
    match s
    case Publish(bufs) => PublishRing(r, n, bufs, Apply(r, s));
    case Complete(_) =>
    case Collect => PacketEnds(r.pkts, r.clear);
  }

  /** The ring after some steps; `None` if one of them was not enabled. */
  ghost function ExecFrom(r: Ring, n: nat, steps: seq<Step>): (q: Option<Ring>)
    requires RingOk(r, n)
    ensures q.Some? ==> RingOk(q.value, n)
  {
    if steps == [] then Some(r) else
    match ExecFrom(r, n, steps[..|steps| - 1])
    case None => None
    case Some(p) =>
      var s := steps[|steps| - 1];
      if Enabled(p, n, s) then
        StepKeepsOk(p, n, s);
        Some(Apply(p, s))
      else None
  }

  lemma OneMoreStep(r: Ring, n: nat, steps: seq<Step>, q: Ring, s: Step)
    requires RingOk(r, n) && ExecFrom(r, n, steps) == Some(q) && Enabled(q, n, s)
    ensures ExecFrom(r, n, steps + [s]) == Some(Apply(q, s))
  {
    assert (steps + [s])[..|steps|] == steps;
  }

  /** Some steps lead from one ring to another. */
  ghost predicate Reaches(r: Ring, n: nat, q: Ring)
    requires RingOk(r, n)
  {
    exists steps: seq<Step> :: ExecFrom(r, n, steps) == Some(q)
  }

  lemma ReachesNext(r: Ring, n: nat, q: Ring, s: Step, q': Ring)
    requires RingOk(r, n) && Reaches(r, n, q) && q.clear <= |q.pkts| && Enabled(q, n, s) && q' == Apply(q, s)
    ensures Reaches(r, n, q')
  {
    var steps :| ExecFrom(r, n, steps) == Some(q);
    OneMoreStep(r, n, steps, q, s);
  }

  /** The packets the driver has got back along a run. */
  ghost function ReturnedBy(r: Ring, s: Step): seq<seq<Buf>> {
    if s.Collect? && r.clear < |r.pkts| then [r.pkts[r.clear]] else []
  }

  ghost function Returned(n: nat, steps: seq<Step>): seq<seq<Buf>>
    requires ExecFrom(Ring([], 0, 0), n, steps).Some?
  {
    if steps == [] then []
    else
      var k := |steps| - 1;
      Returned(n, steps[..k]) + ReturnedBy(ExecFrom(Ring([], 0, 0), n, steps[..k]).value, steps[k])
  }

  function PublishedBy(s: Step): seq<seq<Buf>> { if s.Publish? then [s.bufs] else [] }

  function Published(steps: seq<Step>): seq<seq<Buf>> {
    if steps == [] then [] else Published(steps[..|steps| - 1]) + PublishedBy(steps[|steps| - 1])
  }

  lemma ReturnedStep(r: Ring, n: nat, s: Step, out: seq<seq<Buf>>)
    requires r.clear <= r.cons <= |r.pkts| && Enabled(r, n, s) && out == r.pkts[..r.clear]
    ensures var q := Apply(r, s);
            q.pkts == r.pkts + PublishedBy(s) && q.clear <= |q.pkts| && out + ReturnedBy(r, s) == q.pkts[..q.clear]
  {}

  /** Over every run packets come back in the order they were published, none skipped or repeated,
      and never more descriptors are out than the ring has. */
  lemma {:induction false} ReturnedInOrder(n: nat, steps: seq<Step>)
    requires ExecFrom(Ring([], 0, 0), n, steps).Some?
    ensures var r := ExecFrom(Ring([], 0, 0), n, steps).value;
            && r.pkts == Published(steps) && Returned(n, steps) == Published(steps)[..r.clear]
            && Used(r) <= n
  {
    if steps != [] {
      var k := |steps| - 1;
      ReturnedInOrder(n, steps[..k]);
      ReturnedStep(ExecFrom(Ring([], 0, 0), n, steps[..k]).value, n, steps[k], Returned(n, steps[..k]));
    }
  }

  // ----- descriptors in memory ----------------------------------------------------------------

  /** The memory holds the part of `log` from position `lo` on. */
  ghost predicate Stored(mem: seq<Desc>, log: seq<Desc>, lo: nat) {
    && |mem| > 0 && |log| <= lo + |mem|
    && (forall p :: lo <= p < |log| ==> mem[Slot(p, |mem|)] == log[p])
  }

  lemma StoreNext(mem: seq<Desc>, log: seq<Desc>, lo: nat, x: Desc)
    requires Stored(mem, log, lo) && lo <= |log| < lo + |mem|
    ensures Stored(mem[Slot(|log|, |mem|) := x], log + [x], lo)
  {
    forall p: nat | lo <= p < |log| ensures Slot(p, |mem|) != Slot(|log|, |mem|) {
      SlotsDiffer(p, |log|, |mem|);
    }
  }

  lemma StoreLast(mem: seq<Desc>, log: seq<Desc>, lo: nat, x: Desc, y: Desc)
    requires Stored(mem, log + [x], lo) && lo <= |log| < lo + |mem|
    ensures Stored(mem[Slot(|log|, |mem|) := y], log + [y], lo)
  {
    assert Stored(mem, log, lo) by {
      assert forall p :: lo <= p < |log| ==> (log + [x])[p] == log[p];
    }
    StoreNext(mem, log, lo, y);
  }

  // ----- what is handed back and what is sent -----------------------------------------------------

  function TruncAll(pkts: seq<seq<Buf>>): seq<seq<Buf>> {
    seq(|pkts|, k requires 0 <= k < |pkts| => Truncs(pkts[k]))
  }

  /** The fragments that can be translated, in order: what the backend is given. */
  function Gathered(bufs: seq<Buf>, ok: Buf -> bool): seq<Buf> {
    if bufs == [] then []
    else Gathered(bufs[..|bufs| - 1], ok) + if ok(bufs[|bufs| - 1]) then [bufs[|bufs| - 1]] else []
  }

  function Delivered(pkts: seq<seq<Buf>>, ok: Buf -> bool): seq<seq<Buf>> {
    seq(|pkts|, k requires 0 <= k < |pkts| => Gathered(Truncs(pkts[k]), ok))
  }

  lemma GatheredMore(bufs: seq<Buf>, b: Buf, ok: Buf -> bool)
    ensures Gathered(bufs + [b], ok) == Gathered(bufs, ok) + if ok(b) then [b] else []
  {
    assert (bufs + [b])[..|bufs|] == bufs;
  }

  lemma {:induction false} GatheredSize(bufs: seq<Buf>, ok: Buf -> bool)
    ensures |Gathered(bufs, ok)| <= |bufs|
    ensures (forall i :: 0 <= i < |bufs| ==> ok(bufs[i])) ==> Gathered(bufs, ok) == bufs
  {
    if bufs != [] {
      GatheredSize(bufs[..|bufs| - 1], ok);
      assert bufs[..|bufs| - 1] + [bufs[|bufs| - 1]] == bufs;
    }
  }

  lemma DeliveredMore(pkts: seq<seq<Buf>>, a: nat, b: nat, ok: Buf -> bool)
    requires a <= b < |pkts|
    ensures Delivered(pkts[a..b + 1], ok) == Delivered(pkts[a..b], ok) + [Gathered(Truncs(pkts[b]), ok)]
  {}

  /** If every descriptor is valid the backend gets the packets as published. */
  lemma DeliveredWhole(pkts: seq<seq<Buf>>, ok: Buf -> bool)
    requires forall k, i :: 0 <= k < |pkts| && 0 <= i < |pkts[k]| ==> ok(Trunc(pkts[k][i]))
    ensures Delivered(pkts, ok) == TruncAll(pkts)
  {
    forall k | 0 <= k < |pkts| ensures Gathered(Truncs(pkts[k]), ok) == Truncs(pkts[k]) {
      GatheredSize(Truncs(pkts[k]), ok);
    }
  }

  /** The guest went on: it published and collected, the host's index is the same. */
  ghost predicate Extends(r: Ring, r': Ring) {
    Unit(r.pkts <= r'.pkts && r'.cons == r.cons && r.clear <= r'.clear)
  }

  lemma ExtendsAgain(r: Ring, r': Ring, r'': Ring)
    requires Extends(r, r') && Extends(r', r'')
    ensures Extends(r, r'')
  {}

  lemma PosExtends(pkts: seq<seq<Buf>>, pkts': seq<seq<Buf>>, k: nat)
    requires pkts <= pkts' && k <= |pkts|
    ensures Pos(pkts', k) == Pos(pkts, k)
  {
    assert pkts'[..k] == pkts[..k];
  }

  /** What the guest did while the host's index stood still is a run: it can have collected first
      and published then. */
  lemma ExtendsReaches(r: Ring, n: nat, r': Ring)
    requires RingOk(r, n) && RingOk(r', n) && Extends(r, r')
    ensures Reaches(r, n, r')
  {
    assert ExecFrom(r, n, []) == Some(r);
    CollectsReach(r, n, r'.clear, r.(clear := r'.clear));
    assert r'.pkts[..|r'.pkts|] == r'.pkts;
    PublishesReach(r, n, r', |r'.pkts|, r');
  }

  lemma {:induction false} CollectsReach(r: Ring, n: nat, clear: nat, q: Ring)
    requires RingOk(r, n) && Reaches(r, n, r) && r.clear <= clear <= r.cons && q == r.(clear := clear)
    ensures Reaches(r, n, q)
    decreases clear
  {
    if clear > r.clear {
      CollectsReach(r, n, clear - 1, r.(clear := clear - 1));
      ReachesNext(r, n, r.(clear := clear - 1), Collect, q);
    }
  }

  lemma {:induction false} PublishesReach(r: Ring, n: nat, r': Ring, k: nat, q: Ring)
    requires RingOk(r, n) && RingOk(r', n) && Extends(r, r') && |r.pkts| <= k <= |r'.pkts|
    requires Reaches(r, n, r.(clear := r'.clear)) && q == r'.(pkts := r'.pkts[..k])
    ensures Reaches(r, n, q)
    decreases k
  {
    if k == |r.pkts| {
      assert r'.pkts[..k] == r.pkts;
    } else {
      var p := r'.(pkts := r'.pkts[..k - 1]);
      PublishesReach(r, n, r', k - 1, p);
      PublishReaches(r, n, r', k, p, q);
    }
  }

  lemma PublishReaches(r: Ring, n: nat, r': Ring, k: nat, p: Ring, q: Ring)
    requires RingOk(r, n) && RingOk(r', n) && r'.cons < k <= |r'.pkts|
    requires Reaches(r, n, p) && p == r'.(pkts := r'.pkts[..k - 1]) && q == r'.(pkts := r'.pkts[..k])
    ensures Reaches(r, n, q)
  {
    PublishFits(r', n, k);
    ExtendsBy(r', k);
    ReachesNext(r, n, p, Publish(r'.pkts[k - 1]), q);
  }

  lemma ExtendsBy(r: Ring, k: nat)
    requires 0 < k <= |r.pkts|
    ensures r.(pkts := r.pkts[..k]) == Apply(r.(pkts := r.pkts[..k - 1]), Publish(r.pkts[k - 1]))
  {
    assert r.pkts[..k] == r.pkts[..k - 1] + [r.pkts[k - 1]];
  }

  lemma PublishFits(r: Ring, n: nat, k: nat)
    requires RingOk(r, n) && r.cons < k <= |r.pkts|
    ensures Enabled(r.(pkts := r.pkts[..k - 1]), n, Publish(r.pkts[k - 1]))
  {
    PosExtends(r.pkts[..k - 1], r.pkts, r.clear);
    PacketEnds(r.pkts, k - 1);
  }
}
