/** A transmit queue on the shared ring: the ring in memory, the guest programs on it,
    the driver's count of free descriptors, and the host's drain routine. */
module Sring {
  import opened Common
  import opened SringModel

  datatype GuestRegs = GuestRegs(prod: nat, intrAt: nat, clear: nat)
  datatype HostRegs = HostRegs(cons: nat, kick: bool)

  /** The local variables of a drain. */
  datatype Scan = Scan(prod: nat, cons: nat, first: nat, iov: seq<Buf>, count: nat, sent: seq<seq<Buf>>)

  datatype XmitResult = Sent(kickNeeded: bool) | TooManyBufs | Busy

  /** What the two sides share: the descriptors and three index words. */
  datatype Memory = Memory(desc: seq<Desc>, prod: nat, cons: nat, clear: nat)

  /** The memory and the index words represent ring `r`. */
  ghost predicate Shows(m: Memory, r: Ring, n: nat) {
    forall k: nat :: Unseal(k) ==>
      (&& |m.desc| == n && Sized(n) && RingOk(r, n)
      && Stored(m.desc, Flat(r.pkts), Pos(r.pkts, r.clear))
      && m.prod == Word(|Flat(r.pkts)|)
      && m.cons == Word(Pos(r.pkts, r.cons))
      && m.clear == Word(Pos(r.pkts, r.clear)))
  }

  lemma ShowsParts(m: Memory, r: Ring, n: nat)
    requires Shows(m, r, n)
    ensures |m.desc| == n && Sized(n) && r.clear <= r.cons <= |r.pkts| && Pos(r.pkts, r.clear) <= |Flat(r.pkts)|
    ensures Stored(m.desc, Flat(r.pkts), Pos(r.pkts, r.clear)) && m.prod == Word(|Flat(r.pkts)|)
    ensures m.clear == Word(Pos(r.pkts, r.clear))
  {
    assert Unseal(0);
    FlatPrefix(r.pkts, r.clear);
  }

  lemma PlainMore(bufs: seq<Buf>, i: nat)
    requires i < |bufs|
    ensures Plain(bufs[..i + 1]) == Plain(bufs[..i]) + [Desc(Trunc(bufs[i]), false)]
  {}

  lemma FrameIsPlainButLast(bufs: seq<Buf>)
    requires bufs != []
    ensures var k := |bufs| - 1; Frame(bufs) == Plain(bufs[..k]) + [Desc(Trunc(bufs[k]), true)]
  {}

  lemma PublishShows(m: Memory, r: Ring, n: nat, bufs: seq<Buf>, m': Memory)
    requires Shows(m, r, n) && 1 <= |bufs| <= MAX_BUFS && r.clear <= |r.pkts| && Used(r) + |bufs| <= n
    requires |m'.desc| == n && Stored(m'.desc, Flat(r.pkts) + Frame(bufs), Pos(r.pkts, r.clear))
    requires m' == Memory(m'.desc, Word(|Flat(r.pkts)| + |bufs|), m.cons, m.clear)
    ensures Shows(m', Apply(r, Publish(bufs)), n) && Used(Apply(r, Publish(bufs))) == Used(r) + |bufs|
  {
    assert Unseal(0);
    PublishRing(r, n, bufs, Apply(r, Publish(bufs)));
  }

  /** The three positions in order, less than 2^32 apart; a packet takes at least one descriptor. */
  lemma Positions(r: Ring, n: nat)
    requires Sized(n) && RingOk(r, n)
    ensures Pos(r.pkts, r.clear) <= Pos(r.pkts, r.cons) <= |Flat(r.pkts)| < Pos(r.pkts, r.clear) + WORD
    ensures Pos(r.pkts, r.clear) == Pos(r.pkts, r.cons) <==> r.clear == r.cons
    ensures Pos(r.pkts, r.clear) == |Flat(r.pkts)| <==> r.clear == |r.pkts|
  {
    PosMonotone(r.pkts, r.clear, r.cons);
    PosMonotone(r.pkts, r.cons, |r.pkts|);
    PosMonotone(r.pkts, r.clear, |r.pkts|);
    PosEnd(r.pkts);
  }

  lemma EqualWords(m: Memory, r: Ring, n: nat)
    requires Shows(m, r, n)
    ensures m.clear == m.cons <==> r.clear == r.cons
    ensures m.clear == m.prod <==> r.clear == |r.pkts|
  {
    assert Unseal(0);
    Positions(r, n);
    WordsEqual(Pos(r.pkts, r.clear), Pos(r.pkts, r.cons));
    WordsEqual(Pos(r.pkts, r.clear), |Flat(r.pkts)|);
  }

  /** Handing the oldest packet back; the host's index is raised if it was passed. */
  lemma ReturnShows(m: Memory, r: Ring, n: nat)
    requires Shows(m, r, n) && r.clear < |r.pkts|
    ensures var to := Word(Pos(r.pkts, r.clear + 1));
            && (r.clear < r.cons ==> Shows(m.(clear := to), Apply(r, Collect), n))
            && (r.clear == r.cons ==> Shows(m.(cons := to, clear := to), Apply(r, Collect).(cons := r.clear + 1), n))
    ensures Used(Apply(r, Collect)) == Used(r) - |r.pkts[r.clear]|
  {
    assert Unseal(0);
    PacketEnds(r.pkts, r.clear);
  }

  /** The reclaim's test: the packet just handed back was not consumed. */
  lemma MetExact(m: Memory, r: Ring, n: nat)
    requires Shows(m, r, n) && r.clear < |r.pkts|
    ensures Passed(m.cons, m.clear, Word(Pos(r.pkts, r.clear + 1))) <==> r.clear == r.cons
  {
    assert Unseal(0);
    Positions(r, n);
    PacketEnds(r.pkts, r.clear);
    if r.clear < r.cons {
      PosMonotone(r.pkts, r.clear + 1, r.cons);
    }
    PassedExact(Pos(r.pkts, r.cons), Pos(r.pkts, r.clear), Pos(r.pkts, r.clear + 1));
  }

  lemma PacketSize(m: Memory, r: Ring, n: nat, k: nat)
    requires Shows(m, r, n) && k < |r.pkts|
    ensures 1 <= |r.pkts[k]| <= MAX_BUFS && 0 < n == |m.desc|
  {
    assert Unseal(0);
  }

  /** Fragment `j` of a packet not yet handed back is where its position says. */
  lemma FragmentInMemory(m: Memory, r: Ring, n: nat, k: nat, j: nat)
    requires Shows(m, r, n) && r.clear <= k < |r.pkts| && j < |r.pkts[k]|
    ensures 0 < n == |m.desc| && m.desc[Word(Pos(r.pkts, k) + j) % n] == Desc(Trunc(r.pkts[k][j]), j == |r.pkts[k]| - 1)
    ensures (Word(Pos(r.pkts, k) + j) + 1) % WORD == Word(Pos(r.pkts, k) + j + 1)
  {
    assert Unseal(0);
    FragmentAt(r.pkts, k, j);
    PosMonotone(r.pkts, r.clear, k);
    WordSlot(Pos(r.pkts, k) + j, n);
    NextWord(Pos(r.pkts, k) + j);
  }

  lemma TruncsMore(bufs: seq<Buf>, j: nat)
    requires j < |bufs|
    ensures Truncs(bufs[..j + 1]) == Truncs(bufs[..j]) + [Trunc(bufs[j])]
  {}

  lemma TruncAllMore(pkts: seq<seq<Buf>>, a: nat, b: nat)
    requires a <= b < |pkts|
    ensures TruncAll(pkts[a..b + 1]) == TruncAll(pkts[a..b]) + [Truncs(pkts[b])]
  {}

  lemma ShowsPublish(m: Memory, r: Ring, n: nat, bufs: seq<Buf>)
    requires Shows(m, r, n) && r.clear <= |r.pkts| && 1 <= |bufs| <= MAX_BUFS && Used(r) + |bufs| <= n
    ensures Used(Apply(r, Publish(bufs))) == Used(r) + |bufs|
  {
    assert Unseal(0);
    PublishRing(r, n, bufs, Apply(r, Publish(bufs)));
  }

  lemma Completions(m: Memory, r: Ring, n: nat, k: nat, cons': nat)
    requires Shows(m, r, n) && r.cons <= k <= |r.pkts| && cons' == Word(Pos(r.pkts, k))
    ensures r.clear <= r.cons && (m.cons - m.clear) % WORD == Pos(r.pkts, r.cons) - Pos(r.pkts, r.clear)
    ensures ((m.cons - m.clear) % WORD + cons' - m.cons) % WORD == Pos(r.pkts, k) - Pos(r.pkts, r.clear)
    ensures Shows(m.(cons := cons'), r.(cons := k), n)
  {
    assert Unseal(0);
    Positions(r, n);
    Positions(r.(cons := k), n);
    PosMonotone(r.pkts, r.cons, k);
    WordsInOrder(Pos(r.pkts, r.clear), Pos(r.pkts, r.cons), Pos(r.pkts, k));
  }

  // ----- draining ------------------------------------------------------------------------------

  /** The backend took the first `count` packets offered. */
  ghost predicate AllTaken(answers: seq<Answer>, count: nat) {
    count <= |answers| && forall i :: 0 <= i < count ==> answers[i] == Accepted
  }

  /** The drain has sent packets `r.cons..k`, and gathered `j` fragments of packet `k`; it knows of
      the first `seen` packets. */
  ghost predicate Scanning(sc: Scan, r: Ring, k: nat, j: nat, seen: nat, ok: Buf -> bool) {
    forall look: nat :: Unseal(look) ==>
      (&& r.cons <= k <= seen <= |r.pkts| && (j > 0 ==> k < seen && j < |r.pkts[k]| && sc.count < TX_BUDGET)
      && sc.prod == Word(Pos(r.pkts, seen)) && sc.cons == Word(Pos(r.pkts, k) + j) && sc.first == Word(Pos(r.pkts, k))
      && sc.count == k - r.cons <= TX_BUDGET && sc.sent == Delivered(r.pkts[r.cons..k], ok)
      && sc.iov == if j == 0 then [] else Gathered(Truncs(r.pkts[k])[..j], ok))
  }

  lemma ScanStart(m: Memory, r: Ring, n: nat, ok: Buf -> bool)
    requires Shows(m, r, n)
    ensures Scanning(Scan(m.prod, m.cons, m.cons, [], 0, []), r, r.cons, 0, |r.pkts|, ok)
  {
    assert Unseal(0);
    PosEnd(r.pkts);
  }

  /** The guest's progress does not disturb the drain, which may then look at the new index. */
  lemma ScanGoesOn(sc: Scan, r: Ring, k: nat, j: nat, seen: nat, ok: Buf -> bool, r': Ring, prod: nat)
    requires Scanning(sc, r, k, j, seen, ok) && Extends(r, r') && prod == Word(|Flat(r'.pkts)|)
    ensures Scanning(sc.(prod := prod), r', k, j, |r'.pkts|, ok)
  {
    assert Unseal(0);
    PosExtends(r.pkts, r'.pkts, k);
    PosEnd(r'.pkts);
    assert r'.pkts[r.cons..k] == r.pkts[r.cons..k];
    assert k < |r.pkts| ==> r'.pkts[k] == r.pkts[k];
  }

  /** The drain sees that nothing is left exactly at the end of what it knows. */
  lemma ScanAtEnd(sc: Scan, m: Memory, r: Ring, n: nat, k: nat, j: nat, seen: nat, ok: Buf -> bool)
    requires Shows(m, r, n) && Scanning(sc, r, k, j, seen, ok)
    ensures sc.cons == sc.prod <==> k == seen
  {
    ScanPositions(sc, m, r, n, k, j, seen, ok);
    WordsEqual(Pos(r.pkts, k) + j, Pos(r.pkts, seen));
  }

  lemma ScanPositions(sc: Scan, m: Memory, r: Ring, n: nat, k: nat, j: nat, seen: nat, ok: Buf -> bool)
    requires Shows(m, r, n) && Scanning(sc, r, k, j, seen, ok)
    ensures k <= seen <= |r.pkts| && Pos(r.pkts, k) + j <= Pos(r.pkts, seen) < Pos(r.pkts, k) + j + WORD
    ensures k == seen <==> Pos(r.pkts, k) + j == Pos(r.pkts, seen)
    ensures sc.cons == Word(Pos(r.pkts, k) + j) && sc.prod == Word(Pos(r.pkts, seen))
  {
    assert Unseal(0);
    Between(r, n, k, j, seen);
  }

  lemma Between(r: Ring, n: nat, k: nat, j: nat, seen: nat)
    requires Sized(n) && RingOk(r, n) && r.cons <= k <= seen <= |r.pkts|
             && (if k == seen then j == 0 else j < |r.pkts[k]|)
    ensures Pos(r.pkts, k) + j <= Pos(r.pkts, seen) < Pos(r.pkts, k) + j + WORD
    ensures k == seen <==> Pos(r.pkts, k) + j == Pos(r.pkts, seen)
  {
    Positions(r, n);
    PosMonotone(r.pkts, r.cons, k);
    PosMonotone(r.pkts, k, seen);
    if k < seen {
      PacketEnds(r.pkts, k);
      PosMonotone(r.pkts, k + 1, seen);
    }
  }

  function Fragment(sc: Scan, x: Desc, ok: Buf -> bool): Scan {
    sc.(cons := (sc.cons + 1) % WORD, iov := if ok(x.buf) then sc.iov + [x.buf] else sc.iov)
  }

  /** The vector after one more fragment. */
  lemma GatherOne(t: seq<Buf>, j: nat, ok: Buf -> bool, iov: seq<Buf>)
    requires j < |t| && iov == if j == 0 then [] else Gathered(t[..j], ok)
    ensures (if ok(t[j]) then iov + [t[j]] else iov) == Gathered(t[..j + 1], ok)
    ensures |Gathered(t[..j + 1], ok)| <= |t|
  {
    assert t[..j + 1] == t[..j] + [t[j]];
    GatheredMore(t[..j], t[j], ok);
    GatheredSize(t[..j + 1], ok);
  }

  lemma ScanHere(sc: Scan, r: Ring, k: nat, j: nat, seen: nat, ok: Buf -> bool)
    requires Scanning(sc, r, k, j, seen, ok) && k < seen
    ensures r.cons <= k < |r.pkts| && (j > 0 ==> j < |r.pkts[k]|) && sc.cons == Word(Pos(r.pkts, k) + j)
    ensures j == 0 ==> sc.iov == []
    ensures j > 0 ==> sc.iov == Gathered(Truncs(r.pkts[k])[..j], ok)
  {
    assert Unseal(0);
  }

  lemma ShowsOrder(m: Memory, r: Ring, n: nat)
    requires Shows(m, r, n)
    ensures r.clear <= r.cons <= |r.pkts| && 0 < n == |m.desc|
  {
    assert Unseal(0);
  }

  /** The next descriptor is the next fragment; the vector never holds more than a packet. */
  lemma ScanFragment(sc: Scan, m: Memory, r: Ring, n: nat, k: nat, j: nat, seen: nat, ok: Buf -> bool)
    requires Shows(m, r, n) && Scanning(sc, r, k, j, seen, ok) && k < seen
    ensures 0 < n == |m.desc| && k < |r.pkts| && j < |r.pkts[k]| <= MAX_BUFS
    ensures var x := m.desc[sc.cons % n];
            && x == Desc(Trunc(r.pkts[k][j]), j == |r.pkts[k]| - 1)
            && Fragment(sc, x, ok).cons == Word(Pos(r.pkts, k) + j + 1)
            && Fragment(sc, x, ok).iov == Gathered(Truncs(r.pkts[k])[..j + 1], ok)
            && |Fragment(sc, x, ok).iov| <= MAX_BUFS
  {
    ShowsOrder(m, r, n);
    ScanHere(sc, r, k, j, seen, ok);
    PacketSize(m, r, n, k);
    FragmentInMemory(m, r, n, k, j);
    GatherOne(Truncs(r.pkts[k]), j, ok, sc.iov);
  }

  lemma ScanMore(sc: Scan, r: Ring, k: nat, j: nat, seen: nat, ok: Buf -> bool, sc': Scan)
    requires Scanning(sc, r, k, j, seen, ok) && k < seen <= |r.pkts| && j + 1 < |r.pkts[k]| && sc.count < TX_BUDGET
    requires sc' == sc.(cons := Word(Pos(r.pkts, k) + j + 1), iov := Gathered(Truncs(r.pkts[k])[..j + 1], ok))
    ensures Scanning(sc', r, k, j + 1, seen, ok)
  {
    assert Unseal(0);
  }

  lemma ScanRewind(sc: Scan, r: Ring, k: nat, j: nat, seen: nat, ok: Buf -> bool)
    requires Scanning(sc, r, k, j, seen, ok)
    ensures Scanning(sc.(cons := sc.first, iov := []), r, k, 0, seen, ok)
  {
    assert Unseal(0);
  }

  lemma ScanParts(sc: Scan, r: Ring, k: nat, j: nat, seen: nat, ok: Buf -> bool)
    requires Scanning(sc, r, k, j, seen, ok)
    ensures r.cons <= k <= seen <= |r.pkts| && sc.count == k - r.cons <= TX_BUDGET
    ensures sc.count == TX_BUDGET || k == seen ==> j == 0
    ensures j == 0 ==> sc.cons == Word(Pos(r.pkts, k))
    ensures sc.sent == Delivered(r.pkts[r.cons..k], ok)
  {
    assert Unseal(0);
  }

  lemma ScanPacket(sc: Scan, r: Ring, k: nat, j: nat, seen: nat, ok: Buf -> bool, cons: nat, sent: seq<seq<Buf>>)
    requires Scanning(sc, r, k, j, seen, ok) && k < seen <= |r.pkts| && j + 1 == |r.pkts[k]| && sc.count < TX_BUDGET
    requires cons == Word(Pos(r.pkts, k + 1)) && r.cons <= k + 1 && sent == Delivered(r.pkts[r.cons..k + 1], ok)
    ensures Scanning(Scan(sc.prod, cons, cons, [], sc.count + 1, sent), r, k + 1, 0, seen, ok)
  {
    assert Unseal(0);
    assert Pos(r.pkts, k + 1) == Pos(r.pkts, k + 1) + 0;
  }

  lemma ScanSent(sc: Scan, r: Ring, k: nat, j: nat, seen: nat, ok: Buf -> bool, iov: seq<Buf>)
    requires Scanning(sc, r, k, j, seen, ok) && k < seen <= |r.pkts| && j + 1 == |r.pkts[k]|
    requires iov == Gathered(Truncs(r.pkts[k])[..j + 1], ok)
    ensures r.cons <= k && sc.sent + [iov] == Delivered(r.pkts[r.cons..k + 1], ok)
  {
    assert Unseal(0);
    assert Truncs(r.pkts[k])[..j + 1] == Truncs(r.pkts[k]);
    DeliveredMore(r.pkts, r.cons, k, ok);
  }

  /** What one more descriptor can lead to: a longer vector, a packet sent, or a packet taken back. */
  datatype Choices = Choices(more: Scan, sent: Scan, back: Scan)

  function ChoicesAt(sc: Scan, x: Desc, ok: Buf -> bool): Choices {
    var f := Fragment(sc, x, ok);
    Choices(f, Scan(sc.prod, f.cons, f.cons, [], sc.count + 1, sc.sent + [f.iov]), sc.(cons := sc.first, iov := []))
  }

  lemma TakeReady(sc: Scan, m: Memory, r: Ring, n: nat, k: nat, j: nat, seen: nat, ok: Buf -> bool, x: Desc, c: Choices)
    requires Shows(m, r, n) && Scanning(sc, r, k, j, seen, ok) && k < seen && sc.count < TX_BUDGET
    requires 0 < n == |m.desc| && x == m.desc[sc.cons % n] && c == ChoicesAt(sc, x, ok)
    ensures j < MAX_BUFS && |c.more.iov| <= MAX_BUFS
    ensures x.eop ==> Scanning(c.sent, r, k + 1, 0, seen, ok)
    ensures !x.eop ==> Scanning(c.more, r, k, j + 1, seen, ok)
    ensures Scanning(c.back, r, k, 0, seen, ok)
  {
    ScanFragment(sc, m, r, n, k, j, seen, ok);
    ScanRewind(sc, r, k, j, seen, ok);
    ScanParts(sc, r, k, j, seen, ok);
    if x.eop {
      PacketEnds(r.pkts, k);
      ScanSent(sc, r, k, j, seen, ok, c.more.iov);
      ScanPacket(sc, r, k, j, seen, ok, c.more.cons, c.sent.sent);
    } else {
      ScanMore(sc, r, k, j, seen, ok, c.more);
    }
  }

  /** A drain is a run of the ring model: what the driver did meanwhile, then the completions. */
  lemma DrainReaches(m: Memory, r: Ring, m': Memory, r': Ring, n: nat, count: nat)
    requires Shows(m, r, n) && Shows(m', r', n) && Extends(r, r') && r'.cons + count <= |r'.pkts|
    ensures RingOk(r, n) && Reaches(r, n, Apply(r', Complete(count)))
  {
    assert Unseal(0);
    ExtendsReaches(r, n, r');
    ReachesNext(r, n, r', Complete(count), Apply(r', Complete(count)));
  }

  lemma ShowsUsed(m: Memory, r: Ring, n: nat)
    requires Shows(m, r, n)
    ensures r.clear <= |r.pkts| && 0 <= Used(r) <= n <= 0x8000_0000
    ensures r.cons <= |r.pkts| && m.cons == Word(Pos(r.pkts, r.cons))
  {
    assert Unseal(0);
    FlatPrefix(r.pkts, r.clear);
  }

  class TxQueue {
    const n: nat
    const desc: array<Desc>
    var g: GuestRegs
    var h: HostRegs
    var txFree: int
    ghost var r: Ring

    ghost function View(): Memory
      reads `g, `h, desc
    {
      Memory(desc[..], g.prod, h.cons, g.clear)
    }

    ghost predicate RingValid()
      reads this, desc
    {
      Shows(View(), r, n)
    }

    /** The driver's credit is the free space of the ring. */
    ghost predicate Valid()
      reads this, desc
    {
      RingValid() && r.clear <= |r.pkts| && txFree + Used(r) == n
    }

    constructor (size: nat)
      requires Sized(size)
      ensures Valid() && fresh(desc) && n == size && r == Ring([], 0, 0) && txFree == size
    {
      n := size;
      desc := new Desc[size](_ => Desc(Buf(0, 0, 0), false));
      g := GuestRegs(0, 0, 0);
      h := HostRegs(0, true);
      txFree := size;
      r := Ring([], 0, 0);
    }

    /** The slot of an index word, and the next index word. */
    method NextSlot(index: nat, ghost p: nat) returns (next: nat, slot: nat)
      requires Sized(n) && index == Word(p)
      ensures next == Word(p + 1) && slot == Slot(p, n)
    {
      WordSlot(p, n);
      NextWord(p);
      next, slot := (index + 1) % WORD, index % n;
    }

    /** Fill descriptors from `prod` on, without marking the end. */
    method FillDescs(bufs: seq<Buf>, ghost log: seq<Desc>, ghost lo: nat) returns (prod: nat, last: nat)
      requires bufs != [] && Sized(n) && desc.Length == n && lo <= |log| && |log| + |bufs| <= lo + n
      requires Stored(desc[..], log, lo) && g.prod == Word(|log|)
      modifies desc
      ensures prod == Word(|log| + |bufs|) && last == Slot(|log| + |bufs| - 1, n)
      ensures Stored(desc[..], log + Plain(bufs), lo)
    {
      prod, last := g.prod, 0;
      for i := 0 to |bufs|
        invariant prod == Word(|log| + i) && (i > 0 ==> last == Slot(|log| + i - 1, n))
        invariant Stored(desc[..], log + Plain(bufs[..i]), lo)
      {
        ghost var m := desc[..];
        var x := Desc(Trunc(bufs[i]), false);
        StoreNext(m, log + Plain(bufs[..i]), lo, x);
        PlainMore(bufs, i);
        assert log + Plain(bufs[..i + 1]) == log + Plain(bufs[..i]) + [x];
        prod, last := NextSlot(prod, |log| + i);
        desc[last] := x;
        assert desc[..] == m[Slot(|log| + i, n) := x];
      }
      assert bufs[..|bufs|] == bufs;
    }

    /** Publish a packet; the answer says whether the host wants a kick. */
    method Txp(bufs: seq<Buf>) returns (ret: int, kickNeeded: bool)
      requires RingValid() && bufs != [] && (|bufs| <= MAX_BUFS ==> r.clear <= |r.pkts| && Used(r) + |bufs| <= n)
      modifies `g, `r, desc
      ensures RingValid()
      ensures |bufs| > MAX_BUFS ==> ret == -1 && !kickNeeded && r == old(r) && g == old(g) && desc[..] == old(desc[..])
      ensures |bufs| <= MAX_BUFS ==>
        ret == 0 && (kickNeeded <==> h.kick) && r == Apply(old(r), Publish(bufs))
      ensures g == old(g).(prod := g.prod)
    {
      if |bufs| > MAX_BUFS {
        return -1, false;
      }
      StoreProd(bufs);
      ret, kickNeeded := 0, h.kick;
    }

    method StoreProd(bufs: seq<Buf>)
      requires RingValid() && 1 <= |bufs| <= MAX_BUFS && r.clear <= |r.pkts| && Used(r) + |bufs| <= n
      modifies `g, `r, desc
      ensures RingValid() && r == Apply(old(r), Publish(bufs)) && g == old(g).(prod := g.prod)
    {
      ghost var m, log, lo := View(), Flat(r.pkts), Pos(r.pkts, r.clear);
      ShowsParts(m, r, n);
      var prod, last := FillDescs(bufs, log, lo);
      MarkEnd(bufs, last, log, lo);
      g := g.(prod := prod);
      PublishShows(m, r, n, bufs, View());
      r := Apply(r, Publish(bufs));
    }

    method MarkEnd(bufs: seq<Buf>, last: nat, ghost log: seq<Desc>, ghost lo: nat)
      requires bufs != [] && 0 < n == desc.Length && lo <= |log| && |log| + |bufs| <= lo + n
      requires Stored(desc[..], log + Plain(bufs), lo) && last == Slot(|log| + |bufs| - 1, n)
      modifies desc
      ensures Stored(desc[..], log + Frame(bufs), lo)
    {
      ghost var k, m := |bufs| - 1, desc[..];
      ghost var front, x := log + Plain(bufs[..k]), Desc(Trunc(bufs[k]), false);
      PlainMore(bufs, k);
      FrameIsPlainButLast(bufs);
      assert bufs[..k + 1] == bufs;
      assert log + Plain(bufs) == front + [x] && log + Frame(bufs) == front + [x.(eop := true)];
      assert m[last] == (front + [x])[|front|];
      StoreLast(m, front, lo, x, x.(eop := true));
      desc[last] := desc[last].(eop := true);
      assert desc[..] == m[Slot(|front|, n) := x.(eop := true)];
    }

    /** Copy the descriptors of the oldest packet out. */
    method GetOne() returns (bufs: seq<Buf>)
      requires RingValid() && r.clear < |r.pkts|
      modifies `g
      ensures bufs == Truncs(r.pkts[r.clear]) && g == old(g).(clear := Word(Pos(r.pkts, r.clear + 1)))
    {
      ghost var pkt, p, g0 := r.pkts[r.clear], Pos(r.pkts, r.clear), g;
      ShowsParts(View(), r, n);
      PacketEnds(r.pkts, r.clear);
      PacketSize(View(), r, n, r.clear);
      bufs := [];
      var more := true;
      while more && |bufs| < MAX_BUFS
        invariant |bufs| <= |pkt| && bufs == Truncs(pkt[..|bufs|]) && (more <==> |bufs| < |pkt|)
        invariant g == g0.(clear := Word(p + |bufs|))
        decreases |pkt| - |bufs|
      {
        TruncsMore(pkt, |bufs|);
        var txd, next := ReadDesc(g.clear, g0, r.clear, |bufs|);
        g := g.(clear := next);
        bufs := bufs + [txd.buf];
        more := !txd.eop;
      }
      assert pkt[..|pkt|] == pkt;
    }

    /** Load the descriptor at an index word: fragment `j` of packet `k`.  Also the next index. */
    method ReadDesc(index: nat, ghost g0: GuestRegs, ghost k: nat, ghost j: nat) returns (txd: Desc, next: nat)
      requires Shows(Memory(desc[..], g0.prod, h.cons, g0.clear), r, n) && r.clear <= k < |r.pkts| && j < |r.pkts[k]|
      requires index == Word(Pos(r.pkts, k) + j)
      ensures txd == Desc(Trunc(r.pkts[k][j]), j == |r.pkts[k]| - 1) && next == Word(Pos(r.pkts, k) + j + 1)
    {
      FragmentInMemory(Memory(desc[..], g0.prod, h.cons, g0.clear), r, n, k, j);
      txd, next := desc[index % n], (index + 1) % WORD;
    }

    /** Return the oldest completed packet to the driver, if there is one. */
    method Txc() returns (ret: int, bufs: seq<Buf>)
      requires RingValid()
      modifies `g, `r
      ensures RingValid() && g == old(g).(clear := g.clear) && old(r).clear <= old(r).cons <= |old(r).pkts|
      ensures old(r).clear == old(r).cons ==> ret == 0 && r == old(r)
      ensures old(r).clear < old(r).cons ==>
        ret == 1 && bufs == Truncs(old(r).pkts[old(r).clear]) && r == Apply(old(r), Collect)
    {
      ShowsParts(View(), r, n);
      EqualWords(View(), r, n);
      if g.clear == h.cons {
        return 0, [];
      }
      ReturnShows(View(), r, n);
      bufs := GetOne();
      r := Apply(r, Collect);
      ret := 1;
    }

    /** With the host stopped: return the oldest packet, completed or not. */
    method Txr() returns (ret: int, bufs: seq<Buf>)
      requires RingValid()
      modifies `g, `h, `r
      ensures RingValid() && old(r).clear <= old(r).cons <= |old(r).pkts|
      ensures old(r).clear == |old(r).pkts| ==> ret == 0 && r == old(r)
      ensures old(r).clear < |old(r).pkts| ==>
        && ret == 1 && bufs == Truncs(old(r).pkts[old(r).clear])
        && r == old(r).(clear := old(r).clear + 1,
            cons := if old(r).clear == old(r).cons then old(r).cons + 1 else old(r).cons)
    {
      ShowsParts(View(), r, n);
      EqualWords(View(), r, n);
      var clear := g.clear;
      if clear == g.prod {
        return 0, [];
      }
      ReturnShows(View(), r, n);
      MetExact(View(), r, n);
      bufs := GetOne();
      ghost var met := r.clear == r.cons;
      r := Apply(r, Collect);
      if Passed(h.cons, clear, g.clear) {
        h := h.(cons := g.clear);
        r := r.(cons := r.clear);
      }
      ret := 1;
    }

    /** Take back one completed packet and its descriptors. */
    method CompleteOne() returns (ret: int, bufs: seq<Buf>)
      requires Valid()
      modifies `g, `r, `txFree
      ensures Valid() && g == old(g).(clear := g.clear) && old(r).clear <= old(r).cons <= |old(r).pkts|
      ensures old(r).clear == old(r).cons ==> ret == 0 && r == old(r)
      ensures old(r).clear < old(r).cons ==>
        ret == 1 && bufs == Truncs(old(r).pkts[old(r).clear]) && r == Apply(old(r), Collect)
    {
      ghost var u := r;
      ret, bufs := Txc();
      if ret == 1 {
        PacketEnds(u.pkts, u.clear);
        txFree := txFree + |bufs|;
      }
    }

    /** Take back one packet, completed or not, and its descriptors. */
    method ReclaimOne() returns (ret: int, bufs: seq<Buf>)
      requires Valid()
      modifies `g, `h, `r, `txFree
      ensures Valid() && old(r).clear <= old(r).cons <= |old(r).pkts|
      ensures old(r).clear == |old(r).pkts| ==> ret == 0 && r == old(r)
      ensures old(r).clear < |old(r).pkts| ==>
        && ret == 1 && bufs == Truncs(old(r).pkts[old(r).clear])
        && r == old(r).(clear := old(r).clear + 1,
            cons := if old(r).clear == old(r).cons then old(r).cons + 1 else old(r).cons)
    {
      ghost var u := r;
      ret, bufs := Txr();
      if ret == 1 {
        PacketEnds(u.pkts, u.clear);
        txFree := txFree + |bufs|;
      }
    }

    /** The driver takes back all completed packets. */
    method TxClean() returns (returned: seq<seq<Buf>>)
      requires Valid()
      modifies `g, `r, `txFree
      ensures Valid() && g == old(g).(clear := g.clear) && old(r).clear <= old(r).cons <= |old(r).pkts|
      ensures r == old(r).(clear := old(r).cons) && returned == TruncAll(r.pkts[old(r).clear..old(r).cons])
    {
      ghost var r0 := r;
      ShowsParts(View(), r, n);
      returned := [];
      while true
        invariant Valid() && g == old(g).(clear := g.clear) && r == r0.(clear := r.clear)
        invariant r0.clear <= r.clear <= r0.cons <= |r0.pkts| && returned == TruncAll(r.pkts[r0.clear..r.clear])
        decreases r0.cons - r.clear
      {
        ghost var u := r;
        var ret, bufs := CompleteOne();
        if ret == 0 {
          break;
        }
        TruncAllMore(u.pkts, r0.clear, u.clear);
        returned := returned + [bufs];
      }
    }

    /** Tearing the queue down with the host stopped: every packet comes back once, in order,
        the three indices meet and all descriptors are free. */
    method Reclaim() returns (returned: seq<seq<Buf>>)
      requires Valid()
      modifies `g, `h, `r, `txFree
      ensures Valid() && old(r).clear <= |old(r).pkts| && r == Ring(old(r).pkts, |old(r).pkts|, |old(r).pkts|)
      ensures returned == TruncAll(r.pkts[old(r).clear..]) && txFree == n
      ensures g.clear == h.cons == g.prod
    {
      ghost var r0 := r;
      ShowsParts(View(), r, n);
      returned := [];
      while true
        invariant Valid() && r0.clear <= r.clear <= r.cons <= |r0.pkts| && r.pkts == r0.pkts
        invariant returned == TruncAll(r.pkts[r0.clear..r.clear])
        decreases |r0.pkts| - r.clear
      {
        ghost var u := r;
        var ret, bufs := ReclaimOne();
        if ret == 0 {
          break;
        }
        TruncAllMore(u.pkts, r0.clear, u.clear);
        returned := returned + [bufs];
      }
      PosEnd(r.pkts);
      ShowsParts(View(), r, n);
      EqualWords(View(), r, n);
      assert r.pkts[r0.clear..r.clear] == r.pkts[r0.clear..];
    }

    /** The driver transmits a packet, after taking back what is completed.  It publishes
        only what the credit covers, so no descriptor in use is overwritten. */
    method Xmit(bufs: seq<Buf>) returns (result: XmitResult)
      requires Valid() && bufs != []
      modifies `g, `r, `txFree, desc
      ensures Valid() && old(r).clear <= old(r).cons <= |old(r).pkts| && g.intrAt == old(g).intrAt
      ensures result == TooManyBufs <==> |bufs| > MAX_BUFS
      ensures result == Busy <==> |bufs| <= MAX_BUFS && Used(old(r).(clear := old(r).cons)) + |bufs| > n
      ensures result.Sent? ==>
        r == Ring(old(r).pkts + [bufs], old(r).cons, old(r).cons) && (result.kickNeeded <==> h.kick)
      ensures !result.Sent? ==> r == old(r).(clear := old(r).cons)
    {
      var back := TxClean();
      if |bufs| > MAX_BUFS {
        return TooManyBufs;
      }
      if txFree < |bufs| {
        return Busy;
      }
      ShowsPublish(View(), r, n, bufs);
      txFree := txFree - |bufs|;
      var ret, kick := Txp(bufs);
      result := Sent(kick);
    }

    /** Ask for an interrupt at `min` completions, unless they are there.  Between the store and
        the second load the host may complete more packets, up to packet `k`. */
    method Txi(min: nat, consLater: nat, ghost k: nat) returns (ret: int)
      requires RingValid() && min < WORD && r.cons <= k <= |r.pkts| && consLater == Word(Pos(r.pkts, k))
      modifies `g, `h, `r
      ensures RingValid() && r.pkts == old(r).pkts && r.clear == old(r).clear <= old(r).cons <= r.cons <= |r.pkts|
      ensures min == 0 ==> ret == 0 && r == old(r)
      ensures min > 0 ==> (ret == 1 <==> Pos(r.pkts, r.cons) - Pos(r.pkts, r.clear) >= min) && (ret == 0 || ret == 1)
      ensures ret == 0 && min > 0 ==> r.cons == k && g.intrAt == Word(Pos(r.pkts, r.clear) + min - 1)
      ensures g == old(g).(intrAt := g.intrAt)
      ensures (r, h) == old((r, h)) || (r, h) == (old(r).(cons := k), old(h).(cons := consLater))
    {
      ShowsParts(View(), r, n);
      if min == 0 {
        return 0;
      }
      var cons := h.cons;
      Completions(View(), r, n, k, consLater);
      var ncompl := (cons - g.clear) % WORD;
      if ncompl >= min {
        return 1;
      }
      WordPlus(Pos(r.pkts, r.clear), min - 1);
      g := g.(intrAt := (g.clear + (min - 1)) % WORD);
      h, r := h.(cons := consLater), r.(cons := k);
      ncompl := (ncompl + h.cons - cons) % WORD;
      ret := if ncompl >= min then 1 else 0;
    }

    /** Ask for an interrupt after half of what is outstanding, while the host's index stands still. */
    method ArmHalf() returns (ret: int)
      requires Valid()
      modifies `g, `h, `r
      ensures Valid() && r == old(r) && h == old(h) && g == old(g).(intrAt := g.intrAt)
    {
      ShowsUsed(View(), r, n);
      ret := Txi(HalfPending(n, txFree), h.cons, r.cons);
    }

    /** One thing the driver does while the host is at work. */
    method GuestOnce(act: GuestAct<seq<Buf>>)
      requires Valid()
      modifies `g, `r, `txFree, `h, desc
      ensures Valid() && Extends(old(r), r) && h == old(h)
    {
      ShowsParts(View(), r, n);
      match act
      case Transmit(bufs, napi) =>
        if bufs != [] {
          var result := Xmit(bufs);
          if result.Sent? && (napi || txFree < FREE_LOW) {
            var ret := ArmHalf();
          }
        }
      case Poll =>
        var back := TxClean();
        var ret := ArmHalf();
    }

    method GuestTurn(acts: seq<GuestAct<seq<Buf>>>)
      requires Valid()
      modifies `g, `r, `txFree, `h, desc
      ensures Valid() && Extends(old(r), r) && h == old(h)
    {
      for i := 0 to |acts|
        invariant Valid() && Extends(old(r), r) && h == old(h)
      {
        ghost var u := r;
        GuestOnce(acts[i]);
        ExtendsAgain(old(r), u, r);
      }
    }

    /** Load the guest's index, after whatever the driver has done. */
    method LoadProd(acts: seq<GuestAct<seq<Buf>>>) returns (prod: nat)
      requires Valid()
      modifies `g, `r, `txFree, `h, desc
      ensures Valid() && Extends(old(r), r) && prod == Word(|Flat(r.pkts)|) && h == old(h)
    {
      GuestTurn(acts);
      ShowsParts(View(), r, n);
      prod := g.prod;
    }

    /** Look for more work when all that is known is done: load the index again, and before
        giving up ask for kicks and load it once more. */
    method LookAgain(sc: Scan, canSend: bool, env: seq<seq<GuestAct<seq<Buf>>>>, e: nat, ghost k: nat, ghost seen: nat,
        ghost ok: Buf -> bool)
        returns (sc': Scan, stop: bool)
      requires Valid() && Scanning(sc, r, k, 0, seen, ok) && (canSend ==> !h.kick)
      modifies `g, `r, `txFree, desc, `h
      ensures Valid() && Extends(old(r), r) && h == old(h).(kick := h.kick)
      ensures sc' == sc.(prod := sc'.prod) && Scanning(sc', r, k, 0, |r.pkts|, ok)
      ensures stop <==> k == |r.pkts|
      ensures canSend ==> (h.kick <==> stop)
    {
      sc' := Refresh(sc, env, e, k, 0, seen, ok);
      ScanAtEnd(sc', View(), r, n, k, 0, |r.pkts|, ok);
      stop := sc'.cons == sc'.prod;
      if stop && canSend {
        h := h.(kick := true);
        ghost var known := |r.pkts|;
        sc' := Refresh(sc', env, e + 1, k, 0, known, ok);
        ScanAtEnd(sc', View(), r, n, k, 0, |r.pkts|, ok);
        stop := sc'.cons == sc'.prod;
        if !stop {
          h := h.(kick := false);
        }
      }
    }

    /** Go on if anything known is left, else look again. */
    method EnsureWork(sc: Scan, canSend: bool, env: seq<seq<GuestAct<seq<Buf>>>>, e: nat, ghost ok: Buf -> bool,
                      ghost k: nat, ghost j: nat, ghost seen: nat)
        returns (sc': Scan, stop: bool, ghost seen': nat)
      requires Valid() && Scanning(sc, r, k, j, seen, ok) && (canSend ==> !h.kick)
      modifies `g, `r, `txFree, desc, `h
      ensures Valid() && Extends(old(r), r) && h.cons == old(h).cons
      ensures Scanning(sc', r, k, j, seen', ok) && sc' == sc.(prod := sc'.prod)
      ensures stop ==> k == |r.pkts|
      ensures !stop ==> k < seen'
      ensures canSend ==> (h.kick <==> stop)
    {
      ScanParts(sc, r, k, j, seen, ok);
      ScanAtEnd(sc, View(), r, n, k, j, seen, ok);
      sc', stop, seen' := sc, false, seen;
      if sc.cons == sc.prod {
        sc', stop := LookAgain(sc, canSend, env, e, k, seen, ok);
        seen' := |r.pkts|;
        ScanParts(sc', r, k, j, seen', ok);
      }
    }

    method Refresh(sc: Scan, env: seq<seq<GuestAct<seq<Buf>>>>, e: nat, ghost k: nat, ghost j: nat, ghost seen: nat,
        ghost ok: Buf -> bool)
        returns (sc': Scan)
      requires Valid() && Scanning(sc, r, k, j, seen, ok)
      modifies `g, `r, `txFree, `h, desc
      ensures Valid() && Extends(old(r), r) && h == old(h)
      ensures sc' == sc.(prod := sc'.prod) && Scanning(sc', r, k, j, |r.pkts|, ok)
    {
      ghost var r0 := r;
      var prod := LoadProd(if e < |env| then env[e] else []);
      ScanGoesOn(sc, r0, k, j, seen, ok, r, prod);
      sc' := sc.(prod := prod);
    }

    /** One descriptor: gather it and, at the end of a packet, offer the packet to the backend. */
    method TakeDesc(sc: Scan, answer: Answer, ok: Buf -> bool, ghost k: nat, ghost j: nat, ghost seen: nat)
        returns (sc': Scan, refused: bool, ghost k': nat, ghost j': nat)
      requires Valid() && Scanning(sc, r, k, j, seen, ok) && k < seen && sc.count < TX_BUDGET
      ensures Scanning(sc', r, k', j', seen, ok) && j' <= MAX_BUFS && |sc'.iov| <= MAX_BUFS
      ensures !refused ==> (sc'.count == sc.count + 1 && answer == Accepted) || (sc'.count == sc.count && j' > j)
      ensures refused ==> j' == 0 && k' < seen && sc'.count == sc.count && answer != Accepted
    {
      ShowsOrder(View(), r, n);
      var txd := desc[sc.cons % n];
      var c := ChoicesAt(sc, txd, ok);
      TakeReady(sc, View(), r, n, k, j, seen, ok, txd, c);
      if !txd.eop {
        sc', refused, k', j' := c.more, false, k, j + 1;
      } else if answer == Accepted {
        sc', refused, k', j' := c.sent, false, k + 1, 0;
      } else {
        sc', refused, k', j' := c.back, true, k, 0;
      }
    }

    /** Publish the host's index and decide on an interrupt, if anything was sent. */
    method StoreCons(sc: Scan, ghost k: nat, ghost seen: nat, ghost ok: Buf -> bool) returns (notify: bool)
      requires Valid() && Scanning(sc, r, k, 0, seen, ok)
      modifies `h, `r
      ensures Valid() && old(r).cons + sc.count <= |r.pkts| && r == Apply(old(r), Complete(sc.count))
      ensures h.kick == old(h).kick && sc.sent == Delivered(r.pkts[old(r).cons..r.cons], ok)
      ensures notify <==> sc.count > 0 && Passed(g.intrAt, old(h).cons, h.cons)
    {
      ScanParts(sc, r, k, 0, seen, ok);
      notify := false;
      if sc.count > 0 {
        Completions(View(), r, n, k, sc.cons);
        var before := h.cons;
        h, r := h.(cons := sc.cons), Apply(r, Complete(sc.count));
        notify := Passed(g.intrAt, before, h.cons);
      }
    }

    /** Send what the guest has published, packet by packet.  `answers` tells which packets the
        backend takes, `env[e]` what the driver does just before the drain loads its index for the
        `e`-th time, possibly nothing, and `ok` which buffers can be translated.  Without `canSend`
        the host polls and leaves kicks alone. */
    method Drain(canSend: bool, answers: seq<Answer>, env: seq<seq<GuestAct<seq<Buf>>>>, ok: Buf -> bool)
        returns (count: nat, sent: seq<seq<Buf>>, notify: bool, why: Stop)
      requires Valid()
      modifies `g, `h, `r, `txFree, desc
      ensures Valid() && old(r).pkts <= r.pkts && r.cons == old(r).cons + count <= |r.pkts|
      ensures sent == Delivered(r.pkts[old(r).cons..r.cons], ok)
      ensures count <= TX_BUDGET && AllTaken(answers, count)
      ensures why == Empty ==> r.cons == |r.pkts| && (canSend ==> h.kick)
      ensures why == Budget ==> count == TX_BUDGET
      ensures why.Refused? ==> r.cons < |r.pkts| && why.answer == AnswerTo(answers, count) != Accepted
      ensures why != Empty && canSend ==> !h.kick
      ensures notify <==> count > 0 && Passed(g.intrAt, old(h).cons, h.cons)
      ensures RingOk(old(r), n) && Reaches(old(r), n, r)
    {
      ghost var r0, m0 := r, View();
      var sc := Scan(g.prod, h.cons, h.cons, [], 0, []);
      ScanStart(View(), r, n, ok);
      ShowsParts(View(), r, n);
      if canSend {
        h := h.(kick := false);
      }
      ghost var k, seen;
      sc, why, k, seen := DrainLoop(sc, canSend, answers, env, ok);
      ScanParts(sc, r, k, 0, seen, ok);
      assert r0.pkts <= r.pkts && r0.cons == r.cons;
      DrainReaches(m0, r0, View(), r, n, sc.count);
      notify := StoreCons(sc, k, seen, ok);
      count, sent := sc.count, sc.sent;
    }

    /** The loop of a drain. */
    method DrainLoop(start: Scan, canSend: bool, answers: seq<Answer>, env: seq<seq<GuestAct<seq<Buf>>>>,
        ok: Buf -> bool)
        returns (sc: Scan, why: Stop, ghost k: nat, ghost seen: nat)
      requires Valid() && r.cons <= |r.pkts| && Scanning(start, r, r.cons, 0, |r.pkts|, ok) && start.count == 0
      requires canSend ==> !h.kick
      modifies `g, `h, `r, `txFree, desc
      ensures Valid() && Extends(old(r), r) && h.cons == old(h).cons && Scanning(sc, r, k, 0, seen, ok)
      ensures AllTaken(answers, sc.count)
      ensures why == Empty ==> k == |r.pkts| && (canSend ==> h.kick)
      ensures why == Budget ==> sc.count == TX_BUDGET
      ensures why.Refused? ==> k < |r.pkts| && why.answer == AnswerTo(answers, sc.count) != Accepted
      ensures why != Empty && canSend ==> !h.kick
    {
      ghost var r0 := r;
      sc, why, k, seen := start, Empty, r.cons, |r.pkts|;
      ghost var j: nat := 0;
      var e: nat := 0;
      while true
        invariant Valid() && Extends(r0, r) && h.cons == old(h).cons && (canSend ==> !h.kick)
        invariant Scanning(sc, r, k, j, seen, ok) && j <= MAX_BUFS && AllTaken(answers, sc.count)
        decreases TX_BUDGET - sc.count, MAX_BUFS + 1 - j
      {
        ghost var r1 := r;
        var stop;
        sc, stop, seen := EnsureWork(sc, canSend, env, e, ok, k, j, seen);
        ExtendsAgain(r0, r1, r);
        e := e + 2;
        ScanParts(sc, r, k, j, seen, ok);
        if stop {
          break;
        }
        if sc.count >= TX_BUDGET {
          why := Budget;
          break;
        }
        var refused;
        sc, refused, k, j := TakeDesc(sc, AnswerTo(answers, sc.count), ok, k, j, seen);
        if refused {
          why := Refused(AnswerTo(answers, sc.count));
          break;
        }
      }
      ScanParts(sc, r, k, j, seen, ok);
    }
  }
}
