/** The binary heap of the packet schedulers, with extraction from the middle.

    An object is known by its number.  The heap stores, for every object it holds,
    the index of its entry in the object itself; these fields are the `pos` column
    here, shared by all heaps of a scheduler (an object is in at most one).

    Keys are virtual times.  The source keeps them in 64-bit words and compares by
    the sign of the difference; here a key is the true time and `KeyLt` is that
    comparison.  It orders any set of keys that fits in half the range.
 */
module Heap {
  import opened Common

  const HALF_RANGE := 0x8000_0000_0000_0000

  predicate KeyLt(a: int, b: int) { (a - b) % 0x1_0000_0000_0000_0000 >= HALF_RANGE }
  predicate KeyLeq(a: int, b: int) { var d := (a - b) % 0x1_0000_0000_0000_0000; d >= HALF_RANGE || d == 0 }

  /** The comparison is exact precisely within half the range. */
  lemma KeyLtExact(a: int, b: int)
    requires -0x1_0000_0000_0000_0000 < a - b < 0x1_0000_0000_0000_0000
    ensures (KeyLt(a, b) <==> a < b) <==> -HALF_RANGE <= a - b < HALF_RANGE
    ensures -HALF_RANGE < a - b < HALF_RANGE ==> (KeyLeq(a, b) <==> a <= b)
  {}

  datatype Entry = Entry(key: int, obj: nat)

  predicate InWindow(k: int, lo: int) { lo <= k < lo + HALF_RANGE }

  ghost predicate Windowed(items: map<nat, int>, lo: int) {
    forall o :: o in items ==> InWindow(items[o], lo)
  }

  // ----- value level ----------------------------------------------------------------

  function Parent(i: int): int { (i - 1) / 2 }

  ghost predicate Ordered(e: seq<Entry>) {
    forall i :: 0 < i < |e| ==> e[Parent(i)].key <= e[i].key
  }

  /** Entries and positions represent `items`, except that entry `hole` may be anything
      (`hole` is -1 for no exception). */
  ghost predicate Stores(e: seq<Entry>, pos: seq<int>, items: map<nat, int>, hole: int) {
    && (forall i :: 0 <= i < |e| && i != hole ==>
          && e[i].obj in items && items[e[i].obj] == e[i].key
          && e[i].obj < |pos| && pos[e[i].obj] == i)
    && (forall o :: o in items ==> o < |pos| && 0 <= pos[o] < |e| && pos[o] != hole && e[pos[o]].obj == o)
  }

  /** In order but for the entry at `son`, which may be smaller than its ancestors. */
  ghost predicate OrderedBut(e: seq<Entry>, son: nat) {
    && (forall i :: 0 < i < |e| && i != son ==> e[Parent(i)].key <= e[i].key)
    && (forall i :: 0 < i < |e| && Parent(i) == son > 0 ==> e[Parent(son)].key <= e[i].key)
  }

  /** In order around a hole. */
  ghost predicate OrderedAround(e: seq<Entry>, hole: nat) {
    && (forall i :: 0 < i < |e| && i != hole && Parent(i) != hole ==> e[Parent(i)].key <= e[i].key)
    && (forall i :: 0 < i < |e| && Parent(i) == hole > 0 ==> e[Parent(hole)].key <= e[i].key)
  }

  ghost predicate HeapOk(e: seq<Entry>, pos: seq<int>, items: map<nat, int>) {
    Ordered(e) && Stores(e, pos, items, -1)
  }

  lemma {:induction false} RootIsLeast(e: seq<Entry>, i: nat)
    requires Ordered(e) && i < |e|
    ensures e[0].key <= e[i].key
  {
    if i > 0 {
      RootIsLeast(e, Parent(i));
    }
  }

  function SwapEntries(e: seq<Entry>, i: nat, j: nat): seq<Entry>
    requires i < |e| && j < |e|
  {
    e[i := e[j]][j := e[i]]
  }

  /** One step of the bubble-up. */
  lemma BubbleOrder(e: seq<Entry>, son: nat)
    requires 0 < son < |e| && OrderedBut(e, son) && e[son].key <= e[Parent(son)].key
    ensures OrderedBut(SwapEntries(e, son, Parent(son)), Parent(son))
  {
    var father := Parent(son);
    var e' := SwapEntries(e, son, father);
    assert forall i :: 0 < i < |e| && i != father ==> e'[Parent(i)].key <= e'[i].key;
  }

  lemma BubbleStores(e: seq<Entry>, pos: seq<int>, items: map<nat, int>, son: nat, father: nat)
    requires son < |e| && father < son && Stores(e, pos, items, son)
    ensures e[father].obj < |pos|
    ensures Stores(SwapEntries(e, son, father), pos[e[father].obj := son], items, father)
  {}

  lemma FillHole(e: seq<Entry>, pos: seq<int>, items: map<nat, int>, hole: nat)
    requires hole < |e| && Stores(e, pos, items, hole)
    requires e[hole].obj !in items && e[hole].obj < |pos|
    ensures Stores(e, pos[e[hole].obj := hole], items[e[hole].obj := e[hole].key], -1)
  {}

  /** Extraction: the hole moves down to the smaller child. */
  lemma SinkOrder(e: seq<Entry>, father: nat, child: nat)
    requires father < child < |e| && Parent(child) == father && OrderedAround(e, father)
    requires forall i :: 0 < i < |e| && Parent(i) == father ==> e[child].key <= e[i].key
    ensures OrderedAround(e[father := e[child]], child)
  {}

  lemma SinkStores(e: seq<Entry>, pos: seq<int>, items: map<nat, int>, father: nat, child: nat)
    requires father < child < |e| && Stores(e, pos, items, father)
    ensures e[child].obj < |pos|
    ensures Stores(e[father := e[child]], pos[e[child].obj := father], items, child)
  {}

  /** Extraction, the hole being the last entry: it is dropped. */
  lemma DropHole(e: seq<Entry>, pos: seq<int>, items: map<nat, int>, hole: nat)
    requires hole == |e| - 1 && OrderedAround(e, hole) && Stores(e, pos, items, hole)
    ensures HeapOk(e[..hole], pos, items)
  {}

  /** Extraction: otherwise the last entry is moved into the hole, which has no children. */
  lemma MoveLastOrder(e: seq<Entry>, hole: nat, max: nat, e': seq<Entry>)
    requires hole < max == |e| - 1 && |e| <= 2 * hole + 1 && OrderedAround(e, hole) && e' == e[..max][hole := e[max]]
    ensures OrderedBut(e', hole)
  {
    assert forall i :: 0 < i < |e| ==> Parent(i) != hole;
  }

  lemma MoveLastStores(e: seq<Entry>, pos: seq<int>, items: map<nat, int>, hole: nat, max: nat, e': seq<Entry>)
    requires hole < max == |e| - 1 && Stores(e, pos, items, hole) && e' == e[..max][hole := e[max]]
    ensures e[max].obj in items && items[e[max].obj] == e[max].key && e[max].obj < |pos|
    ensures Stores(e', pos, items - {e[max].obj}, hole)
  {}

  lemma InsertAtEnd(e: seq<Entry>, pos: seq<int>, items: map<nat, int>, x: Entry)
    requires HeapOk(e, pos, items)
    ensures OrderedBut(e + [x], |e|) && Stores(e + [x], pos, items, |e|)
  {}

  lemma OpenHole(e: seq<Entry>, pos: seq<int>, items: map<nat, int>, hole: nat)
    requires hole < |e| && HeapOk(e, pos, items)
    ensures e[hole].obj in items && e[hole].obj < |pos|
    ensures OrderedAround(e, hole) && Stores(e, pos[e[hole].obj := -16], items - {e[hole].obj}, hole)
  {}

  lemma TopIsLeast(e: seq<Entry>, pos: seq<int>, items: map<nat, int>)
    requires 0 < |e| && HeapOk(e, pos, items)
    ensures e[0].obj in items && items[e[0].obj] == e[0].key
    ensures forall o :: o in items ==> e[0].key <= items[o]
  {
    forall o | o in items ensures e[0].key <= items[o] {
      RootIsLeast(e, pos[o]);
    }
  }

  /** The size the array grows to: all ones, at least `n`. */
  function RoundUp(n: nat): (r: nat)
    ensures r >= n
  {
    if n == 0 then 0 else 2 * RoundUp(n / 2) + 1
  }

  /** The bubble-up has arrived: nothing above is larger. */
  lemma BubbleDone(e: seq<Entry>, pos: seq<int>, rest: map<nat, int>, son: nat)
    requires son < |e| && OrderedBut(e, son) && Stores(e, pos, rest, son)
    requires e[son].obj !in rest && e[son].obj < |pos|
    requires son > 0 ==> e[Parent(son)].key <= e[son].key
    ensures HeapOk(e, pos[e[son].obj := son], rest[e[son].obj := e[son].key])
  {
    FillHole(e, pos, rest, son);
  }

  /** Entry `x` at `son` is on its way up. */
  ghost predicate Bubbling(e: seq<Entry>, pos: seq<int>, rest: map<nat, int>, son: nat, x: Entry) {
    Unit(son < |e| && e[son] == x && OrderedBut(e, son) && Stores(e, pos, rest, son))
  }

  /** The hole is on its way down. */
  ghost predicate Sinking(e: seq<Entry>, pos: seq<int>, rest: map<nat, int>, hole: nat) {
    Unit(hole < |e| && OrderedAround(e, hole) && Stores(e, pos, rest, hole))
  }

  lemma BubbleStep(e: seq<Entry>, pos: seq<int>, rest: map<nat, int>, son: nat, father: nat, x: Entry)
    requires Bubbling(e, pos, rest, son, x) && 0 < son && father == Parent(son) && son < |e|
    requires e[son].key <= e[father].key
    ensures e[father].obj < |pos|
    ensures Bubbling(SwapEntries(e, son, father), pos[e[father].obj := son], rest, father, x)
  {
    BubbleOrder(e, son);
    BubbleStores(e, pos, rest, son, father);
  }

  lemma SinkStep(e: seq<Entry>, pos: seq<int>, rest: map<nat, int>, hole: nat, child: nat)
    requires Sinking(e, pos, rest, hole) && child < |e| && (child == 2 * hole + 1 || child == 2 * hole + 2)
    requires 2 * hole + 1 < |e| ==> e[child].key <= e[2 * hole + 1].key
    requires 2 * hole + 2 < |e| ==> e[child].key <= e[2 * hole + 2].key
    ensures e[child].obj < |pos|
    ensures Sinking(e[hole := e[child]], pos[e[child].obj := hole], rest, child)
  {
    assert Parent(child) == hole && hole < child;
    forall i | 0 < i < |e| && Parent(i) == hole ensures e[child].key <= e[i].key {
      assert i == 2 * hole + 1 || i == 2 * hole + 2;
    }
    SinkOrder(e, hole, child);
    SinkStores(e, pos, rest, hole, child);
  }

  /** The positions of objects outside `objs` are untouched. */
  ghost predicate SameBut(pos: seq<int>, pos': seq<int>, objs: set<nat>) {
    |pos| == |pos'| && forall o :: 0 <= o < |pos| && o !in objs ==> pos'[o] == pos[o]
  }

  lemma EntryKnown(e: seq<Entry>, pos: seq<int>, rest: map<nat, int>, hole: nat, i: nat, lo: int)
    requires Stores(e, pos, rest, hole) && i < |e| && i != hole && Windowed(rest, lo)
    ensures InWindow(e[i].key, lo) && e[i].obj < |pos| && e[i].obj in rest
  {}

  /** Filling the hole with the last entry starts a bubble-up among one entry less. */
  lemma MoveLast(e: seq<Entry>, pos: seq<int>, rest: map<nat, int>, hole: nat, max: nat, others: map<nat, int>)
      returns (last: Entry)
    requires Sinking(e, pos, rest, hole) && hole < max == |e| - 1 && |e| <= 2 * hole + 1
    requires others == rest - {e[max].obj}
    ensures last == e[max] && Bubbling(e[..max][hole := last], pos, others, hole, last)
    ensures last.obj in rest && rest[last.obj] == last.key && last.obj < |pos|
  {
    last := e[max];
    var e' := e[..max][hole := last];
    MoveLastOrder(e, hole, max, e');
    MoveLastStores(e, pos, rest, hole, max, e');
    assert e'[hole] == last;
  }

  lemma WithoutAndBack(rest: map<nat, int>, others: map<nat, int>, last: Entry, lo: int)
    requires last.obj in rest && rest[last.obj] == last.key && others == rest - {last.obj} && Windowed(rest, lo)
    ensures last.obj !in others && InWindow(last.key, lo) && Windowed(others, lo)
    ensures others[last.obj := last.key] == rest && others.Keys + {last.obj} == rest.Keys
  {}

  // ----- rebuilding after deletions -----------------------------------------------------

  /** What a scan callback answers for an object: delete it, stop the scan. */
  datatype ScanVerdict = ScanVerdict(del: bool, end: bool)

  /** The entries below index `i` of a list whose objects sit at the places `at`. */
  ghost function Below(items: map<nat, int>, at: seq<int>, i: nat): map<nat, int>
    requires forall o :: o in items ==> o < |at|
  {
    map o | o in items && at[o] < i :: items[o]
  }

  /** Every object of `items` is listed once, at the place `at` tells. */
  ghost predicate Listed(e: seq<Entry>, at: seq<int>, items: map<nat, int>) {
    Unit(Stores(e, at, items, -1))
  }

  /** The first `i` listed entries have been made a heap. */
  ghost predicate Built(e: seq<Entry>, pos: seq<int>, items: map<nat, int>, at: seq<int>, i: nat) {
    (forall o :: o in items ==> o < |at|) && Unit(HeapOk(e, pos, Below(items, at, i)))
  }

  lemma BelowGrows(e: seq<Entry>, at: seq<int>, items: map<nat, int>, i: nat, lo: int)
    requires Listed(e, at, items) && i < |e| && Windowed(items, lo)
    ensures forall o :: o in items ==> o < |at|
    ensures Windowed(Below(items, at, i), lo) && Below(items, at, i).Keys + {e[i].obj} <= items.Keys
    ensures e[i].obj < |at| && e[i].obj !in Below(items, at, i) && InWindow(e[i].key, lo)
    ensures Below(items, at, i + 1) == Below(items, at, i)[e[i].obj := e[i].key]
  {}

  lemma BelowAll(e: seq<Entry>, at: seq<int>, items: map<nat, int>)
    requires Listed(e, at, items)
    ensures forall o :: o in items ==> o < |at|
    ensures Below(items, at, |e|) == items && Below(items, at, 0) == map[]
  {}

  lemma ListedEntry(e: seq<Entry>, at: seq<int>, items: map<nat, int>, i: nat)
    requires Listed(e, at, items) && i < |e|
    ensures e[i].obj in items
  {}

  function WithoutEntry(e: seq<Entry>, i: nat): seq<Entry>
    requires i < |e|
  {
    e[i := e[|e| - 1]][..|e| - 1]
  }

  /** Deleting entry `i` by putting the last one in its place. */
  lemma DeleteEntry(e: seq<Entry>, at: seq<int>, items: map<nat, int>, i: nat) returns (at': seq<int>)
    requires Listed(e, at, items) && i < |e|
    ensures |at'| == |at| && Listed(WithoutEntry(e, i), at', items - {e[i].obj})
  {
    at' := at[e[|e| - 1].obj := i];
  }

  /** Asked so far, once each: the objects removed and those at the first `i` entries. */
  ghost predicate AskedFor(asked: seq<nat>, e: seq<Entry>, i: nat, removed: set<nat>) {
    && i <= |e| && NoRepeats(asked)
    && (forall o :: o in asked ==> o in removed || exists j :: 0 <= j < i && e[j].obj == o)
    && (forall o :: o in removed ==> o in asked)
    && (forall j :: 0 <= j < i ==> e[j].obj in asked)
  }

  /** The object at entry `i` has not been asked about. */
  lemma NotAskedYet(asked: seq<nat>, e: seq<Entry>, i: nat, removed: set<nat>, at: seq<int>, left: map<nat, int>)
    requires AskedFor(asked, e, i, removed) && i < |e| && Listed(e, at, left) && removed !! left.Keys
    ensures e[i].obj !in asked && NoRepeats(asked + [e[i].obj])
  {}

  lemma AskAndKeep(asked: seq<nat>, e: seq<Entry>, i: nat, removed: set<nat>, at: seq<int>, left: map<nat, int>)
    requires AskedFor(asked, e, i, removed) && i < |e| && Listed(e, at, left) && removed !! left.Keys
    ensures AskedFor(asked + [e[i].obj], e, i + 1, removed)
  {
    NotAskedYet(asked, e, i, removed, at, left);
    assert (asked + [e[i].obj])[|asked|] == e[i].obj;
  }

  lemma AskAndDrop(asked: seq<nat>, e: seq<Entry>, i: nat, removed: set<nat>, at: seq<int>, left: map<nat, int>)
    requires AskedFor(asked, e, i, removed) && i < |e| && Listed(e, at, left) && removed !! left.Keys
    ensures AskedFor(asked + [e[i].obj], WithoutEntry(e, i), i, removed + {e[i].obj})
  {
    NotAskedYet(asked, e, i, removed, at, left);
    assert (asked + [e[i].obj])[|asked|] == e[i].obj;
    assert forall j :: 0 <= j < i ==> WithoutEntry(e, i)[j] == e[j];
  }

  lemma AskedAll(asked: seq<nat>, e: seq<Entry>, removed: set<nat>, at: seq<int>, left: map<nat, int>)
    requires AskedFor(asked, e, |e|, removed) && Listed(e, at, left)
    ensures forall o :: o in left || o in removed ==> o in asked
  {
    forall o | o in left ensures o in asked {
      assert e[at[o]].obj == o;
    }
  }

  /** The answers were heeded: exactly those asked for deletion are removed, only the last one asked
      may have ended the scan, and without that everything was asked. */
  ghost predicate Heeded(asked: seq<nat>, removed: set<nat>, all: set<nat>, fn: nat -> ScanVerdict) {
    && NoRepeats(asked) && (forall o :: o in asked ==> o in all)
    && (forall o :: o in removed <==> o in asked && fn(o).del)
    && (forall k :: 0 <= k < |asked| - 1 ==> !fn(asked[k]).end)
    && ((asked != [] && fn(asked[|asked| - 1]).end) || (forall o :: o in all ==> o in asked))
  }

  /** How far a scan has come: where the entries left are listed, what was removed, what was asked. */
  datatype Progress = Progress(at: seq<int>, left: map<nat, int>, removed: set<nat>, asked: seq<nat>)

  ghost predicate ScanOk(e: seq<Entry>, i: nat, s: Progress, items: map<nat, int>, fn: nat -> ScanVerdict) {
    forall k: nat :: Unseal(k) ==>
      (&& s.removed <= items.Keys && s.left == items - s.removed
       && Listed(e, s.at, s.left) && AskedFor(s.asked, e, i, s.removed)
       && (forall o :: o in s.asked ==> o in items && (o in s.removed <==> fn(o).del)))
  }

  /** Nobody asked so far has ended the scan; `LastEnds`: just the last one has. */
  ghost predicate GoesOn(asked: seq<nat>, fn: nat -> ScanVerdict) {
    forall k: nat :: Unseal(k) ==> forall o :: o in asked ==> !fn(o).end
  }

  ghost predicate LastEnds(asked: seq<nat>, fn: nat -> ScanVerdict) {
    asked != [] && fn(asked[|asked| - 1]).end && GoesOn(asked[..|asked| - 1], fn)
  }

  lemma EndsHere(asked: seq<nat>, o: nat, fn: nat -> ScanVerdict)
    requires GoesOn(asked, fn)
    ensures if fn(o).end then LastEnds(asked + [o], fn) else GoesOn(asked + [o], fn)
  {
    assert Unseal(0);
    assert (asked + [o])[..|asked|] == asked;
  }

  lemma ScanStart(e: seq<Entry>, at: seq<int>, items: map<nat, int>, fn: nat -> ScanVerdict)
    requires Listed(e, at, items)
    ensures ScanOk(e, 0, Progress(at, items, {}, []), items, fn) && GoesOn([], fn)
  {
    assert items - {} == items;
  }

  lemma ScanParts(e: seq<Entry>, i: nat, s: Progress, items: map<nat, int>, fn: nat -> ScanVerdict)
    requires ScanOk(e, i, s, items, fn)
    ensures s.removed <= items.Keys && s.left == items - s.removed && Listed(e, s.at, s.left)
  {
    assert Unseal(0);
  }

  lemma ScanKeep(e: seq<Entry>, i: nat, s: Progress, items: map<nat, int>, fn: nat -> ScanVerdict, s': Progress)
    requires ScanOk(e, i, s, items, fn) && i < |e| && !fn(e[i].obj).del && s' == s.(asked := s.asked + [e[i].obj])
    ensures ScanOk(e, i + 1, s', items, fn)
  {
    assert Unseal(0);
    AskAndKeep(s.asked, e, i, s.removed, s.at, s.left);
    ListedEntry(e, s.at, s.left, i);
  }

  lemma ScanDrop(e: seq<Entry>, i: nat, s: Progress, items: map<nat, int>, fn: nat -> ScanVerdict)
      returns (s': Progress)
    requires ScanOk(e, i, s, items, fn) && i < |e| && fn(e[i].obj).del
    ensures ScanOk(WithoutEntry(e, i), i, s', items, fn) && |s'.at| == |s.at| && s'.asked == s.asked + [e[i].obj]
    ensures |s'.removed| == |s.removed| + 1
  {
    assert Unseal(0);
    var o := e[i].obj;
    ListedEntry(e, s.at, s.left, i);
    AskAndDrop(s.asked, e, i, s.removed, s.at, s.left);
    var at' := DeleteEntry(e, s.at, s.left, i);
    s' := Progress(at', s.left - {o}, s.removed + {o}, s.asked + [o]);
    assert items - (s.removed + {o}) == s.left - {o};
  }

  lemma ScanStops(e: seq<Entry>, i: nat, s: Progress, items: map<nat, int>, fn: nat -> ScanVerdict)
    requires ScanOk(e, i, s, items, fn) && LastEnds(s.asked, fn)
    ensures Heeded(s.asked, s.removed, items.Keys, fn)
  {
    assert Unseal(0);
    forall k | 0 <= k < |s.asked| - 1 ensures !fn(s.asked[k]).end {
      assert s.asked[..|s.asked| - 1][k] == s.asked[k];
    }
  }

  lemma ScanDone(e: seq<Entry>, s: Progress, items: map<nat, int>, fn: nat -> ScanVerdict)
    requires ScanOk(e, |e|, s, items, fn) && GoesOn(s.asked, fn)
    ensures Heeded(s.asked, s.removed, items.Keys, fn)
  {
    assert Unseal(0);
    AskedAll(s.asked, e, s.removed, s.at, s.left);
  }

  // ----- the heap object ---------------------------------------------------------------

  class DnHeap {
    var p: array<Entry>
    var elements: nat
    const pos: array<int>
    ghost var items: map<nat, int>

    ghost predicate Valid()
      reads this, p, pos
    {
      elements <= p.Length && HeapOk(p[..elements], pos[..], items)
    }

    constructor (size: nat, pos: array<int>)
      ensures Valid() && fresh(p) && this.pos == pos && items == map[] && elements == 0
    {
      p := new Entry[size](_ => Entry(0, 0));
      elements, items := 0, map[];
      this.pos := pos;
    }

    /** The source's key comparison, on keys that fit in half the range. */
    static method Before(a: int, b: int, ghost lo: int) returns (r: bool)
      requires InWindow(a, lo) && InWindow(b, lo)
      ensures r <==> a < b
    {
      KeyLtExact(a, b);
      r := KeyLt(a, b);
    }

    /** Exchange two entries and record the new place of the one that went to `son`. */
    method SwapUp(son: nat, father: nat, ghost m: nat)
      requires father < son < m <= p.Length && p[father].obj < pos.Length
      modifies p, pos
      ensures p[..m] == SwapEntries(old(p[..m]), son, father) && p[m..] == old(p[m..])
      ensures pos[..] == old(pos[..])[old(p[father]).obj := son]
    {
      p[son], p[father] := p[father], p[son];
      pos[p[son].obj] := son;
    }

    /** Move the entry at `start` up to its place among the first `m` entries; the
        others of these represent `rest`. */
    method BubbleUp(start: nat, ghost m: nat, ghost rest: map<nat, int>, ghost lo: int)
      requires start < m <= p.Length && Bubbling(p[..m], pos[..], rest, start, p[start])
      requires p[start].obj !in rest && p[start].obj < pos.Length
      requires Windowed(rest, lo) && InWindow(p[start].key, lo)
      modifies p, pos
      ensures HeapOk(p[..m], pos[..], rest[old(p[start]).obj := old(p[start]).key])
      ensures p[m..] == old(p[m..])
      ensures SameBut(old(pos[..]), pos[..], rest.Keys + {old(p[start]).obj})
    {
      ghost var x := p[start];
      var son := start;
      while son > 0
        invariant 0 <= son < m && Bubbling(p[..m], pos[..], rest, son, x)
        invariant p[m..] == old(p[m..])
        invariant SameBut(old(pos[..]), pos[..], rest.Keys)
      {
        var father := (son - 1) / 2;
        ghost var e, q := p[..m], pos[..];
        EntryKnown(e, q, rest, son, father, lo);
        var done := Before(p[father].key, p[son].key, lo);
        if done {
          break;
        }
        BubbleStep(e, q, rest, son, father, x);
        SwapUp(son, father, m);
        son := father;
      }
      BubbleDone(p[..m], pos[..], rest, son);
      ghost var q := pos[..];
      pos[p[son].obj] := son;
      assert pos[..] == q[x.obj := son];
    }

    /** Copy an entry into the hole above it and record its new place. */
    method MoveUp(hole: nat, child: nat, ghost m: nat)
      requires hole < child < m <= p.Length && p[child].obj < pos.Length
      modifies p, pos
      ensures p[..m] == old(p[..m])[hole := old(p[child])] && p[m..] == old(p[m..])
      ensures pos[..] == old(pos[..])[old(p[child]).obj := hole]
    {
      p[hole] := p[child];
      pos[p[hole].obj] := hole;
    }

    /** The smaller child of a hole. */
    method SmallerChild(hole: nat, ghost rest: map<nat, int>, ghost lo: int) returns (child: nat)
      requires 2 * hole + 1 < elements <= p.Length && Windowed(rest, lo)
      requires Stores(p[..elements], pos[..], rest, hole)
      ensures child < elements && (child == 2 * hole + 1 || child == 2 * hole + 2)
      ensures p[child].key <= p[2 * hole + 1].key
      ensures 2 * hole + 2 < elements ==> p[child].key <= p[2 * hole + 2].key
    {
      child := 2 * hole + 1;
      EntryKnown(p[..elements], pos[..], rest, hole, child, lo);
      if child != elements - 1 {
        EntryKnown(p[..elements], pos[..], rest, hole, child + 1, lo);
        var right := Before(p[child + 1].key, p[child].key, lo);
        if right {
          child := child + 1;
        }
      }
    }

    /** Move the hole at `start` down to the bottom level, taking the smaller child up. */
    method SinkHole(start: nat, ghost rest: map<nat, int>, ghost lo: int) returns (hole: nat)
      requires start < elements <= p.Length
      requires Sinking(p[..elements], pos[..], rest, start) && Windowed(rest, lo)
      modifies p, pos
      ensures hole < elements <= 2 * hole + 1 && Sinking(p[..elements], pos[..], rest, hole)
      ensures SameBut(old(pos[..]), pos[..], rest.Keys)
    {
      hole := start;
      while 2 * hole + 1 <= elements - 1
        invariant hole < elements <= p.Length
        invariant Sinking(p[..elements], pos[..], rest, hole)
        invariant SameBut(old(pos[..]), pos[..], rest.Keys)
        decreases elements - hole
      {
        var child := SmallerChild(hole, rest, lo);
        ghost var e, q := p[..elements], pos[..];
        EntryKnown(e, q, rest, hole, child, lo);
        SinkStep(e, q, rest, hole, child);
        MoveUp(hole, child, elements);
        hole := child;
      }
    }

    /** Make room for one more entry. */
    method Grow()
      requires elements <= p.Length
      modifies this`p
      ensures fresh(p) && p.Length > elements && p[..elements] == old(p[..elements])
    {
      var size := RoundUp(elements + 16);
      var q := new Entry[size](_ => Entry(0, 0));
      forall i | 0 <= i < elements {
        q[i] := p[i];
      }
      p := q;
    }

    /** Add `obj`.  A full array is enlarged to the next power of two minus one above
        `elements + 16`; when there is no memory nothing changes. */
    method Insert(key: int, obj: nat, memory: bool, ghost lo: int) returns (failed: bool)
      requires Valid() && obj !in items && obj < pos.Length
      requires Windowed(items, lo) && InWindow(key, lo)
      modifies this, p, pos
      ensures Valid() && (p == old(p) || fresh(p))
      ensures memory ==> !failed
      ensures items == if failed then old(items) else old(items)[obj := key]
      ensures SameBut(old(pos[..]), pos[..], old(items.Keys) + {obj})
    {
      var son := elements;
      if son == p.Length {
        if !memory {
          return true;
        }
        Grow();
      }
      Append(Entry(key, obj), lo);
      failed := false;
    }

    /** Put `x` behind the last entry and let it rise. */
    method Append(x: Entry, ghost lo: int)
      requires elements < p.Length && HeapOk(p[..elements], pos[..], items) && x.obj !in items && x.obj < pos.Length
      requires Windowed(items, lo) && InWindow(x.key, lo)
      modifies `elements, `items, p, pos
      ensures elements == old(elements) + 1 && items == old(items)[x.obj := x.key]
      ensures HeapOk(p[..elements], pos[..], items)
      ensures SameBut(old(pos[..]), pos[..], old(items.Keys) + {x.obj})
    {
      ghost var e := p[..elements];
      InsertAtEnd(e, pos[..], items, x);
      p[elements] := x;
      elements := elements + 1;
      assert p[..elements] == e + [x];
      BubbleUp(elements - 1, elements, items, lo);
      items := items[x.obj := x.key];
    }

    /** Put the last entry into the hole, or drop the hole if it is the last entry. */
    method CloseHole(hole: nat, ghost rest: map<nat, int>, ghost lo: int)
      requires hole < elements <= 2 * hole + 1 && elements <= p.Length
      requires Sinking(p[..elements], pos[..], rest, hole) && Windowed(rest, lo)
      modifies this`elements, p, pos
      ensures elements == old(elements) - 1 && HeapOk(p[..elements], pos[..], rest)
      ensures SameBut(old(pos[..]), pos[..], rest.Keys)
    {
      ghost var e := p[..elements];
      var max := elements - 1;
      elements := max;
      if hole != max {
        ghost var others, q := rest - {p[max].obj}, pos[..];
        ghost var last := MoveLast(e, q, rest, hole, max, others);
        WithoutAndBack(rest, others, last, lo);
        p[hole] := p[max];
        assert p[..max] == e[..max][hole := last] && pos[..] == q && p[hole] == last;
        BubbleUp(hole, max, others, lo);
      } else {
        DropHole(e, pos[..], rest, hole);
        assert e[..hole] == p[..max];
      }
    }

    /** Take the entry at `father` out, leaving a hole that is then closed. */
    method RemoveAt(father: nat, ghost lo: int)
      requires Valid() && father < elements && Windowed(items, lo)
      modifies this`elements, this`items, p, pos
      ensures Valid() && old(p[father]).obj in old(items) && items == old(items) - {old(p[father]).obj}
      ensures SameBut(old(pos[..]), pos[..], old(items.Keys))
    {
      ghost var e, q, o := p[..elements], pos[..], p[father].obj;
      ghost var rest := items - {o};
      OpenHole(e, q, items, father);
      pos[p[father].obj] := -16;
      assert p[..elements] == e && pos[..] == q[o := -16];
      assert Sinking(p[..elements], pos[..], rest, father) && Windowed(rest, lo);
      assert SameBut(q, pos[..], items.Keys);
      var hole := SinkHole(father, rest, lo);
      assert SameBut(q, pos[..], items.Keys);
      CloseHole(hole, rest, lo);
      assert SameBut(q, pos[..], items.Keys);
      items := rest;
    }

    /** Remove an object from anywhere, or the least one if `obj` is `-1`.  An empty heap is left alone. */
    method Extract(obj: int, ghost lo: int) returns (ghost out: nat)
      requires Valid() && Windowed(items, lo)
      requires obj == -1 || obj in items
      modifies this`elements, this`items, p, pos
      ensures Valid()
      ensures old(elements) == 0 ==> items == old(items)
      ensures old(elements) > 0 ==>
        && out in old(items) && items == old(items) - {out}
        && out == (if obj != -1 then obj else old(p[0]).obj)
        && (obj == -1 ==> forall o :: o in old(items) ==> old(items)[out] <= old(items)[o])
      ensures SameBut(old(pos[..]), pos[..], old(items.Keys))
    {
      out := 0;
      if elements == 0 {
        return;
      }
      var father := if obj == -1 then 0 else pos[obj];
      out := p[father].obj;
      if obj == -1 {
        TopIsLeast(p[..elements], pos[..], items);
      }
      RemoveAt(father, lo);
    }

    lemma EmptyOrNot()
      requires Valid()
      ensures elements == 0 <==> items == map[]
    {
      if elements > 0 {
        TopIsLeast(p[..elements], pos[..], items);
      }
    }

    /** The least key and its object. */
    method Top() returns (x: Entry)
      requires Valid() && elements > 0
      ensures x == p[0] && x.obj in items && items[x.obj] == x.key
      ensures forall o :: o in items ==> x.key <= items[o]
    {
      TopIsLeast(p[..elements], pos[..], items);
      x := p[0];
    }

    /** Extend a heap of the first `i` entries, which represent `done`, by the next entry. */
    method AddNext(i: nat, ghost done: map<nat, int>, ghost lo: int)
      requires i < elements <= p.Length && HeapOk(p[..i], pos[..], done) && Windowed(done, lo)
      requires p[i].obj !in done && p[i].obj < pos.Length && InWindow(p[i].key, lo)
      modifies p, pos
      ensures HeapOk(p[..i + 1], pos[..], done[old(p[i]).obj := old(p[i]).key])
      ensures p[i + 1..] == old(p[i + 1..])
      ensures SameBut(old(pos[..]), pos[..], done.Keys + {old(p[i]).obj})
    {
      InsertAtEnd(p[..i], pos[..], done, p[i]);
      assert p[..i + 1] == p[..i] + [p[i]];
      BubbleUp(i, i + 1, done, lo);
    }

    /** Rebuild the heap from a list of entries in any order; `at` tells where each object is listed. */
    method Heapify(ghost listed: map<nat, int>, ghost at: seq<int>, ghost lo: int)
      requires elements <= p.Length && |at| == pos.Length
      requires Listed(p[..elements], at, listed) && Windowed(listed, lo)
      modifies p, pos
      ensures HeapOk(p[..elements], pos[..], listed)
      ensures SameBut(old(pos[..]), pos[..], listed.Keys)
    {
      ghost var e, whole := p[..elements], p[..];
      BelowAll(e, at, listed);
      var i := 0;
      while i < elements
        invariant 0 <= i <= elements
        invariant Built(p[..i], pos[..], listed, at, i)
        invariant p[i..] == whole[i..]
        invariant SameBut(old(pos[..]), pos[..], listed.Keys)
      {
        assert p[i] == p[i..][0] == e[i] && p[i + 1..] == p[i..][1..] == whole[i + 1..];
        BelowGrows(e, at, listed, i, lo);
        AddNext(i, Below(listed, at, i), lo);
        i := i + 1;
      }
      assert p[..i] == p[..elements];
    }

    /** Ask about one entry; if it is to go, the last one takes its place. */
    method ScanOne(i: nat, fn: nat -> ScanVerdict, ghost s: Progress) returns (del: bool, end: bool, ghost s': Progress)
      requires i < elements <= p.Length && ScanOk(p[..elements], i, s, items, fn) && GoesOn(s.asked, fn)
      modifies this`elements, p
      ensures elements == (if del then old(elements) - 1 else old(elements)) && |s'.at| == |s.at|
      ensures ScanOk(p[..elements], if del then i else i + 1, s', items, fn)
      ensures if end then LastEnds(s'.asked, fn) else GoesOn(s'.asked, fn)
      ensures |s'.removed| == |s.removed| + (if del then 1 else 0)
      ensures !del ==> p[..elements] == old(p[..elements])
    {
      ghost var e := p[..elements];
      var o := p[i].obj;
      del, end := fn(o).del, fn(o).end;
      EndsHere(s.asked, o, fn);
      if del {
        s' := ScanDrop(e, i, s, items, fn);
        elements := elements - 1;
        p[i] := p[elements];
        assert p[..elements] == WithoutEntry(e, i);
      } else {
        s' := s.(asked := s.asked + [o]);
        ScanKeep(e, i, s, items, fn, s');
      }
    }

    /** The loop of the scan: entries before `i` are to stay; positions are not touched. */
    method ScanLoop(fn: nat -> ScanVerdict) returns (found: nat, ghost s: Progress)
      requires elements <= p.Length && Listed(p[..elements], pos[..], items)
      modifies this`elements, p
      ensures elements <= p.Length && |s.at| == pos.Length && found == |s.removed|
      ensures Listed(p[..elements], s.at, s.left) && s.removed <= items.Keys && s.left == items - s.removed
      ensures Heeded(s.asked, s.removed, items.Keys, fn)
      ensures found == 0 ==> p[..elements] == old(p[..elements])
    {
      found, s := 0, Progress(pos[..], items, {}, []);
      ScanStart(p[..elements], pos[..], items, fn);
      var i, end := 0, false;
      while i < elements && !end
        invariant i <= elements <= p.Length && |s.at| == pos.Length && found == |s.removed|
        invariant ScanOk(p[..elements], i, s, items, fn)
        invariant if end then LastEnds(s.asked, fn) else GoesOn(s.asked, fn)
        invariant found == 0 ==> p[..elements] == old(p[..elements])
        decreases elements - i
      {
        var del;
        del, end, s := ScanOne(i, fn, s);
        if del {
          found := found + 1;
        } else {
          i := i + 1;
        }
      }
      ScanParts(p[..elements], i, s, items, fn);
      if end {
        ScanStops(p[..elements], i, s, items, fn);
      } else {
        ScanDone(p[..elements], s, items, fn);
      }
    }

    /** Ask `fn` about the entries in array order, each once, delete those it says, and restore
        the heap if anything was deleted. */
    method Scan(fn: nat -> ScanVerdict, ghost lo: int)
        returns (found: nat, ghost removed: set<nat>, ghost asked: seq<nat>)
      requires Valid() && Windowed(items, lo)
      modifies this`elements, this`items, p, pos
      ensures Valid()
      ensures removed <= old(items.Keys) && items == old(items) - removed && found == |removed|
      ensures Heeded(asked, removed, old(items.Keys), fn)
      ensures SameBut(old(pos[..]), pos[..], old(items.Keys))
    {
      ghost var s;
      found, s := ScanLoop(fn);
      removed, asked := s.removed, s.asked;
      if found > 0 {
        Heapify(s.left, s.at, lo);
      } else {
        assert s.left == items;
      }
      items := s.left;
    }
  }
}
