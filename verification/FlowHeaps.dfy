/** The three heaps of the WF2Q+ scheduler over one column of positions: every flow is in
    at most one of them, at a known key. */
module FlowHeaps {
  import opened Common
  import opened Heap
  import opened Wf2qModel

  /** Where a flow is, and its key there. */
  datatype Spot = Spot(place: Place, key: int)

  const NOWHERE := Spot(Out, 0)

  ghost predicate NoneIn(spots: seq<Spot>, place: Place) {
    forall i :: 0 <= i < |spots| ==> spots[i].place != place
  }

  /** Flow `i` has the least key in its heap. */
  ghost predicate LeastIn(spots: seq<Spot>, place: Place, i: nat) {
    && i < |spots| && spots[i].place == place
    && (forall j :: 0 <= j < |spots| && spots[j].place == place ==> spots[i].key <= spots[j].key)
  }

  ghost predicate SpotsFit(spots: seq<Spot>, lo: int) {
    forall i :: 0 <= i < |spots| && spots[i].place != Out ==> InWindow(spots[i].key, lo)
  }

  // ----- what the heaps hold ------------------------------------------------------------

  ghost function ItemsOf(spots: seq<Spot>, place: Place): map<nat, int> {
    map i: nat | i < |spots| && spots[i].place == place :: spots[i].key
  }

  lemma ItemsPut(spots: seq<Spot>, i: nat, x: Spot, place: Place)
    requires i < |spots|
    ensures ItemsOf(spots[i := x], place) ==
            if x.place == place then ItemsOf(spots, place)[i := x.key] else ItemsOf(spots, place) - {i}
  {}

  lemma ItemsUnaffected(spots: seq<Spot>, i: nat, x: Spot, place: Place)
    requires i < |spots| && spots[i].place != place && x.place != place
    ensures ItemsOf(spots[i := x], place) == ItemsOf(spots, place)
  {}

  lemma ItemsWindow(spots: seq<Spot>, place: Place, lo: int)
    requires SpotsFit(spots, lo) && place != Out
    ensures Windowed(ItemsOf(spots, place), lo)
  {}

  // ----- three heaps that share the position column ---------------------------------------

  ghost predicate Together(h: DnHeap, a: DnHeap, b: DnHeap)
    reads h, a, b, h.p, a.p, b.p, h.pos, a.pos, b.pos
  {
    && h != a && h != b && a != b
    && h.pos == a.pos == b.pos
    && h.p != a.p && h.p != b.p && a.p != b.p
    && h.Valid() && a.Valid() && b.Valid()
    && h.items.Keys !! a.items.Keys && h.items.Keys !! b.items.Keys && a.items.Keys !! b.items.Keys
  }

  /** A heap does not mind changes to the positions of objects it does not hold. */
  lemma HeapFrame(e: seq<Entry>, pos: seq<int>, pos': seq<int>, items: map<nat, int>, objs: set<nat>)
    requires HeapOk(e, pos, items) && SameBut(pos, pos', objs) && items.Keys !! objs
    ensures HeapOk(e, pos', items)
  {}

  method InsertAmong(h: DnHeap, a: DnHeap, b: DnHeap, key: int, obj: nat, ghost lo: int)
    requires Together(h, a, b) && obj < h.pos.Length
    requires obj !in h.items && obj !in a.items && obj !in b.items
    requires Windowed(h.items, lo) && InWindow(key, lo)
    modifies h, h.p, h.pos
    ensures Together(h, a, b) && (h.p == old(h.p) || fresh(h.p))
    ensures h.items == old(h.items)[obj := key]
  {
    ghost var ea, eb, pos := a.p[..a.elements], b.p[..b.elements], h.pos[..];
    ghost var objs := h.items.Keys + {obj};
    var failed := h.Insert(key, obj, true, lo);
    HeapFrame(ea, pos, h.pos[..], a.items, objs);
    HeapFrame(eb, pos, h.pos[..], b.items, objs);
    assert ea == a.p[..a.elements] && eb == b.p[..b.elements];
  }

  method ExtractAmong(h: DnHeap, a: DnHeap, b: DnHeap, obj: int, ghost lo: int) returns (ghost out: nat)
    requires Together(h, a, b) && h.elements > 0 && (obj == -1 || obj in h.items)
    requires Windowed(h.items, lo)
    modifies h, h.p, h.pos
    ensures Together(h, a, b) && h.p == old(h.p)
    ensures out in old(h.items) && h.items == old(h.items) - {out}
    ensures out == if obj != -1 then obj else old(h.p[0]).obj
  {
    ghost var ea, eb, pos, objs := a.p[..a.elements], b.p[..b.elements], h.pos[..], h.items.Keys;
    out := h.Extract(obj, lo);
    HeapFrame(ea, pos, h.pos[..], a.items, objs);
    HeapFrame(eb, pos, h.pos[..], b.items, objs);
    assert ea == a.p[..a.elements] && eb == b.p[..b.elements];
  }

  /** Heap `h` holds the flows in place `p`, and likewise `a` and `b`. */
  ghost predicate Holding(h: DnHeap, a: DnHeap, b: DnHeap, spots: seq<Spot>, p: Place, pa: Place, pb: Place)
    reads h, a, b, h.p, a.p, b.p, h.pos, a.pos, b.pos
  {
    Unit(
      && Together(h, a, b)
      && h.pos.Length == |spots|
      && p != Out && pa != Out && pb != Out && p != pa && p != pb && pa != pb
      && h.items == ItemsOf(spots, p) && a.items == ItemsOf(spots, pa) && b.items == ItemsOf(spots, pb))
  }

  lemma HoldingRotates(h: DnHeap, a: DnHeap, b: DnHeap, spots: seq<Spot>, p: Place, pa: Place, pb: Place)
    requires Holding(h, a, b, spots, p, pa, pb)
    ensures Holding(a, b, h, spots, pa, pb, p) && Holding(b, h, a, spots, pb, p, pa)
  {}

  /** The top of a heap. */
  method Peek(h: DnHeap, a: DnHeap, b: DnHeap, ghost spots: seq<Spot>, ghost p: Place, ghost pa: Place, ghost pb: Place)
      returns (empty: bool, x: Entry)
    requires Holding(h, a, b, spots, p, pa, pb)
    ensures empty <==> NoneIn(spots, p)
    ensures empty <==> h.elements == 0
    ensures !empty ==> x == h.p[0] && LeastIn(spots, p, x.obj) && x.key == spots[x.obj].key
  {
    h.EmptyOrNot();
    empty, x := h.elements == 0, Entry(0, 0);
    if !empty {
      x := h.Top();
      assert LeastIn(spots, p, x.obj) by {
        assert forall j: nat :: j < |spots| && spots[j].place == p ==> j in h.items;
      }
    } else {
      forall j: nat | j < |spots| ensures spots[j].place != p {
        assert j !in ItemsOf(spots, p);
      }
    }
  }

  /** Flow `i` leaves heap `h`, as its top or from the middle. */
  method Leave(h: DnHeap, a: DnHeap, b: DnHeap, i: nat, top: bool,
               ghost spots: seq<Spot>, ghost p: Place, ghost pa: Place, ghost pb: Place, ghost lo: int)
    requires Holding(h, a, b, spots, p, pa, pb) && i < |spots| && spots[i].place == p
    requires h.elements > 0 && (top ==> i == h.p[0].obj)
    requires SpotsFit(spots, lo)
    modifies h, h.p, h.pos
    ensures h.p == old(h.p) && Holding(h, a, b, spots[i := NOWHERE], p, pa, pb)
  {
    ItemsWindow(spots, p, lo);
    ItemsPut(spots, i, NOWHERE, p);
    ItemsUnaffected(spots, i, NOWHERE, pa);
    ItemsUnaffected(spots, i, NOWHERE, pb);
    ghost var out := ExtractAmong(h, a, b, if top then -1 else i, lo);
  }

  /** Flow `i`, in no heap, enters heap `h`. */
  method Enter(h: DnHeap, a: DnHeap, b: DnHeap, key: int, i: nat,
               ghost spots: seq<Spot>, ghost p: Place, ghost pa: Place, ghost pb: Place, ghost lo: int)
    requires Holding(h, a, b, spots, p, pa, pb) && i < |spots| && spots[i].place == Out
    requires SpotsFit(spots, lo) && InWindow(key, lo)
    modifies h, h.p, h.pos
    ensures (h.p == old(h.p) || fresh(h.p)) && Holding(h, a, b, spots[i := Spot(p, key)], p, pa, pb)
  {
    ItemsWindow(spots, p, lo);
    ItemsPut(spots, i, Spot(p, key), p);
    ItemsUnaffected(spots, i, Spot(p, key), pa);
    ItemsUnaffected(spots, i, Spot(p, key), pb);
    InsertAmong(h, a, b, key, i, lo);
  }

  /** The top of heap `h` leaves it. */
  method LeaveTop(h: DnHeap, a: DnHeap, b: DnHeap,
                  ghost spots: seq<Spot>, ghost p: Place, ghost pa: Place, ghost pb: Place, ghost lo: int)
      returns (x: Entry)
    requires Holding(h, a, b, spots, p, pa, pb) && !NoneIn(spots, p) && SpotsFit(spots, lo)
    modifies h, h.p, h.pos
    ensures LeastIn(spots, p, x.obj) && x.key == spots[x.obj].key
    ensures h.p == old(h.p) && Holding(h, a, b, spots[x.obj := NOWHERE], p, pa, pb)
  {
    var empty;
    empty, x := Peek(h, a, b, spots, p, pa, pb);
    Leave(h, a, b, x.obj, true, spots, p, pa, pb, lo);
  }

  method MakeHeaps(n: nat) returns (sch: DnHeap, ne: DnHeap, idle: DnHeap)
    ensures Holding(sch, ne, idle, seq(n, _ => NOWHERE), Sch, Ne, Idle)
    ensures fresh(sch) && fresh(ne) && fresh(idle)
    ensures fresh(sch.p) && fresh(ne.p) && fresh(idle.p) && fresh(sch.pos) && sch.pos == ne.pos == idle.pos
  {
    var pos := new int[n](_ => -16);
    sch := new DnHeap(16, pos);
    ne := new DnHeap(16, pos);
    idle := new DnHeap(16, pos);
    ghost var spots := seq(n, _ => NOWHERE);
    assert forall p :: p != Out ==> ItemsOf(spots, p) == map[];
    assert Together(sch, ne, idle);
  }

  class FlowHeaps {
    const sch: DnHeap
    const ne: DnHeap
    const idle: DnHeap
    ghost var spots: seq<Spot>
    ghost var Repr: set<object>

    ghost predicate Valid()
      reads this, Repr
    {
      Unit(
        && this !in Repr && sch in Repr && ne in Repr && idle in Repr
        && Repr == {sch, ne, idle, sch.p, ne.p, idle.p, sch.pos}
        && sch.pos == ne.pos == idle.pos
        && Holding(sch, ne, idle, spots, Sch, Ne, Idle))
    }

    /** The heaps own nothing but `r` and what has been allocated since. */
    twostate predicate OnlyNew(r: set<object>)
      reads this
    {
      forall o :: o in Repr ==> o in r || fresh(o)
    }

    constructor (n: nat)
      ensures Valid() && fresh(Repr) && spots == seq(n, _ => NOWHERE)
    {
      var s, e, i := MakeHeaps(n);
      sch, ne, idle := s, e, i;
      spots := seq(n, _ => NOWHERE);
      Repr := {s, e, i, s.p, e.p, i.p, s.pos};
    }

    /** The top of one of the heaps, if there is one. */
    method Top(place: Place) returns (empty: bool, x: Entry)
      requires Valid() && place != Out
      ensures empty <==> NoneIn(spots, place)
      ensures !empty ==> LeastIn(spots, place, x.obj) && x.key == spots[x.obj].key
    {
      HoldingRotates(sch, ne, idle, spots, Sch, Ne, Idle);
      match place
      case Sch => empty, x := Peek(sch, ne, idle, spots, Sch, Ne, Idle);
      case Ne => empty, x := Peek(ne, idle, sch, spots, Ne, Idle, Sch);
      case Idle => empty, x := Peek(idle, sch, ne, spots, Idle, Sch, Ne);
    }

    /** Extract the top of heap `place`. */
    method TakeTop(place: Place, ghost lo: int) returns (x: Entry)
      requires Valid() && place != Out && !NoneIn(spots, place) && SpotsFit(spots, lo)
      modifies this, Repr
      ensures Valid() && Repr == old(Repr)
      ensures LeastIn(old(spots), place, x.obj) && x.key == old(spots)[x.obj].key
      ensures spots == old(spots)[x.obj := NOWHERE]
    {
      HoldingRotates(sch, ne, idle, spots, Sch, Ne, Idle);
      match place {
      case Sch =>
        x := LeaveTop(sch, ne, idle, spots, Sch, Ne, Idle, lo);
      case Ne =>
        x := LeaveTop(ne, idle, sch, spots, Ne, Idle, Sch, lo);
        HoldingRotates(ne, idle, sch, spots[x.obj := NOWHERE], Ne, Idle, Sch);
      case Idle =>
        x := LeaveTop(idle, sch, ne, spots, Idle, Sch, Ne, lo);
        HoldingRotates(idle, sch, ne, spots[x.obj := NOWHERE], Idle, Sch, Ne);
      }
      spots := spots[x.obj := NOWHERE];
    }

    /** Extract an idle flow from wherever it is in the idle heap. */
    method TakeIdle(i: nat, ghost lo: int)
      requires Valid() && i < |spots| && spots[i].place == Idle && SpotsFit(spots, lo)
      modifies this, Repr
      ensures Valid() && Repr == old(Repr) && spots == old(spots)[i := NOWHERE]
    {
      HoldingRotates(sch, ne, idle, spots, Sch, Ne, Idle);
      var empty, x := Peek(idle, sch, ne, spots, Idle, Sch, Ne);
      Leave(idle, sch, ne, i, false, spots, Idle, Sch, Ne, lo);
      HoldingRotates(idle, sch, ne, spots[i := NOWHERE], Idle, Sch, Ne);
      spots := spots[i := NOWHERE];
    }

    /** Insert a flow that is in no heap. */
    method Add(place: Place, key: int, i: nat, ghost lo: int)
      requires Valid() && place != Out && i < |spots| && spots[i].place == Out
      requires SpotsFit(spots, lo) && InWindow(key, lo)
      modifies this, Repr
      ensures Valid() && OnlyNew(old(Repr)) && spots == old(spots)[i := Spot(place, key)]
    {
      ghost var spots' := spots[i := Spot(place, key)];
      HoldingRotates(sch, ne, idle, spots, Sch, Ne, Idle);
      match place {
      case Sch => {
        Enter(sch, ne, idle, key, i, spots, Sch, Ne, Idle, lo);
      }
      case Ne => {
        Enter(ne, idle, sch, key, i, spots, Ne, Idle, Sch, lo);
        HoldingRotates(ne, idle, sch, spots', Ne, Idle, Sch);
      }
      case Idle => {
        Enter(idle, sch, ne, key, i, spots, Idle, Sch, Ne, lo);
        HoldingRotates(idle, sch, ne, spots', Idle, Sch, Ne);
      }
      }
      Own(spots');
    }

    /** From now on the heaps hold the flows like this. */
    ghost method Own(s: seq<Spot>)
      requires sch.pos == ne.pos == idle.pos && Holding(sch, ne, idle, s, Sch, Ne, Idle)
      modifies `spots, `Repr
      ensures Valid() && spots == s && Repr == {sch, ne, idle, sch.p, ne.p, idle.p, sch.pos}
    {
      spots := s;
      Repr := {sch, ne, idle, sch.p, ne.p, idle.p, sch.pos};
    }
  }
}
