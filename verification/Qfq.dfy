/** A QFQ group in place: bucket lists, the front index, the bitmap and the group's start time. */
module Qfq {
  import opened Common
  import opened QfqModel

  /** A time rounded down to its slot, for slots of `sigma` units. */
  function RoundDown(t: nat, sigma: nat): nat
    requires sigma > 0
  {
    t - t % sigma
  }

  lemma Rounding(t: nat, sigma: nat)
    requires sigma > 0
    ensures RoundDown(t, sigma) == sigma * (t / sigma)
  {}

  /** The distance of two rounded times in slots. */
  lemma SlotDistance(a: nat, b: nat, sigma: nat)
    requires sigma > 0 && b <= a
    ensures sigma * a >= sigma * b && (sigma * a - sigma * b) / sigma == a - b
  {
    var d := a - b;
    assert sigma * a - sigma * b == d * sigma + 0;
    QuotientIs(d * sigma, sigma, d, 0);
  }

  /** Comparing a slot boundary with a time is comparing slots. */
  lemma BeforeBoundary(t: nat, b: nat, sigma: nat)
    requires sigma > 0
    ensures sigma * b > t <==> b > t / sigma
    ensures sigma * b == RoundDown(t, sigma) <==> b == t / sigma
  {
    var q := t / sigma;
    assert t == sigma * q + t % sigma;
    assert sigma * (b - q) == sigma * b - sigma * q;
    MultipleBound(sigma, b - q);
    MultipleBound(sigma, b - q - 1);
    assert sigma * (b - q - 1) == sigma * b - sigma * q - sigma;
  }

  /** The start times of the classes held are in the slots they are held for. */
  ghost predicate Starts(start: seq<nat>, held: map<nat, nat>, sigma: nat) {
    sigma > 0 && forall c :: c in held ==> c < |start| && start[c] / sigma == held[c]
  }

  function Least(a: nat, b: nat): nat { if a < b then a else b }

  /** The group represents `held`, as one sealed fact. */
  ghost predicate Represents(g: Group, row: seq<seq<nat>>, held: map<nat, nat>) {
    forall k: nat :: Unseal(k) ==> Holds(g, row, held)
  }

  function NoneSet(): seq<bool> { seq(64, _ => false) }

  function NoneHeld(): seq<seq<nat>> { seq(SLOTS, _ => []) }

  lemma EmptyHolds()
    ensures Represents(EmptyGroup(), NoneHeld(), map[])
  {}

  function EmptyGroup(): Group { Group(0, 0, NoneSet(), NoneHeld()) }

  /** Removing the only class of a group empties it. */
  lemma ServedAlone(c: nat)
    ensures Insert(EmptyGroup(), c, 0).slots[0] == [c] && FrontRemove(Insert(EmptyGroup(), c, 0)) == EmptyGroup()
  {
    var g := Insert(EmptyGroup(), c, 0);
    assert [c] + NoneHeld()[0] == [c];
    assert g.slots[0] == [c];
    assert FrontRemove(g).slots == NoneHeld() && FrontRemove(g).full == NoneSet();
  }

  /** What goes wrong 31 slots ahead.  A class is enqueued and served, and its new start puts it
      there; it is found, served and removed again, and the bitmap still shows buckets in use
      although all are empty. */
  lemma LateSlotLeavesBits(c: nat)
    ensures Insert(EmptyGroup(), c, 0).slots[0] != []
    ensures var g := Insert(FrontRemove(Insert(EmptyGroup(), c, 0)), c, 31);
            && IsFirst(g.full, 31) && Advance(g, 31).slots[Advance(g, 31).front] == [c]
            && (var e := FrontRemove(Advance(g, 31)); e.full[1] && e.slots == NoneHeld())
  {
    ServedAlone(c);
    var g := Insert(EmptyGroup(), c, 31);
    assert g.full[31] && g.full[32] && forall k :: 0 <= k < 31 ==> !g.full[k];
    assert [c] + NoneHeld()[31] == [c];
    assert g.slots == NoneHeld()[31 := [c]];
  }

  /** The new values after each operation on the buckets. */
  lemma Inserted(g: Group, row: seq<seq<nat>>, held: map<nat, nat>, c: nat, a: nat, odd: seq<bool>)
      returns (row': seq<seq<nat>>)
    requires Represents(g, row, held) && Shaped(g) && c !in held && g.base <= a && |odd| == 64
    ensures Represents(InsertAny(g, c, a, odd), row', held[c := a]) <==> a <= g.base + 30
  {
    assert Unseal(0);
    InsertRightExactly(g, row, held, c, a, odd);
    row' := row;
    if a <= g.base + 30 {
      row' :| Holds(InsertAny(g, c, a, odd), row', held[c := a]);
    }
  }

  lemma ShapeOf(g: Group, row: seq<seq<nat>>, held: map<nat, nat>)
    requires Represents(g, row, held)
    ensures Shaped(g) && |row| == SLOTS
  {
    assert Unseal(0);
  }

  lemma NotInReach(g: Group, row: seq<seq<nat>>, held: map<nat, nat>)
    requires !WithinOf(held, g.base)
    ensures !Represents(g, row, held)
  {
    assert Unseal(0);
    OutOfReach(g, row, held);
  }

  lemma Removed(g: Group, row: seq<seq<nat>>, held: map<nat, nat>)
      returns (g': Group, row': seq<seq<nat>>, held': map<nat, nat>)
    requires Represents(g, row, held) && g.front < |g.slots| && g.slots[g.front] != []
    ensures Shaped(g) && g' == FrontRemove(g) && g.slots[g.front][0] in held && held' == held - {g.slots[g.front][0]}
    ensures Represents(g', row', held')
  {
    assert Unseal(0);
    g', row', held' := FrontRemove(g), row[0 := g.slots[g.front][1..]], held - {g.slots[g.front][0]};
    RemoveHolds(g, row, held, g.slots[g.front][0], g', row', held');
  }

  lemma EmptyOrNot(g: Group, row: seq<seq<nat>>, held: map<nat, nat>)
    requires Represents(g, row, held)
    ensures NoBits(g.full) <==> held == map[]
  {
    assert Unseal(0);
    if held == map[] {
      forall k | 0 <= k < |g.full| ensures !g.full[k] {
        if k < SLOTS {
          assert BucketOk(row[k], g.base + k, held);
          HeadOf(row[k]);
        }
      }
    } else if NoBits(g.full) {
      NothingHeld(g.full, row, g.base, held);
    }
  }

  lemma FirstInUse(g: Group, row: seq<seq<nat>>, held: map<nat, nat>, i: nat)
    requires Represents(g, row, held) && |g.full| == 64 && IsFirst(g.full, i)
    ensures i == 32 <==> held == map[]
  {
    assert Unseal(0);
    ScanEmpty(g.full, row, g.base, held, i);
  }

  /** The group with its front `i` buckets on. */
  function ToFront(g: Group, i: nat): Group
    requires |g.full| == 64
  {
    if i > 0 then Advance(g, i) else g
  }

  lemma Scanned(g: Group, row: seq<seq<nat>>, held: map<nat, nat>, i: nat, g': Group) returns (row': seq<seq<nat>>)
    requires Represents(g, row, held) && |g.full| == 64 && i < 32 && IsFirst(g.full, i) && g' == ToFront(g, i)
    ensures Represents(g', row', held) && AtFront(g', held)
  {
    assert Unseal(0);
    ScanEmpty(g.full, row, g.base, held, i);
    row' := if i > 0 then row[i..] + row[..i] else row;
    if i > 0 {
      ScanMoves(g, row, held, i, g', row');
    } else {
      RowFront(g.slots, g.front, row);
    }
    FrontClass(g', row', held);
  }

  lemma Rotated(g: Group, row: seq<seq<nat>>, held: map<nat, nat>, i: nat, odd: seq<bool>, g': Group)
      returns (row': seq<seq<nat>>)
    requires Represents(g, row, held) && |g.full| == 64 && held != map[] && 0 < i <= g.base && |odd| == 64
    requires g' == RetreatAny(g, i, odd)
    ensures Represents(g', row', held) <==> WithinOf(held, g.base - i)
  {
    row' := row;
    if WithinOf(held, g.base - i) {
      assert Unseal(0);
      var c :| c in held;
      row' := row[SLOTS - i..] + row[..SLOTS - i];
      RetreatHolds(g, row, held, i, g', row');
    } else {
      NotInReach(g', row', held);
    }
  }

  lemma Restarted(g: Group, row: seq<seq<nat>>, base: nat)
    requires Represents(g, row, map[])
    ensures Represents(g.(base := base), row, map[])
  {
    assert Unseal(0);
    RestartHolds(g, row, base);
  }

  /** The front bucket holds a class, and its first one has the least slot of all, the group's. */
  ghost predicate AtFront(g: Group, held: map<nat, nat>) {
    && g.front < |g.slots| && g.slots[g.front] != []
    && g.slots[g.front][0] in held && held[g.slots[g.front][0]] == g.base
    && (forall d :: d in held ==> g.base <= held[d])
  }

  lemma FrontClass(g: Group, row: seq<seq<nat>>, held: map<nat, nat>)
    requires Represents(g, row, held) && g.front < |g.slots| && g.slots[g.front] != []
    ensures AtFront(g, held)
  {
    assert Unseal(0);
    FrontIsLeast(g, row, held);
    RowFront(g.slots, g.front, row);
    assert BucketOk(row[0], g.base + 0, held);
  }

  lemma HeldAtFront(g: Group, row: seq<seq<nat>>, held: map<nat, nat>)
    requires Represents(g, row, held) && g.front < |g.slots| && (held != map[] ==> g.slots[g.front] != [])
    ensures held != map[] ==> exists d :: d in held && held[d] == g.base
  {
    if held != map[] {
      FrontClass(g, row, held);
    }
  }

  /** When buckets and bitmap stay right as a class with start slot `a` is added. */
  ghost predicate InReach(held: map<nat, nat>, base: nat, a: nat) {
    held == map[] || if a < base then WithinOf(held, a) else a <= base + 30
  }

  lemma StillOutOfReach(held: map<nat, nat>, base: nat, c: nat, a: nat)
    requires c !in held && !WithinOf(held, base)
    ensures !WithinOf(held[c := a], base)
  {
    var d :| d in held && !(base <= held[d] < base + SLOTS);
    assert held[c := a][d] == held[d];
  }

  lemma PutBack(held: map<nat, nat>, c: nat, a: nat)
    ensures (held - {c})[c := a] == held[c := a] && c !in held - {c}
  {}

  lemma StartSlot(start: seq<nat>, held: map<nat, nat>, sigma: nat, c: nat)
    requires Starts(start, held, sigma) && c in held
    ensures c < |start| && RoundDown(start[c], sigma) == sigma * held[c]
  {
    Rounding(start[c], sigma);
  }

  lemma StartsPut(start: seq<nat>, held: map<nat, nat>, sigma: nat, c: nat, t: nat, start': seq<nat>, 
            held': map<nat, nat>)
    requires Starts(start, held, sigma) && c < |start| && start' == start[c := t] && held' == held[c := t / sigma]
    ensures Starts(start', held', sigma)
  {}

  class QfqGroup {
    const sigma: nat
    const slots: array<seq<nat>>
    const start: array<nat>
    var s: nat
    var f: nat
    var front: nat
    var full: seq<bool>
    ghost var g: Group
    ghost var row: seq<seq<nat>>
    ghost var held: map<nat, nat>

    /** The buckets in memory are those of `g`. */
    ghost predicate InMemory()
      reads `front, `full, `g, slots
    {
      slots.Length == SLOTS && front == g.front < SLOTS && full == g.full && |full| == 64 && slots[..] == g.slots
    }

    /** And `g` represents `held`. */
    ghost predicate Buckets()
      reads `front, `full, `g, `row, `held, slots
    {
      InMemory() && Represents(g, row, held)
    }

    /** From now on the memory stands for this group. */
    ghost method Denote(g': Group, row': seq<seq<nat>>)
      requires slots.Length == SLOTS && front == g'.front < SLOTS && full == g'.full && |full| == 64
      requires slots[..] == g'.slots
      modifies `g, `row
      ensures InMemory() && g == g' && row == row' && (Buckets() <==> Represents(g', row', held))
    {
      g, row := g', row';
    }

    /** The times agree with the slots; a group in use ends two slots after its start. */
    ghost predicate Times()
      reads `g, `held, `s, `f, start
    {
      Starts(start[..], held, sigma) && s == sigma * g.base && (held != map[] ==> f == s + 2 * sigma)
    }

    ghost predicate Valid()
      reads this, slots, start
    {
      Buckets() && Times() && (held != map[] ==> slots[front] != [])
    }

    constructor (sigma: nat, classes: nat)
      requires sigma > 0
      ensures Valid() && held == map[] && this.sigma == sigma && start.Length == classes && fresh(slots) && fresh(start)
    {
      this.sigma := sigma;
      slots := new seq<nat>[SLOTS](_ => []);
      start := new nat[classes](_ => 0);
      s, f, front := 0, 0, 0;
      full := NoneSet();
      g, row, held := EmptyGroup(), NoneHeld(), map[];
      new;
      EmptyHolds();
      assert slots[..] == g.slots;
    }

    /** The distance of a rounded time from the group's start time, in slots. */
    method Distance(from: nat, to: nat, ghost a: nat, ghost b: nat) returns (slot: nat)
      requires sigma > 0 && from == sigma * a && to == sigma * b && a <= b
      ensures slot == b - a
    {
      SlotDistance(b, a, sigma);
      slot := (to - from) / sigma;
    }

    /** Put a class in the bucket of its rounded start time, however far that is.  Buckets and bitmap
        stay right if and only if it is one of the first 31. */
    method SlotInsert(c: nat, roundedS: nat, odd: seq<bool>, ghost a: nat)
      requires InMemory() && c !in held && g.base <= a && |odd| == 64
      requires sigma > 0 && s == sigma * g.base && roundedS == sigma * a
      modifies slots, `full, `g, `row, `held
      ensures InMemory() && g == InsertAny(old(g), c, a, odd) && held == old(held)[c := a]
      ensures old(Buckets()) ==> (Buckets() <==> a <= g.base + 30)
      ensures old(!WithinOf(held, g.base)) ==> !Buckets()
      ensures a == g.base || old(slots[front]) != [] ==> slots[front] != []
    {
      var slot := Distance(s, roundedS, g.base, a);
      PushFront(c, slot, odd);
    }

    method PushFront(c: nat, slot: nat, odd: seq<bool>)
      requires InMemory() && c !in held && |odd| == 64
      modifies slots, `full, `g, `row, `held
      ensures InMemory() && g == InsertAny(old(g), c, old(g).base + slot, odd) && held == old(held)[c := g.base + slot]
      ensures old(Buckets()) ==> (Buckets() <==> slot <= 30)
      ensures old(!WithinOf(held, g.base)) ==> !Buckets()
      ensures slot == 0 || old(slots[front]) != [] ==> slots[front] != []
    {
      ghost var a, g', held', row' := g.base + slot, InsertAny(g, c, g.base + slot, odd), held[c := g.base + slot], row;
      InsertAnyShaped(g, c, a, odd);
      if Represents(g, row, held) {
        row' := Inserted(g, row, held, c, a, odd);
      }
      if !WithinOf(held, g.base) {
        StillOutOfReach(held, g.base, c, a);
        NotInReach(g', row', held');
      }
      var i := (front + slot) % SLOTS;
      slots[i] := [c] + slots[i];
      assert slots[..] == g'.slots;
      full := if slot < SLOTS then SetBit(full, slot) else odd;
      g, row, held := g', row', held';
    }

    /** Take the first class out of the front bucket. */
    method FrontSlotRemove()
      requires Buckets() && slots[front] != []
      modifies slots, `full, `g, `row, `held
      ensures Buckets() && old(slots[front][0]) in old(held) && held == old(held) - {old(slots[front][0])}
              && g.base == old(g).base
    {
      ghost var g', row', held' := Removed(g, row, held);
      slots[front] := slots[front][1..];
      if slots[front] == [] {
        full := ClearBit0(full);
      }
      g, row, held := g', row', held';
    }

    /** The number of the lowest bit set, 32 if there is none. */
    method LowestBit() returns (i: nat)
      requires |full| == 64
      ensures IsFirst(full, i)
    {
      i := 0;
      while i < 32 && !full[i]
        invariant i <= 32 && forall j :: 0 <= j < i ==> !full[j]
      {
        i := i + 1;
      }
    }

    /** Move the front to the first bucket in use and return its first class. */
    method SlotScan() returns (found: bool, c: nat)
      requires Buckets()
      modifies `front, `full, `g, `row
      ensures Buckets() && (found <==> held != map[]) && (!found ==> g == old(g))
      ensures found ==> slots[front] != [] && c == slots[front][0] && c in held && held[c] == g.base
      ensures found ==> forall d :: d in held ==> held[c] <= held[d]
    {
      EmptyOrNot(g, row, held);
      if NoBits(full) {
        return false, 0;
      }
      var i := LowestBit();
      FirstInUse(g, row, held, i);
      ToFirst(i);
      found, c := true, slots[front][0];
    }

    /** Make the first bucket in use the front one. */
    method ToFirst(i: nat)
      requires Buckets() && i < 32 && IsFirst(full, i)
      modifies `front, `full, `g, `row
      ensures Buckets() && AtFront(g, held)
    {
      ghost var g' := ToFront(g, i);
      ghost var row' := Scanned(g, row, held, i, g');
      MoveFront(i, g');
      Denote(g', row');
    }

    method MoveFront(i: nat, ghost g': Group)
      requires front == g.front < SLOTS && full == g.full && |full| == 64 && g' == ToFront(g, i)
      modifies `front, `full
      ensures front == g'.front < SLOTS && full == g'.full && |full| == 64 && g'.slots == g.slots
    {
      if i > 0 {
        front := (front + i) % SLOTS;
        full := ShiftRight(full, i);
      }
    }

    /** Make room for an earlier start time, however much.  Buckets and bitmap stay right if and only
        if all classes stay in reach. */
    method SlotRotate(roundedS: nat, odd: seq<bool>, ghost a: nat)
      requires Buckets() && held != map[] && a < g.base && |odd| == 64
      requires sigma > 0 && s == sigma * g.base && roundedS == sigma * a
      modifies `front, `full, `g, `row
      ensures InMemory() && g == RetreatAny(old(g), old(g).base - a, odd)
      ensures Buckets() <==> WithinOf(held, a)
    {
      var i := Distance(roundedS, s, a, g.base);
      ghost var g' := RetreatAny(g, i, odd);
      ghost var row' := Rotated(g, row, held, i, odd, g');
      MoveBack(i, odd, g');
      Denote(g', row');
    }

    method MoveBack(i: nat, odd: seq<bool>, ghost g': Group)
      requires front == g.front && full == g.full && |full| == |odd| == 64 && i <= g.base && g' == RetreatAny(g, i, odd)
      modifies `front, `full
      ensures front == g'.front < SLOTS && full == g'.full && |full| == 64 && g'.slots == g.slots
      ensures g'.base == g.base - i
    {
      full := if i < 64 then ShiftLeft(full, i) else odd;
      front := (front - i) % SLOTS;
    }

    /** Set the group's start time so that it is no later than `t`. */
    method MakeRoom(t: nat, roundedS: nat, odd: seq<bool>, ghost a: nat)
      requires Buckets() && sigma > 0 && s == sigma * g.base && roundedS == sigma * a && a == t / sigma && |odd| == 64
      requires held != map[] ==> slots[front] != [] && f == s + 2 * sigma
      modifies `s, `f, `front, `full, `g, `row
      ensures InMemory() && s == sigma * g.base && f == s + 2 * sigma
      ensures g.base == if held == map[] then a else Least(old(g).base, a)
      ensures if held == map[] || old(g).base <= a then Buckets() else Buckets() <==> WithinOf(held, g.base)
      ensures g.base == a || slots[front] != []
    {
      EmptyOrNot(g, row, held);
      BeforeBoundary(t, g.base, sigma);
      if !NoBits(full) {
        if s <= t {
          return;
        }
        SlotRotate(roundedS, odd, a);
      } else {
        Restarted(g, row, a);
        g := g.(base := a);
      }
      s := roundedS;
      f := roundedS + 2 * sigma;
    }

    /** A class gets its first packet: it goes to the bucket of its start time, and the group's
        start time moves back to it if it was later.  This is done for any start time; buckets and
        bitmap are right afterwards if and only if the start is in reach.  `odd` is what shifts by
        more than a word's length yield. */
    method Enqueue(c: nat, t: nat, odd: seq<bool>)
      requires Valid() && c !in held && c < start.Length && |odd| == 64
      modifies this, slots, start
      ensures Times() && held == old(held)[c := t / sigma]
      ensures g.base == if old(held) == map[] then t / sigma else Least(old(g).base, t / sigma)
      ensures Valid() <==> InReach(old(held), old(g).base, t / sigma)
    {
      var roundedS := RoundDown(t, sigma);
      ghost var a, held0, st := t / sigma, held, start[..];
      Rounding(t, sigma);
      start[c] := t;
      assert start[..] == st[c := t];
      MakeRoom(t, roundedS, odd, a);
      SlotInsert(c, roundedS, odd, a);
      StartsPut(st, held0, sigma, c, t, start[..], held);
    }

    /** Serve the class at the front, which has the least rounded start time of all.  `next` is its
        new start time if it has more packets. */
    method Serve(next: Option<nat>, odd: seq<bool>) returns (c: nat)
      requires Valid() && held != map[] && |odd| == 64
      requires next.Some? ==> g.base <= next.value / sigma <= g.base + 30
      modifies this, slots, start
      ensures Valid() && c in old(held) && forall d :: d in old(held) ==> old(held)[c] <= old(held)[d]
      ensures held == if next.None? then old(held) - {c} else old(held)[c := next.value / sigma]
      ensures held != map[] ==> exists d :: d in held && held[d] == g.base
    {
      c := slots[front][0];
      FrontClass(g, row, held);
      var updated := UpdateClass(next, odd, c);
      if updated {
        UpdateGroup();
      }
      HeldAtFront(g, row, held);
    }

    /** Rebucket the class that was served; the answer says whether the group may have changed. */
    method UpdateClass(next: Option<nat>, odd: seq<bool>, c: nat) returns (updated: bool)
      requires Valid() && slots[front] != [] && c == slots[front][0] && c in held && held[c] == g.base
      requires (next.Some? ==> g.base <= next.value / sigma) && |odd| == 64
      modifies slots, start, `full, `g, `row, `held
      ensures InMemory() && Times() && g.base == old(g).base
      ensures held == if next.None? then old(held) - {c} else old(held)[c := next.value / sigma]
      ensures Buckets() <==> next.None? || next.value / sigma <= g.base + 30
      ensures !updated ==> Valid()
    {
      if next.None? {
        FrontSlotRemove();
        return true;
      }
      updated := Restamp(next.value, odd, c);
    }

    /** The class has a new start time. */
    method Restamp(t: nat, odd: seq<bool>, c: nat) returns (updated: bool)
      requires Valid() && slots[front] != [] && c == slots[front][0] && c in held && held[c] == g.base
      requires g.base <= t / sigma && |odd| == 64
      modifies slots, start, `full, `g, `row, `held
      ensures InMemory() && Times() && g.base == old(g).base && held == old(held)[c := t / sigma]
      ensures Buckets() <==> t / sigma <= g.base + 30
      ensures !updated ==> Valid()
    {
      var roundedS := RoundDown(t, sigma);
      ghost var a, st, held0 := t / sigma, start[..], held;
      Rounding(t, sigma);
      BeforeBoundary(t, g.base, sigma);
      start[c] := t;
      assert start[..] == st[c := t];
      StartsPut(st, held0, sigma, c, t, start[..], held0[c := a]);
      if roundedS == s {
        assert held == held[c := a];
        return false;
      }
      Rebucket(c, roundedS, odd, a);
      updated := true;
    }

    /** Move the first class of the front bucket to the bucket of its new start time. */
    method Rebucket(c: nat, roundedS: nat, odd: seq<bool>, ghost a: nat)
      requires Buckets() && slots[front] != [] && c == slots[front][0] && |odd| == 64
      requires sigma > 0 && s == sigma * g.base && roundedS == sigma * a && g.base <= a
      modifies slots, `full, `g, `row, `held
      ensures InMemory() && held == old(held)[c := a] && g.base == old(g).base
      ensures Buckets() <==> a <= g.base + 30
    {
      ghost var held0 := held;
      FrontSlotRemove();
      PutBack(held0, c, a);
      SlotInsert(c, roundedS, odd, a);
    }

    /** Find the new front and move the group's start time to it. */
    method UpdateGroup()
      requires Buckets() && Times()
      modifies `s, `f, `front, `full, `g, `row
      ensures Valid()
    {
      var found, c := SlotScan();
      if found {
        StartSlot(start[..], held, sigma, c);
        var roundedS := RoundDown(start[c], sigma);
        if s != roundedS {
          s := roundedS;
          f := roundedS + 2 * sigma;
        }
      }
    }
  }
}
