/** A QFQ group on values: a ring of 32 buckets that moves with the group's start time, and a
    bitmap of the buckets in use.

    Times are counted in slots of the group here; the start time of the group is slot `base`.
    The bitmap is a 64-bit word, bit `k` standing for the bucket `k` after the front one.
 */
module QfqModel {
  import opened Common

  const SLOTS := 32

  datatype Group = Group(base: nat, front: nat, full: seq<bool>, slots: seq<seq<nat>>)

  // ----- 64-bit words ---------------------------------------------------------------------

  /** `1 << ix` is a 32-bit `int`; widened to 64 bits, bit 31 is extended to all bits above. */
  function SetBit(w: seq<bool>, ix: nat): seq<bool>
    requires |w| == 64 && ix < 32
  {
    seq(64, k requires 0 <= k < 64 => w[k] || k == ix || (ix == 31 && k > 31))
  }

  function ClearBit0(w: seq<bool>): seq<bool>
    requires |w| == 64
  {
    w[0 := false]
  }

  function ShiftRight(w: seq<bool>, i: nat): seq<bool>
    requires |w| == 64
  {
    seq(64, k requires 0 <= k < 64 => k + i < 64 && w[k + i])
  }

  function ShiftLeft(w: seq<bool>, i: nat): seq<bool>
    requires |w| == 64
  {
    seq(64, k requires 0 <= k < 64 => k >= i && w[k - i])
  }

  /** Bit `i` is the lowest one set among the low 32; 32 if there is none. */
  predicate IsFirst(w: seq<bool>, i: nat)
    requires |w| == 64
  {
    i <= 32 && (i < 32 ==> w[i]) && forall j :: 0 <= j < i ==> !w[j]
  }

  // ----- the buckets in order ----------------------------------------------------------------

  ghost predicate Shaped(g: Group) {
    g.front < SLOTS && |g.full| == 64 && |g.slots| == SLOTS
  }

  /** The bucket `k` after the front. */
  function At(front: nat, k: nat): nat { (front + k) % SLOTS }

  /** `row` is the buckets from the front on. */
  ghost predicate IsRow(slots: seq<seq<nat>>, front: nat, row: seq<seq<nat>>) {
    |row| == |slots| == SLOTS && forall k: nat :: k < SLOTS ==> row[k] == slots[At(front, k)]
  }

  lemma AtDistinct(front: nat, j: nat, k: nat)
    requires front < SLOTS && j < SLOTS && k < SLOTS && j != k
    ensures At(front, j) != At(front, k)
  {}

  lemma RowPut(slots: seq<seq<nat>>, front: nat, row: seq<seq<nat>>, k: nat, s: seq<nat>)
    requires IsRow(slots, front, row) && front < SLOTS && k < SLOTS
    ensures IsRow(slots[At(front, k) := s], front, row[k := s])
  {
    forall j: nat | j < SLOTS && j != k ensures At(front, j) != At(front, k) {
      AtDistinct(front, j, k);
    }
  }

  function Wrapped(k: nat): nat { if k < SLOTS then k else k - SLOTS }

  lemma AtAdvanced(front: nat, i: nat, k: nat)
    requires front < SLOTS && i < SLOTS && k < SLOTS
    ensures At((front + i) % SLOTS, k) == At(front, Wrapped(k + i))
  {}

  lemma RowAdvanced(slots: seq<seq<nat>>, front: nat, row: seq<seq<nat>>, i: nat, front': nat, row': seq<seq<nat>>)
    requires IsRow(slots, front, row) && front < SLOTS && i < SLOTS
    requires front' == (front + i) % SLOTS && row' == row[i..] + row[..i]
    ensures IsRow(slots, front', row')
  {
    forall k: nat | k < SLOTS ensures row'[k] == slots[At(front', k)] {
      AtAdvanced(front, i, k);
      assert row'[k] == row[Wrapped(k + i)];
    }
  }

  /** Moving back by `i` is moving on by all buckets but `i`. */
  lemma RowRetreated(slots: seq<seq<nat>>, front: nat, row: seq<seq<nat>>, i: nat, front': nat, row': seq<seq<nat>>)
    requires IsRow(slots, front, row) && front < SLOTS && 0 < i < SLOTS
    requires front' == (front - i) % SLOTS && row' == row[SLOTS - i..] + row[..SLOTS - i]
    ensures IsRow(slots, front', row')
  {
    assert (front - i) % SLOTS == (front + (SLOTS - i)) % SLOTS;
    RowAdvanced(slots, front, row, SLOTS - i, front', row');
  }

  lemma RowFront(slots: seq<seq<nat>>, front: nat, row: seq<seq<nat>>)
    requires IsRow(slots, front, row) && front < SLOTS
    ensures row[0] == slots[front] && At(front, 0) == front
  {}

  // ----- the buckets represent a map from classes to slots ------------------------------------

  /** The bitmap tells exactly which buckets are in use. */
  ghost predicate BitsExact(full: seq<bool>, row: seq<seq<nat>>) {
    && |full| == 64 && |row| == SLOTS
    && (forall k :: 0 <= k < 64 ==> (full[k] <==> k < SLOTS && row[k] != []))
  }

  /** Every class of the bucket belongs to `slot`, and is there once. */
  ghost predicate BucketOk(s: seq<nat>, slot: nat, held: map<nat, nat>) {
    && (forall a :: 0 <= a < |s| ==> s[a] in held && held[s[a]] == slot)
    && NoRepeats(s)
  }

  /** The slots held lie within the 32 slots from `base`. */
  ghost predicate WithinOf(held: map<nat, nat>, base: nat) {
    forall c :: c in held ==> base <= held[c] < base + SLOTS
  }

  /** Class `c` is in bucket `held[c] - base`, once, and in no other. */
  ghost predicate Placed(row: seq<seq<nat>>, base: nat, held: map<nat, nat>) {
    && |row| == SLOTS && WithinOf(held, base)
    && (forall c :: c in held ==> c in row[held[c] - base])
    && (forall k: nat :: k < SLOTS ==> BucketOk(row[k], base + k, held))
  }

  ghost predicate RowHolds(full: seq<bool>, row: seq<seq<nat>>, base: nat, held: map<nat, nat>) {
    Unit(BitsExact(full, row) && Placed(row, base, held))
  }

  /** The group represents `held`; `row` is its buckets in order. */
  ghost predicate Holds(g: Group, row: seq<seq<nat>>, held: map<nat, nat>) {
    Shaped(g) && IsRow(g.slots, g.front, row) && RowHolds(g.full, row, g.base, held)
  }

  /** In some order of its buckets it does. */
  ghost predicate IsRight(g: Group, held: map<nat, nat>) { exists row: seq<seq<nat>> :: Holds(g, row, held) }

  lemma HeadOf(s: seq<nat>)
    ensures s != [] ==> s[0] in s
  {}

  // ----- insert -----------------------------------------------------------------------------------

  function Insert(g: Group, c: nat, a: nat): Group
    requires Shaped(g) && g.base <= a < g.base + SLOTS
  {
    var i := At(g.front, a - g.base);
    g.(slots := g.slots[i := [c] + g.slots[i]], full := SetBit(g.full, a - g.base))
  }

  /** The bitmap stays exact if and only if the class goes to one of the first 31 buckets. */
  lemma SetBitExact(full: seq<bool>, row: seq<seq<nat>>, c: nat, k: nat)
    requires BitsExact(full, row) && k < SLOTS
    ensures BitsExact(SetBit(full, k), row[k := [c] + row[k]]) <==> k <= 30
  {
    if k == 31 {
      assert SetBit(full, k)[32];
    }
  }

  lemma InsertExact(g: Group, row: seq<seq<nat>>, held: map<nat, nat>, c: nat, a: nat)
    requires Holds(g, row, held) && g.base <= a < g.base + SLOTS
    ensures var k := a - g.base;
            && IsRow(Insert(g, c, a).slots, g.front, row[k := [c] + row[k]])
            && (BitsExact(Insert(g, c, a).full, row[k := [c] + row[k]]) <==> a <= g.base + 30)
  {
    var k := a - g.base;
    RowPut(g.slots, g.front, row, k, [c] + row[k]);
    SetBitExact(g.full, row, c, k);
  }

  lemma InsertPlaced(row: seq<seq<nat>>, base: nat, held: map<nat, nat>, c: nat, k: nat)
    requires Placed(row, base, held) && c !in held && k < SLOTS
    ensures Placed(row[k := [c] + row[k]], base, held[c := base + k])
  {
    var row', held' := row[k := [c] + row[k]], held[c := base + k];
    forall j: nat | j < SLOTS ensures BucketOk(row'[j], base + j, held') {
      assert BucketOk(row[j], base + j, held);
    }
  }

  lemma InsertHolds(g: Group, row: seq<seq<nat>>, held: map<nat, nat>, c: nat, a: nat,
                    g': Group, row': seq<seq<nat>>, held': map<nat, nat>)
    requires Holds(g, row, held) && c !in held && g.base <= a <= g.base + 30
    requires var k := a - g.base; g' == Insert(g, c, a) && row' == row[k := [c] + row[k]] && held' == held[c := a]
    ensures Holds(g', row', held')
  {
    var k := a - g.base;
    InsertIsRow(g.slots, g.front, row, k, c, g'.slots, row');
    InsertRowHolds(g.full, row, g.base, held, c, k, g'.full, row', g'.base, held');
  }

  lemma InsertIsRow(slots: seq<seq<nat>>, front: nat, row: seq<seq<nat>>, k: nat, c: nat, slots': seq<seq<nat>>,
      row': seq<seq<nat>>)
    requires IsRow(slots, front, row) && front < SLOTS && k < SLOTS
    requires slots' == slots[At(front, k) := [c] + slots[At(front, k)]] && row' == row[k := [c] + row[k]]
    ensures IsRow(slots', front, row')
  {
    RowPut(slots, front, row, k, [c] + row[k]);
  }

  lemma InsertRowHolds(full: seq<bool>, row: seq<seq<nat>>, base: nat, held: map<nat, nat>, c: nat, k: nat,
                       full': seq<bool>, row': seq<seq<nat>>, base': nat, held': map<nat, nat>)
    requires RowHolds(full, row, base, held) && c !in held && k <= 30 && |full| == 64 && |row| == SLOTS
    requires full' == SetBit(full, k) && row' == row[k := [c] + row[k]] && base' == base && held' == held[c := base + k]
    ensures RowHolds(full', row', base', held')
  {
    SetBitExact(full, row, c, k);
    InsertPlaced(row, base, held, c, k);
  }

  // ----- insert, wherever the slot is -----------------------------------------------------------

  /** Beyond the buckets the class still goes to bucket `slot % 32`, and the shift of a 32-bit
      constant by 32 or more is undefined: `odd` is whatever becomes of the bitmap. */
  function InsertAny(g: Group, c: nat, a: nat, odd: seq<bool>): Group
    requires Shaped(g) && g.base <= a && |odd| == 64
  {
    var i := At(g.front, a - g.base);
    g.(slots := g.slots[i := [c] + g.slots[i]], full := if a < g.base + SLOTS then SetBit(g.full, a - g.base) else odd)
  }

  lemma InsertAnyShaped(g: Group, c: nat, a: nat, odd: seq<bool>)
    requires Shaped(g) && g.base <= a && |odd| == 64
    ensures Shaped(InsertAny(g, c, a, odd)) && InsertAny(g, c, a, odd).base == g.base
    ensures a < g.base + SLOTS ==> InsertAny(g, c, a, odd) == Insert(g, c, a)
    ensures a == g.base || g.slots[g.front] != [] ==> InsertAny(g, c, a, odd).slots[g.front] != []
  {}

  lemma AtWraps(front: nat, k: nat)
    ensures At(front, k) == At(front, k % SLOTS)
  {}

  /** Such a class is filed under a slot it does not belong to, 32 or a multiple of 32 too early. */
  lemma FarInsertAliases(g: Group, row: seq<seq<nat>>, held: map<nat, nat>, c: nat, a: nat, odd: seq<bool>)
    requires Holds(g, row, held) && g.base + SLOTS <= a && |odd| == 64
    ensures var k := (a - g.base) % SLOTS;
            && IsRow(InsertAny(g, c, a, odd).slots, g.front, row[k := [c] + row[k]])
            && g.base + k < a
  {
    var k := (a - g.base) % SLOTS;
    AtWraps(g.front, a - g.base);
    RowPut(g.slots, g.front, row, k, [c] + row[k]);
  }

  lemma RowUnique(slots: seq<seq<nat>>, front: nat, row: seq<seq<nat>>, row': seq<seq<nat>>)
    requires IsRow(slots, front, row) && IsRow(slots, front, row')
    ensures row == row'
  {
    forall k: nat | k < SLOTS ensures row[k] == row'[k] {
      assert row[k] == slots[At(front, k)];
    }
  }

  /** A class out of reach of the front is not represented, whatever the buckets hold. */
  lemma OutOfReach(g: Group, row: seq<seq<nat>>, held: map<nat, nat>)
    requires !WithinOf(held, g.base)
    ensures !Holds(g, row, held)
  {}

  /** An insertion leaves a group that represents the classes if and only if the new one goes to one
      of the first 31 buckets; for slot 31, and for every slot beyond whatever the shift does, no
      reading of the buckets is right. */
  lemma InsertRightExactly(g: Group, row: seq<seq<nat>>, held: map<nat, nat>, c: nat, a: nat, odd: seq<bool>)
    requires Holds(g, row, held) && c !in held && g.base <= a && |odd| == 64
    ensures IsRight(InsertAny(g, c, a, odd), held[c := a]) <==> a <= g.base + 30
  {
    var g', held', k := InsertAny(g, c, a, odd), held[c := a], a - g.base;
    InsertAnyShaped(g, c, a, odd);
    if a <= g.base + 30 {
      InsertHolds(g, row, held, c, a, g', row[k := [c] + row[k]], held');
    } else {
      forall row' ensures !Holds(g', row', held') {
        NotRightBeyond(g, row, held, c, a, g', row', held');
      }
    }
  }

  lemma NotRightBeyond(g: Group, row: seq<seq<nat>>, held: map<nat, nat>, c: nat, a: nat,
                       g': Group, row': seq<seq<nat>>, held': map<nat, nat>)
    requires Holds(g, row, held) && g.base + 31 <= a && g'.base == g.base && held' == held[c := a]
    requires a < g.base + SLOTS ==> g' == Insert(g, c, a)
    ensures !Holds(g', row', held')
  {
    if a == g.base + 31 {
      InsertExact(g, row, held, c, a);
      if Holds(g', row', held') {
        RowUnique(g'.slots, g'.front, row', row[31 := [c] + row[31]]);
      }
    } else {
      assert held'[c] == a;
      OutOfReach(g', row', held');
    }
  }

  // ----- remove from the front bucket -----------------------------------------------------------

  function FrontRemove(g: Group): Group
    requires Shaped(g) && g.slots[g.front] != []
  {
    var rest := g.slots[g.front][1..];
    g.(slots := g.slots[g.front := rest], full := if rest == [] then ClearBit0(g.full) else g.full)
  }

  lemma RemovePlaced(row: seq<seq<nat>>, base: nat, held: map<nat, nat>)
    requires Placed(row, base, held) && row[0] != []
    ensures row[0][0] in held && held[row[0][0]] == base
    ensures Placed(row[0 := row[0][1..]], base, held - {row[0][0]})
  {
    var c := row[0][0];
    var row', held' := row[0 := row[0][1..]], held - {c};
    assert BucketOk(row[0], base + 0, held);
    forall k: nat | k < SLOTS ensures BucketOk(row'[k], base + k, held') {
      assert BucketOk(row[k], base + k, held);
    }
    forall d | d in held' ensures d in row'[held[d] - base] {
      var k := held[d] - base;
      var x :| 0 <= x < |row[k]| && row[k][x] == d;
      assert k == 0 ==> row'[0][x - 1] == d;
    }
  }

  lemma RemoveHolds(g: Group, row: seq<seq<nat>>, held: map<nat, nat>, c: nat,
                    g': Group, row': seq<seq<nat>>, held': map<nat, nat>)
    requires Holds(g, row, held) && g.slots[g.front] != [] && c == g.slots[g.front][0]
    requires g' == FrontRemove(g) && row' == row[0 := g.slots[g.front][1..]] && held' == held - {c}
    ensures c in held && held[c] == g.base && Holds(g', row', held')
  {
    RowFront(g.slots, g.front, row);
    RowPut(g.slots, g.front, row, 0, g.slots[g.front][1..]);
    RemoveRowHolds(g.full, row, g.base, held, g'.full, row', g'.base, held');
  }

  lemma RemoveRowHolds(full: seq<bool>, row: seq<seq<nat>>, base: nat, held: map<nat, nat>,
                       full': seq<bool>, row': seq<seq<nat>>, base': nat, held': map<nat, nat>)
    requires RowHolds(full, row, base, held) && |row| == SLOTS && row[0] != [] && |full| == 64
    requires full' == (if row[0][1..] == [] then ClearBit0(full) else full)
    requires row' == row[0 := row[0][1..]] && base' == base && held' == held - {row[0][0]}
    ensures row[0][0] in held && held[row[0][0]] == base && RowHolds(full', row', base', held')
  {
    RemovePlaced(row, base, held);
  }

  // ----- moving the front -----------------------------------------------------------------------

  /** The front moves on by `i` buckets. */
  function Advance(g: Group, i: nat): Group
    requires |g.full| == 64
  {
    g.(base := g.base + i, front := (g.front + i) % SLOTS, full := ShiftRight(g.full, i))
  }

  lemma AdvanceRow(full: seq<bool>, row: seq<seq<nat>>, base: nat, held: map<nat, nat>, i: nat,
                   full': seq<bool>, row': seq<seq<nat>>, base': nat)
    requires RowHolds(full, row, base, held) && i < |row| == SLOTS && |full| == 64
    requires forall k :: 0 <= k < i ==> row[k] == []
    requires full' == ShiftRight(full, i) && row' == row[i..] + row[..i] && base' == base + i
    ensures RowHolds(full', row', base', held)
  {
    forall k: nat | k < SLOTS ensures BucketOk(row'[k], base + i + k, held) {
      if k + i < SLOTS {
        assert BucketOk(row[k + i], base + (k + i), held);
      }
    }
    forall c | c in held ensures base + i <= held[c] && c in row'[held[c] - base - i] {
      assert c in row[held[c] - base];
    }
  }

  predicate NoBits(w: seq<bool>) { forall k :: 0 <= k < |w| ==> !w[k] }

  /** Finding the first bucket in use: there is none exactly if nothing is held. */
  lemma ScanEmpty(full: seq<bool>, row: seq<seq<nat>>, base: nat, held: map<nat, nat>, i: nat)
    requires RowHolds(full, row, base, held) && |full| == 64 && IsFirst(full, i)
    ensures i == 32 <==> held == map[]
    ensures i == 32 <==> NoBits(full)
    ensures |row| == SLOTS && (i < 32 ==> row[i] != [] && forall k :: 0 <= k < i ==> row[k] == [])
  {
    if i < 32 {
      assert BucketOk(row[i], base + i, held);
      HeadOf(row[i]);
    } else {
      assert NoBits(full);
      NothingHeld(full, row, base, held);
    }
  }

  lemma NothingHeld(full: seq<bool>, row: seq<seq<nat>>, base: nat, held: map<nat, nat>)
    requires RowHolds(full, row, base, held) && NoBits(full)
    ensures held == map[]
  {
    assert forall k :: 0 <= k < SLOTS ==> !full[k] && row[k] == [];
    assert forall c :: c !in held;
  }

  /** Otherwise the front moves to it. */
  lemma ScanMoves(g: Group, row: seq<seq<nat>>, held: map<nat, nat>, i: nat, g': Group, row': seq<seq<nat>>)
    requires Holds(g, row, held) && i < 32 && IsFirst(g.full, i)
    requires g' == Advance(g, i) && row' == row[i..] + row[..i]
    ensures Holds(g', row', held) && g'.slots[g'.front] != []
  {
    RowMoves(g, row, i, g', row');
    ScanEmpty(g.full, row, g.base, held, i);
    AdvanceRow(g.full, row, g.base, held, i, g'.full, row', g'.base);
  }

  lemma RowMoves(g: Group, row: seq<seq<nat>>, i: nat, g': Group, row': seq<seq<nat>>)
    requires Shaped(g) && IsRow(g.slots, g.front, row) && i < SLOTS && g' == Advance(g, i)
             && row' == row[i..] + row[..i]
    ensures Shaped(g') && IsRow(g'.slots, g'.front, row') && g'.slots[g'.front] == row[i]
  {
    RowAdvanced(g.slots, g.front, row, i, g'.front, row');
    RowFront(g'.slots, g'.front, row');
  }

  /** The class at the front has the least slot of all. */
  lemma FrontIsLeast(g: Group, row: seq<seq<nat>>, held: map<nat, nat>)
    requires Holds(g, row, held) && g.slots[g.front] != []
    ensures g.slots[g.front][0] in held
    ensures forall d :: d in held ==> held[g.slots[g.front][0]] <= held[d]
  {
    RowFront(g.slots, g.front, row);
    assert BucketOk(row[0], g.base + 0, held);
  }

  /** The front moves back by `i` buckets. */
  function Retreat(g: Group, i: nat): Group
    requires |g.full| == 64 && i <= g.base
  {
    g.(base := g.base - i, front := (g.front - i) % SLOTS, full := ShiftLeft(g.full, i))
  }

  /** The same with a word too short for the shift: `odd` is whatever becomes of the bitmap. */
  function RetreatAny(g: Group, i: nat, odd: seq<bool>): Group
    requires |g.full| == 64 && i <= g.base && |odd| == 64
  {
    Retreat(g, i).(full := if i < 64 then ShiftLeft(g.full, i) else odd)
  }

  lemma LastEmpty(row: seq<seq<nat>>, base: nat, held: map<nat, nat>, i: nat, k: nat)
    requires Placed(row, base, held) && i <= base && i < SLOTS && WithinOf(held, base - i)
    requires SLOTS - i <= k < SLOTS
    ensures row[k] == []
  {
    assert BucketOk(row[k], base + k, held);
    HeadOf(row[k]);
  }

  lemma RetreatRow(full: seq<bool>, row: seq<seq<nat>>, base: nat, held: map<nat, nat>, i: nat,
                   full': seq<bool>, row': seq<seq<nat>>, base': nat)
    requires RowHolds(full, row, base, held) && |full| == 64 && |row| == SLOTS
    requires i <= base && i < SLOTS && WithinOf(held, base - i)
    requires full' == ShiftLeft(full, i) && row' == row[SLOTS - i..] + row[..SLOTS - i] && base' == base - i
    ensures RowHolds(full', row', base', held)
  {
    forall k: nat | SLOTS - i <= k < SLOTS ensures row[k] == [] {
      LastEmpty(row, base, held, i, k);
    }
    forall k: nat | k < SLOTS ensures BucketOk(row'[k], base - i + k, held) {
      if k >= i {
        assert BucketOk(row[k - i], base + (k - i), held);
      }
    }
    forall c | c in held ensures c in row'[held[c] - (base - i)] {
      assert c in row[held[c] - base];
    }
  }

  /** Moving the front back keeps the representation as long as all slots stay in reach of it. */
  lemma RetreatHolds(g: Group, row: seq<seq<nat>>, held: map<nat, nat>, i: nat, g': Group, row': seq<seq<nat>>)
    requires Holds(g, row, held) && 0 < i <= g.base && i < SLOTS && WithinOf(held, g.base - i)
    requires g' == Retreat(g, i) && row' == row[SLOTS - i..] + row[..SLOTS - i]
    ensures Holds(g', row', held)
  {
    RetreatRow(g.full, row, g.base, held, i, g'.full, row', g'.base);
    RowRetreated(g.slots, g.front, row, i, g'.front, row');
  }

  /** An empty group may start anywhere. */
  lemma RestartHolds(g: Group, row: seq<seq<nat>>, base: nat)
    requires Holds(g, row, map[])
    ensures Holds(g.(base := base), row, map[])
  {
    forall k: nat | k < SLOTS ensures BucketOk(row[k], base + k, map[]) {
      assert BucketOk(row[k], g.base + k, map[]);
    }
  }
}
