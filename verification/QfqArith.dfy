/** The arithmetic of QFQ: the group of a class and the groups that become eligible when
    virtual time moves.  Group `i` has slots of `2^(22+i)` time units. */
module QfqArith {
  import opened Common

  const SLOT: nat := 0x40_0000       // a slot of group 0, 2^22
  const ONE_FP: nat := 0x4000_0000   // one byte at weight one, 2^30
  const MAX_INDEX: nat := 19
  const MAX_WEIGHT: nat := 0x1_0000

  function Pow2(n: nat): (p: nat)
    ensures p > 0
  {
    if n == 0 then 1 else 2 * Pow2(n - 1)
  }

  lemma {:induction false} Pow2Monotone(a: nat, b: nat)
    requires a <= b
    ensures Pow2(a) <= Pow2(b)
    decreases b - a
  {
    if a < b {
      Pow2Monotone(a, b - 1);
    }
  }

  /** The width of slots in group `i`. */
  function Sigma(i: nat): nat { SLOT * Pow2(i) }

  // ----- quotients ------------------------------------------------------------------------------

  lemma Distribute(q: nat, b: nat, r: nat, a: nat)
    ensures (q * b + r) * a == q * (a * b) + r * a
  {
    assert q * (a * b) == (q * b) * a;
  }

  lemma DigitsBelow(r: nat, s: nat, a: nat, b: nat)
    requires r < b && s < a
    ensures r * a + s < a * b
  {
    assert (r + 1) * a <= b * a;
  }

  lemma NestedQuotient(x: nat, a: nat, b: nat)
    requires a > 0 && b > 0 && a * b > 0
    ensures (x / a) / b == x / (a * b)
  {
    var h := x / a;
    NestedDigits(x, a, b, h, x % a, h / b, h % b, a * b);
  }

  lemma NestedDigits(x: nat, a: nat, b: nat, h: nat, s: nat, q: nat, r: nat, ab: nat)
    requires a > 0 && ab == a * b > 0 && x == h * a + s && h == q * b + r && s < a && r < b
    ensures x / ab == q
  {
    Distribute(q, b, r, a);
    DigitsBelow(r, s, a, b);
    QuotientIs(x, ab, q, r * a + s);
  }

  lemma QuotientRange(x: nat, d: nat, lo: nat, hi: nat)
    requires d > 0 && lo <= x / d < hi
    ensures lo * d <= x < hi * d
  {
    Monotone(lo, x / d, d);
    Monotone(x / d + 1, hi, d);
  }

  // ----- find last set ----------------------------------------------------------------------

  /** The number of the highest bit set, counting from 1; 0 for no bit.  The argument is an `int`. */
  method Fls(word: nat) returns (bit: nat)
    requires word < WORD
    ensures word == 0 ==> bit == 0
    ensures word > 0 ==> bit > 0 && Pow2(bit - 1) <= word < Pow2(bit)
  {
    if word == 0 {
      return 0;
    }
    var mask := word;
    bit := 1;
    while mask != 1
      invariant mask >= 1 && bit >= 1 && mask == word / Pow2(bit - 1)
      decreases mask
    {
      NestedQuotient(word, Pow2(bit - 1), 2);
      mask := mask / 2;
      bit := bit + 1;
    }
    QuotientRange(word, Pow2(bit - 1), 1, 2);
  }

  // ----- the group of a class -----------------------------------------------------------------

  /** The least group whose slots hold `size`. */
  ghost predicate LeastGroup(size: nat, i: nat) {
    size <= Sigma(i) && (i > 0 ==> Sigma(i - 1) < size)
  }

  /** Group of a class: the base-2 logarithm of the time its longest packet takes, rounded up. */
  method CalcIndex(invW: nat, maxLen: nat) returns (index: nat)
    requires maxLen * invW / SLOT < WORD
    ensures LeastGroup(maxLen * invW, index)
  {
    var slotSize := maxLen * invW;
    var sizeMap := slotSize / SLOT;
    if sizeMap == 0 {
      return 0;
    }
    index := Fls(sizeMap);
    QuotientRange(slotSize, SLOT, Pow2(index - 1), Pow2(index));
    if slotSize == Sigma(index - 1) {
      index := index - 1;
    }
  }

  /** For weights and lengths within the configured bounds there is such a group. */
  lemma IndexInRange(weight: nat, maxLen: nat, i: nat)
    requires 1 <= weight <= MAX_WEIGHT && 1 <= maxLen <= 2000
    requires LeastGroup(maxLen * (ONE_FP / weight), i)
    ensures i <= MAX_INDEX
  {
    InverseBound(ONE_FP, weight);
    Monotone(maxLen, 2000, ONE_FP / weight);
    Pow19();
    if i > MAX_INDEX {
      Pow2Monotone(MAX_INDEX, i - 1);
    }
  }

  lemma Pow19()
    ensures Pow2(MAX_INDEX) == 0x8_0000
  {
    assert Pow2(5) == 2 * Pow2(4) == 4 * Pow2(3) == 32;
    assert Pow2(8) == 2 * Pow2(7) == 4 * Pow2(6) == 8 * Pow2(5);
    assert Pow2(11) == 2 * Pow2(10) == 4 * Pow2(9) == 8 * Pow2(8);
    assert Pow2(14) == 2 * Pow2(13) == 4 * Pow2(12) == 8 * Pow2(11);
    assert Pow2(17) == 2 * Pow2(16) == 4 * Pow2(15) == 8 * Pow2(14);
    assert Pow2(19) == 2 * Pow2(18) == 4 * Pow2(17);
  }

  lemma InverseBound(one: nat, weight: nat)
    requires weight >= 1
    ensures one / weight <= one
  {}

  // ----- bits of natural numbers ------------------------------------------------------------------

  function Shr(x: nat, i: nat): nat
    decreases i
  {
    if i == 0 then x else Shr(x / 2, i - 1)
  }

  function Xor(a: nat, b: nat): nat
    decreases a + b
  {
    if a == 0 && b == 0 then 0 else 2 * Xor(a / 2, b / 2) + if a % 2 != b % 2 then 1 else 0
  }

  lemma {:induction false} ShrIsQuotient(x: nat, i: nat)
    ensures Shr(x, i) == x / Pow2(i)
  {
    if i > 0 {
      ShrIsQuotient(x / 2, i - 1);
      NestedQuotient(x, 2, Pow2(i - 1));
    }
  }

  lemma {:induction false} ShrXor(a: nat, b: nat, i: nat)
    ensures Shr(Xor(a, b), i) == Xor(Shr(a, i), Shr(b, i))
    decreases i
  {
    if i > 0 {
      assert Xor(a, b) / 2 == Xor(a / 2, b / 2);
      ShrXor(a / 2, b / 2, i - 1);
    }
  }

  lemma {:induction false} XorZero(a: nat, b: nat)
    ensures Xor(a, b) == 0 <==> a == b
    decreases a + b
  {
    if a + b > 0 {
      XorZero(a / 2, b / 2);
    }
  }

  // ----- which groups become eligible -----------------------------------------------------------

  /** Bit `i` of the mask of all ones below bit `e`, with base-0 `e` the highest bit of `word`, says
      that `word` has a bit at or above `i`. */
  lemma MaskBit(word: nat, e: nat, i: nat)
    requires Pow2(e) <= word < Pow2(e + 1)
    ensures i < e + 1 <==> Shr(word, i) != 0
  {
    ShrIsQuotient(word, i);
    if i < e + 1 {
      Pow2Monotone(i, e);
      AtLeastOne(word, Pow2(i));
    } else {
      Pow2Monotone(e + 1, i);
      LessThanOne(word, Pow2(i));
    }
  }

  lemma AtLeastOne(x: nat, d: nat)
    requires 0 < d <= x
    ensures x / d > 0
  {}

  lemma LessThanOne(x: nat, d: nat)
    requires x < d
    ensures x / d == 0
  {}

  /** Group `i` has a slot boundary between the two times. */
  ghost predicate Crosses(oldV: nat, v: nat, i: nat) { v / Sigma(i) != oldV / Sigma(i) }

  lemma SlotOfTime(v: nat, i: nat)
    ensures Shr(v / SLOT, i) == v / Sigma(i)
  {
    ShrIsQuotient(v / SLOT, i);
    NestedQuotient(v, SLOT, Pow2(i));
  }

  lemma XorBit(oldV: nat, v: nat, ones: nat, i: nat)
    requires ones > 0 && Pow2(ones - 1) <= Xor(v / SLOT, oldV / SLOT) < Pow2(ones)
    ensures i < ones <==> Crosses(oldV, v, i)
  {
    MaskBit(Xor(v / SLOT, oldV / SLOT), ones - 1, i);
    ShrXor(v / SLOT, oldV / SLOT, i);
    XorZero(Shr(v / SLOT, i), Shr(oldV / SLOT, i));
    SlotOfTime(v, i);
    SlotOfTime(oldV, i);
  }

  lemma SameSlots(oldV: nat, v: nat, i: nat)
    requires v / SLOT == oldV / SLOT
    ensures !Crosses(oldV, v, i)
  {
    SlotOfTime(v, i);
    SlotOfTime(oldV, i);
  }

  /** The distances of times the mask is right for, 2^53. */
  const SPAN: nat := 0x20_0000_0000_0000

  const HALF: nat := 0x8000_0000

  lemma Pow31()
    ensures Pow2(31) == HALF && Pow2(32) == WORD
  {
    Pow19();
    assert Pow2(22) == 2 * Pow2(21) == 4 * Pow2(20) == 8 * Pow2(19);
    assert Pow2(25) == 2 * Pow2(24) == 4 * Pow2(23) == 8 * Pow2(22);
    assert Pow2(28) == 2 * Pow2(27) == 4 * Pow2(26) == 8 * Pow2(25);
    assert Pow2(31) == 2 * Pow2(30) == 4 * Pow2(29) == 8 * Pow2(28);
    assert Pow2(32) == 2 * Pow2(31);
  }

  lemma QuotientOf(x: nat, i: nat, d: nat)
    requires Pow2(i) == d
    ensures Shr(x, i) == x / d
  {
    ShrIsQuotient(x, i);
  }

  lemma OneApart(a: nat, b: nat)
    requires b <= a <= b + HALF && a / WORD != b / WORD
    ensures a / HALF == b / HALF + 1
  {}

  lemma OddHalf(x: nat)
    requires x / HALF % 2 == 1
    ensures x % WORD >= HALF
  {}

  /** If the exclusive or has a bit at `i` or above, so do the numbers differ there. */
  lemma DifferAbove(a: nat, b: nat, i: nat)
    requires Xor(a, b) >= Pow2(i)
    ensures Shr(a, i) != Shr(b, i)
  {
    ShrXor(a, b, i);
    ShrIsQuotient(Xor(a, b), i);
    AtLeastOne(Xor(a, b), Pow2(i));
    XorZero(Shr(a, i), Shr(b, i));
  }

  lemma OddBit(a: nat, b: nat, i: nat)
    requires Shr(a, i) == Shr(b, i) + 1
    ensures Shr(Xor(a, b), i) % 2 == 1
  {
    ShrXor(a, b, i);
  }

  /** Two slot numbers that differ above bit 31, and by no more than 2^31, differ in bit 31: the low
      32 bits of their exclusive or have their highest bit set. */
  lemma CarryReachesTop(a: nat, b: nat, top: nat)
    requires b <= a <= b + HALF && Xor(a, b) >= WORD && Pow2(top) == HALF && Pow2(top + 1) == WORD
    ensures Xor(a, b) % WORD >= HALF
  {
    DifferAbove(a, b, top + 1);
    QuotientOf(a, top + 1, WORD);
    QuotientOf(b, top + 1, WORD);
    OneApart(a, b);
    QuotientOf(a, top, HALF);
    QuotientOf(b, top, HALF);
    OddBit(a, b, top);
    QuotientOf(Xor(a, b), top, HALF);
    OddHalf(Xor(a, b));
  }

  lemma TopBit(word: nat, bit: nat)
    requires HALF <= word < WORD && bit > 0 && Pow2(bit - 1) <= word < Pow2(bit)
    ensures bit == 32
  {
    Pow31();
    if bit < 32 {
      Pow2Monotone(bit, 31);
    } else if bit > 32 {
      Pow2Monotone(32, bit - 1);
    }
  }

  lemma FarCrosses(oldV: nat, v: nat, i: nat)
    requires Xor(v / SLOT, oldV / SLOT) >= WORD && i <= 32
    ensures Crosses(oldV, v, i)
  {
    Pow31();
    Pow2Monotone(i, 32);
    DifferAbove(v / SLOT, oldV / SLOT, i);
    SlotOfTime(v, i);
    SlotOfTime(oldV, i);
  }

  /** The mask of groups to move when time goes from `oldV` to `v`, as its number of low ones.  The
      exclusive or is cut down to the 32 bits of an `int`, and the mask is right all the same. */
  method EligibleMask(oldV: nat, v: nat) returns (ones: nat)
    requires oldV <= v < oldV + SPAN
    ensures forall i: nat :: i < 32 ==> (i < ones <==> Crosses(oldV, v, i))
  {
    var vslot, oldVslot := v / SLOT, oldV / SLOT;
    ones := 0;
    if vslot != oldVslot {
      var x := Xor(vslot, oldVslot);
      XorZero(vslot, oldVslot);
      if x >= WORD {
        Pow31();
        CarryReachesTop(vslot, oldVslot, 31);
      }
      ones := Fls(x % WORD);
      forall i: nat | i < 32 ensures i < ones <==> Crosses(oldV, v, i) {
        if x >= WORD {
          TopBit(x % WORD, ones);
          FarCrosses(oldV, v, i);
        } else {
          XorBit(oldV, v, ones, i);
        }
      }
    } else {
      forall i: nat ensures !Crosses(oldV, v, i) {
        SameSlots(oldV, v, i);
      }
    }
  }

  /** A multiple of `sigma` in the slot after `oldV` is passed exactly if the slot number changes. */
  lemma NextMultiple(oldV: nat, v: nat, sigma: nat, s: nat, m: nat)
    requires oldV <= v && sigma > 0 && s == sigma * m && oldV < s <= oldV + sigma
    ensures s <= v <==> v / sigma != oldV / sigma
  {
    var q := oldV / sigma;
    MultipleBetween(oldV, sigma, q, m);
    PassesNext(oldV, v, sigma, q);
  }

  lemma MultipleBetween(oldV: nat, sigma: nat, q: nat, m: nat)
    requires sigma > 0 && q == oldV / sigma && oldV < sigma * m <= oldV + sigma
    ensures m == q + 1
  {
    assert sigma * (m - q) == sigma * m - sigma * q;
    MultipleBound(sigma, m - q);
    MultipleBound(sigma, m - q - 1);
  }

  lemma PassesNext(oldV: nat, v: nat, sigma: nat, q: nat)
    requires oldV <= v && sigma > 0 && q == oldV / sigma
    ensures sigma * (q + 1) <= v <==> v / sigma != q
  {
    var d := v / sigma - q;
    assert sigma * d == sigma * (v / sigma) - sigma * q;
    MultipleBound(sigma, d);
    MultipleBound(sigma, d - 1);
  }

  /** The groups moved are exactly those that have become eligible: group `i`, with its start time
      in the slot after `oldV`, is in the mask if and only if its start time is now in the past. */
  lemma MaskIsEligible(oldV: nat, v: nat, ones: nat, i: nat, start: nat, m: nat)
    requires oldV <= v && start == Sigma(i) * m && oldV < start <= oldV + Sigma(i)
    requires i < ones <==> Crosses(oldV, v, i)
    ensures i < ones <==> start <= v
  {
    NextMultiple(oldV, v, Sigma(i), start, m);
  }
}
