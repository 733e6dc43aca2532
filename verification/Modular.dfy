/** Adding the same number again and again to a word of finite size: which values are met. */
module Modular {
  import opened Common

  function Gcd(a: nat, b: nat): (g: nat)
    requires a > 0 || b > 0
    ensures g > 0
    decreases b
  {
    if b == 0 then a else Gcd(b, a % b)
  }

  lemma {:induction false} Bezout(a: nat, b: nat) returns (x: int, y: int)
    requires a > 0 || b > 0
    ensures a * x + b * y == Gcd(a, b)
    decreases b
  {
    if b == 0 {
      x, y := 1, 0;
    } else {
      var x', y' := Bezout(b, a % b);
      x, y := y', x' - a / b * y';
      BezoutStep(a, b, a / b, x', y');
    }
  }

  lemma BezoutStep(a: nat, b: nat, d: nat, x: int, y: int)
    ensures a * y + b * (x - d * y) == b * x + (a - b * d) * y
  {
    assert b * (d * y) == (b * d) * y;
    assert (a - b * d) * y == a * y - (b * d) * y;
    assert b * (x - d * y) == b * x - b * (d * y);
  }

  // ----- residues ---------------------------------------------------------------------------

  lemma ResidueIs(v: int, m: nat, s: int, r: int)
    requires v == s * m + r && 0 <= r < m
    ensures v % m == r
  {
    var d := s - v / m;
    assert m * d == s * m - v / m * m;
    MultipleBound(m, d);
  }

  lemma Quotient(v: int, m: nat) returns (s: int)
    requires m > 0
    ensures v == s * m + v % m
  {
    s := v / m;
  }

  lemma DividesSum(a: nat, b: nat, g: nat)
    requires b > 0 && g > 0 && b % g == 0 && (a % b) % g == 0
    ensures a % g == 0
  {
    var d := Quotient(a, b);
    var m := Quotient(b, g);
    var n := Quotient(a % b, g);
    assert d * (m * g) == (d * m) * g;
    assert (d * m + n) * g == (d * m) * g + n * g;
    ResidueIs(a, g, d * m + n, 0);
  }

  lemma {:induction false} GcdDivides(a: nat, b: nat)
    requires a > 0 || b > 0
    ensures a % Gcd(a, b) == 0 && b % Gcd(a, b) == 0
    decreases b
  {
    if b > 0 {
      GcdDivides(b, a % b);
      DividesSum(a, b, Gcd(a, b));
    }
  }

  /** Reducing modulo a multiple of `g` does not change the residue modulo `g`. */
  lemma ResidueOfResidue(v: int, w: nat, g: nat, n: int)
    requires g > 0 && w > 0 && w == n * g
    ensures (v % w) % g == v % g
  {
    var s := Quotient(v, w);
    var z := Quotient(v % w, g);
    assert s * (n * g) == (s * n) * g;
    assert (s * n + z) * g == (s * n) * g + z * g;
    ResidueIs(v, g, s * n + z, (v % w) % g);
  }

  lemma ResidueOfSum(c: int, m: int, g: nat)
    requires g > 0
    ensures (c + m * g) % g == c % g
  {
    var s := Quotient(c, g);
    assert (s + m) * g == s * g + m * g;
    ResidueIs(c + m * g, g, s + m, c % g);
  }

  lemma ResidueAddLeft(c: int, d: int, w: nat)
    requires w > 0
    ensures (c % w + d) % w == (c + d) % w
  {
    var s := Quotient(c, w);
    var z := Quotient(c % w + d, w);
    assert (s + z) * w == s * w + z * w;
    ResidueIs(c + d, w, s + z, (c % w + d) % w);
  }

  // ----- the orbit ----------------------------------------------------------------------------

  /** The value after `k` additions of `q` to `c`, modulo `w`. */
  function After(c: nat, q: nat, w: nat, k: nat): nat
    requires w > 0
  {
    (c + k * q) % w
  }

  /** The largest value below `w` that agrees with `c` modulo the common divisor of `q` and `w`. */
  function Peak(c: nat, q: nat, w: nat): int
    requires w > 0
  {
    w - Gcd(q, w) + c % Gcd(q, w)
  }

  lemma AfterNext(c: nat, q: nat, w: nat, k: nat)
    requires w > 0 && k > 0
    ensures After(c, q, w, k) == After((c + q) % w, q, w, k - 1)
  {
    ResidueAddLeft(c + q, (k - 1) * q, w);
    assert c + q + (k - 1) * q == c + k * q;
  }

  lemma PeakKept(c: nat, q: nat, w: nat, k: nat)
    requires w > 0
    ensures Peak(After(c, q, w, k), q, w) == Peak(c, q, w)
  {
    var g := Gcd(q, w);
    GcdDivides(q, w);
    var m := Quotient(q, g);
    var n := Quotient(w, g);
    ResidueOfResidue(c + k * q, w, g, n);
    assert k * (m * g) == (k * m) * g;
    ResidueOfSum(c, k * m, g);
  }

  lemma BelowPeak(c: nat, q: nat, w: nat)
    requires c < w
    ensures c <= Peak(c, q, w) < w
  {
    var g := Gcd(q, w);
    GcdDivides(q, w);
    var n := Quotient(w, g);
    var s := Quotient(c, g);
    if s >= n {
      Monotone(n, s, g);
      assert false;
    }
    Monotone(s, n - 1, g);
    assert (n - 1) * g == n * g - g;
  }

  lemma Combine(c: int, q: int, w: int, g: int, d: int, x: int, y: int, z: int, k: int, r: int)
    requires q * x + w * y == g && r == c + g * d && d * x == z * w + k
    ensures c + k * q == r - (d * y + z * q) * w
  {
    calc {
      k * q;
      (d * x - z * w) * q;
      d * x * q - z * w * q;
      { assert d * x * q == d * (q * x); assert z * w * q == (z * q) * w; }
      d * (q * x) - (z * q) * w;
      d * (g - w * y) - (z * q) * w;
      { assert d * (g - w * y) == d * g - d * (w * y); assert d * (w * y) == (d * y) * w; }
      d * g - (d * y) * w - (z * q) * w;
      { assert (d * y + z * q) * w == (d * y) * w + (z * q) * w; }
      d * g - (d * y + z * q) * w;
    }
  }

  /** Every value that agrees with `c` modulo the common divisor is met. */
  lemma Reaches(c: nat, q: nat, w: nat, r: nat) returns (k: nat)
    requires r < w && r % Gcd(q, w) == c % Gcd(q, w)
    ensures After(c, q, w, k) == r
  {
    var g := Gcd(q, w);
    var x, y := Bezout(q, w);
    var s := Quotient(c, g);
    var s' := Quotient(r, g);
    var d := s' - s;
    assert g * d == s' * g - s * g;
    var z := Quotient(d * x, w);
    k := (d * x) % w;
    Combine(c, q, w, g, d, x, y, z, k, r);
    assert -(d * y + z * q) * w == -((d * y + z * q) * w);
    ResidueIs(c + k * q, w, -(d * y + z * q), r);
  }

  /** A value of at least `len` is met exactly if the peak is no less. */
  lemma ReachesAtLeast(c: nat, q: nat, w: nat, len: nat)
    requires c < w
    ensures (exists k: nat :: After(c, q, w, k) >= len) <==> len <= Peak(c, q, w)
  {
    if k: nat :| After(c, q, w, k) >= len {
      PeakKept(c, q, w, k);
      BelowPeak(After(c, q, w, k), q, w);
    }
    if len <= Peak(c, q, w) {
      var g := Gcd(q, w);
      GcdDivides(q, w);
      var n := Quotient(w, g);
      BelowPeak(c, q, w);
      assert (n - 1) * g == n * g - g;
      ResidueIs(Peak(c, q, w), g, n - 1, c % g);
      var k := Reaches(c, q, w, Peak(c, q, w));
    }
  }
}
