/** Bitwise arithmetic on unbounded naturals, least significant bit first. */
module Bits {

  function Pow2(k: nat): (p: nat)
    ensures p > 0
  {
    if k == 0 then 1 else 2 * Pow2(k - 1)
  }

  function And(a: nat, b: nat): nat
    decreases a + b
  {
    if a == 0 || b == 0 then 0
    else (if a % 2 == 1 && b % 2 == 1 then 1 else 0) + 2 * And(a / 2, b / 2)
  }

  function Or(a: nat, b: nat): nat
    decreases a + b
  {
    if a == 0 && b == 0 then 0
    else (if a % 2 == 1 || b % 2 == 1 then 1 else 0) + 2 * Or(a / 2, b / 2)
  }

  function Xor(a: nat, b: nat): nat
    decreases a + b
  {
    if a == 0 && b == 0 then 0
    else (if a % 2 != b % 2 then 1 else 0) + 2 * Xor(a / 2, b / 2)
  }

  lemma {:induction false} Pow2Sum(a: nat, b: nat)
    ensures Pow2(a + b) == Pow2(a) * Pow2(b)
  {
    if a > 0 {
      Pow2Sum(a - 1, b);
      assert Pow2(a + b) == 2 * Pow2(a - 1 + b);
      MulAssociative(2, Pow2(a - 1), Pow2(b));
    }
  }

  lemma Square(k: nat, p: nat)
    requires Pow2(k) == p
    ensures Pow2(2 * k) == p * p
  {
    Pow2Sum(k, k);
  }

  lemma MulAssociative(a: int, b: int, c: int)
    ensures (a * b) * c == a * (b * c)
  {
  }

  lemma SmallPowers()
    ensures Pow2(1) == 2 && Pow2(2) == 4 && Pow2(3) == 8 && Pow2(4) == 16
    ensures Pow2(8) == 0x100 && Pow2(16) == 0x1_0000 && Pow2(24) == 0x100_0000 && Pow2(32) == 0x1_0000_0000
  {
    assert Pow2(1) == 2 * Pow2(0) && Pow2(2) == 2 * Pow2(1) && Pow2(3) == 2 * Pow2(2) && Pow2(4) == 2 * Pow2(3);
    Pow2Sum(4, 4);
    Pow2Sum(8, 8);
    Pow2Sum(16, 8);
    Pow2Sum(16, 16);
  }

  /** Dividing shrinks. */
  lemma DivBound(x: nat, d: nat)
    requires d > 0
    ensures 0 <= x / d <= x
  {
    var q := x / d;
    assert x == q * d + x % d;
    if q > x { MulAtLeast(q, d); }
  }

  /** `v << k` of a natural number. */
  function ShiftedUp(v: nat, k: nat): nat {
    v * Pow2(k)
  }

  lemma ShiftedUpBit(v: nat, k: nat, z: nat)
    ensures BitAt(ShiftedUp(v, k), z) == (z >= k && BitAt(v, z - k))
  {
    ShiftLeftBit(v, k, z);
  }

  /** `v >> k` of a natural number. */
  function ShiftedDown(v: nat, k: nat): nat {
    DivBound(v, Pow2(k));
    v / Pow2(k)
  }

  lemma MulAtLeast(q: nat, d: nat)
    requires d > 0
    ensures q * d >= q
  {
  }

  lemma {:induction false} AndBound(a: nat, b: nat, w: nat)
    requires a < Pow2(w) && b < Pow2(w)
    ensures And(a, b) < Pow2(w)
  {
    if a != 0 && b != 0 { AndBound(a / 2, b / 2, w - 1); }
  }

  lemma {:induction false} OrBound(a: nat, b: nat, w: nat)
    requires a < Pow2(w) && b < Pow2(w)
    ensures Or(a, b) < Pow2(w)
  {
    if a != 0 || b != 0 { OrBound(a / 2, b / 2, w - 1); }
  }

  lemma {:induction false} XorBound(a: nat, b: nat, w: nat)
    requires a < Pow2(w) && b < Pow2(w)
    ensures Xor(a, b) < Pow2(w)
  {
    if a != 0 || b != 0 { XorBound(a / 2, b / 2, w - 1); }
  }

  lemma {:induction false} OrZero(a: nat)
    ensures Or(a, 0) == a && Or(0, a) == a
  {
    if a > 0 { OrZero(a / 2); }
  }

  /** Setting bits above `a` adds them. */
  lemma {:induction false} OrDisjoint(a: nat, b: nat, k: nat)
    requires a < Pow2(k)
    ensures Or(a, b * Pow2(k)) == a + b * Pow2(k)
    ensures Or(b * Pow2(k), a) == a + b * Pow2(k)
  {
    if k == 0 {
      OrZero(b);
    } else {
      OrDisjoint(a / 2, b, k - 1);
      var high := b * Pow2(k);
      assert high == 2 * (b * Pow2(k - 1)) by { Rotate3(b, Pow2(k - 1)); }
      assert high % 2 == 0 && high / 2 == b * Pow2(k - 1);
    }
  }

  lemma Rotate3(a: int, b: int)
    ensures a * (2 * b) == 2 * (a * b)
  {
  }

  // ---------------------------------------------------------------- division

  lemma MulStep(a: int, s: int)
    ensures a * (s + 1) == a * s + a
  {
  }

  lemma MulMonotone(a: nat, s: nat, t: nat)
    requires s <= t
    ensures a * s <= a * t
  {
    assert a * t == a * s + a * (t - s) by { MulDistributes(a, s, t - s); }
  }

  lemma MulDistributes(a: int, s: int, t: int)
    ensures a * (s + t) == a * s + a * t
  {
  }

  /** Quotient and remainder are unique. */
  lemma DivUnique(v: nat, d: nat, q: nat, r: nat)
    requires d > 0 && v == d * q + r && r < d
    ensures v / d == q && v % d == r
  {
    var q', r' := v / d, v % d;
    assert v == d * q' + r';
    if q' < q {
      MulMonotone(d, q' + 1, q);
      MulStep(d, q');
    } else if q < q' {
      MulMonotone(d, q + 1, q');
      MulStep(d, q);
    }
  }

  lemma DivDiv(v: nat, a: nat, b: nat)
    requires a > 0 && b > 0
    ensures a * b > 0 && v / a / b == v / (a * b)
  {
    var q, r := v / a, v % a;
    var p, s := q / b, q % b;
    assert v == a * q + r && q == b * p + s;
    MulDistributes(a, b * p, s);
    MulAssociative(a, b, p);
    MulMonotone(a, s + 1, b);
    MulStep(a, s);
    DivUnique(v, a * b, p, a * s + r);
  }

  // ---------------------------------------------------------------- single bits

  /** Bit `z` of `v`, counted from the least significant. */
  predicate BitAt(v: nat, z: nat) {
    if z == 0 then v % 2 == 1 else BitAt(v / 2, z - 1)
  }

  lemma {:induction false} ZeroBit(z: nat)
    ensures !BitAt(0, z)
  {
    if z > 0 { ZeroBit(z - 1); }
  }

  lemma {:induction false} XorBit(a: nat, b: nat, z: nat)
    ensures BitAt(Xor(a, b), z) == (BitAt(a, z) != BitAt(b, z))
  {
    if a == 0 && b == 0 {
      ZeroBit(z);
    } else if z > 0 {
      XorBit(a / 2, b / 2, z - 1);
    }
  }

  lemma {:induction false} AndBit(a: nat, b: nat, z: nat)
    ensures BitAt(And(a, b), z) == (BitAt(a, z) && BitAt(b, z))
  {
    if a == 0 || b == 0 {
      ZeroBit(z);
    } else if z > 0 {
      AndBit(a / 2, b / 2, z - 1);
    }
  }

  lemma {:induction false} OrBit(a: nat, b: nat, z: nat)
    ensures BitAt(Or(a, b), z) == (BitAt(a, z) || BitAt(b, z))
  {
    if a == 0 && b == 0 {
      ZeroBit(z);
    } else if z > 0 {
      OrBit(a / 2, b / 2, z - 1);
    }
  }

  lemma {:induction false} ShiftLeftBit(v: nat, n: nat, z: nat)
    ensures BitAt(v * Pow2(n), z) == (z >= n && BitAt(v, z - n))
  {
    if n > 0 {
      Rotate3(v, Pow2(n - 1));
      assert v * Pow2(n) == 2 * (v * Pow2(n - 1));
      if z > 0 { ShiftLeftBit(v, n - 1, z - 1); }
    }
  }

  lemma {:induction false} ShiftRightBit(v: nat, n: nat, z: nat)
    ensures BitAt(ShiftedDown(v, n), z) == BitAt(v, z + n)
  {
    if n > 0 {
      DivDiv(v, 2, Pow2(n - 1));
      ShiftRightBit(v / 2, n - 1, z);
    }
  }

  lemma {:induction false} HighBit(v: nat, k: nat, z: nat)
    requires v < Pow2(k) && k <= z
    ensures !BitAt(v, z)
  {
    if k == 0 {
      ZeroBit(z);
    } else {
      HighBit(v / 2, k - 1, z - 1);
    }
  }

  /** Reducing modulo a power of two keeps the bits below it. */
  lemma {:induction false} ModBit(v: nat, k: nat, z: nat)
    requires z < k
    ensures BitAt(v % Pow2(k), z) == BitAt(v, z)
  {
    ModHalf(v, Pow2(k - 1));
    if z > 0 { ModBit(v / 2, k - 1, z - 1); }
  }

  lemma ModHalf(v: nat, p: nat)
    requires p > 0
    ensures v % (2 * p) == v % 2 + 2 * (v / 2 % p)
    ensures v % (2 * p) / 2 == v / 2 % p && v % (2 * p) % 2 == v % 2
  {
    var q, r := v / 2 / p, v / 2 % p;
    assert v / 2 == p * q + r;
    assert v == 2 * (p * q + r) + v % 2 == (2 * p) * q + (2 * r + v % 2) by { MulAssociative(2, p, q); }
    DivUnique(v, 2 * p, q, 2 * r + v % 2);
  }

  /** Masking with `2^k - 1` reduces modulo `2^k`. */
  lemma {:induction false} AndMask(v: nat, k: nat)
    ensures And(v, Pow2(k) - 1) == v % Pow2(k)
  {
    if k > 0 {
      ModHalf(v, Pow2(k - 1));
      AndMask(v / 2, k - 1);
      assert (Pow2(k) - 1) / 2 == Pow2(k - 1) - 1 && (Pow2(k) - 1) % 2 == 1;
    }
  }

  /** The complement within `k` bits inverts each of them. */
  lemma {:induction false} ComplementBit(v: nat, k: nat, z: nat)
    requires v < Pow2(k) && z < k
    ensures BitAt(Pow2(k) - 1 - v, z) == !BitAt(v, z)
  {
    assert (Pow2(k) - 1 - v) / 2 == Pow2(k - 1) - 1 - v / 2;
    if z > 0 { ComplementBit(v / 2, k - 1, z - 1); }
  }

  /** A number below `2^k` is determined by its low `k` bits. */
  lemma {:induction false} BitsDetermine(a: nat, b: nat, k: nat)
    requires a < Pow2(k) && b < Pow2(k)
    requires forall z | 0 <= z < k :: BitAt(a, z) == BitAt(b, z)
    ensures a == b
  {
    if k > 0 {
      assert BitAt(a, 0) == BitAt(b, 0);
      forall z | 0 <= z < k - 1 ensures BitAt(a / 2, z) == BitAt(b / 2, z) {
        assert BitAt(a, z + 1) == BitAt(b, z + 1);
      }
      BitsDetermine(a / 2, b / 2, k - 1);
    }
  }
}
