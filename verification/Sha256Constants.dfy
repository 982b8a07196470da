/**
 The constants of SHA-256 (sections 4.2.2 and 5.3.3 of FIPS 180-4) are what the standard says they are: the first 32 bits
 of the fractional parts of the cube roots of primes, and of the square roots of the first eight.
 */
module Sha256Constants {
  import opened Bits
  import opened Sha256

  // The first sixty-four primes, sixteen at a time.
  const PRIMES_0: seq<nat> := [2, 3, 5, 7, 11, 13, 17, 19, 23, 29, 31, 37, 41, 43, 47, 53]
  const PRIMES_16: seq<nat> := [59, 61, 67, 71, 73, 79, 83, 89, 97, 101, 103, 107, 109, 113, 127, 131]
  const PRIMES_32: seq<nat> := [137, 139, 149, 151, 157, 163, 167, 173, 179, 181, 191, 193, 197, 199, 211, 223]
  const PRIMES_48: seq<nat> := [227, 229, 233, 239, 241, 251, 257, 263, 269, 271, 277, 281, 283, 293, 307, 311]

  const PRIMES: seq<nat> := PRIMES_0 + PRIMES_16 + PRIMES_32 + PRIMES_48

  /** `x` is the cube root of `p`, cut off after 32 binary places. */
  predicate IsCubeRoot(p: nat, x: nat) {
    x * x * x <= p * 0x1_0000_0000_0000_0000_0000_0000 < (x + 1) * (x + 1) * (x + 1)
  }

  /** `x` is the square root of `p`, cut off after 32 binary places. */
  predicate IsSquareRoot(p: nat, x: nat) {
    x * x <= p * 0x1_0000_0000_0000_0000 < (x + 1) * (x + 1)
  }

  ghost predicate IsPrime(p: nat) {
    p >= 2 && forall d, e: nat | 2 <= d && 2 <= e :: p != d * e
  }

  /** No prime up to 17 divides `p` unless it is `p`, and a larger factor would need a smaller one. */
  predicate IsSmallPrime(p: nat) {
    && 2 <= p < 324
    && (p % 2 != 0 || p == 2) && (p % 3 != 0 || p == 3) && (p % 5 != 0 || p == 5) && (p % 7 != 0 || p == 7)
    && (p % 11 != 0 || p == 11) && (p % 13 != 0 || p == 13) && (p % 17 != 0 || p == 17)
  }

  lemma SmallestFactor(d: nat) returns (q: nat, m: nat)
    requires 2 <= d < 18
    ensures d == q * m && m >= 1
    ensures q == 2 || q == 3 || q == 5 || q == 7 || q == 11 || q == 13 || q == 17
  {
    q := if d % 2 == 0 then 2 else if d % 3 == 0 then 3 else d;
    m := if d % 2 == 0 then d / 2 else if d % 3 == 0 then d / 3 else 1;
  }

  lemma NoFactor(p: nat, d: nat, e: nat)
    requires IsSmallPrime(p) && 2 <= d <= e
    ensures p != d * e
  {
    if d < 18 {
      var q, m := SmallestFactor(d);
      MulAssociative(q, m, e);
      MulMonotone(e, 1, m);
      Multiple(q, m * e);
    } else {
      AtLeastSquare(d, e);
    }
  }

  lemma Multiple(d: nat, e: nat)
    requires 2 <= d && 2 <= e
    ensures (d * e) % d == 0 && d < d * e
  {
    assert d * e == d * (e - 2) + 2 * d by { Distributes(d, e); }
    AtLeast(d, e - 2);
    DivUnique(d * e, d, e, 0);
  }

  lemma Distributes(d: nat, e: nat)
    requires e >= 2
    ensures d * e == d * (e - 2) + 2 * d
  {
  }

  lemma AtLeast(d: nat, e: nat)
    ensures d * e >= 0
  {
  }

  lemma AtLeastSquare(d: nat, e: nat)
    requires 18 <= d <= e
    ensures d * e >= 324
  {
    MulMonotone(d, 18, e);
    MulMonotone(18, 18, d);
  }

  lemma SmallPrimeIsPrime(p: nat)
    requires IsSmallPrime(p)
    ensures IsPrime(p)
  {
    forall d, e: nat | 2 <= d && 2 <= e ensures p != d * e {
      if d <= e { NoFactor(p, d, e); } else { NoFactor(p, e, d); }
    }
  }

  predicate IsListed(p: nat) {
    || p == 2 || p == 3 || p == 5 || p == 7 || p == 11 || p == 13 || p == 17 || p == 19
    || p == 23 || p == 29 || p == 31 || p == 37 || p == 41 || p == 43 || p == 47 || p == 53
    || p == 59 || p == 61 || p == 67 || p == 71 || p == 73 || p == 79 || p == 83 || p == 89
    || p == 97 || p == 101 || p == 103 || p == 107 || p == 109 || p == 113 || p == 127 || p == 131
    || p == 137 || p == 139 || p == 149 || p == 151 || p == 157 || p == 163 || p == 167 || p == 173
    || p == 179 || p == 181 || p == 191 || p == 193 || p == 197 || p == 199 || p == 211 || p == 223
    || p == 227 || p == 229 || p == 233 || p == 239 || p == 241 || p == 251 || p == 257 || p == 263
    || p == 269 || p == 271 || p == 277 || p == 281 || p == 283 || p == 293 || p == 307 || p == 311
  }

  lemma ListedIsSmallPrime(p: nat)
    requires IsListed(p)
    ensures IsSmallPrime(p)
  {
  }

  /** A prime is no multiple of another number. */
  lemma PrimeIsNoMultiple(p: nat, q: nat)
    requires IsPrime(p) && q >= 2 && p != q
    ensures p % q != 0
  {
    var m := p / q;
    assert p == q * m + p % q;
  }

  lemma PrimeIsSmallPrime(p: nat)
    requires IsPrime(p) && p < 324
    ensures IsSmallPrime(p)
  {
    if p != 2 { PrimeIsNoMultiple(p, 2); }
    if p != 3 { PrimeIsNoMultiple(p, 3); }
    if p != 5 { PrimeIsNoMultiple(p, 5); }
    if p != 7 { PrimeIsNoMultiple(p, 7); }
    if p != 11 { PrimeIsNoMultiple(p, 11); }
    if p != 13 { PrimeIsNoMultiple(p, 13); }
    if p != 17 { PrimeIsNoMultiple(p, 17); }
  }

  lemma ListedFrom0(p: nat)
    requires IsSmallPrime(p) && 0 <= p < 26
    ensures IsListed(p)
  {
  }

  lemma ListedFrom26(p: nat)
    requires IsSmallPrime(p) && 26 <= p < 52
    ensures IsListed(p)
  {
  }

  lemma ListedFrom52(p: nat)
    requires IsSmallPrime(p) && 52 <= p < 78
    ensures IsListed(p)
  {
  }

  lemma ListedFrom78(p: nat)
    requires IsSmallPrime(p) && 78 <= p < 104
    ensures IsListed(p)
  {
  }

  lemma ListedFrom104(p: nat)
    requires IsSmallPrime(p) && 104 <= p < 130
    ensures IsListed(p)
  {
  }

  lemma ListedFrom130(p: nat)
    requires IsSmallPrime(p) && 130 <= p < 156
    ensures IsListed(p)
  {
  }

  lemma ListedFrom156(p: nat)
    requires IsSmallPrime(p) && 156 <= p < 182
    ensures IsListed(p)
  {
  }

  lemma ListedFrom182(p: nat)
    requires IsSmallPrime(p) && 182 <= p < 208
    ensures IsListed(p)
  {
  }

  lemma ListedFrom208(p: nat)
    requires IsSmallPrime(p) && 208 <= p < 234
    ensures IsListed(p)
  {
  }

  lemma ListedFrom234(p: nat)
    requires IsSmallPrime(p) && 234 <= p < 260
    ensures IsListed(p)
  {
  }

  lemma ListedFrom260(p: nat)
    requires IsSmallPrime(p) && 260 <= p < 286
    ensures IsListed(p)
  {
  }

  lemma ListedFrom286(p: nat)
    requires IsSmallPrime(p) && 286 <= p < 312
    ensures IsListed(p)
  {
  }

  lemma SmallPrimeIsListed(p: nat)
    requires IsSmallPrime(p) && p < 312
    ensures IsListed(p)
  {
    if p < 26 {
      ListedFrom0(p);
    } else if p < 52 {
      ListedFrom26(p);
    } else if p < 78 {
      ListedFrom52(p);
    } else if p < 104 {
      ListedFrom78(p);
    } else if p < 130 {
      ListedFrom104(p);
    } else if p < 156 {
      ListedFrom130(p);
    } else if p < 182 {
      ListedFrom156(p);
    } else if p < 208 {
      ListedFrom182(p);
    } else if p < 234 {
      ListedFrom208(p);
    } else if p < 260 {
      ListedFrom234(p);
    } else if p < 286 {
      ListedFrom260(p);
    } else {
      ListedFrom286(p);
    }
  }

  /** The list has every prime below 312. */
  lemma PrimesAreListed(p: nat)
    requires IsPrime(p) && p < 312
    ensures IsListed(p)
  {
    PrimeIsSmallPrime(p);
    SmallPrimeIsListed(p);
  }

  // ---------------------------------------------------------------- the constants of the rounds

  /** The whole part of the cube root. */
  function CubeFloor(p: nat): nat {
    if p < 8 then 1 else if p < 27 then 2 else if p < 64 then 3 else if p < 125 then 4 else if p < 216 then 5 else 6
  }

  predicate Rows0(i: nat, p: nat, a: nat, c: nat) {
    || (i == 0 && p == 2 && a == 1 && c == 0x428a2f98)
    || (i == 1 && p == 3 && a == 1 && c == 0x71374491)
    || (i == 2 && p == 5 && a == 1 && c == 0xb5c0fbcf)
    || (i == 3 && p == 7 && a == 1 && c == 0xe9b5dba5)
    || (i == 4 && p == 11 && a == 2 && c == 0x3956c25b)
    || (i == 5 && p == 13 && a == 2 && c == 0x59f111f1)
    || (i == 6 && p == 17 && a == 2 && c == 0x923f82a4)
    || (i == 7 && p == 19 && a == 2 && c == 0xab1c5ed5)
    || (i == 8 && p == 23 && a == 2 && c == 0xd807aa98)
    || (i == 9 && p == 29 && a == 3 && c == 0x12835b01)
    || (i == 10 && p == 31 && a == 3 && c == 0x243185be)
    || (i == 11 && p == 37 && a == 3 && c == 0x550c7dc3)
    || (i == 12 && p == 41 && a == 3 && c == 0x72be5d74)
    || (i == 13 && p == 43 && a == 3 && c == 0x80deb1fe)
    || (i == 14 && p == 47 && a == 3 && c == 0x9bdc06a7)
    || (i == 15 && p == 53 && a == 3 && c == 0xc19bf174)
  }

  lemma Root0(i: nat, p: nat, a: nat, c: nat, x: nat)
    requires Rows0(i, p, a, c) && x == a * 0x1_0000_0000 + c
    ensures IsCubeRoot(p, x)
  {
  }

  lemma Entry0(i: nat, p: nat, c: nat)
    requires 0 <= i < 16 && p == PRIMES_0[i - 0] && c == ROUND_0[i - 0]
    ensures Rows0(i, p, CubeFloor(p), c) && IsListed(p)
  {
  }

  lemma Row0(i: nat)
    requires 0 <= i < 16
    ensures Rows0(i, PRIMES[i], CubeFloor(PRIMES[i]), ROUND[i]) && IsListed(PRIMES[i])
  {
    Entry0(i, PRIMES_0[i - 0], ROUND_0[i - 0]);
    Slice0(i);
  }

  lemma Slice0(i: nat)
    requires 0 <= i < 16
    ensures PRIMES[i] == PRIMES_0[i - 0] && ROUND[i] == ROUND_0[i - 0]
  {
  }

  predicate Rows16(i: nat, p: nat, a: nat, c: nat) {
    || (i == 16 && p == 59 && a == 3 && c == 0xe49b69c1)
    || (i == 17 && p == 61 && a == 3 && c == 0xefbe4786)
    || (i == 18 && p == 67 && a == 4 && c == 0x0fc19dc6)
    || (i == 19 && p == 71 && a == 4 && c == 0x240ca1cc)
    || (i == 20 && p == 73 && a == 4 && c == 0x2de92c6f)
    || (i == 21 && p == 79 && a == 4 && c == 0x4a7484aa)
    || (i == 22 && p == 83 && a == 4 && c == 0x5cb0a9dc)
    || (i == 23 && p == 89 && a == 4 && c == 0x76f988da)
    || (i == 24 && p == 97 && a == 4 && c == 0x983e5152)
    || (i == 25 && p == 101 && a == 4 && c == 0xa831c66d)
    || (i == 26 && p == 103 && a == 4 && c == 0xb00327c8)
    || (i == 27 && p == 107 && a == 4 && c == 0xbf597fc7)
    || (i == 28 && p == 109 && a == 4 && c == 0xc6e00bf3)
    || (i == 29 && p == 113 && a == 4 && c == 0xd5a79147)
    || (i == 30 && p == 127 && a == 5 && c == 0x06ca6351)
    || (i == 31 && p == 131 && a == 5 && c == 0x14292967)
  }

  lemma Root16(i: nat, p: nat, a: nat, c: nat, x: nat)
    requires Rows16(i, p, a, c) && x == a * 0x1_0000_0000 + c
    ensures IsCubeRoot(p, x)
  {
  }

  lemma Entry16(i: nat, p: nat, c: nat)
    requires 16 <= i < 32 && p == PRIMES_16[i - 16] && c == ROUND_16[i - 16]
    ensures Rows16(i, p, CubeFloor(p), c) && IsListed(p)
  {
  }

  lemma Row16(i: nat)
    requires 16 <= i < 32
    ensures Rows16(i, PRIMES[i], CubeFloor(PRIMES[i]), ROUND[i]) && IsListed(PRIMES[i])
  {
    Entry16(i, PRIMES_16[i - 16], ROUND_16[i - 16]);
    Slice16(i);
  }

  lemma Slice16(i: nat)
    requires 16 <= i < 32
    ensures PRIMES[i] == PRIMES_16[i - 16] && ROUND[i] == ROUND_16[i - 16]
  {
  }

  predicate Rows32(i: nat, p: nat, a: nat, c: nat) {
    || (i == 32 && p == 137 && a == 5 && c == 0x27b70a85)
    || (i == 33 && p == 139 && a == 5 && c == 0x2e1b2138)
    || (i == 34 && p == 149 && a == 5 && c == 0x4d2c6dfc)
    || (i == 35 && p == 151 && a == 5 && c == 0x53380d13)
    || (i == 36 && p == 157 && a == 5 && c == 0x650a7354)
    || (i == 37 && p == 163 && a == 5 && c == 0x766a0abb)
    || (i == 38 && p == 167 && a == 5 && c == 0x81c2c92e)
    || (i == 39 && p == 173 && a == 5 && c == 0x92722c85)
    || (i == 40 && p == 179 && a == 5 && c == 0xa2bfe8a1)
    || (i == 41 && p == 181 && a == 5 && c == 0xa81a664b)
    || (i == 42 && p == 191 && a == 5 && c == 0xc24b8b70)
    || (i == 43 && p == 193 && a == 5 && c == 0xc76c51a3)
    || (i == 44 && p == 197 && a == 5 && c == 0xd192e819)
    || (i == 45 && p == 199 && a == 5 && c == 0xd6990624)
    || (i == 46 && p == 211 && a == 5 && c == 0xf40e3585)
    || (i == 47 && p == 223 && a == 6 && c == 0x106aa070)
  }

  lemma Root32(i: nat, p: nat, a: nat, c: nat, x: nat)
    requires Rows32(i, p, a, c) && x == a * 0x1_0000_0000 + c
    ensures IsCubeRoot(p, x)
  {
  }

  lemma Entry32(i: nat, p: nat, c: nat)
    requires 32 <= i < 48 && p == PRIMES_32[i - 32] && c == ROUND_32[i - 32]
    ensures Rows32(i, p, CubeFloor(p), c) && IsListed(p)
  {
  }

  lemma Row32(i: nat)
    requires 32 <= i < 48
    ensures Rows32(i, PRIMES[i], CubeFloor(PRIMES[i]), ROUND[i]) && IsListed(PRIMES[i])
  {
    Entry32(i, PRIMES_32[i - 32], ROUND_32[i - 32]);
    Slice32(i);
  }

  lemma Slice32(i: nat)
    requires 32 <= i < 48
    ensures PRIMES[i] == PRIMES_32[i - 32] && ROUND[i] == ROUND_32[i - 32]
  {
  }

  predicate Rows48(i: nat, p: nat, a: nat, c: nat) {
    || (i == 48 && p == 227 && a == 6 && c == 0x19a4c116)
    || (i == 49 && p == 229 && a == 6 && c == 0x1e376c08)
    || (i == 50 && p == 233 && a == 6 && c == 0x2748774c)
    || (i == 51 && p == 239 && a == 6 && c == 0x34b0bcb5)
    || (i == 52 && p == 241 && a == 6 && c == 0x391c0cb3)
    || (i == 53 && p == 251 && a == 6 && c == 0x4ed8aa4a)
    || (i == 54 && p == 257 && a == 6 && c == 0x5b9cca4f)
    || (i == 55 && p == 263 && a == 6 && c == 0x682e6ff3)
    || (i == 56 && p == 269 && a == 6 && c == 0x748f82ee)
    || (i == 57 && p == 271 && a == 6 && c == 0x78a5636f)
    || (i == 58 && p == 277 && a == 6 && c == 0x84c87814)
    || (i == 59 && p == 281 && a == 6 && c == 0x8cc70208)
    || (i == 60 && p == 283 && a == 6 && c == 0x90befffa)
    || (i == 61 && p == 293 && a == 6 && c == 0xa4506ceb)
    || (i == 62 && p == 307 && a == 6 && c == 0xbef9a3f7)
    || (i == 63 && p == 311 && a == 6 && c == 0xc67178f2)
  }

  lemma Root48(i: nat, p: nat, a: nat, c: nat, x: nat)
    requires Rows48(i, p, a, c) && x == a * 0x1_0000_0000 + c
    ensures IsCubeRoot(p, x)
  {
  }

  lemma Entry48(i: nat, p: nat, c: nat)
    requires 48 <= i < 64 && p == PRIMES_48[i - 48] && c == ROUND_48[i - 48]
    ensures Rows48(i, p, CubeFloor(p), c) && IsListed(p)
  {
  }

  lemma Row48(i: nat)
    requires 48 <= i < 64
    ensures Rows48(i, PRIMES[i], CubeFloor(PRIMES[i]), ROUND[i]) && IsListed(PRIMES[i])
  {
    Entry48(i, PRIMES_48[i - 48], ROUND_48[i - 48]);
    Slice48(i);
  }

  lemma Slice48(i: nat)
    requires 48 <= i < 64
    ensures PRIMES[i] == PRIMES_48[i - 48] && ROUND[i] == ROUND_48[i - 48]
  {
  }

  /** Every round constant holds 32 binary places of the cube root of a prime. */
  lemma RoundIsCubeRoot(i: nat)
    requires i < 64
    ensures IsPrime(PRIMES[i]) && IsCubeRoot(PRIMES[i], CubeFloor(PRIMES[i]) * 0x1_0000_0000 + ROUND[i])
  {
    var p, a, c := PRIMES[i], CubeFloor(PRIMES[i]), ROUND[i];
    var x := a * 0x1_0000_0000 + c;
    if i < 16 {
      Row0(i);
      Root0(i, p, a, c, x);
    } else if i < 32 {
      Row16(i);
      Root16(i, p, a, c, x);
    } else if i < 48 {
      Row32(i);
      Root32(i, p, a, c, x);
    } else {
      Row48(i);
      Root48(i, p, a, c, x);
    }
    ListedIsSmallPrime(p);
    SmallPrimeIsPrime(p);
  }

  // ---------------------------------------------------------------- the initial hash value

  predicate SquareRows(i: nat, p: nat, a: nat, c: nat) {
    || (i == 0 && p == 2 && a == 1 && c == 0x6a09e667)
    || (i == 1 && p == 3 && a == 1 && c == 0xbb67ae85)
    || (i == 2 && p == 5 && a == 2 && c == 0x3c6ef372)
    || (i == 3 && p == 7 && a == 2 && c == 0xa54ff53a)
    || (i == 4 && p == 11 && a == 3 && c == 0x510e527f)
    || (i == 5 && p == 13 && a == 3 && c == 0x9b05688c)
    || (i == 6 && p == 17 && a == 4 && c == 0x1f83d9ab)
    || (i == 7 && p == 19 && a == 4 && c == 0x5be0cd19)
  }

  lemma SquareRow(i: nat)
    requires i < 8
    ensures SquareRows(i, PRIMES[i], SquareFloor(PRIMES[i]), INITIAL[i])
  {
    Row0(i);
  }

  /** The whole part of the square root. */
  function SquareFloor(p: nat): nat {
    if p < 4 then 1 else if p < 9 then 2 else if p < 16 then 3 else 4
  }

  lemma SquareRoot(i: nat, p: nat, a: nat, c: nat, x: nat)
    requires SquareRows(i, p, a, c) && x == a * 0x1_0000_0000 + c
    ensures IsSquareRoot(p, x)
  {
  }

  /** Every initial hash word holds 32 binary places of the square root of a prime. */
  lemma InitialIsSquareRoot(i: nat)
    requires i < 8
    ensures IsSquareRoot(PRIMES[i], SquareFloor(PRIMES[i]) * 0x1_0000_0000 + INITIAL[i])
  {
    SquareRow(i);
    SquareRoot(i, PRIMES[i], SquareFloor(PRIMES[i]), INITIAL[i], SquareFloor(PRIMES[i]) * 0x1_0000_0000 + INITIAL[i]);
  }

  lemma Place0(p: nat) returns (i: nat)
    requires IsListed(p) && 2 <= p <= 53
    ensures i < 16 && PRIMES_0[i] == p
  {
    i := if p == 2 then 0 else if p == 3 then 1 else if p == 5 then 2 else if p == 7 then 3 else
         if p == 11 then 4 else if p == 13 then 5 else if p == 17 then 6 else if p == 19 then 7 else
         if p == 23 then 8 else if p == 29 then 9 else if p == 31 then 10 else if p == 37 then 11 else
         if p == 41 then 12 else if p == 43 then 13 else if p == 47 then 14 else 15;
  }

  lemma Place16(p: nat) returns (i: nat)
    requires IsListed(p) && 59 <= p <= 131
    ensures i < 16 && PRIMES_16[i] == p
  {
    i := if p == 59 then 0 else if p == 61 then 1 else if p == 67 then 2 else if p == 71 then 3 else
         if p == 73 then 4 else if p == 79 then 5 else if p == 83 then 6 else if p == 89 then 7 else
         if p == 97 then 8 else if p == 101 then 9 else if p == 103 then 10 else if p == 107 then 11 else
         if p == 109 then 12 else if p == 113 then 13 else if p == 127 then 14 else 15;
  }

  lemma Place32(p: nat) returns (i: nat)
    requires IsListed(p) && 137 <= p <= 223
    ensures i < 16 && PRIMES_32[i] == p
  {
    i := if p == 137 then 0 else if p == 139 then 1 else if p == 149 then 2 else if p == 151 then 3 else
         if p == 157 then 4 else if p == 163 then 5 else if p == 167 then 6 else if p == 173 then 7 else
         if p == 179 then 8 else if p == 181 then 9 else if p == 191 then 10 else
         if p == 193 then 11 else if p == 197 then 12 else if p == 199 then 13 else
         if p == 211 then 14 else 15;
  }

  lemma Place48(p: nat) returns (i: nat)
    requires IsListed(p) && 227 <= p <= 311
    ensures i < 16 && PRIMES_48[i] == p
  {
    i := if p == 227 then 0 else if p == 229 then 1 else if p == 233 then 2 else if p == 239 then 3 else
         if p == 241 then 4 else if p == 251 then 5 else if p == 257 then 6 else if p == 263 then 7 else
         if p == 269 then 8 else if p == 271 then 9 else if p == 277 then 10 else
         if p == 281 then 11 else if p == 283 then 12 else if p == 293 then 13 else
         if p == 307 then 14 else 15;
  }

  /** The list holds the primes below 312, all of them and nothing else, in ascending order: it is that of the first 64. */
  lemma PrimesAreThese(p: nat)
    ensures p in PRIMES <==> IsPrime(p) && p < 312
  {
    if IsPrime(p) && p < 312 {
      PrimesAreListed(p);
      var i := Place(p);
      assert PRIMES[i] == p;
    }
    if p in PRIMES {
      var i :| 0 <= i < |PRIMES| && PRIMES[i] == p;
      RowOf(i);
      ListedIsSmallPrime(p);
      SmallPrimeIsPrime(p);
    }
  }

  lemma Place(p: nat) returns (i: nat)
    requires IsListed(p)
    ensures i < 64 && PRIMES[i] == p
  {
    if p <= 53 {
      i := Place0(p);
      Slice0(i);
    } else if p <= 131 {
      i := Place16(p);
      i := i + 16;
      Slice16(i);
    } else if p <= 223 {
      i := Place32(p);
      i := i + 32;
      Slice32(i);
    } else {
      i := Place48(p);
      i := i + 48;
      Slice48(i);
    }
  }

  lemma RowOf(i: nat)
    requires i < 64
    ensures IsListed(PRIMES[i]) && PRIMES[i] < 312
  {
    if i < 16 { Row0(i); } else if i < 32 { Row16(i); } else if i < 48 { Row32(i); } else { Row48(i); }
  }

  lemma Ascends0(i: nat)
    requires i < 15
    ensures PRIMES_0[i] < PRIMES_0[i + 1]
  {
  }

  lemma Ascends16(i: nat)
    requires i < 15
    ensures PRIMES_16[i] < PRIMES_16[i + 1]
  {
  }

  lemma Ascends32(i: nat)
    requires i < 15
    ensures PRIMES_32[i] < PRIMES_32[i + 1]
  {
  }

  lemma Ascends48(i: nat)
    requires i < 15
    ensures PRIMES_48[i] < PRIMES_48[i + 1]
  {
  }

  /** The primes ascend. */
  lemma PrimesAscend(i: nat)
    requires i < 63
    ensures PRIMES[i] < PRIMES[i + 1]
  {
    if i < 15 {
      Slice0(i);
      Slice0(i + 1);
      Ascends0(i);
    } else if i < 16 {
      Slice0(i);
      Slice16(i + 1);
    } else if i < 31 {
      Slice16(i);
      Slice16(i + 1);
      Ascends16(i - 16);
    } else if i < 32 {
      Slice16(i);
      Slice32(i + 1);
    } else if i < 47 {
      Slice32(i);
      Slice32(i + 1);
      Ascends32(i - 32);
    } else if i < 48 {
      Slice32(i);
      Slice48(i + 1);
    } else {
      Slice48(i);
      Slice48(i + 1);
      Ascends48(i - 48);
    }
  }
}
