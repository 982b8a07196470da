/**
 KECCAK[512] with 256 bits of output, as FIPS 202 defines it on bit strings: the hash Ethereum calls Keccak-256.
 A state array is kept as its 25 lanes; lane (x, y) stands at index x + 5y and bit z of it is A[x, y, z]
 (section 3.1).
 */
module Keccak {
  import opened Common
  import opened Bits

  type Lane = l: seq<bool> | |l| == 64 witness seq(64, _ => false)

  type State = a: seq<Lane> | |a| == 25 witness seq(25, _ => ZeroLane())

  function ZeroLane(): Lane {
    seq(64, _ => false)
  }

  function ExclusiveOr(p: bool, q: bool): bool {
    p != q
  }

  // ---------------------------------------------------------------- the step mappings, section 3.2

  /** C[x, z], the parity of a column. */
  function ColumnParity(a: State, x: nat, z: nat): bool
    requires x < 5 && z < 64
  {
    ExclusiveOr(ExclusiveOr(ExclusiveOr(ExclusiveOr(a[x][z], a[x + 5][z]), a[x + 10][z]), a[x + 15][z]), a[x + 20][z])
  }

  /** D[x, z] */
  function ThetaEffect(a: State, x: nat, z: nat): bool
    requires x < 5 && z < 64
  {
    ExclusiveOr(ColumnParity(a, (x + 4) % 5, z), ColumnParity(a, (x + 1) % 5, (z + 63) % 64))
  }

  function ThetaLane(a: State, i: nat): Lane
    requires i < 25
  {
    seq(64, z requires 0 <= z < 64 => ExclusiveOr(a[i][z], ThetaEffect(a, i % 5, z)))
  }

  function Theta(a: State): State {
    seq(25, i requires 0 <= i < 25 => ThetaLane(a, i))
  }

  /** The lane the walk of Algorithm 2 visits at step `t`: from (1, 0), each step goes from (x, y) to (y, 2x + 3y). */
  function Walk(t: nat): (p: (nat, nat))
    ensures p.0 < 5 && p.1 < 5
  {
    if t == 0 then (1, 0) else
      var (x, y) := Walk(t - 1);
      (y, (2 * x + 3 * y) % 5)
  }

  /** How far rho turns lane (x, y): (t + 1)(t + 2) / 2 if the walk visits it at a step `t` from here, else nothing. */
  function Offset(x: nat, y: nat, t: nat): nat
    decreases 24 - t
  {
    if t >= 24 then 0
    else if Walk(t) == (x, y) then (t + 1) * (t + 2) / 2
    else Offset(x, y, t + 1)
  }

  /** A'[x, y, z] = A[x, y, z - n] */
  function TurnedLane(l: Lane, n: nat): Lane {
    seq(64, z requires 0 <= z < 64 => l[(z - n) % 64])
  }

  function Rho(a: State): State {
    seq(25, i requires 0 <= i < 25 => TurnedLane(a[i], Offset(i % 5, i / 5, 0)))
  }

  /** A'[x, y, z] = A[x + 3y, x, z] */
  function Pi(a: State): State {
    seq(25, i requires 0 <= i < 25 => a[(i % 5 + 3 * (i / 5)) % 5 + 5 * (i % 5)])
  }

  /** A[x, y, z] xor ((A[x + 1, y, z] xor 1) and A[x + 2, y, z]) */
  predicate ChiBit(a: State, x: nat, y: nat, z: nat)
    requires x < 5 && y < 5 && z < 64
  {
    ExclusiveOr(a[x + 5 * y][z], !a[(x + 1) % 5 + 5 * y][z] && a[(x + 2) % 5 + 5 * y][z])
  }

  function ChiLane(a: State, i: nat): Lane
    requires i < 25
  {
    seq(64, z requires 0 <= z < 64 => ChiBit(a, i % 5, i / 5, z))
  }

  function Chi(a: State): State {
    seq(25, i requires 0 <= i < 25 => ChiLane(a, i))
  }

  /** The shift register of Algorithm 5, R[0] to R[7]. */
  datatype Register = Register(r0: bool, r1: bool, r2: bool, r3: bool, r4: bool, r5: bool, r6: bool, r7: bool)

  function Shifted(t: nat): Register {
    if t == 0 then Register(true, false, false, false, false, false, false, false)
    else
      var r := Shifted(t - 1);
      Register(r.r7, r.r0, r.r1, r.r2, ExclusiveOr(r.r3, r.r7), ExclusiveOr(r.r4, r.r7), ExclusiveOr(r.r5, r.r7), r.r6)
  }

  /** rc(t) for t < 255. */
  predicate RegisterOutput(t: nat) {
    Shifted(t).r0
  }

  /** RC of round `ir`: bit 2^j - 1 is rc(j + 7 ir) for j = 0, ..., 6, and every other bit is zero. */
  predicate RoundConstantBit(ir: nat, z: nat) {
    || (z == 0 && RegisterOutput(7 * ir))
    || (z == 1 && RegisterOutput(7 * ir + 1))
    || (z == 3 && RegisterOutput(7 * ir + 2))
    || (z == 7 && RegisterOutput(7 * ir + 3))
    || (z == 15 && RegisterOutput(7 * ir + 4))
    || (z == 31 && RegisterOutput(7 * ir + 5))
    || (z == 63 && RegisterOutput(7 * ir + 6))
  }

  function Iota(a: State, ir: nat): State {
    a[0 := seq(64, z requires 0 <= z < 64 => ExclusiveOr(a[0][z], RoundConstantBit(ir, z)))]
  }

  /** Rnd, section 3.3. */
  function Round(a: State, ir: nat): State {
    Iota(Chi(Pi(Rho(Theta(a)))), ir)
  }

  /** The first `rounds` rounds of Keccak-p[1600, 24]. */
  function KeccakP(a: State, rounds: nat): State {
    if rounds == 0 then a else Round(KeccakP(a, rounds - 1), rounds - 1)
  }

  // ---------------------------------------------------------------- the sponge, section 4

  const RATE := 1088

  /** The zeros of the padding: (-m - 2) mod x. */
  function PadZeros(x: nat, m: int): nat
    requires x > 0
  {
    (-m - 2) % x
  }

  /** pad10*1, section 5.1. */
  function Pad101(x: nat, m: nat): seq<bool>
    requires x > 0
  {
    [true] + seq(PadZeros(x, m), _ => false) + [true]
  }

  /** Bits 64 i to 64 i + 63 of a block; lanes past the rate take the zeros of the capacity. */
  function BlockLane(block: seq<bool>, i: nat): (l: Lane)
    requires |block| == RATE
  {
    if i < 17 then block[64 * i..64 * i + 64] else ZeroLane()
  }

  function XorLanes(a: Lane, b: Lane): Lane {
    seq(64, z requires 0 <= z < 64 => ExclusiveOr(a[z], b[z]))
  }

  /** S xor (P || 0^c) */
  function Inject(a: State, block: seq<bool>): State
    requires |block| == RATE
  {
    seq(25, i requires 0 <= i < 25 => XorLanes(a[i], BlockLane(block, i)))
  }

  /** The state after the whole blocks of `p` (Algorithm 8, steps 1 to 6). */
  function Absorb(p: seq<bool>): State {
    if |p| < RATE then seq(25, _ => ZeroLane())
    else
      var n := |p| - RATE;
      KeccakP(Inject(Absorb(p[..n]), p[n..]), 24)
  }

  /** The bits of a byte string, least significant first within each byte (section B.1). */
  function BitsOf(b: Bytes): seq<bool> {
    seq(8 * |b|, i requires 0 <= i < 8 * |b| => BitAt(b[i / 8], i % 8))
  }

  /** KECCAK[512](N, 256): one squeeze gives enough output. */
  function Hash(n: seq<bool>): (digest: seq<bool>)
    ensures |digest| == 256
  {
    var a := Absorb(n + Pad101(RATE, |n|));
    seq(256, i requires 0 <= i < 256 => a[i / 64][i % 64])
  }

  // ---------------------------------------------------------------- the padding can be undone

  /** Drops trailing zeros and the one before them. */
  function Unpad(p: seq<bool>): Option<seq<bool>> {
    if p == [] then None
    else if p[|p| - 1] then Some(p[..|p| - 1])
    else Unpad(p[..|p| - 1])
  }

  lemma {:induction false} UnpadZeros(n: seq<bool>, j: nat)
    ensures Unpad(n + [true] + seq(j, _ => false)) == Some(n)
  {
    var p := n + [true] + seq(j, _ => false);
    if j == 0 {
      assert p[..|p| - 1] == n;
    } else {
      assert p[..|p| - 1] == n + [true] + seq(j - 1, _ => false);
      UnpadZeros(n, j - 1);
    }
  }

  /** A padded message fills whole blocks, and the message can be read back from it. */
  lemma PaddingIsInvertible(n: seq<bool>)
    ensures var p := n + Pad101(RATE, |n|);
            && |p| % RATE == 0 && |p| > |n| + 1
            && p[|p| - 1] && Unpad(p[..|p| - 1]) == Some(n)
  {
    var j := PadZeros(RATE, |n|);
    var p := n + Pad101(RATE, |n|);
    assert p[..|p| - 1] == n + [true] + seq(j, _ => false);
    UnpadZeros(n, j);
  }

  lemma {:induction false} ByteFromBits(a: Byte, b: Byte)
    requires forall z | 0 <= z < 8 :: BitAt(a, z) == BitAt(b, z)
    ensures a == b
  {
    SmallPowers();
    BitsDetermine(a, b, 8);
  }

  /** Byte strings with equal bits are equal. */
  lemma BitsOfInjective(a: Bytes, b: Bytes)
    requires BitsOf(a) == BitsOf(b)
    ensures a == b
  {
    assert |BitsOf(a)| == 8 * |a| && |BitsOf(b)| == 8 * |b|;
    forall k | 0 <= k < |a| ensures a[k] == b[k] {
      forall z | 0 <= z < 8 ensures BitAt(a[k], z) == BitAt(b[k], z) {
        assert BitsOf(a)[8 * k + z] == BitAt(a[k], z) && BitsOf(b)[8 * k + z] == BitAt(b[k], z);
      }
      ByteFromBits(a[k], b[k]);
    }
  }
}
