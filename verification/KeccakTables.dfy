/**
 The two tables of `keccakPermutation` (packages/operations/src/kernel.ts) hold what the algorithms of FIPS 202
 compute: the rotations are the offsets rho finds on its walk, the round constants come out of the shift register.
 */
module KeccakTables {
  import opened Bits
  import opened Keccak

  const TWO64 := 0x1_0000_0000_0000_0000

  type BigLane = v: int | 0 <= v < TWO64

  const KECCAK_ROTATION: seq<nat> := [
    0, 1, 62, 28, 27, 36, 44, 6, 55, 20, 3, 10, 43, 25, 39, 41, 45, 15, 21, 8, 18, 2, 61, 56, 14]

  const KECCAK_ROUND: seq<BigLane> := [
    0x0000000000000001, 0x0000000000008082, 0x800000000000808a, 0x8000000080008000,
    0x000000000000808b, 0x0000000080000001, 0x8000000080008081, 0x8000000000008009,
    0x000000000000008a, 0x0000000000000088, 0x0000000080008009, 0x000000008000000a,
    0x000000008000808b, 0x800000000000008b, 0x8000000000008089, 0x8000000000008003,
    0x8000000000008002, 0x8000000000000080, 0x000000000000800a, 0x800000008000000a,
    0x8000000080008081, 0x8000000000008080, 0x0000000080000001, 0x8000000080008008]

  // ---------------------------------------------------------------- rotations

  /** The lanes the walk of rho visits, in order; after 24 steps it is back at its start. */
  const VISITED: seq<nat> := [1, 10, 7, 11, 17, 18, 3, 5, 16, 8, 21, 24, 4, 15, 23, 19, 13, 12, 2, 20, 14, 22, 9, 6, 1]

  /** When each lane but the first is visited. */
  const VISIT: seq<nat> := [0, 0, 18, 6, 12, 7, 23, 2, 9, 22, 1, 3, 17, 16, 20, 13, 8, 4, 5, 15, 19, 10, 21, 14, 11]

  /** At step `t` the walk is at lane `i`, which the table turns by `turn`, and goes on to lane `next`. */
  predicate IsVisit(t: nat, i: nat, turn: nat, next: nat) {
    || (t == 0 && i == 1 && turn == 1 && next == 10)
    || (t == 1 && i == 10 && turn == 3 && next == 7)
    || (t == 2 && i == 7 && turn == 6 && next == 11)
    || (t == 3 && i == 11 && turn == 10 && next == 17)
    || (t == 4 && i == 17 && turn == 15 && next == 18)
    || (t == 5 && i == 18 && turn == 21 && next == 3)
    || (t == 6 && i == 3 && turn == 28 && next == 5)
    || (t == 7 && i == 5 && turn == 36 && next == 16)
    || (t == 8 && i == 16 && turn == 45 && next == 8)
    || (t == 9 && i == 8 && turn == 55 && next == 21)
    || (t == 10 && i == 21 && turn == 2 && next == 24)
    || (t == 11 && i == 24 && turn == 14 && next == 4)
    || (t == 12 && i == 4 && turn == 27 && next == 15)
    || (t == 13 && i == 15 && turn == 41 && next == 23)
    || (t == 14 && i == 23 && turn == 56 && next == 19)
    || (t == 15 && i == 19 && turn == 8 && next == 13)
    || (t == 16 && i == 13 && turn == 25 && next == 12)
    || (t == 17 && i == 12 && turn == 43 && next == 2)
    || (t == 18 && i == 2 && turn == 62 && next == 20)
    || (t == 19 && i == 20 && turn == 18 && next == 14)
    || (t == 20 && i == 14 && turn == 39 && next == 22)
    || (t == 21 && i == 22 && turn == 61 && next == 9)
    || (t == 22 && i == 9 && turn == 20 && next == 6)
    || (t == 23 && i == 6 && turn == 44 && next == 1)
  }

  lemma VisitAt(t: nat)
    requires t < 24
    ensures VISITED[t] < 25 && IsVisit(t, VISITED[t], KECCAK_ROTATION[VISITED[t]], VISITED[t + 1])
  {
  }

  lemma EarlyTurn(t: nat, i: nat, turn: nat, next: nat)
    requires IsVisit(t, i, turn, next) && t < 12
    ensures turn == (t + 1) * (t + 2) / 2 % 64
  {
  }

  lemma LateTurn(t: nat, i: nat, turn: nat, next: nat)
    requires IsVisit(t, i, turn, next) && t >= 12
    ensures turn == (t + 1) * (t + 2) / 2 % 64
  {
  }

  /** The lane that the walk visits after lane `i`. */
  function NextLane(i: nat): nat {
    i / 5 + 5 * ((2 * (i % 5) + 3 * (i / 5)) % 5)
  }

  lemma EarlyNext(t: nat, i: nat, turn: nat, next: nat)
    requires IsVisit(t, i, turn, next) && t < 12
    ensures 0 < i < 25 && next == NextLane(i)
  {
  }

  lemma LateNext(t: nat, i: nat, turn: nat, next: nat)
    requires IsVisit(t, i, turn, next) && t >= 12
    ensures 0 < i < 25 && next == NextLane(i)
  {
  }

  /** Step `t` of a walk, against a table of rotations. */
  predicate VisitIsRight(visited: seq<nat>, rotation: seq<nat>, t: nat)
    requires t < 24 && |visited| == 25 && |rotation| == 25
  {
    && 0 < visited[t] < 25 && visited[t + 1] == NextLane(visited[t])
    && rotation[visited[t]] == (t + 1) * (t + 2) / 2 % 64
  }

  ghost predicate WalkIsRight(visited: seq<nat>, visit: seq<nat>, rotation: seq<nat>)
  {
    && |visited| == 25 && |visit| == 25 && |rotation| == 25
    && visited[0] == 1 && rotation[0] == 0
    && (forall t | 0 <= t < 24 :: VisitIsRight(visited, rotation, t))
    && (forall i | 0 < i < 25 :: visit[i] < 24 && visited[visit[i]] == i)
  }

  lemma LanesAreVisited()
    ensures forall i | 0 < i < 25 :: VISIT[i] < 24 && VISITED[VISIT[i]] == i
  {
  }

  lemma TablesAreRight()
    ensures WalkIsRight(VISITED, VISIT, KECCAK_ROTATION)
  {
    LanesAreVisited();
    forall t | 0 <= t < 24 ensures VisitIsRight(VISITED, KECCAK_ROTATION, t) {
      VisitAt(t);
      var i, turn, next := VISITED[t], KECCAK_ROTATION[VISITED[t]], VISITED[t + 1];
      if t < 12 {
        EarlyTurn(t, i, turn, next);
        EarlyNext(t, i, turn, next);
      } else {
        LateTurn(t, i, turn, next);
        LateNext(t, i, turn, next);
      }
    }
  }

  lemma Coordinates(x: nat, y: nat)
    requires x < 5
    ensures (x + 5 * y) % 5 == x && (x + 5 * y) / 5 == y
  {
  }

  lemma NextVisit(visited: seq<nat>, rotation: seq<nat>, t: nat, i: nat)
    requires t < 24 && |visited| == 25 && |rotation| == 25
    requires VisitIsRight(visited, rotation, t) && i == visited[t] && Walk(t) == (i % 5, i / 5)
    ensures Walk(t + 1) == (visited[t + 1] % 5, visited[t + 1] / 5)
  {
    Coordinates(i / 5, (2 * (i % 5) + 3 * (i / 5)) % 5);
  }

  lemma {:induction false} WalkIs(visited: seq<nat>, visit: seq<nat>, rotation: seq<nat>, t: nat)
    requires t < 24 && WalkIsRight(visited, visit, rotation)
    ensures visited[t] < 25 && Walk(t) == (visited[t] % 5, visited[t] / 5)
  {
    assert VisitIsRight(visited, rotation, t);
    if t > 0 {
      WalkIs(visited, visit, rotation, t - 1);
      NextVisit(visited, rotation, t - 1, visited[t - 1]);
    }
  }

  /** Wherever on the walk the search for lane `i` starts, it finds the rotation of the table. */
  lemma {:induction false} OffsetFrom(visited: seq<nat>, visit: seq<nat>, rotation: seq<nat>, i: nat, s: nat, t: nat)
    requires WalkIsRight(visited, visit, rotation)
    requires s <= t < 24 && visited[t] == i < 25
    ensures Offset(i % 5, i / 5, s) % 64 == rotation[i]
    decreases t - s
  {
    WalkIs(visited, visit, rotation, s);
    assert VisitIsRight(visited, rotation, s);
    if visited[s] != i {
      SameLane(visited[s], i);
      OffsetFrom(visited, visit, rotation, i, s + 1, t);
    }
  }

  lemma {:induction false} OriginIsStill(visited: seq<nat>, visit: seq<nat>, rotation: seq<nat>, s: nat)
    requires WalkIsRight(visited, visit, rotation)
    ensures Offset(0, 0, s) == 0
    decreases 24 - s
  {
    if s < 24 {
      WalkIs(visited, visit, rotation, s);
      assert VisitIsRight(visited, rotation, s);
      SameLane(visited[s], 0);
      OriginIsStill(visited, visit, rotation, s + 1);
    }
  }

  lemma SameLane(i: nat, j: nat)
    requires i != j
    ensures (i % 5, i / 5) != (j % 5, j / 5)
  {
  }

  lemma TurnOf(visited: seq<nat>, visit: seq<nat>, rotation: seq<nat>, i: nat)
    requires i < 25 && WalkIsRight(visited, visit, rotation)
    ensures Offset(i % 5, i / 5, 0) % 64 == rotation[i]
  {
    if i == 0 {
      OriginIsStill(visited, visit, rotation, 0);
    } else {
      OffsetFrom(visited, visit, rotation, i, 0, visit[i]);
    }
  }

  /** Every entry of the rotation table is the offset of its lane modulo the lane length. */
  lemma RotationIsOffset(i: nat)
    requires i < 25
    ensures Offset(i % 5, i / 5, 0) % 64 == KECCAK_ROTATION[i]
  {
    TablesAreRight();
    TurnOf(VISITED, VISIT, KECCAK_ROTATION, i);
  }

  // ---------------------------------------------------------------- round constants

  function Step(r: Register): Register {
    Register(r.r7, r.r0, r.r1, r.r2, ExclusiveOr(r.r3, r.r7), ExclusiveOr(r.r4, r.r7), ExclusiveOr(r.r5, r.r7), r.r6)
  }

  function LowPlaces(b0: bool, b1: bool, b2: bool, b3: bool): nat {
    (if b0 then 1 else 0) + (if b1 then 2 else 0) + (if b2 then 8 else 0) + (if b3 then 0x80 else 0)
  }

  function HighPlaces(low: nat, b4: bool, b5: bool, b6: bool): nat {
    low + (if b4 then 0x8000 else 0) + (if b5 then 0x8000_0000 else 0) + (if b6 then 0x8000_0000_0000_0000 else 0)
  }

  /** Seven bits, placed at the positions 2^j - 1. */
  function Places(b0: bool, b1: bool, b2: bool, b3: bool, b4: bool, b5: bool, b6: bool): nat {
    HighPlaces(LowPlaces(b0, b1, b2, b3), b4, b5, b6)
  }

  /** Adding a power of two above a number sets that bit alone. */
  lemma AddBit(v: nat, k: nat, b: bool, z: nat)
    requires v < Pow2(k)
    ensures BitAt(v + (if b then Pow2(k) else 0), z) == (if z == k then b else BitAt(v, z))
  {
    HighBit(v, k, if z >= k then z else k);
    if b {
      OrDisjoint(v, 1, k);
      OrBit(v, Pow2(k), z);
      ShiftLeftBit(1, k, z);
      if z > k { ZeroBit(z - k - 1); }
    }
  }

  lemma Powers64()
    ensures Pow2(0) == 1 && Pow2(1) == 2 && Pow2(3) == 8 && Pow2(7) == 0x80 && Pow2(15) == 0x8000
    ensures Pow2(31) == 0x8000_0000 && Pow2(63) == 0x8000_0000_0000_0000 && Pow2(64) == TWO64
  {
    SmallPowers();
    assert Pow2(8) == 2 * Pow2(7) && Pow2(16) == 2 * Pow2(15) && Pow2(32) == 2 * Pow2(31);
    Pow2Sum(32, 32);
    assert Pow2(64) == 2 * Pow2(63);
  }

  /** `AddBit` for a power of two written out. */
  lemma AddPlace(v: nat, k: nat, p: nat, b: bool, sum: nat, z: nat)
    requires v < p == Pow2(k) && sum == v + (if b then p else 0)
    ensures BitAt(sum, z) == (if z == k then b else BitAt(v, z))
    ensures sum < 2 * p
  {
    AddBit(v, k, b, z);
  }

  lemma LowPlacesBit(b0: bool, b1: bool, b2: bool, b3: bool, z: nat)
    ensures LowPlaces(b0, b1, b2, b3) < 0x100
    ensures BitAt(LowPlaces(b0, b1, b2, b3), z) == ((z == 0 && b0) || (z == 1 && b1) || (z == 3 && b2) || (z == 7 && b3))
  {
    Powers64();
    var v0: nat := if b0 then 1 else 0;
    var v1: nat := v0 + (if b1 then 2 else 0);
    var v2: nat := v1 + (if b2 then 8 else 0);
    ZeroBit(z);
    AddPlace(0, 0, 1, b0, v0, z);
    AddPlace(v0, 1, 2, b1, v1, z);
    AddPlace(v1, 3, 8, b2, v2, z);
    AddPlace(v2, 7, 0x80, b3, v2 + (if b3 then 0x80 else 0), z);
  }

  lemma PlacesBit(b0: bool, b1: bool, b2: bool, b3: bool, b4: bool, b5: bool, b6: bool, z: nat)
    ensures BitAt(Places(b0, b1, b2, b3, b4, b5, b6), z)
            == ((z == 0 && b0) || (z == 1 && b1) || (z == 3 && b2) || (z == 7 && b3) || (z == 15 && b4) || (z == 31 && b5)
                || (z == 63 && b6))
  {
    LowPlacesBit(b0, b1, b2, b3, z);
    HighPlacesBit(LowPlaces(b0, b1, b2, b3), b4, b5, b6, z);
  }

  lemma HighPlacesBit(low: nat, b4: bool, b5: bool, b6: bool, z: nat)
    requires low < 0x100
    ensures BitAt(HighPlaces(low, b4, b5, b6), z)
            == if z == 15 then b4 else if z == 31 then b5 else if z == 63 then b6 else BitAt(low, z)
  {
    Powers64();
    var v4: nat := low + (if b4 then 0x8000 else 0);
    var v5: nat := v4 + (if b5 then 0x8000_0000 else 0);
    AddPlace(low, 15, 0x8000, b4, v4, z);
    AddPlace(v4, 31, 0x8000_0000, b5, v5, z);
    AddPlace(v5, 63, 0x8000_0000_0000_0000, b6, HighPlaces(low, b4, b5, b6), z);
  }

  /** `c` is the RC of round `ir`. */
  ghost predicate IsRoundConstant(ir: nat, c: nat) {
    forall z: nat :: BitAt(c, z) == RoundConstantBit(ir, z)
  }

  /** The seven outputs from `t` on, placed in a number, are the bits of the constant. */
  lemma OutputsAre(ir: nat, t: nat, c: nat, o0: bool, o1: bool, o2: bool, o3: bool, o4: bool, o5: bool, o6: bool)
    requires t == 7 * ir && c == Places(o0, o1, o2, o3, o4, o5, o6)
    requires o0 == RegisterOutput(t) && o1 == RegisterOutput(t + 1) && o2 == RegisterOutput(t + 2)
    requires o3 == RegisterOutput(t + 3) && o4 == RegisterOutput(t + 4) && o5 == RegisterOutput(t + 5)
    requires o6 == RegisterOutput(t + 6)
    ensures IsRoundConstant(ir, c)
  {
    forall z: nat ensures BitAt(c, z) == RoundConstantBit(ir, z) {
      PlacesBit(o0, o1, o2, o3, o4, o5, o6, z);
    }
  }

  // ---------------------------------------------------------------- the table, row by row

  /** A register whose cells are the bits of a byte, R[0] the lowest. */
  function RegisterOf(b: bv8): Register {
    Register(b & 1 != 0, b & 2 != 0, b & 4 != 0, b & 8 != 0, b & 16 != 0, b & 32 != 0, b & 64 != 0, b & 128 != 0)
  }

  /** One step on the byte: R[7] moves into R[0] and is added into R[4], R[5] and R[6]. */
  function StepOf(b: bv8): bv8 {
    (b << 1) ^ ((0 - (b >> 7)) & 0x71)
  }

  lemma StepIs(b: bv8)
    ensures Step(RegisterOf(b)) == RegisterOf(StepOf(b))
  {
  }

  /** The register before each round, and after the last. */
  const REGISTERS: seq<bv8> := [
    0x01, 0x80, 0xd8, 0x1a, 0xdf, 0x09, 0x35, 0x4f, 0xca,
    0x70, 0x41, 0xec, 0xd5, 0xcd, 0x63, 0xab, 0xaa, 0x2a,
    0xf2, 0xe8, 0x37, 0x3e, 0x0b, 0x44, 0x8e]

  /** Before round `ir` the register is `b`, after it `next`, and the table has `c`. */
  predicate EarlyRow(ir: nat, b: bv8, next: bv8, c: nat) {
    || (ir == 0 && b == 0x01 && next == 0x80 && c == 0x0000000000000001)
    || (ir == 1 && b == 0x80 && next == 0xd8 && c == 0x0000000000008082)
    || (ir == 2 && b == 0xd8 && next == 0x1a && c == 0x800000000000808a)
    || (ir == 3 && b == 0x1a && next == 0xdf && c == 0x8000000080008000)
    || (ir == 4 && b == 0xdf && next == 0x09 && c == 0x000000000000808b)
    || (ir == 5 && b == 0x09 && next == 0x35 && c == 0x0000000080000001)
    || (ir == 6 && b == 0x35 && next == 0x4f && c == 0x8000000080008081)
    || (ir == 7 && b == 0x4f && next == 0xca && c == 0x8000000000008009)
    || (ir == 8 && b == 0xca && next == 0x70 && c == 0x000000000000008a)
    || (ir == 9 && b == 0x70 && next == 0x41 && c == 0x0000000000000088)
    || (ir == 10 && b == 0x41 && next == 0xec && c == 0x0000000080008009)
    || (ir == 11 && b == 0xec && next == 0xd5 && c == 0x000000008000000a)
  }

  predicate LateRow(ir: nat, b: bv8, next: bv8, c: nat) {
    || (ir == 12 && b == 0xd5 && next == 0xcd && c == 0x000000008000808b)
    || (ir == 13 && b == 0xcd && next == 0x63 && c == 0x800000000000008b)
    || (ir == 14 && b == 0x63 && next == 0xab && c == 0x8000000000008089)
    || (ir == 15 && b == 0xab && next == 0xaa && c == 0x8000000000008003)
    || (ir == 16 && b == 0xaa && next == 0x2a && c == 0x8000000000008002)
    || (ir == 17 && b == 0x2a && next == 0xf2 && c == 0x8000000000000080)
    || (ir == 18 && b == 0xf2 && next == 0xe8 && c == 0x000000000000800a)
    || (ir == 19 && b == 0xe8 && next == 0x37 && c == 0x800000008000000a)
    || (ir == 20 && b == 0x37 && next == 0x3e && c == 0x8000000080008081)
    || (ir == 21 && b == 0x3e && next == 0x0b && c == 0x8000000000008080)
    || (ir == 22 && b == 0x0b && next == 0x44 && c == 0x0000000080000001)
    || (ir == 23 && b == 0x44 && next == 0x8e && c == 0x8000000080008008)
  }

  predicate IsRow(ir: nat, b: bv8, next: bv8, c: nat) {
    EarlyRow(ir, b, next, c) || LateRow(ir, b, next, c)
  }

  lemma EarlyRowAt(ir: nat)
    requires ir < 12
    ensures EarlyRow(ir, REGISTERS[ir], REGISTERS[ir + 1], KECCAK_ROUND[ir])
  {
  }

  lemma LateRowAt(ir: nat)
    requires 12 <= ir < 24
    ensures LateRow(ir, REGISTERS[ir], REGISTERS[ir + 1], KECCAK_ROUND[ir])
  {
  }

  lemma RowAt(ir: nat)
    requires ir < 24
    ensures IsRow(ir, REGISTERS[ir], REGISTERS[ir + 1], KECCAK_ROUND[ir])
  {
    if ir < 12 { EarlyRowAt(ir); } else { LateRowAt(ir); }
  }

  /** In every row, seven steps lead on to the next register, and their outputs are the bits of the constant. */
  lemma RowSteps(ir: nat, b: bv8, next: bv8, c: nat, b1: bv8, b2: bv8, b3: bv8, b4: bv8, b5: bv8, b6: bv8)
    requires IsRow(ir, b, next, c)
    requires b1 == StepOf(b) && b2 == StepOf(b1) && b3 == StepOf(b2)
    requires b4 == StepOf(b3) && b5 == StepOf(b4) && b6 == StepOf(b5)
    ensures StepOf(b6) == next
    ensures Places(b & 1 != 0, b1 & 1 != 0, b2 & 1 != 0, b3 & 1 != 0, b4 & 1 != 0, b5 & 1 != 0, b6 & 1 != 0) == c
  {
  }

  lemma NextShift(t: nat, b: bv8)
    requires Shifted(t) == RegisterOf(b)
    ensures Shifted(t + 1) == RegisterOf(StepOf(b)) && RegisterOutput(t) == (b & 1 != 0)
  {
    StepIs(b);
  }

  lemma RowIs(ir: nat, t: nat, b: bv8, next: bv8, c: nat)
    requires IsRow(ir, b, next, c) && t == 7 * ir && Shifted(t) == RegisterOf(b)
    ensures IsRoundConstant(ir, c) && Shifted(t + 7) == RegisterOf(next)
  {
    var b1 := StepOf(b);
    var b2 := StepOf(b1);
    var b3 := StepOf(b2);
    var b4 := StepOf(b3);
    var b5 := StepOf(b4);
    var b6 := StepOf(b5);
    NextShift(t, b);
    NextShift(t + 1, b1);
    NextShift(t + 2, b2);
    NextShift(t + 3, b3);
    NextShift(t + 4, b4);
    NextShift(t + 5, b5);
    NextShift(t + 6, b6);
    RowSteps(ir, b, next, c, b1, b2, b3, b4, b5, b6);
    OutputsAre(ir, t, c, b & 1 != 0, b1 & 1 != 0, b2 & 1 != 0, b3 & 1 != 0, b4 & 1 != 0, b5 & 1 != 0, b6 & 1 != 0);
  }

  ghost predicate RowsAreRight(registers: seq<bv8>, constants: seq<nat>) {
    && |registers| == 25 && |constants| == 24 && registers[0] == 1
    && forall ir | 0 <= ir < 24 :: IsRow(ir, registers[ir], registers[ir + 1], constants[ir])
  }

  lemma FirstRegister()
    ensures Shifted(0) == RegisterOf(1)
  {
  }

  lemma {:induction false} RegisterIs(registers: seq<bv8>, constants: seq<nat>, ir: nat, t: nat)
    requires RowsAreRight(registers, constants) && ir < 24 && t == 7 * ir
    ensures Shifted(t) == RegisterOf(registers[ir])
  {
    if ir == 0 {
      FirstRegister();
    } else {
      RegisterIs(registers, constants, ir - 1, t - 7);
      RowIs(ir - 1, t - 7, registers[ir - 1], registers[ir], constants[ir - 1]);
    }
  }

  lemma ConstantIs(registers: seq<bv8>, constants: seq<nat>, ir: nat)
    requires RowsAreRight(registers, constants) && ir < 24
    ensures IsRoundConstant(ir, constants[ir])
  {
    RegisterIs(registers, constants, ir, 7 * ir);
    RowIs(ir, 7 * ir, registers[ir], registers[ir + 1], constants[ir]);
  }

  /** Every entry of the round constant table is the RC that the shift register makes for its round. */
  lemma RoundConstantIs(ir: nat)
    requires ir < 24
    ensures IsRoundConstant(ir, KECCAK_ROUND[ir])
  {
    forall k | 0 <= k < 24 ensures IsRow(k, REGISTERS[k], REGISTERS[k + 1], KECCAK_ROUND[k]) { RowAt(k); }
    ConstantIs(REGISTERS, KECCAK_ROUND, ir);
  }
}
