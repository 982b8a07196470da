/**
 The code of `keccak256Bytes` (packages/operations/src/kernel.ts) on big integers of 64 bits, proved to compute
 KECCAK[512] with 256 bits of output for every input.
 */
module KeccakCode {
  import opened Bits
  import opened Keccak
  import opened KeccakTables

  const MASK_64: BigLane := 0xffff_ffff_ffff_ffff

  /** The lane whose bit z is bit z of the number. */
  function LaneBits(v: nat): Lane {
    seq(64, z requires 0 <= z < 64 => BitAt(v, z))
  }

  function StateBits(s: seq<BigLane>): State
    requires |s| == 25
  {
    seq(25, i requires 0 <= i < 25 => LaneBits(s[i]))
  }

  // ---------------------------------------------------------------- operators on lanes

  /** `v & MASK_64` */
  method Masked(v: nat) returns (r: BigLane)
    ensures LaneBits(r) == LaneBits(v)
  {
    Powers64();
    AndMask(v, 64);
    r := And(v, MASK_64);
    forall z | 0 <= z < 64 ensures BitAt(r, z) == BitAt(v, z) {
      ModBit(v, 64, z);
    }
  }

  /** `a ^ b` */
  method XorCode(a: BigLane, b: BigLane) returns (r: BigLane)
    ensures LaneBits(r) == XorLanes(LaneBits(a), LaneBits(b))
  {
    Powers64();
    XorBound(a, b, 64);
    r := Xor(a, b);
    forall z | 0 <= z < 64 ensures BitAt(r, z) == ExclusiveOr(BitAt(a, z), BitAt(b, z)) {
      XorBit(a, b, z);
    }
  }

  lemma Wrapped(z: nat, n: nat)
    requires z < 64 && n < 64
    ensures (z - n) % 64 == (if z >= n then z - n else z + (64 - n))
  {
  }

  /** Bits that leave one end of the lane come back at the other. */
  lemma RotatedBit(v: nat, n: nat, z: nat)
    requires v < Pow2(64) && 0 < n < 64 && z < 64
    ensures BitAt(Or(ShiftedUp(v, n), ShiftedDown(v, 64 - n)), z) == BitAt(v, (z - n) % 64)
  {
    OrBit(ShiftedUp(v, n), ShiftedDown(v, 64 - n), z);
    ShiftedUpBit(v, n, z);
    ShiftRightBit(v, 64 - n, z);
    Wrapped(z, n);
    if z >= n {
      HighBit(v, 64, z + (64 - n));
    }
  }

  lemma RotatedLane(v: nat, n: nat)
    requires v < Pow2(64) && 0 < n < 64
    ensures LaneBits(Or(ShiftedUp(v, n), ShiftedDown(v, 64 - n))) == TurnedLane(LaneBits(v), n)
  {
    forall z | 0 <= z < 64
      ensures LaneBits(Or(ShiftedUp(v, n), ShiftedDown(v, 64 - n)))[z] == TurnedLane(LaneBits(v), n)[z]
    {
      RotatedBit(v, n, z);
    }
  }

  lemma NoTurn(l: Lane)
    ensures TurnedLane(l, 0) == l
  {
  }

  method RotateLeft64(value: BigLane, shift: nat) returns (r: BigLane)
    requires shift < 64
    ensures LaneBits(r) == TurnedLane(LaneBits(value), shift)
  {
    Powers64();
    if shift == 0 {
      NoTurn(LaneBits(value));
      r := Masked(value);
    } else {
      RotatedLane(value, shift);
      r := Masked(Or(ShiftedUp(value, shift), ShiftedDown(value, 64 - shift)));
    }
  }

  /** `~next & MASK_64 & nextNext` */
  method NotAndCode(next: BigLane, nextNext: BigLane) returns (r: BigLane)
    ensures forall z | 0 <= z < 64 :: LaneBits(r)[z] == (!LaneBits(next)[z] && LaneBits(nextNext)[z])
  {
    Powers64();
    var complement := MASK_64 - next;
    AndBound(complement, nextNext, 64);
    r := And(complement, nextNext);
    forall z | 0 <= z < 64 ensures BitAt(r, z) == (!BitAt(next, z) && BitAt(nextNext, z)) {
      AndBit(complement, nextNext, z);
      ComplementBit(next, 64, z);
    }
  }

  // ---------------------------------------------------------------- theta

  function ColumnLane(a: State, x: nat): Lane
    requires x < 5
  {
    seq(64, z requires 0 <= z < 64 => ColumnParity(a, x, z))
  }

  function EffectLane(a: State, x: nat): Lane
    requires x < 5
  {
    seq(64, z requires 0 <= z < 64 => ThetaEffect(a, x, z))
  }

  lemma ColumnLaneIs(a: State, x: nat)
    requires x < 5
    ensures ColumnLane(a, x) == XorLanes(XorLanes(XorLanes(XorLanes(a[x], a[x + 5]), a[x + 10]), a[x + 15]), a[x + 20])
  {
  }

  lemma EffectLaneIs(a: State, x: nat)
    requires x < 5
    ensures EffectLane(a, x) == XorLanes(ColumnLane(a, (x + 4) % 5), TurnedLane(ColumnLane(a, (x + 1) % 5), 1))
  {
  }

  lemma ThetaLaneIs(a: State, i: nat)
    requires i < 25
    ensures ThetaLane(a, i) == XorLanes(a[i], EffectLane(a, i % 5))
  {
  }

  method Columns(state: array<BigLane>) returns (column: array<BigLane>)
    requires state.Length == 25
    ensures fresh(column) && column.Length == 5
    ensures forall x | 0 <= x < 5 :: LaneBits(column[x]) == ColumnLane(StateBits(state[..]), x)
  {
    column := new BigLane[5](_ => 0);
    for x := 0 to 5
      invariant forall k | 0 <= k < x :: LaneBits(column[k]) == ColumnLane(StateBits(state[..]), k)
    {
      var v := XorCode(state[x], state[x + 5]);
      v := XorCode(v, state[x + 10]);
      v := XorCode(v, state[x + 15]);
      v := XorCode(v, state[x + 20]);
      ColumnLaneIs(StateBits(state[..]), x);
      column[x] := v;
    }
  }

  method EffectCode(left: BigLane, right: BigLane, ghost a: State, ghost x: nat) returns (v: BigLane)
    requires x < 5 && LaneBits(left) == ColumnLane(a, (x + 4) % 5) && LaneBits(right) == ColumnLane(a, (x + 1) % 5)
    ensures LaneBits(v) == EffectLane(a, x)
  {
    EffectLaneIs(a, x);
    var turned := RotateLeft64(right, 1);
    v := XorCode(left, turned);
  }

  method Effects(column: array<BigLane>, ghost a: State) returns (delta: array<BigLane>)
    requires column.Length == 5
    requires forall x | 0 <= x < 5 :: LaneBits(column[x]) == ColumnLane(a, x)
    ensures fresh(delta) && delta.Length == 5
    ensures forall x | 0 <= x < 5 :: LaneBits(delta[x]) == EffectLane(a, x)
  {
    delta := new BigLane[5](_ => 0);
    for x := 0 to 5
      invariant forall k | 0 <= k < x :: LaneBits(delta[k]) == EffectLane(a, k)
    {
      delta[x] := EffectCode(column[(x + 4) % 5], column[(x + 1) % 5], a, x);
    }
  }

  method ThetaLaneCode(lane: BigLane, effect: BigLane, ghost a: State, ghost index: nat) returns (v: BigLane)
    requires index < 25 && LaneBits(lane) == a[index] && LaneBits(effect) == EffectLane(a, index % 5)
    ensures LaneBits(v) == Theta(a)[index]
  {
    ThetaLaneIs(a, index);
    var r := XorCode(lane, effect);
    v := Masked(r);
  }

  /** The lanes of `s` from `lo` up to `hi` hold the bits of those of `a`. */
  ghost predicate LanesAre(s: seq<BigLane>, a: State, lo: nat, hi: nat)
    requires |s| == 25
  {
    forall j | lo <= j < hi && j < 25 :: LaneBits(s[j]) == a[j]
  }

  lemma LanesOfState(s: seq<BigLane>, a: State)
    requires |s| == 25
    ensures LanesAre(s, a, 0, 25) <==> StateBits(s) == a
  {
    assert forall j | 0 <= j < 25 :: StateBits(s)[j] == LaneBits(s[j]);
    if LanesAre(s, a, 0, 25) { assert StateBits(s) == a; }
  }

  /** Where lanes are replaced one after the other, those before `i` are new and the rest is still old. */
  lemma NextLaneIs(s: seq<BigLane>, old': State, new': State, i: nat, v: BigLane)
    requires |s| == 25 && i < 25 && LanesAre(s, new', 0, i) && LanesAre(s, old', i, 25) && LaneBits(v) == new'[i]
    ensures LanesAre(s[i := v], new', 0, i + 1) && LanesAre(s[i := v], old', i + 1, 25)
  {
  }

  method ApplyEffects(state: array<BigLane>, delta: array<BigLane>, ghost a: State)
    requires state.Length == 25 && delta.Length == 5 && delta != state && StateBits(state[..]) == a
    requires forall x | 0 <= x < 5 :: LaneBits(delta[x]) == EffectLane(a, x)
    modifies state
    ensures StateBits(state[..]) == Theta(a)
  {
    LanesOfState(state[..], a);
    for index := 0 to 25
      invariant LanesAre(state[..], Theta(a), 0, index) && LanesAre(state[..], a, index, 25)
    {
      var v := ThetaLaneCode(state[index], delta[index % 5], a, index);
      NextLaneIs(state[..], a, Theta(a), index, v);
      ghost var next := state[..][index := v];
      state[index] := v;
      assert state[..] == next;
    }
    LanesOfState(state[..], Theta(a));
  }

  method ThetaCode(state: array<BigLane>)
    requires state.Length == 25
    modifies state
    ensures StateBits(state[..]) == Theta(StateBits(old(state[..])))
  {
    ghost var a := StateBits(state[..]);
    var column := Columns(state);
    var delta := Effects(column, a);
    ApplyEffects(state, delta, a);
  }

  // ---------------------------------------------------------------- rho and pi

  /** The lane that pi moves to `i`. */
  function PiSource(i: nat): (j: nat)
    requires i < 25
    ensures j < 25
  {
    (i % 5 + 3 * (i / 5)) % 5 + 5 * (i % 5)
  }

  /** Pi moves lane (x, y) to (y, 2x + 3y) and no other lane there. */
  lemma PiTarget(x: nat, y: nat, i: nat)
    requires x < 5 && y < 5 && i < 25
    ensures PiSource(i) == x + 5 * y <==> i == y + 5 * ((2 * x + 3 * y) % 5)
  {
    var p, q := i % 5, i / 5;
    assert i == p + 5 * q && p < 5 && q < 5;
    assert PiSource(i) == x + 5 * y <==> p == y && (p + 3 * q) % 5 == x;
    PiColumn(x, y, q);
  }

  lemma PiColumn(x: nat, y: nat, q: nat)
    requires x < 5 && y < 5 && q < 5
    ensures (y + 3 * q) % 5 == x <==> q == (2 * x + 3 * y) % 5
  {
  }

  lemma TurnedModulo(l: Lane, n: nat)
    ensures TurnedLane(l, n) == TurnedLane(l, n % 64)
  {
  }

  lemma RhoLane(a: State, j: nat, turn: nat)
    requires j < 25 && turn == Offset(j % 5, j / 5, 0) % 64
    ensures Rho(a)[j] == TurnedLane(a[j], turn)
  {
    TurnedModulo(a[j], Offset(j % 5, j / 5, 0));
  }

  lemma RhoPiLane(a: State, i: nat, j: nat, turn: nat)
    requires i < 25 && j == PiSource(i) && turn == Offset(j % 5, j / 5, 0) % 64
    ensures Pi(Rho(a))[i] == TurnedLane(a[j], turn)
  {
    RhoLane(a, j, turn);
    PiLane(Rho(a), i);
  }

  lemma PiLane(a: State, i: nat)
    requires i < 25
    ensures Pi(a)[i] == a[PiSource(i)]
  {
  }

  method RhoPiCode(state: array<BigLane>) returns (rotated: array<BigLane>)
    requires state.Length == 25
    ensures fresh(rotated) && rotated.Length == 25
    ensures StateBits(rotated[..]) == Pi(Rho(StateBits(state[..])))
  {
    ghost var a := StateBits(state[..]);
    rotated := new BigLane[25](_ => 0);
    for y := 0 to 5
      invariant forall i | 0 <= i < 25 && PiSource(i) < 5 * y :: LaneBits(rotated[i]) == Pi(Rho(a))[i]
    {
      for x := 0 to 5
        invariant forall i | 0 <= i < 25 && PiSource(i) < 5 * y + x :: LaneBits(rotated[i]) == Pi(Rho(a))[i]
      {
        var source := x + 5 * y;
        var target := y + 5 * ((2 * x + 3 * y) % 5);
        var turn := KECCAK_ROTATION[source];
        RotationIsOffset(source);
        PiTarget(x, y, target);
        RhoPiLane(a, target, source, turn);
        var v := RotateLeft64(state[source], turn);
        forall i | 0 <= i < 25 && PiSource(i) < 5 * y + x + 1 ensures i == target || PiSource(i) < 5 * y + x {
          PiTarget(x, y, i);
        }
        rotated[target] := v;
      }
    }
  }

  // ---------------------------------------------------------------- chi and iota

  lemma LaneIndex(x: nat, y: nat)
    requires x < 5 && y < 5
    ensures (x + 5 * y) % 5 == x && (x + 5 * y) / 5 == y
  {
  }

  method ChiLaneCode(rotated: array<BigLane>, x: nat, y: nat) returns (v: BigLane)
    requires rotated.Length == 25 && x < 5 && y < 5
    ensures LaneBits(v) == ChiLane(StateBits(rotated[..]), x + 5 * y)
  {
    var current := rotated[x + 5 * y];
    var next := rotated[(x + 1) % 5 + 5 * y];
    var nextNext := rotated[(x + 2) % 5 + 5 * y];
    var both := NotAndCode(next, nextNext);
    var r := XorCode(current, both);
    v := Masked(r);
    LaneIndex(x, y);
    ghost var a := StateBits(rotated[..]);
    forall z | 0 <= z < 64 ensures LaneBits(v)[z] == ChiLane(a, x + 5 * y)[z] {
      assert ChiLane(a, x + 5 * y)[z] == ChiBit(a, x, y, z);
    }
  }

  method ChiCode(rotated: array<BigLane>, state: array<BigLane>)
    requires rotated.Length == 25 && state.Length == 25 && rotated != state
    modifies state
    ensures StateBits(state[..]) == Chi(StateBits(old(rotated[..])))
  {
    ghost var a := StateBits(rotated[..]);
    for y := 0 to 5
      invariant forall i | 0 <= i < 5 * y :: LaneBits(state[i]) == ChiLane(a, i)
    {
      for x := 0 to 5
        invariant forall i | 0 <= i < 5 * y + x :: LaneBits(state[i]) == ChiLane(a, i)
      {
        state[x + 5 * y] := ChiLaneCode(rotated, x, y);
      }
    }
  }

  method IotaCode(state: array<BigLane>, ir: nat)
    requires state.Length == 25 && ir < 24
    modifies state
    ensures StateBits(state[..]) == Iota(StateBits(old(state[..])), ir)
  {
    ghost var a := StateBits(state[..]);
    RoundConstantIs(ir);
    var v := XorCode(state[0], KECCAK_ROUND[ir]);
    state[0] := Masked(v);
    assert LaneBits(state[0]) == Iota(a, ir)[0];
    forall i | 1 <= i < 25 ensures StateBits(state[..])[i] == a[i] {
    }
  }

  method RoundCode(state: array<BigLane>, ir: nat)
    requires state.Length == 25 && ir < 24
    modifies state
    ensures StateBits(state[..]) == Round(StateBits(old(state[..])), ir)
  {
    ThetaCode(state);
    var rotated := RhoPiCode(state);
    ChiCode(rotated, state);
    IotaCode(state, ir);
  }

  /** `keccakPermutation` is Keccak-p[1600, 24], in place. */
  method KeccakPermutation(state: array<BigLane>)
    requires state.Length == 25
    modifies state
    ensures StateBits(state[..]) == KeccakP(StateBits(old(state[..])), 24)
  {
    ghost var a := StateBits(state[..]);
    for ir := 0 to 24
      invariant StateBits(state[..]) == KeccakP(a, ir)
    {
      RoundCode(state, ir);
    }
  }
}
