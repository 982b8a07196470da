/** Padding, absorbing and output of `keccak256Bytes`. */
module KeccakSponge {
  import opened Common
  import opened Bits
  import opened Keccak
  import opened KeccakTables
  import opened KeccakCode

  const KECCAK_RATE_BYTES := 136

  // ---------------------------------------------------------------- padding

  /** `Math.floor(n / 136 + 1) * 136` bytes hold the message and exactly one run of padding bits. */
  lemma PaddedLengthIs(n: nat)
    ensures 8 * ((n / 136 + 1) * 136) == 8 * n + 2 + PadZeros(RATE, 8 * n)
    ensures (n / 136 + 1) * 136 > n
  {
    var q, r := n / 136, n % 136;
    assert n == 136 * q + r && -8 * n - 2 == -1088 * (q + 1) + (1086 - 8 * r);
    ModUnique(-8 * n - 2, 1088, -(q + 1), 1086 - 8 * r);
  }

  lemma ModUnique(v: int, d: nat, q: int, r: nat)
    requires d > 0 && v == d * q + r && r < d
    ensures v % d == r
  {
    var q', r' := v / d, v % d;
    assert d * q + r == d * q' + r';
    if q < q' { MulMonotone(d, 1, q' - q); MulDistributes(d, q, q' - q); }
    if q' < q { MulMonotone(d, 1, q - q'); MulDistributes(d, q', q - q'); }
  }

  lemma MarkerBits(z: nat)
    requires z < 8
    ensures BitAt(0x01, z) == (z == 0) && BitAt(0x80, z) == (z == 7) && !BitAt(0, z)
  {
    ZeroBit(z);
    AddBit(0, 0, true, z);
    Powers64();
    AddBit(0, 7, true, z);
  }

  /** The byte at `k` after both markers are xored into zeros; one byte can take both. */
  function MarkedByte(k: nat, first: nat, last: nat): nat {
    Xor(Xor(0, if k == first then 0x01 else 0), if k == last then 0x80 else 0)
  }

  lemma MarkedBit(k: nat, first: nat, last: nat, z: nat)
    requires z < 8
    ensures BitAt(MarkedByte(k, first, last), z) == ((k == first && z == 0) || (k == last && z == 7))
  {
    var one := if k == first then 0x01 else 0;
    var high := if k == last then 0x80 else 0;
    MarkerBits(z);
    XorBit(0, one, z);
    XorBit(Xor(0, one), high, z);
  }

  lemma {:induction false} XorZero(a: nat)
    ensures Xor(0, a) == a && Xor(a, 0) == a
  {
    if a > 0 { XorZero(a / 2); }
  }

  lemma MarkedByteIs(k: nat, first: nat, last: nat)
    ensures MarkedByte(k, first, last) < 0x100
    ensures k != first ==> MarkedByte(k, first, last) == if k == last then Xor(0, 0x80) else 0
    ensures k == first ==> MarkedByte(k, first, last) == if k == last then Xor(Xor(0, 0x01), 0x80) else Xor(0, 0x01)
  {
    XorZero(0);
    XorZero(1);
    XorZero(0x80);
    SmallPowers();
    XorBound(1, 0x80, 8);
  }

  /** The bits past the message are exactly pad10*1. */
  lemma PaddedBits(input: Bytes, padded: Bytes)
    requires |padded| == (|input| / 136 + 1) * 136 && |input| < |padded| && padded[..|input|] == input
    requires forall k | |input| <= k < |padded| :: padded[k] as int == MarkedByte(k, |input|, |padded| - 1)
    ensures BitsOf(padded) == BitsOf(input) + Pad101(RATE, |BitsOf(input)|)
  {
    var n := |input|;
    PaddedLengthIs(n);
    var expected := BitsOf(input) + Pad101(RATE, 8 * n);
    assert |BitsOf(input)| == 8 * n && |expected| == 8 * |padded|;
    forall t | 0 <= t < 8 * |padded| ensures BitsOf(padded)[t] == expected[t] {
      if t < 8 * n {
        assert padded[t / 8] == input[t / 8];
      } else {
        MarkedBit(t / 8, n, |padded| - 1, t % 8);
        PadBit(BitsOf(input), t);
      }
    }
  }

  lemma PadBit(message: seq<bool>, t: nat)
    requires |message| <= t < |message + Pad101(RATE, |message|)|
    ensures var p := message + Pad101(RATE, |message|); p[t] == (t == |message| || t == |p| - 1)
  {
  }

  method XorByte(padded: array<Byte>, i: nat, marker: Byte)
    requires i < padded.Length
    modifies padded
    ensures padded[i] as int == Xor(old(padded[i]), marker)
    ensures forall k | 0 <= k < padded.Length && k != i :: padded[k] == old(padded[k])
  {
    SmallPowers();
    XorBound(padded[i], marker, 8);
    padded[i] := Xor(padded[i], marker);
  }

  /** Both markers are xored in, so that they also land well when they share a byte. */
  method MarkPadding(padded: array<Byte>, n: nat)
    requires n < padded.Length
    requires forall k | n <= k < padded.Length :: padded[k] == 0
    modifies padded
    ensures padded[..n] == old(padded[..n])
    ensures forall k | n <= k < padded.Length :: padded[k] as int == MarkedByte(k, n, padded.Length - 1)
  {
    XorByte(padded, n, 0x01);
    XorByte(padded, padded.Length - 1, 0x80);
    forall k | n <= k < padded.Length ensures padded[k] as int == MarkedByte(k, n, padded.Length - 1) {
      MarkedByteIs(k, n, padded.Length - 1);
    }
  }

  method PadMessage(input: Bytes) returns (padded: array<Byte>)
    ensures fresh(padded) && padded.Length % 136 == 0
    ensures BitsOf(padded[..]) == BitsOf(input) + Pad101(RATE, |BitsOf(input)|)
  {
    var paddedLength := (|input| / KECCAK_RATE_BYTES + 1) * KECCAK_RATE_BYTES;
    PaddedLengthIs(|input|);
    padded := new Byte[paddedLength](_ => 0);
    forall i | 0 <= i < |input| {
      padded[i] := input[i];
    }
    assert padded[..|input|] == input;
    MarkPadding(padded, |input|);
    PaddedBits(input, padded[..]);
  }

  // ---------------------------------------------------------------- absorbing

  /** A byte above the bits so far keeps the number in bound. */
  lemma NextByteBound(value: nat, b: Byte, k: nat)
    requires value < Pow2(8 * k)
    ensures Or(value, (b as int) * Pow2(8 * k)) < Pow2(8 * (k + 1))
  {
    var p := Pow2(8 * k);
    OrDisjoint(value, b, 8 * k);
    SmallPowers();
    Pow2Sum(8, 8 * k);
    MulMonotone(p, b, 0xff);
  }

  /** Or-ing a byte above the bits so far appends its bits. */
  lemma NextByteBits(value: nat, b: Byte, k: nat, z: nat)
    requires value < Pow2(8 * k)
    ensures z < 8 * k ==> BitAt(Or(value, (b as int) * Pow2(8 * k)), z) == BitAt(value, z)
    ensures 8 * k <= z < 8 * k + 8 ==> BitAt(Or(value, (b as int) * Pow2(8 * k)), z) == BitAt(b, z - 8 * k)
  {
    OrBit(value, (b as int) * Pow2(8 * k), z);
    ShiftLeftBit(b, 8 * k, z);
    if z >= 8 * k { HighBit(value, 8 * k, z); }
  }

  /** `value |= BigInt(b) << BigInt(8 * k)` */
  method AppendByte(value: nat, b: Byte, k: nat, ghost bytes: Bytes) returns (next: nat)
    requires |bytes| == k && value < Pow2(8 * k)
    requires forall z | 0 <= z < 8 * k :: BitAt(value, z) == BitsOf(bytes)[z]
    ensures next < Pow2(8 * (k + 1))
    ensures forall z | 0 <= z < 8 * (k + 1) :: BitAt(next, z) == BitsOf(bytes + [b])[z]
  {
    next := Or(value, (b as int) * Pow2(8 * k));
    NextByteBound(value, b, k);
    forall z | 0 <= z < 8 * (k + 1) ensures BitAt(next, z) == BitsOf(bytes + [b])[z] {
      NextByteBits(value, b, k, z);
      if z >= 8 * k {
        assert z / 8 == k && z % 8 == z - 8 * k;
      }
    }
  }

  method ReadLane(padded: array<Byte>, base: nat) returns (value: BigLane)
    requires base + 8 <= padded.Length
    ensures LaneBits(value) == BitsOf(padded[base..base + 8])
  {
    var v: nat := 0;
    for byte := 0 to 8
      invariant v < Pow2(8 * byte)
      invariant forall z | 0 <= z < 8 * byte :: BitAt(v, z) == BitsOf(padded[base..base + byte])[z]
    {
      v := AppendByte(v, padded[base + byte], byte, padded[base..base + byte]);
      assert padded[base..base + byte] + [padded[base + byte]] == padded[base..base + byte + 1];
    }
    Powers64();
    value := v;
  }

  lemma LaneOfBlock(block: Bytes, lane: nat)
    requires |block| == 136 && lane < 17
    ensures BlockLane(BitsOf(block), lane) == BitsOf(block[8 * lane..8 * lane + 8])
  {
    var all, piece := BitsOf(block), BitsOf(block[8 * lane..8 * lane + 8]);
    assert |all| == 1088 && |piece| == 64;
    forall z | 0 <= z < 64 ensures all[64 * lane + z] == piece[z] {
      assert (64 * lane + z) / 8 == 8 * lane + z / 8 && (64 * lane + z) % 8 == z % 8;
    }
  }

  lemma CapacityIsKept(a: State, block: seq<bool>, i: nat)
    requires |block| == RATE && 17 <= i < 25
    ensures Inject(a, block)[i] == a[i]
  {
  }

  method AbsorbLane(state: array<BigLane>, padded: array<Byte>, offset: nat, lane: nat) returns (v: BigLane)
    requires state.Length == 25 && lane < 17 && offset + 136 <= padded.Length
    ensures LaneBits(v) == XorLanes(LaneBits(state[lane]), BlockLane(BitsOf(padded[offset..offset + 136]), lane))
  {
    var base := offset + lane * 8;
    var value := ReadLane(padded, base);
    ghost var block := padded[offset..offset + 136];
    assert padded[base..base + 8] == block[8 * lane..8 * lane + 8];
    LaneOfBlock(block, lane);
    var r := XorCode(state[lane], value);
    v := Masked(r);
  }

  method AbsorbBlock(state: array<BigLane>, padded: array<Byte>, offset: nat)
    requires state.Length == 25 && offset + 136 <= padded.Length
    modifies state
    ensures StateBits(state[..]) == Inject(StateBits(old(state[..])), BitsOf(old(padded[offset..offset + 136])))
  {
    ghost var a, block := StateBits(state[..]), BitsOf(padded[offset..offset + 136]);
    LanesOfState(state[..], a);
    for lane := 0 to 17
      invariant LanesAre(state[..], Inject(a, block), 0, lane) && LanesAre(state[..], a, lane, 25)
    {
      var v := AbsorbLane(state, padded, offset, lane);
      NextLaneIs(state[..], a, Inject(a, block), lane, v);
      ghost var next := state[..][lane := v];
      state[lane] := v;
      assert state[..] == next;
    }
    CapacityStays(a, block, state[..]);
  }

  lemma CapacityStays(a: State, block: seq<bool>, s: seq<BigLane>)
    requires |block| == RATE && |s| == 25 && LanesAre(s, Inject(a, block), 0, 17) && LanesAre(s, a, 17, 25)
    ensures StateBits(s) == Inject(a, block)
  {
    forall j | 17 <= j < 25 { CapacityIsKept(a, block, j); }
    LanesOfState(s, Inject(a, block));
  }

  lemma OneMoreBlock(message: Bytes, offset: nat)
    requires offset + 136 <= |message|
    ensures Absorb(BitsOf(message[..offset + 136]))
            == KeccakP(Inject(Absorb(BitsOf(message[..offset])), BitsOf(message[offset..offset + 136])), 24)
  {
    var longer := message[..offset + 136];
    var p := BitsOf(longer);
    assert |p| == 8 * offset + 1088;
    FirstHalfBits(longer, offset);
    SecondHalfBits(longer, offset);
    assert longer[..offset] == message[..offset] && longer[offset..] == message[offset..offset + 136];
    AbsorbNext(p, 8 * offset);
  }

  lemma AbsorbNext(p: seq<bool>, n: nat)
    requires |p| == n + 1088
    ensures Absorb(p) == KeccakP(Inject(Absorb(p[..n]), p[n..]), 24)
  {
  }

  lemma FirstHalfBits(message: Bytes, offset: nat)
    requires offset <= |message|
    ensures |BitsOf(message)| == 8 * |message| && BitsOf(message)[..8 * offset] == BitsOf(message[..offset])
  {
    assert |BitsOf(message[..offset])| == 8 * offset;
  }

  lemma SecondHalfBits(message: Bytes, offset: nat)
    requires offset <= |message|
    ensures |BitsOf(message)| == 8 * |message| && BitsOf(message)[8 * offset..] == BitsOf(message[offset..])
  {
    var whole, rest := BitsOf(message), BitsOf(message[offset..]);
    assert |whole| == 8 * |message| && |rest| == 8 * (|message| - offset);
    forall t | 0 <= t < |rest| ensures whole[8 * offset + t] == rest[t] {
      assert (8 * offset + t) / 8 == offset + t / 8 && (8 * offset + t) % 8 == t % 8;
    }
  }

  lemma RoomForBlock(offset: nat, length: nat)
    requires offset < length && offset % 136 == 0 && length % 136 == 0
    ensures offset + 136 <= length && (offset + 136) % 136 == 0
  {
  }

  method AbsorbAndPermute(state: array<BigLane>, padded: array<Byte>, offset: nat)
    requires state.Length == 25 && offset + 136 <= padded.Length
    requires StateBits(state[..]) == Absorb(BitsOf(padded[..offset]))
    modifies state
    ensures StateBits(state[..]) == Absorb(BitsOf(old(padded[..offset + 136])))
  {
    ghost var message := padded[..];
    assert message[..offset] == padded[..offset] && message[..offset + 136] == padded[..offset + 136]
           && message[offset..offset + 136] == padded[offset..offset + 136];
    AbsorbBlock(state, padded, offset);
    KeccakPermutation(state);
    OneMoreBlock(message, offset);
  }

  method InitialState(ghost empty: Bytes) returns (state: array<BigLane>)
    requires empty == []
    ensures fresh(state) && state.Length == 25 && StateBits(state[..]) == Absorb(BitsOf(empty))
  {
    state := new BigLane[25](_ => 0);
    forall i | 0 <= i < 25 ensures StateBits(state[..])[i] == Absorb(BitsOf(empty))[i] {
      forall z | 0 <= z < 64 ensures !BitAt(0, z) { ZeroBit(z); }
      assert LaneBits(0) == ZeroLane();
    }
  }

  method AbsorbAll(padded: array<Byte>) returns (state: array<BigLane>)
    requires padded.Length % 136 == 0
    ensures fresh(state) && state.Length == 25 && StateBits(state[..]) == Absorb(BitsOf(padded[..]))
  {
    state := InitialState(padded[..0]);
    var offset := 0;
    while offset < padded.Length
      invariant 0 <= offset <= padded.Length && offset % 136 == 0
      invariant StateBits(state[..]) == Absorb(BitsOf(padded[..offset]))
    {
      RoomForBlock(offset, padded.Length);
      AbsorbAndPermute(state, padded, offset);
      offset := offset + KECCAK_RATE_BYTES;
    }
    assert padded[..offset] == padded[..];
  }

  // ---------------------------------------------------------------- output

  /** `Number((lane >> BigInt(8 * k)) & 0xffn)` */
  method ByteOfLane(lane: BigLane, k: nat) returns (b: Byte)
    requires k < 8
    ensures forall z | 0 <= z < 8 :: BitAt(b, z) == BitAt(lane, 8 * k + z)
  {
    SmallPowers();
    AndMask(ShiftedDown(lane, 8 * k), 8);
    b := And(ShiftedDown(lane, 8 * k), 0xff);
    forall z | 0 <= z < 8 ensures BitAt(b, z) == BitAt(lane, 8 * k + z) {
      ModBit(ShiftedDown(lane, 8 * k), 8, z);
      ShiftRightBit(lane, 8 * k, z);
    }
  }

  method OutputBytes(state: array<BigLane>) returns (output: Bytes)
    requires state.Length == 25
    ensures |output| == 32
    ensures forall t | 0 <= t < 256 :: BitsOf(output)[t] == StateBits(state[..])[t / 64][t % 64]
  {
    output := [];
    for index := 0 to 32
      invariant |output| == index
      invariant forall k, z | 0 <= k < index && 0 <= z < 8 :: BitAt(output[k], z) == BitAt(state[k / 8], 8 * (k % 8) + z)
    {
      var b := ByteOfLane(state[index / 8], index % 8);
      output := output + [b];
    }
    forall t | 0 <= t < 256 ensures BitsOf(output)[t] == StateBits(state[..])[t / 64][t % 64] {
      var k, z := t / 8, t % 8;
      assert k / 8 == t / 64 && 8 * (k % 8) + z == t % 64;
    }
  }

  /** `keccak256Bytes` returns the first 256 bits of KECCAK[512] of its input, whatever the input. */
  method Keccak256Bytes(input: Bytes) returns (output: Bytes)
    ensures BitsOf(output) == Keccak.Hash(BitsOf(input))
  {
    var padded := PadMessage(input);
    var state := AbsorbAll(padded);
    output := OutputBytes(state);
  }
}
