/** Byte strings: big-endian numbers, concatenation and lower-case hexadecimal. */
module ByteStrings {
  import opened Common
  import opened Bits

  // ---------------------------------------------------------------- numbers

  /** The `n` low bytes of `v`, most significant first. */
  function BigEndian(v: nat, n: nat): (b: Bytes)
    ensures |b| == n
  {
    if n == 0 then [] else BigEndian(v / 0x100, n - 1) + [v % 0x100]
  }

  function Zeros(n: nat): (b: Bytes)
    ensures |b| == n
  {
    seq(n, _ => 0)
  }

  lemma {:induction false} BigEndianAt(v: nat, n: nat, j: nat)
    requires j < n
    ensures BigEndian(v, n)[n - 1 - j] == v / Pow2(8 * j) % 0x100
  {
    if j > 0 {
      BigEndianAt(v / 0x100, n - 1, j - 1);
      SmallPowers();
      Pow2Sum(8, 8 * (j - 1));
      DivDiv(v, 0x100, Pow2(8 * (j - 1)));
    }
  }

  /** Byte `j` of a number, the lowest first. */
  function ByteAt(v: nat, j: nat): Byte {
    ShiftedDown(v, 8 * j) % 0x100
  }

  /** The number a byte string spells, most significant byte first. */
  function BigValue(b: Bytes): nat {
    if b == [] then 0 else BigValue(b[..|b| - 1]) * 0x100 + b[|b| - 1]
  }

  lemma {:induction false} ValueOfBigEndian(v: nat, n: nat)
    requires v < Pow2(8 * n)
    ensures BigValue(BigEndian(v, n)) == v
  {
    if n > 0 {
      SmallPowers();
      Pow2Sum(8, 8 * (n - 1));
      QuotientBelow(v, Pow2(8 * (n - 1)));
      ValueOfBigEndian(v / 0x100, n - 1);
      assert BigEndian(v, n)[..n - 1] == BigEndian(v / 0x100, n - 1);
    }
  }

  lemma QuotientBelow(v: nat, p: nat)
    requires v < 0x100 * p
    ensures v / 0x100 < p
  {
  }

  lemma LimitIsPower()
    ensures Pow2(256) == UINT256_LIMIT
  {
    SmallPowers();
    Square(32, 0x1_0000_0000);
    Square(64, 0x1_0000_0000_0000_0000);
    Square(128, 0x1_0000_0000_0000_0000_0000_0000_0000_0000);
  }

  // ---------------------------------------------------------------- concatenation

  function Flatten(parts: seq<Bytes>): Bytes {
    if parts == [] then [] else Flatten(parts[..|parts| - 1]) + parts[|parts| - 1]
  }

  lemma FlattenNext(parts: seq<Bytes>, part: Bytes)
    ensures Flatten(parts + [part]) == Flatten(parts) + part
  {
    assert (parts + [part])[..|parts|] == parts;
  }

  lemma FlattenOne(a: Bytes)
    ensures Flatten([a]) == a
  {
    FlattenNext([], a);
    assert [] + [a] == [a];
  }

  lemma {:induction false} FlattenSplit(a: seq<Bytes>, b: seq<Bytes>)
    ensures Flatten(a + b) == Flatten(a) + Flatten(b)
  {
    if b == [] {
      assert a + b == a;
    } else {
      FlattenSplit(a, b[..|b| - 1]);
      assert (a + b)[..|a + b| - 1] == a + b[..|b| - 1];
    }
  }

  // ---------------------------------------------------------------- hexadecimal

  function HexDigit(n: nat): Unit
    requires n < 16
  {
    if n < 10 then 0x30 + n else 0x57 + n
  }

  function HexValue(u: Unit): (n: nat)
    requires IsLowerHex(u)
    ensures n < 16 && HexDigit(n) == u
  {
    if IsDigit(u) then u - 0x30 else u - 0x57
  }

  /** `byte.toString(16).padStart(2, "0")` */
  function HexPair(b: Byte): (t: Text)
    ensures |t| == 2 && IsLowerHex(t[0]) && IsLowerHex(t[1])
  {
    [HexDigit(b / 16), HexDigit(b % 16)]
  }

  /** `Number.parseInt(hex.slice(2 * i, 2 * i + 2), 16)` */
  function PairValue(hi: Unit, lo: Unit): Byte
    requires IsLowerHex(hi) && IsLowerHex(lo)
  {
    HexValue(hi) * 16 + HexValue(lo)
  }

  lemma PairRoundTrip(b: Byte, hi: Unit, lo: Unit)
    ensures PairValue(HexPair(b)[0], HexPair(b)[1]) == b
    ensures IsLowerHex(hi) && IsLowerHex(lo) ==> HexPair(PairValue(hi, lo)) == [hi, lo]
  {
  }

  function Hex(b: Bytes): (t: Text)
    ensures IsHexPairs(t) && |t| == 2 * |b|
  {
    if b == [] then [] else Hex(b[..|b| - 1]) + HexPair(b[|b| - 1])
  }

  predicate IsHexPairs(t: Text) {
    |t| % 2 == 0 && forall i | 0 <= i < |t| :: IsLowerHex(t[i])
  }

  function Unhex(t: Text): (b: Bytes)
    requires IsHexPairs(t)
    ensures |b| == |t| / 2
  {
    if t == [] then [] else Unhex(t[..|t| - 2]) + [PairValue(t[|t| - 2], t[|t| - 1])]
  }

  lemma UnhexNext(t: Text, hi: Unit, lo: Unit)
    requires IsHexPairs(t) && IsLowerHex(hi) && IsLowerHex(lo)
    ensures IsHexPairs(t + [hi, lo]) && Unhex(t + [hi, lo]) == Unhex(t) + [PairValue(hi, lo)]
  {
    assert (t + [hi, lo])[..|t|] == t;
  }

  lemma HexNext(b: Bytes, last: Byte)
    ensures Hex(b + [last]) == Hex(b) + HexPair(last)
  {
    assert (b + [last])[..|b|] == b;
  }

  /** Lower-case hexadecimal and bytes are in bijection. */
  lemma {:induction false} HexOfUnhex(t: Text)
    requires IsHexPairs(t)
    ensures Hex(Unhex(t)) == t
  {
    if t != [] {
      var front, hi, lo := t[..|t| - 2], t[|t| - 2], t[|t| - 1];
      assert t == front + [hi, lo];
      HexOfUnhex(front);
      HexNext(Unhex(front), PairValue(hi, lo));
      PairRoundTrip(0, hi, lo);
    }
  }

  lemma {:induction false} UnhexOfHex(b: Bytes)
    ensures Unhex(Hex(b)) == b
  {
    if b != [] {
      var front, last := b[..|b| - 1], b[|b| - 1];
      UnhexOfHex(front);
      UnhexNext(Hex(front), HexPair(last)[0], HexPair(last)[1]);
      assert Hex(front) + HexPair(last) == Hex(front) + [HexPair(last)[0], HexPair(last)[1]];
      PairRoundTrip(last, 0x30, 0x30);
    }
  }
}
