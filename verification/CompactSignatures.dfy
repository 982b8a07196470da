/** `compactSignature` (packages/operations/src/limit-orders.ts): the 64-byte form of EIP-2098, and what it keeps. */
module CompactSignatures {
  import opened Common
  import opened Bits
  import opened Abi
  import opened AbiCode

  /** `vs[0] | 0x80` if the recovery value says so. */
  function WithParity(s: Word, odd: bool): Word {
    if odd then SetHigh(s[0]); [Or(s[0], 0x80)] + s[1..] else s
  }

  lemma SetHigh(b: Byte)
    ensures Or(b, 0x80) < 0x100
    ensures b < 0x80 ==> Or(b, 0x80) == b + 0x80
    ensures b >= 0x80 ==> Or(b, 0x80) == b
  {
    SmallPowers();
    assert Pow2(8) == 2 * Pow2(7);
    OrBound(b, 0x80, 8);
    if b < 0x80 {
      OrDisjoint(b, 1, 7);
    } else {
      var low: nat := b - 0x80;
      OrDisjoint(low, 1, 7);
      forall z | 0 <= z < 8 ensures BitAt(Or(b, 0x80), z) == BitAt(b, z) {
        OrBit(b, 0x80, z);
        OrBit(low, 0x80, z);
      }
      BitsDetermine(Or(b, 0x80), b, 8);
    }
  }

  function Recovered(recovery: Byte): Option<bool> {
    if recovery == 0 || recovery == 27 then Some(false)
    else if recovery == 1 || recovery == 28 then Some(true)
    else None
  }

  /** `compactSignature` (EIP-2098): r, and s with the parity in its highest bit. */
  function CompactSignature(signature: Text): Option<(Word, Word)> {
    if !IsBytesText(signature) then None
    else
      var b := BytesOfText(signature);
      if |b| == 64 then Some((b[..32], b[32..]))
      else if |b| != 65 || Recovered(b[64]).None? then None
      else Some((b[..32], WithParity(b[32..64], Recovered(b[64]).value)))
  }

  // ---------------------------------------------------------------- what a compact signature keeps

  /** A signature on secp256k1: r, s and the parity of the recovery point. */
  datatype Signature = Signature(r: Word, s: Word, odd: bool)

  function WithoutParity(vs: Word): Word {
    [vs[0] % 0x80] + vs[1..]
  }

  /** How EIP-2098 reads a compact signature: the highest bit of the second word is the parity. */
  function ReadCompact(r: Word, vs: Word): Signature {
    Signature(r, WithoutParity(vs), vs[0] >= 0x80)
  }

  /** 64 bytes are compact already, 65 bytes are r, s and a recovery value: the parity, or 27 more than it. */
  predicate IsSignature(b: Bytes) {
    |b| == 64 || (|b| == 65 && b[64] < 54 && b[64] % 27 < 2)
  }

  function SignatureOf(b: Bytes): Signature
    requires IsSignature(b)
  {
    if |b| == 64 then ReadCompact(b[..32], b[32..])
    else Signature(b[..32], b[32..64], b[64] % 27 == 1)
  }

  lemma ClearedHigh(s: Word)
    ensures WithoutParity(s) == s <==> s[0] < 0x80
  {
    assert s == [s[0]] + s[1..];
    assert WithoutParity(s)[0] == s[0] % 0x80;
  }

  lemma SameWithoutParity(s: Word, vs: Word)
    requires vs[1..] == s[1..] && vs[0] % 0x80 == s[0] % 0x80
    ensures WithoutParity(vs) == WithoutParity(s)
  {
  }

  lemma ParityIsRead(s: Word, odd: bool, vs: Word)
    requires vs == WithParity(s, odd)
    ensures (vs[0] >= 0x80) == (odd || s[0] >= 0x80) && WithoutParity(vs) == WithoutParity(s)
  {
    if odd {
      HighByteOf(s, vs);
      SameWithoutParity(s, vs);
    }
  }

  lemma HighByteOf(s: Word, vs: Word)
    requires vs == WithParity(s, true)
    ensures vs[1..] == s[1..] && vs[0] >= 0x80 && vs[0] % 0x80 == s[0] % 0x80
  {
    SetHigh(s[0]);
    assert vs[0] == Or(s[0], 0x80);
  }

  /**
   The compact form of a signature text reads as the signature the text spells exactly when the text was compact
   already or the highest bit of its s is clear. A malformed text has no compact form.
   */
  lemma CompactIsReadable(t: Text)
    ensures CompactSignature(t).Some? <==> IsBytesText(t) && IsSignature(BytesOfText(t))
    ensures CompactSignature(t).Some? ==>
              (ReadCompact(CompactSignature(t).value.0, CompactSignature(t).value.1) == SignatureOf(BytesOfText(t))
               <==> |BytesOfText(t)| == 64 || BytesOfText(t)[32] < 0x80)
  {
    if IsBytesText(t) && IsSignature(BytesOfText(t)) && |BytesOfText(t)| == 65 {
      var b := BytesOfText(t);
      var s, odd := b[32..64], Recovered(b[64]).value;
      ParityIsRead(s, odd, WithParity(s, odd));
      ClearedHigh(s);
    }
  }

  /** Two texts that differ in parity alone have different compact forms exactly when the highest bit of s is clear. */
  lemma ParityIsKept(t: Text, t': Text)
    requires IsBytesText(t) && IsBytesText(t') && |BytesOfText(t)| == 65 && |BytesOfText(t')| == 65
    requires BytesOfText(t)[..64] == BytesOfText(t')[..64]
    requires BytesOfText(t)[64] in {0, 27} && BytesOfText(t')[64] in {1, 28}
    ensures CompactSignature(t) != CompactSignature(t') <==> BytesOfText(t)[32] < 0x80
  {
    var b, b' := BytesOfText(t), BytesOfText(t');
    assert b[..32] == b[..64][..32] && b'[..32] == b'[..64][..32];
    assert b[32..64] == b[..64][32..] && b'[32..64] == b'[..64][32..];
    var s := b[32..64];
    SetHigh(s[0]);
    if s[0] >= 0x80 { assert s == [s[0]] + s[1..]; }
    assert WithParity(s, true)[0] == Or(s[0], 0x80);
  }

  /** Signature texts whose s has a clear highest bit share a compact form only if they spell the same signature. */
  lemma CompactIsInjective(t: Text, t': Text)
    requires IsBytesText(t) && IsSignature(BytesOfText(t)) && IsBytesText(t') && IsSignature(BytesOfText(t'))
    requires CompactSignature(t) == CompactSignature(t')
    requires |BytesOfText(t)| == 64 || BytesOfText(t)[32] < 0x80
    requires |BytesOfText(t')| == 64 || BytesOfText(t')[32] < 0x80
    ensures SignatureOf(BytesOfText(t)) == SignatureOf(BytesOfText(t'))
  {
    CompactIsReadable(t);
    CompactIsReadable(t');
  }
}
