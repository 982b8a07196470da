/**
 The packed traits of a limit order (packages/operations/src/limit-orders.ts): building and parsing are mutual
 inverses. Canonical decimal strings stand for the numbers they spell.
 */
module MakerTraits {
  import opened Common
  import opened Bits
  import opened ByteStrings

  datatype Preference = SingleFill | PartialMultipleFill

  datatype Regime = BitInvalidator | RemainingInvalidator

  /** The fields of the projection that vary; the others are constants of version 1. */
  datatype Projection = Projection(
    raw: nat, noPartialFills: bool, allowMultipleFills: bool, nonceOrEpoch: nat, expiration: nat, regime: Regime)

  const UINT40_MAX := 0xff_ffff_ffff

  function FlagPosition(p: Preference): nat {
    if p == SingleFill then 255 else 254
  }

  /** The packed number: the nonce at bit 120, the expiry at bit 80, and one flag. */
  function Packed(p: Preference, nonce: nat, expiry: nat): nat {
    Or(Or(ShiftedUp(nonce, 120), ShiftedUp(expiry, 80)), Pow2(FlagPosition(p)))
  }

  function RegimeOf(p: Preference): Regime {
    if p == SingleFill then BitInvalidator else RemainingInvalidator
  }

  function ProjectionOf(p: Preference, nonce: nat, expiry: nat): Projection {
    Projection(Packed(p, nonce, expiry), p == SingleFill, p == PartialMultipleFill, nonce, expiry, RegimeOf(p))
  }

  predicate Buildable(nonce: int, expiry: int) {
    0 <= nonce <= UINT40_MAX && 0 < expiry <= UINT40_MAX
  }

  /** `buildMakerTraitsV1`; `None` is a thrown error. */
  method BuildMakerTraits(preference: Preference, nonceOrEpoch: int, expiry: int) returns (r: Option<Projection>)
    ensures r == if Buildable(nonceOrEpoch, expiry) then Some(ProjectionOf(preference, nonceOrEpoch, expiry)) else None
  {
    if nonceOrEpoch < 0 || nonceOrEpoch >= UINT256_LIMIT || expiry < 0 || expiry >= UINT256_LIMIT { return None; }
    if nonceOrEpoch > UINT40_MAX || expiry == 0 || expiry > UINT40_MAX { return None; }
    var raw := ShiftedUp(nonceOrEpoch, 120);
    raw := Or(raw, ShiftedUp(expiry, 80));
    if preference == SingleFill {
      raw := Or(raw, Pow2(255));
    } else {
      raw := Or(raw, Pow2(254));
    }
    return Some(Projection(raw, preference == SingleFill, preference == PartialMultipleFill, nonceOrEpoch, expiry,
                           if preference == SingleFill then BitInvalidator else RemainingInvalidator));
  }

  // ---------------------------------------------------------------- single bits

  predicate Forbidden(z: nat) {
    z < 80 || 160 <= z < 254
  }

  lemma OneBit(k: nat, z: nat)
    ensures BitAt(Pow2(k), z) == (z == k)
  {
    assert 1 * Pow2(k) == Pow2(k);
    ShiftLeftBit(1, k, z);
    if z > k { ZeroBit(z - k - 1); }
  }

  lemma {:induction false} OnesBit(k: nat, z: nat)
    ensures BitAt(Pow2(k) - 1, z) == (z < k)
  {
    if k == 0 {
      ZeroBit(z);
    } else {
      assert (Pow2(k) - 1) / 2 == Pow2(k - 1) - 1 && (Pow2(k) - 1) % 2 == 1;
      if z > 0 { OnesBit(k - 1, z - 1); }
    }
  }

  /** Bit `z` of the two fields. */
  lemma FieldsBit(nonce: nat, expiry: nat, z: nat)
    requires nonce < Pow2(40) && expiry < Pow2(40)
    ensures BitAt(Or(ShiftedUp(nonce, 120), ShiftedUp(expiry, 80)), z)
            == if z < 80 then false
               else if z < 120 then BitAt(expiry, z - 80)
               else if z < 160 then BitAt(nonce, z - 120)
               else false
  {
    OrBit(ShiftedUp(nonce, 120), ShiftedUp(expiry, 80), z);
    ShiftedUpBit(nonce, 120, z);
    ShiftedUpBit(expiry, 80, z);
    if z >= 120 { HighBit(expiry, 40, z - 80); }
    if z >= 160 { HighBit(nonce, 40, z - 120); }
  }

  /** Bit `z` of the packed number: of the expiry, of the nonce, or the flag. */
  lemma PackedBit(p: Preference, nonce: nat, expiry: nat, z: nat)
    requires nonce < Pow2(40) && expiry < Pow2(40)
    ensures BitAt(Packed(p, nonce, expiry), z)
            == if z < 80 then false
               else if z < 120 then BitAt(expiry, z - 80)
               else if z < 160 then BitAt(nonce, z - 120)
               else z == FlagPosition(p)
  {
    var fields := Or(ShiftedUp(nonce, 120), ShiftedUp(expiry, 80));
    OrBit(fields, Pow2(FlagPosition(p)), z);
    OneBit(FlagPosition(p), z);
    FieldsBit(nonce, expiry, z);
  }

  /** `mask | (((1n << BigInt(width)) - 1n) << BigInt(position))` */
  function WithField(mask: nat, width: nat, position: nat): nat {
    Or(mask, ShiftedUp(Pow2(width) - 1, position))
  }

  lemma WithFieldBit(mask: nat, width: nat, position: nat, z: nat)
    ensures BitAt(WithField(mask, width, position), z) == (BitAt(mask, z) || position <= z < position + width)
  {
    OrBit(mask, ShiftedUp(Pow2(width) - 1, position), z);
    ShiftedUpBit(Pow2(width) - 1, position, z);
    if z >= position { OnesBit(width, z - position); }
  }

  /** The forbidden mask of the parser, field by field. */
  method ForbiddenMask() returns (mask: nat)
    ensures forall z: nat :: BitAt(mask, z) == Forbidden(z)
  {
    var m0: nat := WithField(Pow2(253), 1, 252);
    var m1 := WithField(m0, 1, 251);
    var m2 := WithField(m1, 1, 250);
    var m3 := WithField(m2, 1, 249);
    var m4 := WithField(m3, 1, 248);
    var m5 := WithField(m4, 1, 247);
    var m6 := WithField(m5, 47, 200);
    var m7 := WithField(m6, 40, 160);
    mask := WithField(m7, 80, 0);
    forall z: nat ensures BitAt(mask, z) == Forbidden(z) {
      OneBit(253, z);
      WithFieldBit(Pow2(253), 1, 252, z);
      WithFieldBit(m0, 1, 251, z);
      WithFieldBit(m1, 1, 250, z);
      WithFieldBit(m2, 1, 249, z);
      WithFieldBit(m3, 1, 248, z);
      WithFieldBit(m4, 1, 247, z);
      WithFieldBit(m5, 47, 200, z);
      WithFieldBit(m6, 40, 160, z);
      WithFieldBit(m7, 80, 0, z);
    }
  }

  ghost predicate NoForbiddenBit(raw: nat) {
    forall z: nat | Forbidden(z) :: !BitAt(raw, z)
  }

  /** The mask test is exactly the absence of forbidden bits. */
  lemma MaskTest(raw: nat, mask: nat)
    requires raw < Pow2(256)
    requires forall z: nat :: BitAt(mask, z) == Forbidden(z)
    ensures And(raw, mask) == 0 <==> NoForbiddenBit(raw)
  {
    if And(raw, mask) == 0 {
      forall z: nat | Forbidden(z) ensures !BitAt(raw, z) {
        AndBit(raw, mask, z);
        ZeroBit(z);
      }
    }
    if NoForbiddenBit(raw) {
      AndAtMost(raw, mask);
      forall z | 0 <= z < 256 ensures BitAt(And(raw, mask), z) == BitAt(0, z) {
        AndBit(raw, mask, z);
        ZeroBit(z);
      }
      BitsDetermine(And(raw, mask), 0, 256);
    }
  }

  lemma {:induction false} AndAtMost(a: nat, b: nat)
    ensures And(a, b) <= a
    decreases a + b
  {
    if a != 0 && b != 0 { AndAtMost(a / 2, b / 2); }
  }

  // ---------------------------------------------------------------- parsing

  /** `(raw >> BigInt(position)) & UINT40_MAX` */
  function FieldAt(raw: nat, position: nat): nat {
    And(ShiftedDown(raw, position), UINT40_MAX)
  }

  lemma Pow40()
    ensures Pow2(40) == UINT40_MAX + 1
  {
    SmallPowers();
    Pow2Sum(32, 8);
  }

  lemma FieldBit(raw: nat, position: nat, z: nat)
    requires z < 40
    ensures FieldAt(raw, position) < Pow2(40)
    ensures BitAt(FieldAt(raw, position), z) == BitAt(raw, z + position)
  {
    Pow40();
    var shifted := ShiftedDown(raw, position);
    AndMask(shifted, 40);
    ModBit(shifted, 40, z);
    ShiftRightBit(raw, position, z);
  }

  /** `((raw >> BigInt(z)) & 1n) === 1n` */
  predicate FlagAt(raw: nat, z: nat) {
    And(ShiftedDown(raw, z), 1) == 1
  }

  lemma FlagIsBit(raw: nat, z: nat)
    ensures FlagAt(raw, z) == BitAt(raw, z)
  {
    SmallPowers();
    AndMask(ShiftedDown(raw, z), 1);
    ShiftRightBit(raw, z, 0);
  }

  function PreferenceOf(raw: nat): Preference {
    if BitAt(raw, 255) then SingleFill else PartialMultipleFill
  }

  /** The numbers the parser accepts. */
  ghost predicate Accepted(raw: int) {
    && 0 <= raw < UINT256_LIMIT
    && NoForbiddenBit(raw) && BitAt(raw, 255) != BitAt(raw, 254) && FieldAt(raw, 80) != 0
  }

  /** `parseMakerTraitsV1`: the mask, the flags, then the builder again. */
  method ParseMakerTraits(raw: int) returns (r: Option<Projection>)
    ensures r.Some? <==> Accepted(raw)
    ensures r.Some? ==> r.value == ProjectionOf(PreferenceOf(raw), FieldAt(raw, 120), FieldAt(raw, 80))
  {
    if raw < 0 || raw >= UINT256_LIMIT { return None; }
    FlagIsBit(raw, 255);
    FlagIsBit(raw, 254);
    var noPartialFills := FlagAt(raw, 255);
    var allowMultipleFills := FlagAt(raw, 254);
    var mask := ForbiddenMask();
    LimitIsPower();
    MaskTest(raw, mask);
    if And(raw, mask) != 0 || noPartialFills == allowMultipleFills { return None; }
    Pow40();
    FieldBit(raw, 120, 0);
    FieldBit(raw, 80, 0);
    r := BuildMakerTraits(if noPartialFills then SingleFill else PartialMultipleFill, FieldAt(raw, 120), FieldAt(raw, 80));
  }

  // ---------------------------------------------------------------- mutual inverses

  lemma PackedBelow(p: Preference, nonce: nat, expiry: nat)
    requires nonce < Pow2(40) && expiry < Pow2(40)
    ensures Packed(p, nonce, expiry) < Pow2(256)
  {
    ShiftedBelow(nonce, 40, 120);
    ShiftedBelow(expiry, 40, 80);
    PowerBelow(FlagPosition(p), 256);
    OrBound(ShiftedUp(nonce, 120), ShiftedUp(expiry, 80), 256);
    OrBound(Or(ShiftedUp(nonce, 120), ShiftedUp(expiry, 80)), Pow2(FlagPosition(p)), 256);
  }

  lemma ProductBelow(v: nat, p: nat, q: nat)
    requires v < q
    ensures v * p + p <= q * p
  {
    MulMonotone(p, v + 1, q);
    MulStep(p, v);
  }

  lemma ShiftedBelow(v: nat, w: nat, k: nat)
    requires v < Pow2(w) && w + k <= 256
    ensures ShiftedUp(v, k) < Pow2(256)
  {
    var p, q := Pow2(k), Pow2(w);
    assert Pow2(w + k) == q * p by { Pow2Sum(w, k); }
    ProductBelow(v, p, q);
    PowerGrows(w + k, 256);
  }

  lemma {:induction false} PowerGrows(a: nat, b: nat)
    requires a <= b
    ensures Pow2(a) <= Pow2(b)
    decreases b
  {
    if a < b { PowerGrows(a, b - 1); }
  }

  lemma PowerBelow(a: nat, b: nat)
    requires a < b
    ensures Pow2(a) < Pow2(b)
  {
    PowerGrows(a + 1, b);
    assert Pow2(a + 1) == 2 * Pow2(a);
  }

  /** Parsing what was built returns the preference, the nonce and the expiry, and the same number. */
  lemma ParseOfBuilt(p: Preference, nonce: nat, expiry: nat)
    requires Buildable(nonce, expiry)
    ensures Accepted(Packed(p, nonce, expiry))
    ensures PreferenceOf(Packed(p, nonce, expiry)) == p
    ensures FieldAt(Packed(p, nonce, expiry), 120) == nonce && FieldAt(Packed(p, nonce, expiry), 80) == expiry
  {
    var raw := Packed(p, nonce, expiry);
    Pow40();
    LimitIsPower();
    PackedBelow(p, nonce, expiry);
    PackedBit(p, nonce, expiry, 255);
    PackedBit(p, nonce, expiry, 254);
    forall z: nat | Forbidden(z) ensures !BitAt(raw, z) {
      PackedBit(p, nonce, expiry, z);
    }
    FieldBit(raw, 120, 0);
    FieldBit(raw, 80, 0);
    forall z | 0 <= z < 40
      ensures BitAt(FieldAt(raw, 120), z) == BitAt(nonce, z) && BitAt(FieldAt(raw, 80), z) == BitAt(expiry, z)
    {
      FieldBit(raw, 120, z);
      FieldBit(raw, 80, z);
      PackedBit(p, nonce, expiry, z + 120);
      PackedBit(p, nonce, expiry, z + 80);
    }
    BitsDetermine(FieldAt(raw, 120), nonce, 40);
    BitsDetermine(FieldAt(raw, 80), expiry, 40);
  }

  /** `field` is what is left of `raw` after `position` bits, without what is above the next 40. */
  predicate IsPart(raw: nat, position: nat, field: nat) {
    field == raw / Pow2(position) % Pow2(40)
  }

  lemma FieldIsRemainder(raw: nat, position: nat)
    ensures IsPart(raw, position, FieldAt(raw, position))
  {
    Pow40();
    AndMask(ShiftedDown(raw, position), 40);
  }

  lemma FlagsAreBits(p: Preference, nonce: nat, expiry: nat)
    requires Buildable(nonce, expiry)
    ensures BitAt(Packed(p, nonce, expiry), 255) == (p == SingleFill)
    ensures BitAt(Packed(p, nonce, expiry), 254) == (p == PartialMultipleFill)
  {
    Pow40();
    PackedBit(p, nonce, expiry, 255);
    PackedBit(p, nonce, expiry, 254);
  }

  /** What the fields of a projection say about its number: flags are bits, nonce and expiry are remainders of quotients. */
  lemma ProjectionMeans(p: Preference, nonce: nat, expiry: nat, r: Projection)
    requires Buildable(nonce, expiry) && r == ProjectionOf(p, nonce, expiry)
    ensures r.noPartialFills == BitAt(r.raw, 255) && r.allowMultipleFills == BitAt(r.raw, 254)
    ensures r.regime.BitInvalidator? <==> !r.allowMultipleFills
    ensures IsPart(r.raw, 120, r.nonceOrEpoch) && IsPart(r.raw, 80, r.expiration)
  {
    ParseOfBuilt(p, nonce, expiry);
    FlagsAreBits(p, nonce, expiry);
    FieldIsRemainder(r.raw, 120);
    FieldIsRemainder(r.raw, 80);
  }

  /** `field` has the 40 bits of `raw` from `position` on. */
  ghost predicate IsField(raw: nat, position: nat, field: nat) {
    field < Pow2(40) && forall z | position <= z < position + 40 :: BitAt(field, z - position) == BitAt(raw, z)
  }

  lemma FieldIsField(raw: nat, position: nat)
    ensures IsField(raw, position, FieldAt(raw, position))
  {
    FieldBit(raw, position, 0);
    forall z | position <= z < position + 40 ensures BitAt(FieldAt(raw, position), z - position) == BitAt(raw, z) {
      FieldBit(raw, position, z - position);
    }
  }

  lemma RebuiltBit(raw: nat, p: Preference, nonce: nat, expiry: nat, z: nat)
    requires IsField(raw, 120, nonce) && IsField(raw, 80, expiry) && NoForbiddenBit(raw)
    requires BitAt(raw, 255) != BitAt(raw, 254) && p == PreferenceOf(raw) && z < 256
    ensures BitAt(Packed(p, nonce, expiry), z) == BitAt(raw, z)
  {
    PackedBit(p, nonce, expiry, z);
    if z < 80 || 160 <= z < 254 {
      assert Forbidden(z);
    } else if z < 120 {
      assert BitAt(expiry, z - 80) == BitAt(raw, z);
    } else if z < 160 {
      assert BitAt(nonce, z - 120) == BitAt(raw, z);
    } else {
      assert z == 254 || z == 255;
    }
  }

  lemma Rebuilt(raw: nat, p: Preference, nonce: nat, expiry: nat)
    requires raw < Pow2(256) && IsField(raw, 120, nonce) && IsField(raw, 80, expiry) && NoForbiddenBit(raw)
    requires BitAt(raw, 255) != BitAt(raw, 254) && p == PreferenceOf(raw)
    ensures Packed(p, nonce, expiry) == raw
  {
    PackedBelow(p, nonce, expiry);
    forall z | 0 <= z < 256 ensures BitAt(Packed(p, nonce, expiry), z) == BitAt(raw, z) {
      RebuiltBit(raw, p, nonce, expiry, z);
    }
    BitsDetermine(Packed(p, nonce, expiry), raw, 256);
  }

  /** Rebuilding an accepted number returns that number: fields, flags and forbidden bits cover all 256 bits. */
  lemma BuiltOfParsed(raw: nat)
    requires Accepted(raw)
    ensures Buildable(FieldAt(raw, 120), FieldAt(raw, 80))
    ensures Packed(PreferenceOf(raw), FieldAt(raw, 120), FieldAt(raw, 80)) == raw
  {
    Pow40();
    LimitIsPower();
    FieldIsField(raw, 120);
    FieldIsField(raw, 80);
    Rebuilt(raw, PreferenceOf(raw), FieldAt(raw, 120), FieldAt(raw, 80));
  }
}
