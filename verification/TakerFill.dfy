/**
 What a taker pays: the fill arithmetic and the packed traits of `prepareLimitOrderTaker`
 (packages/operations/src/limit-orders.ts). Canonical decimal strings stand for the numbers they spell.
 */
module TakerFill {
  import opened Bits
  import opened MakerTraits

  const TAKER_THRESHOLD_MAX: nat := 0x1ff_ffff_ffff_ffff_ffff_ffff_ffff_ffff_ffff_ffff_ffff_ffff

  /** `Full` asks for all that is left, otherwise for an amount of the maker's asset. */
  datatype Fill = Full | MakingAmount(amount: nat)

  /** A checked order and the taker's observations. A valid order has positive amounts. */
  datatype TakerIntent = TakerIntent(
    makingAmount: nat, takingAmount: nat, expiry: nat, fill: Fill, maximumTakingAmount: nat, deadline: nat,
    currentTime: nat, currentAllowance: nat, makerBalance: nat, makerAllowance: nat, remainingMakingAmount: nat,
    receiverIsExplicit: bool, makerIsContract: bool)

  /** The maker's asset that this fill moves. */
  function Wanted(i: TakerIntent): nat {
    if i.fill.Full? then i.remainingMakingAmount else i.fill.amount
  }

  /** Neither deadline has passed, something is wanted, and it is left, held and approved. */
  predicate Available(i: TakerIntent) {
    && i.currentTime < i.deadline && i.currentTime < i.expiry
    && 0 < Wanted(i) <= i.remainingMakingAmount
    && Wanted(i) <= i.makerBalance && Wanted(i) <= i.makerAllowance
  }

  /** `r` is the least amount that meets the signed price for `making`. */
  predicate IsLeastCharge(i: TakerIntent, making: nat, r: int) {
    && r * i.makingAmount >= i.takingAmount * making
    && (r - 1) * i.makingAmount < i.takingAmount * making
  }

  function Charge(i: TakerIntent, making: nat): (r: nat)
    requires i.makingAmount > 0
  {
    var numerator := i.takingAmount * making + (i.makingAmount - 1);
    DivBound(numerator, i.makingAmount);
    numerator / i.makingAmount
  }

  lemma {:induction false} ChargeIsLeast(i: TakerIntent, making: nat)
    requires i.makingAmount > 0
    ensures IsLeastCharge(i, making, Charge(i, making))
  {
    CeilIsLeast(i.takingAmount * making, i.makingAmount, Charge(i, making));
  }

  lemma CeilIsLeast(n: nat, d: nat, r: nat)
    requires d > 0 && r == (n + (d - 1)) / d
    ensures r * d >= n && (r - 1) * d < n
  {
    var m := (n + (d - 1)) % d;
    assert n + (d - 1) == d * r + m;
    assert (r - 1) * d == r * d - d by { MulDistributes(d, r, -1); }
  }

  /** Only one amount is the least. */
  lemma LeastIsUnique(i: TakerIntent, making: nat, r: int, s: int)
    requires i.makingAmount > 0 && IsLeastCharge(i, making, r) && IsLeastCharge(i, making, s)
    ensures r == s
  {
    if r < s { MulMonotone(i.makingAmount, 0, s - 1 - r); MulDistributes(i.makingAmount, r, s - 1 - r); }
    if s < r { MulMonotone(i.makingAmount, 0, r - 1 - s); MulDistributes(i.makingAmount, s, r - 1 - s); }
  }

  // ---------------------------------------------------------------- the packed traits

  /** Bit 255 says the amount is the maker's, bit 251 that a receiver follows, the low 185 bits hold the threshold. */
  function TakerTraits(receiverIsExplicit: bool, threshold: nat): nat {
    Or(Or(Pow2(255), if receiverIsExplicit then Pow2(251) else 0), threshold)
  }

  lemma ThresholdPower()
    ensures Pow2(185) == TAKER_THRESHOLD_MAX + 1
  {
    SmallPowers();
    Square(32, 0x1_0000_0000);
    Square(64, 0x1_0000_0000_0000_0000);
    Pow2Sum(128, 32);
    Pow2Sum(160, 24);
    Pow2Sum(184, 1);
  }

  lemma TakerTraitsBit(receiverIsExplicit: bool, threshold: nat, z: nat)
    requires threshold <= TAKER_THRESHOLD_MAX
    ensures BitAt(TakerTraits(receiverIsExplicit, threshold), z)
            == if z < 185 then BitAt(threshold, z) else (z == 255 || (z == 251 && receiverIsExplicit))
  {
    var second := if receiverIsExplicit then Pow2(251) else 0;
    ThresholdPower();
    OrBit(Or(Pow2(255), second), threshold, z);
    OrBit(Pow2(255), second, z);
    OneBit(255, z);
    OneBit(251, z);
    ZeroBit(z);
    if z >= 185 { HighBit(threshold, 185, z); }
  }

  lemma ThresholdIsMasked(traits: nat, threshold: nat)
    requires threshold <= TAKER_THRESHOLD_MAX
    requires forall z | 0 <= z < 185 :: BitAt(traits, z) == BitAt(threshold, z)
    ensures And(traits, TAKER_THRESHOLD_MAX) == threshold
  {
    ThresholdPower();
    AndMask(traits, 185);
    forall z | 0 <= z < 185 ensures BitAt(traits % Pow2(185), z) == BitAt(threshold, z) {
      ModBit(traits, 185, z);
    }
    BitsDetermine(traits % Pow2(185), threshold, 185);
  }

  lemma TraitsFitAWord(receiverIsExplicit: bool, threshold: nat)
    requires threshold <= TAKER_THRESHOLD_MAX
    ensures TakerTraits(receiverIsExplicit, threshold) < Pow2(256)
  {
    var flag := if receiverIsExplicit then Pow2(251) else 0;
    ThresholdPower();
    PowerBelow(255, 256);
    PowerBelow(251, 256);
    PowerBelow(185, 256);
    OrBound(Pow2(255), flag, 256);
    OrBound(Or(Pow2(255), flag), threshold, 256);
  }

  /** Threshold and flag can be read back from the packed traits. */
  lemma TakerTraitsAreRecoverable(receiverIsExplicit: bool, threshold: nat)
    requires threshold <= TAKER_THRESHOLD_MAX
    ensures And(TakerTraits(receiverIsExplicit, threshold), TAKER_THRESHOLD_MAX) == threshold
    ensures BitAt(TakerTraits(receiverIsExplicit, threshold), 251) == receiverIsExplicit
    ensures BitAt(TakerTraits(receiverIsExplicit, threshold), 255)
    ensures forall z: nat | z >= 185 && z != 251 && z != 255 :: !BitAt(TakerTraits(receiverIsExplicit, threshold), z)
  {
    var traits := TakerTraits(receiverIsExplicit, threshold);
    forall z | 0 <= z < 185 ensures BitAt(traits, z) == BitAt(threshold, z) {
      TakerTraitsBit(receiverIsExplicit, threshold, z);
    }
    ThresholdIsMasked(traits, threshold);
    forall z: nat | z >= 185 && z != 251 && z != 255 ensures !BitAt(traits, z) {
      TakerTraitsBit(receiverIsExplicit, threshold, z);
    }
    TakerTraitsBit(receiverIsExplicit, threshold, 251);
    TakerTraitsBit(receiverIsExplicit, threshold, 255);
  }

  // ---------------------------------------------------------------- a whole order in parts

  function Total(fills: seq<nat>): nat {
    if fills == [] then 0 else Total(fills[..|fills| - 1]) + fills[|fills| - 1]
  }

  function TotalCharge(i: TakerIntent, fills: seq<nat>): nat
    requires i.makingAmount > 0
  {
    if fills == [] then 0 else TotalCharge(i, fills[..|fills| - 1]) + Charge(i, fills[|fills| - 1])
  }

  /** Every part rounds up by less than one unit. */
  lemma {:induction false} PartsRoundUp(i: TakerIntent, fills: seq<nat>)
    requires i.makingAmount > 0
    ensures TotalCharge(i, fills) * i.makingAmount >= i.takingAmount * Total(fills)
    ensures TotalCharge(i, fills) * i.makingAmount <= i.takingAmount * Total(fills) + |fills| * (i.makingAmount - 1)
  {
    if fills != [] {
      var front, last := fills[..|fills| - 1], fills[|fills| - 1];
      var m, t := i.makingAmount, i.takingAmount;
      PartsRoundUp(i, front);
      ChargeIsLeast(i, last);
      AddPart(m, TotalCharge(i, front), Charge(i, last), t, Total(front), last, |front|);
    }
  }

  lemma AddPart(m: nat, a: nat, c: nat, t: nat, x: nat, y: nat, n: nat)
    requires m > 0 && a * m >= t * x && a * m <= t * x + n * (m - 1)
    requires c * m >= t * y && (c - 1) * m < t * y
    ensures (a + c) * m >= t * (x + y) && (a + c) * m <= t * (x + y) + (n + 1) * (m - 1)
  {
    MulDistributes(m, a, c);
    MulDistributes(t, x, y);
    MulDistributes(m - 1, n, 1);
    MulDistributes(m, c, -1);
  }

  lemma AtLeast(c: nat, t: nat, m: nat)
    requires m > 0 && c * m >= t * m
    ensures c >= t
  {
    if c < t {
      MulMonotone(m, c + 1, t);
      MulStep(m, c);
    }
  }

  lemma Below(c: nat, t: nat, n: nat, m: nat)
    requires m > 0 && n > 0 && c * m <= t * m + n * (m - 1)
    ensures c < t + n
  {
    MulDistributes(n, m, -1);
    MulDistributes(m, t, n);
    if c >= t + n { MulMonotone(m, t + n, c); }
  }

  /**
   However an order is cut into fills, together they pay the signed amount or more, and the excess is below one unit
   per fill; one fill of the whole order pays exactly the signed amount.
   */
  lemma PartialFillsPayThePrice(i: TakerIntent, fills: seq<nat>)
    requires i.makingAmount > 0 && Total(fills) == i.makingAmount
    ensures i.takingAmount <= TotalCharge(i, fills) < i.takingAmount + |fills|
    ensures |fills| == 1 ==> TotalCharge(i, fills) == i.takingAmount
  {
    PartsRoundUp(i, fills);
    AtLeast(TotalCharge(i, fills), i.takingAmount, i.makingAmount);
    Below(TotalCharge(i, fills), i.takingAmount, |fills|, i.makingAmount);
  }
}
