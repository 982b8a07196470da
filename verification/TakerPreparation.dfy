/**
 The decisions of `prepareLimitOrderTaker` (packages/operations/src/limit-orders.ts) and the calldata of the fill it
 prepares. Canonical decimal strings stand for the numbers they spell.
 */
module TakerPreparation {
  import opened Common
  import opened Bits
  import opened ByteStrings
  import opened Abi
  import opened AbiCode
  import opened CompactSignatures
  import opened FillCalls
  import opened TakerFill

  datatype Outcome =
    | Thrown
    | NotFillable
    | Prerequisite(making: nat, taking: nat)
    | Prepared(making: nat, taking: nat, call: FillCall, calldata: Text)

  /** A validated order: eight words in the order of the contract's tuple, and a non-empty signature. */
  predicate IsSigned(i: TakerIntent, order: seq<int>, signature: Text) {
    && IsOrder(order) && order[5] == i.makingAmount && order[6] == i.takingAmount
    && i.makingAmount > 0 && i.takingAmount > 0
    && IsBytesText(signature) && signature != HEX_PREFIX
  }

  /** Nothing but the charge stands between the taker and the fill. */
  predicate Payable(i: TakerIntent)
    requires i.makingAmount > 0
  {
    && Available(i)
    && Charge(i, Wanted(i)) <= i.maximumTakingAmount <= TAKER_THRESHOLD_MAX
    && Charge(i, Wanted(i)) <= i.currentAllowance
  }

  /** The signature can be put into the call: as two words for a key, as a byte string for a contract. */
  predicate CanCarry(i: TakerIntent, signature: Text)
    requires IsBytesText(signature)
  {
    if !i.makerIsContract then CompactSignature(signature).Some?
    else
      && |BytesOfText(signature)| < UINT256_LIMIT
      && (i.receiverIsExplicit ==> 12 * 32 + |Enc(Dynamic(BytesOfText(signature)))| < UINT256_LIMIT)
  }

  function CallFor(i: TakerIntent, order: seq<int>, signature: Text, receiver: Text, name: FillFunction): FillCall {
    FillCall(name, order, signature, Wanted(i), TakerTraits(i.receiverIsExplicit, i.maximumTakingAmount),
             if i.receiverIsExplicit then receiver else HEX_PREFIX)
  }

  /** Contracts sign byte strings, keys sign words; a receiver other than the taker needs the variant with args. */
  predicate IsRightFunction(i: TakerIntent, name: FillFunction) {
    && (name.FillContractOrder? || name.FillContractOrderArgs? <==> i.makerIsContract)
    && (name.FillOrderArgs? || name.FillContractOrderArgs? <==> i.receiverIsExplicit)
  }

  /** The encoder throws for a prepared call exactly when the signature cannot be carried. */
  lemma EncodesIffCarried(i: TakerIntent, order: seq<int>, signature: Text, receiver: Text, f: FillCall)
    requires IsSigned(i, order, signature) && IsAddressText(receiver) && Wanted(i) < UINT256_LIMIT
    requires i.maximumTakingAmount <= TAKER_THRESHOLD_MAX && IsRightFunction(i, f.functionName)
    requires f == CallFor(i, order, signature, receiver, f.functionName)
    ensures Encodable(f) && Fits(Tuple(Arguments(f))) <==> CanCarry(i, signature)
  {
    NumbersAreWords(i);
    if Encodable(f) { ArgumentsAre(f); }
  }

  lemma NumbersAreWords(i: TakerIntent)
    requires i.maximumTakingAmount <= TAKER_THRESHOLD_MAX
    ensures IsWord(TakerTraits(i.receiverIsExplicit, i.maximumTakingAmount))
  {
    LimitIsPower();
    TraitsFitAWord(i.receiverIsExplicit, i.maximumTakingAmount);
  }

  /**
   The decisions in the order of the code. A prepared fill moves what is wanted for the least amount that meets the
   signed price; its calldata, read by the types of the called function, says exactly that, and the packed traits
   carry the taker's maximum. It throws for a maximum that the traits cannot hold, and for a signature that the call
   cannot carry, which it only finds out at the very end.
   */
  method PrepareTaker(i: TakerIntent, order: seq<int>, signature: Text, receiver: Text, selectorOf: FillFunction -> Bytes)
    returns (r: Outcome)
    requires IsSigned(i, order, signature) && IsAddressText(receiver) && i.remainingMakingAmount < UINT256_LIMIT
    ensures r.Thrown? <==> || (Available(i) && i.maximumTakingAmount > TAKER_THRESHOLD_MAX)
                           || (Payable(i) && !CanCarry(i, signature))
    ensures r.NotFillable?
            <==> (!Available(i)
                  || (i.maximumTakingAmount <= TAKER_THRESHOLD_MAX && Charge(i, Wanted(i)) > i.maximumTakingAmount))
    ensures r.Prerequisite? || r.Prepared? ==>
              && r.making == Wanted(i) && IsLeastCharge(i, r.making, r.taking)
              && r.taking <= i.maximumTakingAmount <= TAKER_THRESHOLD_MAX
    ensures r.Prerequisite? ==> i.currentAllowance < r.taking
    ensures r.Prepared? ==> r.taking <= i.currentAllowance && IsRightFunction(i, r.call.functionName)
    ensures r.Prepared? ==> r.call == CallFor(i, order, signature, receiver, r.call.functionName) && Encodable(r.call)
    ensures r.Prepared? ==> And(r.call.takerTraits, TAKER_THRESHOLD_MAX) == i.maximumTakingAmount
    ensures r.Prepared? ==> BitAt(r.call.takerTraits, 255) && BitAt(r.call.takerTraits, 251) == i.receiverIsExplicit
    ensures r.Prepared? ==>
              DecodeFillCall(r.call.functionName, selectorOf(r.call.functionName), r.calldata) == Some(Said(r.call))
  {
    if i.currentTime >= i.deadline || i.currentTime >= i.expiry { return NotFillable; }
    var required := i.remainingMakingAmount;
    if i.fill.MakingAmount? { required := i.fill.amount; }
    if required == 0 || required > i.remainingMakingAmount { return NotFillable; }
    var makerSpendable := if i.makerBalance < i.makerAllowance then i.makerBalance else i.makerAllowance;
    if makerSpendable < required { return NotFillable; }
    var taking := Charge(i, required);
    ChargeIsLeast(i, required);
    if i.maximumTakingAmount > TAKER_THRESHOLD_MAX { return Thrown; }
    if taking > i.maximumTakingAmount { return NotFillable; }
    if i.currentAllowance < taking { return Prerequisite(required, taking); }
    r := EncodeTaker(i, order, signature, receiver, selectorOf, taking);
  }

  /** The last part of the function: which fill function is called, with which arguments. */
  method EncodeTaker(i: TakerIntent, order: seq<int>, signature: Text, receiver: Text, selectorOf: FillFunction -> Bytes,
                     taking: nat)
    returns (r: Outcome)
    requires IsSigned(i, order, signature) && IsAddressText(receiver) && Wanted(i) < UINT256_LIMIT
    requires i.maximumTakingAmount <= TAKER_THRESHOLD_MAX
    ensures r.Thrown? <==> !CanCarry(i, signature)
    ensures r.Thrown? || r.Prepared?
    ensures r.Prepared? ==> r.making == Wanted(i) && r.taking == taking && IsRightFunction(i, r.call.functionName)
    ensures r.Prepared? ==> r.call == CallFor(i, order, signature, receiver, r.call.functionName) && Encodable(r.call)
    ensures r.Prepared? ==> And(r.call.takerTraits, TAKER_THRESHOLD_MAX) == i.maximumTakingAmount
    ensures r.Prepared? ==> BitAt(r.call.takerTraits, 255) && BitAt(r.call.takerTraits, 251) == i.receiverIsExplicit
    ensures r.Prepared? ==>
              DecodeFillCall(r.call.functionName, selectorOf(r.call.functionName), r.calldata) == Some(Said(r.call))
  {
    var name :=
      if i.makerIsContract then if i.receiverIsExplicit then FillContractOrderArgs else FillContractOrder
      else if i.receiverIsExplicit then FillOrderArgs else FillOrder;
    var takerTraits := TakerTraits(i.receiverIsExplicit, i.maximumTakingAmount);
    var args := if i.receiverIsExplicit then receiver else HEX_PREFIX;
    var call := FillCall(name, order, signature, Wanted(i), takerTraits, args);
    TakerTraitsAreRecoverable(i.receiverIsExplicit, i.maximumTakingAmount);
    EncodesIffCarried(i, order, signature, receiver, call);
    var calldata := EncodeFillCall(selectorOf(name), call);
    if calldata.None? { return Thrown; }
    FillCallRoundTrip(selectorOf(name), call);
    return Prepared(Wanted(i), taking, call, calldata.value);
  }
}
