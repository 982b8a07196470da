/** The decisions of `prepareLimitOrderMaker` (packages/operations/src/limit-orders.ts) on a reported inventory. */
module MakerPreparation {
  import opened Common
  import opened Bits
  import opened ByteStrings
  import opened MakerTraits
  import opened Inventory
  import opened MakerAllowance

  datatype Identity = Identity(orderHash: Text, regime: Regime, nonceOrEpoch: nat, mask: nat)

  datatype IdentityState = IdentityState(
    bitInvalidatorWord: nat, rawRemainingInvalidator: nat, acceptedOrderHashes: seq<Text>, finalOrderHashes: seq<Text>,
    conflictingOrderHashes: seq<Text>)

  /** `agreed` is the answer of the agreement verifier; `wellFormed` says that every check not modelled here passes. */
  datatype MakerInput = MakerInput(
    wellFormed: bool, complete: bool, records: seq<InventoryRecord>, newAmount: nat, agreed: bool, identity: Identity,
    state: IdentityState, currentAllowance: nat)

  datatype MakerOutcome =
    | Thrown
    | InventoryIncomplete
    | IdentityAlreadyUsed
    | TargetOverflow
    | Prerequisite(targetAllowance: nat)
    | Prepared(targetAllowance: nat)

  predicate Names(records: seq<InventoryRecord>, orderHash: Text) {
    exists i | 0 <= i < |records| :: records[i].order.orderHash == orderHash
  }

  /** `identityAlreadyUsed` */
  predicate IsUsed(identity: Identity, records: seq<InventoryRecord>, state: IdentityState) {
    || identity.orderHash in state.acceptedOrderHashes
    || identity.orderHash in state.finalOrderHashes
    || identity.orderHash in state.conflictingOrderHashes
    || Names(records, identity.orderHash)
    || (if identity.regime == BitInvalidator then
          And(state.bitInvalidatorWord, identity.mask) != 0 || HoldsNonce(records, identity.nonceOrEpoch)
        else state.rawRemainingInvalidator != 0)
  }

  predicate HoldsNonce(records: seq<InventoryRecord>, nonceOrEpoch: nat) {
    exists i | 0 <= i < |records| ::
      records[i].order.regime == BitInvalidator && records[i].order.nonceOrEpoch == nonceOrEpoch
      && records[i].remainingMakingAmount > 0
  }

  /** The checks of `validateInventory` that concern the hashes and the amounts. */
  predicate RecordsValid(records: seq<InventoryRecord>) {
    && (forall i | 0 <= i < |records| :: records[i].remainingMakingAmount < UINT256_LIMIT)
    && (forall i, j | 0 <= i < j < |records| :: records[i].order.orderHash != records[j].order.orderHash)
  }

  lemma {:induction false} TotalOfPrefix(s: seq<InventoryRecord>, k: nat)
    requires k < |s|
    ensures Total(s[..k + 1]) == Total(s[..k]) + s[k].remainingMakingAmount
  {
    assert s[..k + 1] == s[..k] + [s[k]];
    TotalOfSnoc(s[..k], s[k]);
  }

  lemma {:induction false} PrefixTotalAtMost(s: seq<InventoryRecord>, k: nat)
    requires k <= |s|
    ensures Total(s[..k]) <= Total(s)
    decreases |s| - k
  {
    if k < |s| {
      TotalOfPrefix(s, k);
      PrefixTotalAtMost(s, k + 1);
    } else {
      assert s[..k] == s;
    }
  }

  /** The sum stops at the first partial sum over the limit; it does so exactly when the whole sum is over it. */
  method CheckedTargetAllowance(records: seq<InventoryRecord>, newAmount: nat) returns (r: Option<nat>)
    requires newAmount < UINT256_LIMIT
    ensures r == if newAmount + Total(records) < UINT256_LIMIT then Some(newAmount + Total(records)) else None
  {
    var total := newAmount;
    for i := 0 to |records|
      invariant total == newAmount + Total(records[..i]) < UINT256_LIMIT
    {
      total := total + records[i].remainingMakingAmount;
      TotalOfPrefix(records, i);
      PrefixTotalAtMost(records, i + 1);
      if total >= UINT256_LIMIT { return None; }
    }
    assert records[..|records|] == records;
    return Some(total);
  }

  /** Everything up to the arithmetic has been passed. */
  predicate ReachesAllowance(i: MakerInput) {
    i.wellFormed && RecordsValid(i.records) && i.complete && i.agreed && !IsUsed(i.identity, i.records, i.state)
  }

  ghost predicate Decides(i: MakerInput, r: MakerOutcome) {
    && (r.Thrown? <==> !(i.wellFormed && RecordsValid(i.records)))
    && (r.InventoryIncomplete? <==> i.wellFormed && RecordsValid(i.records) && !i.complete)
    && (r.IdentityAlreadyUsed? <==>
         && i.wellFormed && RecordsValid(i.records) && i.complete
         && (!i.agreed || IsUsed(i.identity, i.records, i.state)))
    && (r.TargetOverflow? <==> ReachesAllowance(i) && i.newAmount + Total(i.records) >= UINT256_LIMIT)
    && (r.Prerequisite? ==> r.targetAllowance == i.newAmount + Total(i.records) > i.currentAllowance)
    && (r.Prepared? ==> r.targetAllowance == i.newAmount + Total(i.records) <= i.currentAllowance)
  }

  method PrepareMaker(i: MakerInput) returns (r: MakerOutcome)
    requires i.newAmount < UINT256_LIMIT
    ensures Decides(i, r)
  {
    if !i.wellFormed || !RecordsValid(i.records) { return Thrown; }
    if !i.complete { return InventoryIncomplete; }
    if !i.agreed || IsUsed(i.identity, i.records, i.state) { return IdentityAlreadyUsed; }
    var target := CheckedTargetAllowance(i.records, i.newAmount);
    if target.None? { return TargetOverflow; }
    if i.currentAllowance < target.value { return Prerequisite(target.value); }
    return Prepared(target.value);
  }

  // ---------------------------------------------------------------- what `prepared` guarantees

  /** The input is refused exactly when a check fails, an amount needs more than 256 bits, or two records are of one order. */
  lemma ThrownExactly(i: MakerInput, r: MakerOutcome, limit: nat)
    requires Decides(i, r) && limit == Pow2(256)
    ensures r.Thrown? <==> || !i.wellFormed
                           || (exists j | 0 <= j < |i.records| :: i.records[j].remainingMakingAmount >= limit)
                           || (exists j, k | 0 <= j < k < |i.records| ::
                                 i.records[j].order.orderHash == i.records[k].order.orderHash)
  {
    LimitIsPower();
  }

  /** A mask of one bit meets a word exactly when the word has that bit. */
  lemma MaskIsBit(word: nat, k: nat)
    ensures And(word, Pow2(k)) != 0 <==> BitAt(word, k)
  {
    AndBit(word, Pow2(k), k);
    OneBit(k, k);
    if And(word, Pow2(k)) != 0 && !BitAt(word, k) {
      var z := SomeBit(And(word, Pow2(k)));
      AndBit(word, Pow2(k), z);
      OneBit(k, z);
    }
    if BitAt(word, k) { ZeroBit(k); }
  }

  lemma {:induction false} SomeBit(v: nat) returns (z: nat)
    requires v > 0
    ensures BitAt(v, z)
  {
    if v % 2 == 1 {
      z := 0;
    } else {
      z := SomeBit(v / 2);
      z := z + 1;
    }
  }

  /** No record and no list knows the order, and its nonce bit, or its remaining invalidator, was never used. */
  predicate IsFresh(i: MakerInput, k: nat) {
    && i.identity.orderHash !in i.state.acceptedOrderHashes && i.identity.orderHash !in i.state.finalOrderHashes
    && i.identity.orderHash !in i.state.conflictingOrderHashes
    && (forall j | 0 <= j < |i.records| :: i.records[j].order.orderHash != i.identity.orderHash)
    && (i.identity.regime.BitInvalidator? ==> !BitAt(i.state.bitInvalidatorWord, k))
    && (i.identity.regime.BitInvalidator? ==>
          forall j | 0 <= j < |i.records| :: !(&& i.records[j].order.regime.BitInvalidator?
                                               && i.records[j].order.nonceOrEpoch == i.identity.nonceOrEpoch
                                               && i.records[j].remainingMakingAmount > 0))
    && (i.identity.regime.RemainingInvalidator? ==> i.state.rawRemainingInvalidator == 0)
  }

  /**
   With the mask at bit `k`: a well-formed, complete and agreed input is turned away as used exactly when its order is
   not fresh, so an allowance is only ever computed for a fresh order.
   */
  lemma UsedExactlyUnlessFresh(i: MakerInput, r: MakerOutcome, k: nat)
    requires Decides(i, r) && (i.identity.regime.BitInvalidator? ==> i.identity.mask == Pow2(k))
    ensures r.Prepared? || r.Prerequisite? || r.TargetOverflow? ==> IsFresh(i, k) && i.complete && i.agreed
    ensures i.wellFormed && RecordsValid(i.records) && i.complete && i.agreed ==>
              (r.IdentityAlreadyUsed? <==> !IsFresh(i, k))
  {
    MaskIsBit(i.state.bitInvalidatorWord, k);
    if Names(i.records, i.identity.orderHash) {
      var j :| 0 <= j < |i.records| && i.records[j].order.orderHash == i.identity.orderHash;
    }
  }

  lemma {:induction false} LiveIsNamed(m: OrderMap, chain: nat -> ChainAnswer, n: nat, k: nat)
    requires WellKeyed(m) && k < n <= |m.keys| && IsLive(chain(k))
    requires forall h | h in m.entries :: m.entries[h].orderHash == h
    ensures exists r | r in LiveRecords(m, chain, n) :: r.order.orderHash == m.keys[k]
  {
    if k < n - 1 {
      LiveIsNamed(m, chain, n - 1, k);
      var r :| r in LiveRecords(m, chain, n - 1) && r.order.orderHash == m.keys[k];
      assert r in LiveRecords(m, chain, n);
    } else {
      var r := InventoryRecord(m.entries[m.keys[k]], chain(k).remainingMakingAmount, chain(k).block);
      assert LiveRecords(m, chain, n) == LiveRecords(m, chain, n - 1) + [r];
      assert r in LiveRecords(m, chain, n);
    }
  }

  /**
   If the adapter reported a complete inventory and the maker is prepared on it, the allowance covers the new amount
   and what is left of all distinct live orders of all pages, as observed at one block, and the new order is none of
   those. Overflow is reported exactly when that sum needs more than 256 bits.
   */
  lemma PreparedCoversEveryLiveOrder(
    reader: nat -> PageAnswer, chain: nat -> ChainAnswer, maxPages: nat, maxItems: nat, m: OrderMap, pagesRead: nat,
    i: MakerInput, r: MakerOutcome)
    requires ReportsAll(reader, chain, maxPages, maxItems, m, i.records, pagesRead)
    requires Decides(i, r)
    ensures r.Prepared? ==>
              i.currentAllowance >= i.newAmount + LiveTotal(chain, |DistinctHashes(reader, pagesRead)|)
    ensures ReachesAllowance(i) ==>
              (r.TargetOverflow?
               <==> i.newAmount + LiveTotal(chain, |DistinctHashes(reader, pagesRead)|) >= UINT256_LIMIT)
    ensures forall k | 0 <= k < |DistinctHashes(reader, pagesRead)| :: SameBlock(chain(k), chain(0))
    ensures r.Prepared? ==>
              forall k | 0 <= k < |DistinctHashes(reader, pagesRead)| && IsLive(chain(k)) ::
                DistinctHashes(reader, pagesRead)[k] != i.identity.orderHash
  {
    ReportedTotal(reader, chain, maxPages, maxItems, m, i.records, pagesRead);
    if r.Prepared? {
      forall k | 0 <= k < |m.keys| && IsLive(chain(k)) ensures m.keys[k] != i.identity.orderHash {
        LiveIsNamed(m, chain, |m.keys|, k);
        var x :| x in LiveRecords(m, chain, |m.keys|) && x.order.orderHash == m.keys[k];
        assert x in multiset(i.records);
        assert x in i.records;
      }
    }
  }
}
