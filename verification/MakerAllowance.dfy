/**
 From a complete inventory to an allowance that covers it: the chain loop of `CompleteMakerInventoryAdapter.read`
 (packages/operations-node/src/limit-order-inventory.ts), `checkedTargetAllowance` and the decisions of
 `prepareLimitOrderMaker` (packages/operations/src/limit-orders.ts).
 */
module MakerAllowance {
  import opened Common
  import opened CanonicalJson
  import opened CanonicalJsonProofs
  import opened FirstOccurrence
  import opened Inventory

  // ---------------------------------------------------------------- observing the orders

  predicate AnswerOk(a: ChainAnswer, makingAmount: nat) {
    a.Observed? && a.wellFormed && a.remainingMakingAmount <= makingAmount
  }

  predicate IsLive(a: ChainAnswer) {
    a.Observed? && !a.expired && !a.invalidated && a.remainingMakingAmount != 0
  }

  predicate WellKeyed(m: OrderMap) {
    forall i | 0 <= i < |m.keys| :: m.keys[i] in m.entries
  }

  /** Every order is observed, within its signed amount, at the block of the first one. */
  ghost predicate ChainOk(m: OrderMap, chain: nat -> ChainAnswer)
    requires WellKeyed(m)
  {
    forall i | 0 <= i < |m.keys| ::
      AnswerOk(chain(i), m.entries[m.keys[i]].makingAmount) && SameBlock(chain(i), chain(0))
  }

  predicate SameBlock(a: ChainAnswer, b: ChainAnswer) {
    a.Observed? && b.Observed? && a.block == b.block
  }

  /** The records of the live ones among the first `n` orders. */
  function LiveRecords(m: OrderMap, chain: nat -> ChainAnswer, n: nat): seq<InventoryRecord>
    requires WellKeyed(m) && n <= |m.keys|
  {
    if n == 0 then []
    else
      var before := LiveRecords(m, chain, n - 1);
      if IsLive(chain(n - 1))
      then before + [InventoryRecord(m.entries[m.keys[n - 1]], chain(n - 1).remainingMakingAmount, chain(n - 1).block)]
      else before
  }

  method ObserveOrders(m: OrderMap, chain: nat -> ChainAnswer) returns (r: Option<seq<InventoryRecord>>)
    requires WellKeyed(m)
    ensures r.Some? <==> ChainOk(m, chain)
    ensures r.Some? ==> r.value == LiveRecords(m, chain, |m.keys|)
  {
    var records: seq<InventoryRecord> := [];
    var commonBlock: Option<Block> := None;
    for index := 0 to |m.keys|
      invariant records == LiveRecords(m, chain, index)
      invariant index > 0 ==> chain(0).Observed? && commonBlock == Some(chain(0).block)
      invariant index == 0 ==> commonBlock.None?
      invariant forall i | 0 <= i < index ::
                  AnswerOk(chain(i), m.entries[m.keys[i]].makingAmount) && SameBlock(chain(i), chain(0))
    {
      var item := m.entries[m.keys[index]];
      var answer := chain(index);
      if !AnswerOk(answer, item.makingAmount) { return None; }
      if commonBlock.None? { commonBlock := Some(answer.block); }
      if commonBlock.value != answer.block { return None; }
      if IsLive(answer) {
        records := records + [InventoryRecord(item, answer.remainingMakingAmount, answer.block)];
      }
    }
    return Some(records);
  }

  // ---------------------------------------------------------------- sorting

  function InsertByHash(r: InventoryRecord, s: seq<InventoryRecord>): (t: seq<InventoryRecord>)
    ensures multiset(t) == multiset(s) + multiset{r}
  {
    if s == [] || Less(r.order.orderHash, s[0].order.orderHash) then
      assert s == [] || s == [s[0]] + s[1..];
      [r] + s
    else
      assert s == [s[0]] + s[1..];
      [s[0]] + InsertByHash(r, s[1..])
  }

  /** `records.sort` by order hash. On lower-case hexadecimal the locale order is the order of the code units. */
  function SortByHash(s: seq<InventoryRecord>): (t: seq<InventoryRecord>)
    ensures multiset(t) == multiset(s)
  {
    if s == [] then []
    else
      assert s == s[..|s| - 1] + [s[|s| - 1]];
      InsertByHash(s[|s| - 1], SortByHash(s[..|s| - 1]))
  }

  function Total(s: seq<InventoryRecord>): nat {
    if s == [] then 0 else s[0].remainingMakingAmount + Total(s[1..])
  }

  lemma {:induction false} TotalOfInserted(r: InventoryRecord, s: seq<InventoryRecord>)
    ensures Total(InsertByHash(r, s)) == r.remainingMakingAmount + Total(s)
  {
    if s == [] || Less(r.order.orderHash, s[0].order.orderHash) {
      assert ([r] + s)[1..] == s;
    } else {
      TotalOfInserted(r, s[1..]);
      assert ([s[0]] + InsertByHash(r, s[1..]))[1..] == InsertByHash(r, s[1..]);
    }
  }

  lemma {:induction false} TotalOfSnoc(s: seq<InventoryRecord>, r: InventoryRecord)
    ensures Total(s + [r]) == Total(s) + r.remainingMakingAmount
  {
    if s == [] {
      assert (s + [r])[1..] == [];
    } else {
      TotalOfSnoc(s[1..], r);
      assert (s + [r])[1..] == s[1..] + [r];
    }
  }

  lemma {:induction false} TotalOfSorted(s: seq<InventoryRecord>)
    ensures Total(SortByHash(s)) == Total(s)
  {
    if s != [] {
      var front, last := s[..|s| - 1], s[|s| - 1];
      assert SortByHash(s) == InsertByHash(last, SortByHash(front));
      TotalOfSorted(front);
      TotalOfInserted(last, SortByHash(front));
      TotalOfLast(s, front, last);
    }
  }

  lemma TotalOfLast(s: seq<InventoryRecord>, front: seq<InventoryRecord>, last: InventoryRecord)
    requires |s| > 0 && front == s[..|s| - 1] && last == s[|s| - 1]
    ensures Total(s) == Total(front) + last.remainingMakingAmount
  {
    assert s == front + [last];
    TotalOfSnoc(front, last);
  }

  // ---------------------------------------------------------------- the whole adapter

  datatype Observation =
    | InvalidRequest
    | ProjectionFailed
    | ObservationInvalid
    | Complete(records: seq<InventoryRecord>, pagesRead: nat)

  /** The sum of what the chain says is left of the live ones among the first `n` orders. */
  function LiveTotal(chain: nat -> ChainAnswer, n: nat): nat {
    if n == 0 then 0
    else LiveTotal(chain, n - 1) + if IsLive(chain(n - 1)) then chain(n - 1).remainingMakingAmount else 0
  }

  /** The distinct order hashes of the first `n` pages, in order of first appearance. */
  function DistinctHashes(reader: nat -> PageAnswer, n: nat): seq<Text> {
    KeysOf(FirstOf(Items(reader, n), HashOf), HashOf)
  }

  lemma {:induction false} TotalOfLive(m: OrderMap, chain: nat -> ChainAnswer, n: nat)
    requires WellKeyed(m) && n <= |m.keys|
    ensures Total(LiveRecords(m, chain, n)) == LiveTotal(chain, n)
  {
    if n > 0 {
      TotalOfLive(m, chain, n - 1);
      if IsLive(chain(n - 1)) {
        TotalOfSnoc(LiveRecords(m, chain, n - 1),
                    InventoryRecord(m.entries[m.keys[n - 1]], chain(n - 1).remainingMakingAmount, chain(n - 1).block));
      }
    }
  }

  /**
   What a complete observation reports about the calls that led to it: `m` holds one order per hash of a complete
   listing, all of them were observed at one block, and the records are those of the live ones.
   */
  ghost predicate ReportsAll(reader: nat -> PageAnswer, chain: nat -> ChainAnswer, maxPages: nat, maxItems: nat,
                             m: OrderMap, records: seq<InventoryRecord>, pagesRead: nat) {
    && IsCompleteListing(reader, pagesRead, maxPages, maxItems)
    && Holds(m, Items(reader, pagesRead)) && WellKeyed(m) && ChainOk(m, chain)
    && multiset(records) == multiset(LiveRecords(m, chain, |m.keys|))
    && records == SortByHash(LiveRecords(m, chain, |m.keys|))
  }

  /** `read`, with the bounds as the only part of the request that can be wrong in more than one way. */
  method Read(reader: nat -> PageAnswer, chain: nat -> ChainAnswer, requestOk: bool, maxPages: int, maxItems: int)
    returns (r: Observation, ghost m: OrderMap)
    ensures r.InvalidRequest?
            <==> !(requestOk && 1 <= maxPages <= MAX_SAFE_INTEGER && 1 <= maxItems <= MAX_SAFE_INTEGER)
    ensures r.ProjectionFailed? ==>
              maxPages > 0 && maxItems > 0 && forall n: nat :: !IsCompleteListing(reader, n, maxPages, maxItems)
    ensures r.ObservationInvalid? ==> maxPages > 0 && maxItems > 0 && WellKeyed(m) && !ChainOk(m, chain)
    ensures r.ObservationInvalid? ==>
              exists n: nat :: IsCompleteListing(reader, n, maxPages, maxItems) && Holds(m, Items(reader, n))
    ensures r.Complete? ==> maxPages > 0 && maxItems > 0
    ensures r.Complete? ==> ReportsAll(reader, chain, maxPages, maxItems, m, r.records, r.pagesRead)
  {
    m := OrderMap([], map[]);
    if !(requestOk && 1 <= maxPages <= MAX_SAFE_INTEGER && 1 <= maxItems <= MAX_SAFE_INTEGER) {
      return InvalidRequest, m;
    }
    var listing, requests := Enumerate(reader, maxPages, maxItems);
    if listing.EnumerationFailed? { return ProjectionFailed, m; }
    m := listing.orders;
    var live := ObserveOrders(listing.orders, chain);
    if live.None? { return ObservationInvalid, m; }
    return Complete(SortByHash(live.value), listing.pagesRead), m;
  }

  /** The records add up to what the chain says is left of every live order of the listing, each counted once. */
  lemma ReportedTotal(reader: nat -> PageAnswer, chain: nat -> ChainAnswer, maxPages: nat, maxItems: nat,
                      m: OrderMap, records: seq<InventoryRecord>, pagesRead: nat)
    requires ReportsAll(reader, chain, maxPages, maxItems, m, records, pagesRead)
    ensures Total(records) == LiveTotal(chain, |DistinctHashes(reader, pagesRead)|)
    ensures forall i | 0 <= i < |DistinctHashes(reader, pagesRead)| :: SameBlock(chain(i), chain(0))
  {
    TotalOfLive(m, chain, |m.keys|);
    TotalOfSorted(LiveRecords(m, chain, |m.keys|));
  }

  // ---------------------------------------------------------------- the same, over the fields of the answers

  /** What the chain says an order can still draw. */
  function StillDraws(a: ChainAnswer): nat {
    if a.Observed? && !a.expired && !a.invalidated then a.remainingMakingAmount else 0
  }

  /** The sum over the first `n` answers. */
  function SumOf(chain: nat -> ChainAnswer, n: nat): nat {
    if n == 0 then 0 else SumOf(chain, n - 1) + StillDraws(chain(n - 1))
  }

  lemma {:induction false} LiveTotalIs(chain: nat -> ChainAnswer, n: nat)
    ensures LiveTotal(chain, n) == SumOf(chain, n)
  {
    if n > 0 { LiveTotalIs(chain, n - 1); }
  }

  /** One answer belongs to each order hash that occurs on a page, and to no other. */
  lemma HashesAreThose(reader: nat -> PageAnswer, n: nat)
    ensures forall i, j | 0 <= i < j < |DistinctHashes(reader, n)| :: DistinctHashes(reader, n)[i] != DistinctHashes(reader, n)[j]
    ensures forall h: Text :: h in DistinctHashes(reader, n) <==> Occurs(reader, n, h)
  {
    var items := Items(reader, n);
    forall i, j | 0 <= i < j < |DistinctHashes(reader, n)| ensures DistinctHashes(reader, n)[i] != DistinctHashes(reader, n)[j] {
      KeysAreDistinct(items, HashOf, i, j);
    }
    forall h: Text ensures h in DistinctHashes(reader, n) <==> Occurs(reader, n, h) {
      SameKeys(items, HashOf, h);
      OccursInItems(reader, n, h);
    }
  }

  /** An item with this hash stands on one of the first `n` pages. */
  ghost predicate Occurs(reader: nat -> PageAnswer, n: nat, h: Text) {
    exists k, i | 0 <= k < n && reader(k).Page? && 0 <= i < |reader(k).items| :: reader(k).items[i].orderHash == h
  }

  lemma {:induction false} OccursInItems(reader: nat -> PageAnswer, n: nat, h: Text)
    ensures h in KeysOf(Items(reader, n), HashOf) <==> Occurs(reader, n, h)
  {
    if n > 0 {
      OccursInItems(reader, n - 1, h);
      var before, page := Items(reader, n - 1), PageItems(reader(n - 1));
      KeysOfConcat(before, page, h);
      OccursNext(reader, n, h);
    }
  }

  /** An item of the page has this hash. */
  ghost predicate HasHash(page: seq<ServiceOrder>, h: Text) {
    exists i | 0 <= i < |page| :: page[i].orderHash == h
  }

  lemma KeysOfConcat(a: seq<ServiceOrder>, b: seq<ServiceOrder>, h: Text)
    ensures h in KeysOf(a + b, HashOf) <==> h in KeysOf(a, HashOf) || HasHash(b, h)
  {
    assert KeysOf(a + b, HashOf) == KeysOf(a, HashOf) + KeysOf(b, HashOf);
    if HasHash(b, h) {
      var i :| 0 <= i < |b| && b[i].orderHash == h;
      assert HashOf(b[i]) == h && KeysOf(b, HashOf)[i] == h;
    }
    if h in KeysOf(b, HashOf) {
      var i :| 0 <= i < |KeysOf(b, HashOf)| && KeysOf(b, HashOf)[i] == h;
      assert HashOf(b[i]) == h && b[i].orderHash == h;
    }
  }

  lemma OccursNext(reader: nat -> PageAnswer, n: nat, h: Text)
    requires n > 0
    ensures Occurs(reader, n, h) <==> Occurs(reader, n - 1, h) || HasHash(PageItems(reader(n - 1)), h)
  {
    var page := PageItems(reader(n - 1));
    if Occurs(reader, n, h) {
      var k, i :| 0 <= k < n && reader(k).Page? && 0 <= i < |reader(k).items| && reader(k).items[i].orderHash == h;
      if k == n - 1 { assert page[i].orderHash == h; }
    }
    if HasHash(page, h) {
      var i :| 0 <= i < |page| && page[i].orderHash == h;
      assert reader(n - 1).items[i].orderHash == h;
    }
  }

  /** A page that repeats an order has to repeat the whole record, up to the order of keys. */
  lemma SameRecordMeans(a: ServiceOrder, b: ServiceOrder)
    requires IsPlain(a.json) && IsPlain(b.json)
    ensures SameRecord(a, b) <==> Normalize(a.json) == Normalize(b.json)
  {
    SameTextIffSameValue(a.json, b.json);
  }

  /** The record of an order that is observed, neither expired nor invalidated, and of which something is left. */
  ghost predicate IsLiveRecord(m: OrderMap, chain: nat -> ChainAnswer, n: nat, x: InventoryRecord)
    requires WellKeyed(m) && n <= |m.keys|
  {
    exists k | 0 <= k < n ::
      && chain(k).Observed? && !chain(k).expired && !chain(k).invalidated && chain(k).remainingMakingAmount > 0
      && x == InventoryRecord(m.entries[m.keys[k]], chain(k).remainingMakingAmount, chain(k).block)
  }

  lemma {:induction false} LiveRecordsAre(m: OrderMap, chain: nat -> ChainAnswer, n: nat, x: InventoryRecord)
    requires WellKeyed(m) && n <= |m.keys|
    ensures x in LiveRecords(m, chain, n) <==> IsLiveRecord(m, chain, n, x)
  {
    if n > 0 {
      LiveRecordsAre(m, chain, n - 1, x);
      if IsLiveRecord(m, chain, n, x) {
        var k :| 0 <= k < n && chain(k).Observed? && !chain(k).expired && !chain(k).invalidated
                 && chain(k).remainingMakingAmount > 0
                 && x == InventoryRecord(m.entries[m.keys[k]], chain(k).remainingMakingAmount, chain(k).block);
        assert k < n - 1 ==> IsLiveRecord(m, chain, n - 1, x);
      }
      if IsLiveRecord(m, chain, n - 1, x) {
        var k :| 0 <= k < n - 1 && chain(k).Observed? && !chain(k).expired && !chain(k).invalidated
                 && chain(k).remainingMakingAmount > 0
                 && x == InventoryRecord(m.entries[m.keys[k]], chain(k).remainingMakingAmount, chain(k).block);
        assert 0 <= k < n;
      }
    }
  }

  /** A complete observation reports exactly the records of the live orders. */
  lemma ReportedRecords(reader: nat -> PageAnswer, chain: nat -> ChainAnswer, maxPages: nat, maxItems: nat,
                        m: OrderMap, records: seq<InventoryRecord>, pagesRead: nat, x: InventoryRecord)
    requires ReportsAll(reader, chain, maxPages, maxItems, m, records, pagesRead)
    ensures x in records <==> IsLiveRecord(m, chain, |m.keys|, x)
  {
    LiveRecordsAre(m, chain, |m.keys|, x);
    var live := LiveRecords(m, chain, |m.keys|);
    assert x in records <==> x in multiset(records);
    assert x in live <==> x in multiset(live);
  }

  /** Every order is answered at the block of the first answer, in shape, and within its signed amount. */
  ghost predicate IsAnswered(m: OrderMap, chain: nat -> ChainAnswer)
    requires WellKeyed(m)
  {
    forall i | 0 <= i < |m.keys| ::
      && chain(i).Observed? && chain(0).Observed? && chain(i).wellFormed && chain(i).block == chain(0).block
      && chain(i).remainingMakingAmount <= m.entries[m.keys[i]].makingAmount
  }

  lemma AnsweredMeans(m: OrderMap, chain: nat -> ChainAnswer)
    requires WellKeyed(m)
    ensures ChainOk(m, chain) <==> IsAnswered(m, chain)
  {
    if IsAnswered(m, chain) {
      forall i | 0 <= i < |m.keys|
        ensures AnswerOk(chain(i), m.entries[m.keys[i]].makingAmount) && SameBlock(chain(i), chain(0))
      {
        assert chain(i).Observed? && chain(0).Observed?;
      }
    }
  }

  /** The records are reported in the order of their hashes. */
  lemma {:induction false} SortedAscends(s: seq<InventoryRecord>, i: nat)
    requires i + 1 < |SortByHash(s)|
    ensures !Precedes(SortByHash(s)[i + 1].order.orderHash, SortByHash(s)[i].order.orderHash)
  {
    var front, last := s[..|s| - 1], s[|s| - 1];
    var sorted := SortByHash(front);
    forall j: nat | j + 1 < |sorted| ensures !Less(sorted[j + 1].order.orderHash, sorted[j].order.orderHash) {
      SortedAscends(front, j);
      LessMeans(sorted[j + 1].order.orderHash, sorted[j].order.orderHash);
    }
    InsertKeepsOrder(last, sorted, i);
    LessMeans(SortByHash(s)[i + 1].order.orderHash, SortByHash(s)[i].order.orderHash);
  }

  lemma {:induction false} InsertKeepsOrder(r: InventoryRecord, s: seq<InventoryRecord>, i: nat)
    requires forall j: nat | j + 1 < |s| :: !Less(s[j + 1].order.orderHash, s[j].order.orderHash)
    requires i + 1 < |InsertByHash(r, s)|
    ensures !Less(InsertByHash(r, s)[i + 1].order.orderHash, InsertByHash(r, s)[i].order.orderHash)
  {
    if s == [] {
    } else if Less(r.order.orderHash, s[0].order.orderHash) {
      if i == 0 { LessAsymmetric(r.order.orderHash, s[0].order.orderHash); }
    } else {
      var rest := s[1..];
      var tail := InsertByHash(r, rest);
      if i > 0 {
        forall j: nat | j + 1 < |rest| ensures !Less(rest[j + 1].order.orderHash, rest[j].order.orderHash) {
          assert rest[j] == s[j + 1] && rest[j + 1] == s[j + 2];
        }
        InsertKeepsOrder(r, rest, i - 1);
      } else {
        assert tail[0] == r || (|s| > 1 && tail[0] == s[1]);
      }
    }
  }

  lemma LessAsymmetric(a: Text, b: Text)
    requires Less(a, b)
    ensures !Less(b, a)
  {
    if Less(b, a) {
      LessTransitive(a, b, a);
      LessIrreflexive(a);
    }
  }
}
