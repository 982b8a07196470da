/**
 `CompleteMakerInventoryAdapter.read` (packages/operations-node/src/limit-order-inventory.ts): every page of a maker's
 orders is enumerated, then every order is observed on chain. The readers are arbitrary: answer `k` is whatever the
 k-th call returned.
 */
module Inventory {
  import opened Common
  import opened CanonicalJson
  import opened FirstOccurrence
  import opened MakerTraits

  /** An order of the service, read out of `json`. `wellFormed` says that the checks of all its fields pass. */
  datatype ServiceOrder = ServiceOrder(
    orderHash: Text, makingAmount: nat, nonceOrEpoch: nat, regime: Regime, json: Json, wellFormed: bool)

  datatype PageAnswer =
    | PageFailed
    | Page(makerWide: bool, digestIsSha256: bool, items: seq<ServiceOrder>, nextCursor: Option<Text>)

  datatype Block = Block(number: Text, hash: Text, parent: Text)

  datatype ChainAnswer =
    | ChainFailed
    | Observed(wellFormed: bool, block: Block, invalidated: bool, expired: bool, remainingMakingAmount: nat)

  datatype InventoryRecord = InventoryRecord(order: ServiceOrder, remainingMakingAmount: nat, block: Block)

  function HashOf(o: ServiceOrder): Text {
    o.orderHash
  }

  // ---------------------------------------------------------------- what a complete enumeration is

  /** The items of the first `n` pages, one page after another. */
  function Items(reader: nat -> PageAnswer, n: nat): seq<ServiceOrder> {
    if n == 0 then [] else Items(reader, n - 1) + PageItems(reader(n - 1))
  }

  function PageItems(p: PageAnswer): seq<ServiceOrder> {
    if p.Page? then p.items else []
  }

  predicate PageOk(p: PageAnswer) {
    p.Page? && p.makerWide && p.digestIsSha256
  }

  /** `canonicalJson(previous) === canonicalJson(item)` */
  predicate SameRecord(a: ServiceOrder, b: ServiceOrder) {
    CanonicalText(a.json) == CanonicalText(b.json)
  }

  ghost predicate NoConflict(items: seq<ServiceOrder>) {
    forall i, j | 0 <= i < j < |items| && items[i].orderHash == items[j].orderHash :: SameRecord(items[i], items[j])
  }

  /** All items are well formed, orders that repeat are the same record, and distinct orders stay in bound. */
  ghost predicate ItemsOk(items: seq<ServiceOrder>, maxItems: nat) {
    && (forall i | 0 <= i < |items| :: items[i].wellFormed)
    && NoConflict(items)
    && |FirstOf(items, HashOf)| <= maxItems
  }

  function CursorAfter(reader: nat -> PageAnswer, k: nat): Option<Text> {
    if reader(k).Page? then reader(k).nextCursor else None
  }

  /** Page `k` leads on to a page that has not been asked for. */
  ghost predicate LeadsOn(reader: nat -> PageAnswer, k: nat) {
    && CursorAfter(reader, k).Some? && CursorAfter(reader, k).value != []
    && forall j | 0 <= j < k :: CursorAfter(reader, j) != CursorAfter(reader, k)
  }

  ghost predicate PagesLeadOn(reader: nat -> PageAnswer, n: nat) {
    forall k | 0 <= k < n :: LeadsOn(reader, k) && PageOk(reader(k))
  }

  /** The first `n` pages are a whole listing within the bounds. */
  ghost predicate IsCompleteListing(reader: nat -> PageAnswer, n: nat, maxPages: nat, maxItems: nat) {
    && 1 <= n <= maxPages
    && PagesLeadOn(reader, n - 1)
    && PageOk(reader(n - 1)) && CursorAfter(reader, n - 1).None?
    && ItemsOk(Items(reader, n), maxItems)
  }

  // ---------------------------------------------------------------- the map of known orders

  /** A JavaScript map from order hash to order: its keys in insertion order, and its entries. */
  datatype OrderMap = OrderMap(keys: seq<Text>, entries: map<Text, ServiceOrder>)

  ghost predicate Holds(m: OrderMap, items: seq<ServiceOrder>) {
    && m.keys == KeysOf(FirstOf(items, HashOf), HashOf)
    && (forall k :: k in m.entries <==> k in m.keys)
    && (forall k | k in m.entries :: m.entries[k].orderHash == k && m.entries[k] in items)
  }

  lemma {:induction false} PrefixIsOk(s: seq<ServiceOrder>, t: seq<ServiceOrder>, maxItems: nat)
    requires ItemsOk(s + t, maxItems)
    ensures ItemsOk(s, maxItems)
  {
    FirstOfGrows(s, t, HashOf);
    forall i | 0 <= i < |s| ensures s[i].wellFormed {
      assert (s + t)[i] == s[i];
    }
    forall i, j | 0 <= i < j < |s| && s[i].orderHash == s[j].orderHash ensures SameRecord(s[i], s[j]) {
      assert (s + t)[i] == s[i] && (s + t)[j] == s[j];
    }
  }

  /** One more item is acceptable when it is well formed, repeats nothing differently, and is not one too many. */
  lemma NextItem(items: seq<ServiceOrder>, item: ServiceOrder, m: OrderMap, maxItems: nat)
    requires ItemsOk(items, maxItems) && Holds(m, items)
    ensures item.orderHash in m.entries <==> item.orderHash in KeysOf(items, HashOf)
    ensures ItemsOk(items + [item], maxItems)
            <==> (&& item.wellFormed
                  && (item.orderHash in m.entries ==> SameRecord(m.entries[item.orderHash], item))
                  && |FirstOf(items + [item], HashOf)| <= maxItems)
  {
    SameKeys(items, HashOf, item.orderHash);
    NextConflict(items, item, m);
    var all := items + [item];
    assert forall i | 0 <= i < |items| :: all[i] == items[i];
    assert all[|items|] == item;
  }

  lemma NextConflict(items: seq<ServiceOrder>, item: ServiceOrder, m: OrderMap)
    requires NoConflict(items) && Holds(m, items)
    requires item.orderHash in m.entries <==> item.orderHash in KeysOf(items, HashOf)
    ensures NoConflict(items + [item])
            <==> (item.orderHash in m.entries ==> SameRecord(m.entries[item.orderHash], item))
  {
    var all, n := items + [item], |items|;
    if item.orderHash in m.entries {
      var known := m.entries[item.orderHash];
      var k :| 0 <= k < n && items[k] == known;
      assert all[k] == known && all[n] == item;
      if SameRecord(known, item) {
        forall i, j | 0 <= i < j < |all| && all[i].orderHash == all[j].orderHash ensures SameRecord(all[i], all[j]) {
          if j == n { assert SameRecord(items[i], known) by { SameAsKnown(items, i, k); } }
        }
      }
    } else {
      forall i | 0 <= i < n ensures items[i].orderHash != item.orderHash {
        assert KeysOf(items, HashOf)[i] == HashOf(items[i]);
      }
      assert all[n] == item && forall i | 0 <= i < n :: all[i] == items[i];
    }
  }

  lemma SameAsKnown(items: seq<ServiceOrder>, i: nat, k: nat)
    requires NoConflict(items) && i < |items| && k < |items| && items[i].orderHash == items[k].orderHash
    ensures SameRecord(items[i], items[k])
  {
  }

  /** `serviceRecords.set(item.orderHash, item)` */
  method SetItem(m: OrderMap, item: ServiceOrder, ghost items: seq<ServiceOrder>) returns (m': OrderMap)
    requires Holds(m, items)
    ensures Holds(m', items + [item])
  {
    var keys := if item.orderHash in m.entries then m.keys else m.keys + [item.orderHash];
    m' := OrderMap(keys, m.entries[item.orderHash := item]);
    SameKeys(items, HashOf, item.orderHash);
    FirstOfSnoc(items, item, HashOf);
    KeysOfSnoc(FirstOf(items, HashOf), item, HashOf);
    assert (items + [item])[|items|] == item;
    assert forall o | o in items :: o in items + [item];
  }

  lemma TakenSplits(before: seq<ServiceOrder>, page: seq<ServiceOrder>, index: nat)
    requires index < |page|
    ensures before + page[..index + 1] == before + page[..index] + [page[index]]
    ensures before + page == before + page[..index] + [page[index]] + page[index + 1..]
  {
  }

  /** The loop over the items of one page. */
  method TakeItems(m: OrderMap, page: seq<ServiceOrder>, maxItems: nat, ghost before: seq<ServiceOrder>)
    returns (r: Option<OrderMap>)
    requires ItemsOk(before, maxItems) && Holds(m, before)
    ensures r.Some? <==> ItemsOk(before + page, maxItems)
    ensures r.Some? ==> Holds(r.value, before + page)
  {
    var known := m;
    assert before + page[..0] == before;
    for index := 0 to |page|
      invariant ItemsOk(before + page[..index], maxItems) && Holds(known, before + page[..index])
    {
      var item := page[index];
      ghost var taken := before + page[..index];
      ghost var rest := page[index + 1..];
      TakenSplits(before, page, index);
      NextItem(taken, item, known, maxItems);
      if ItemsOk(before + page, maxItems) { PrefixIsOk(taken + [item], rest, maxItems); }
      if !item.wellFormed { return None; }
      if item.orderHash in known.entries && !SameRecord(known.entries[item.orderHash], item) { return None; }
      known := SetItem(known, item, taken);
      if |known.keys| > maxItems { return None; }
    }
    assert page[..|page|] == page;
    return Some(known);
  }

  // ---------------------------------------------------------------- the enumeration

  datatype Enumeration = EnumerationFailed | Enumerated(pagesRead: nat, orders: OrderMap)

  lemma ItemsOfPrefix(reader: nat -> PageAnswer, k: nat, n: nat)
    requires k <= n
    ensures exists rest :: Items(reader, n) == Items(reader, k) + rest
    decreases n
  {
    if k == n {
      assert Items(reader, n) == Items(reader, k) + [];
    } else {
      ItemsOfPrefix(reader, k, n - 1);
      var rest :| Items(reader, n - 1) == Items(reader, k) + rest;
      assert Items(reader, n) == Items(reader, k) + (rest + PageItems(reader(n - 1)));
    }
  }

  // A complete listing of `n` pages, seen from a page `k` that all earlier pages lead to.

  lemma ListingEndsLater(reader: nat -> PageAnswer, k: nat, n: nat)
    requires PagesLeadOn(reader, k) && n >= 1 && CursorAfter(reader, n - 1).None?
    ensures k < n
  {
    forall j | 0 <= j < k ensures CursorAfter(reader, j).Some? {
      assert LeadsOn(reader, j);
    }
  }

  lemma ListingPage(reader: nat -> PageAnswer, k: nat, n: nat)
    requires k < n && PagesLeadOn(reader, n - 1) && PageOk(reader(n - 1)) && CursorAfter(reader, n - 1).None?
    ensures PageOk(reader(k)) && (CursorAfter(reader, k).Some? ==> LeadsOn(reader, k))
  {
  }

  lemma ListingItems(reader: nat -> PageAnswer, k: nat, n: nat, maxItems: nat)
    requires k <= n && ItemsOk(Items(reader, n), maxItems)
    ensures ItemsOk(Items(reader, k), maxItems)
  {
    ItemsOfPrefix(reader, k, n);
    var rest :| Items(reader, n) == Items(reader, k) + rest;
    PrefixIsOk(Items(reader, k), rest, maxItems);
  }

  lemma ListingContinues(reader: nat -> PageAnswer, k: nat, n: nat, maxPages: nat, maxItems: nat)
    requires PagesLeadOn(reader, k) && IsCompleteListing(reader, n, maxPages, maxItems)
    ensures k < maxPages && PageOk(reader(k)) && ItemsOk(Items(reader, k + 1), maxItems)
    ensures CursorAfter(reader, k).Some? ==> LeadsOn(reader, k)
  {
    ListingEndsLater(reader, k, n);
    ListingPage(reader, k, n);
    ListingItems(reader, k + 1, n, maxItems);
  }

  /** When every page up to `k` leads on, and page `k` is unusable or leads nowhere new, no listing is complete. */
  lemma NoListing(reader: nat -> PageAnswer, k: nat, maxPages: nat, maxItems: nat)
    requires PagesLeadOn(reader, k)
    requires || k >= maxPages
             || !(PageOk(reader(k)) && ItemsOk(Items(reader, k + 1), maxItems))
             || (CursorAfter(reader, k).Some? && !LeadsOn(reader, k))
    ensures forall n: nat :: !IsCompleteListing(reader, n, maxPages, maxItems)
  {
    forall n: nat | IsCompleteListing(reader, n, maxPages, maxItems) ensures false {
      ListingContinues(reader, k, n, maxPages, maxItems);
    }
  }

  // The state of the cursor loop after `n` pages that all lead on.

  ghost predicate SeenIs(reader: nat -> PageAnswer, n: nat, seen: set<Text>) {
    forall c: Text :: c in seen <==> exists k | 0 <= k < n :: CursorAfter(reader, k) == Some(c)
  }

  /** The first request has no cursor, every other one the cursor of the page before. */
  function RequestAt(reader: nat -> PageAnswer, k: nat): Option<Text> {
    if k == 0 then None else CursorAfter(reader, k - 1)
  }

  lemma RequestsDiffer(reader: nat -> PageAnswer, n: nat, i: nat, j: nat)
    requires PagesLeadOn(reader, n) && i < j <= n
    ensures RequestAt(reader, i) != RequestAt(reader, j)
  {
    assert LeadsOn(reader, j - 1);
  }

  function RequestsOf(reader: nat -> PageAnswer, n: nat): (r: seq<Option<Text>>)
    ensures |r| == n
  {
    seq(n, k requires 0 <= k < n => RequestAt(reader, k))
  }

  /** The cursors of a run are all different as long as the pages before the last lead on. */
  lemma RequestsOfDiffer(reader: nat -> PageAnswer, n: nat)
    requires PagesLeadOn(reader, n) || (n > 0 && PagesLeadOn(reader, n - 1))
    ensures AllDiffer(RequestsOf(reader, n))
  {
    assert n > 0 ==> PagesLeadOn(reader, n - 1);
    forall i, j | 0 <= i < j < n ensures RequestsOf(reader, n)[i] != RequestsOf(reader, n)[j] {
      RequestsDiffer(reader, n - 1, i, j);
    }
  }

  lemma RequestsDifferSoFar(reader: nat -> PageAnswer, n: nat, requests: seq<Option<Text>>)
    requires PagesLeadOn(reader, n) && requests == RequestsOf(reader, n) + [RequestAt(reader, n)]
    ensures requests == RequestsOf(reader, n + 1) && AllDiffer(requests)
  {
    RequestsOfDiffer(reader, n + 1);
    assert requests == RequestsOf(reader, n + 1);
  }

  ghost predicate AllDiffer(requests: seq<Option<Text>>) {
    forall i, j | 0 <= i < j < |requests| :: requests[i] != requests[j]
  }

  lemma SeenNext(reader: nat -> PageAnswer, n: nat, seen: set<Text>, cursor: Text)
    requires SeenIs(reader, n, seen) && CursorAfter(reader, n) == Some(cursor)
    ensures SeenIs(reader, n + 1, seen + {cursor})
    ensures LeadsOn(reader, n) <==> cursor != [] && cursor !in seen
  {
    forall c: Text
      ensures c in seen + {cursor} <==> exists k | 0 <= k < n + 1 :: CursorAfter(reader, k) == Some(c)
    {
      if c in seen {
        var k :| 0 <= k < n && CursorAfter(reader, k) == Some(c);
        assert 0 <= k < n + 1 && CursorAfter(reader, k) == Some(c);
      }
      if c == cursor { assert 0 <= n < n + 1 && CursorAfter(reader, n) == Some(c); }
    }
  }

  /** The checks of one page and the loop over its items. */
  method TakePage(page: PageAnswer, orders: OrderMap, ghost reader: nat -> PageAnswer, ghost k: nat, maxItems: nat)
    returns (r: Option<OrderMap>)
    requires page == reader(k) && ItemsOk(Items(reader, k), maxItems) && Holds(orders, Items(reader, k))
    ensures r.Some? <==> PageOk(page) && ItemsOk(Items(reader, k + 1), maxItems)
    ensures r.Some? ==> Holds(r.value, Items(reader, k + 1))
  {
    if page.PageFailed? || !page.makerWide || !page.digestIsSha256 { return None; }
    assert Items(reader, k + 1) == Items(reader, k) + page.items;
    r := TakeItems(orders, page.items, maxItems, Items(reader, k));
  }

  /** What the code does after a page: give up, finish, or go on with the next cursor. */
  datatype Turn = Stop | Finish(orders: OrderMap) | Continue(orders: OrderMap, cursor: Text)

  ghost predicate Progress(reader: nat -> PageAnswer, n: nat, seen: set<Text>, orders: OrderMap, maxItems: nat) {
    && PagesLeadOn(reader, n) && SeenIs(reader, n, seen)
    && ItemsOk(Items(reader, n), maxItems) && Holds(orders, Items(reader, n))
  }

  lemma NothingRead(reader: nat -> PageAnswer, maxItems: nat)
    ensures Progress(reader, 0, {}, OrderMap([], map[]), maxItems)
  {
  }

  method ReadOnePage(page: PageAnswer, seenCursors: set<Text>, orders: OrderMap, maxItems: nat,
                     ghost reader: nat -> PageAnswer, ghost n: nat, ghost maxPages: nat)
    returns (turn: Turn)
    requires page == reader(n) && n < maxPages && Progress(reader, n, seenCursors, orders, maxItems)
    ensures turn.Stop? ==> forall m: nat :: !IsCompleteListing(reader, m, maxPages, maxItems)
    ensures turn.Finish? ==> IsCompleteListing(reader, n + 1, maxPages, maxItems)
    ensures turn.Finish? ==> Holds(turn.orders, Items(reader, n + 1))
    ensures turn.Continue? ==> CursorAfter(reader, n) == Some(turn.cursor)
    ensures turn.Continue? ==> Progress(reader, n + 1, seenCursors + {turn.cursor}, turn.orders, maxItems)
  {
    var next := TakePage(page, orders, reader, n, maxItems);
    if next.None? {
      NoListing(reader, n, maxPages, maxItems);
      return Stop;
    }
    if page.nextCursor.None? { return Finish(next.value); }
    SeenNext(reader, n, seenCursors, page.nextCursor.value);
    if page.nextCursor.value == [] || page.nextCursor.value in seenCursors {
      NoListing(reader, n, maxPages, maxItems);
      return Stop;
    }
    return Continue(next.value, page.nextCursor.value);
  }

  /**
   The cursor loop. It finds a complete listing exactly when there is one within the bounds, and never asks for the
   same cursor twice.
   */
  method Enumerate(reader: nat -> PageAnswer, maxPages: nat, maxItems: nat)
    returns (r: Enumeration, requests: seq<Option<Text>>)
    ensures r.Enumerated? ==> IsCompleteListing(reader, r.pagesRead, maxPages, maxItems)
    ensures r.Enumerated? ==> Holds(r.orders, Items(reader, r.pagesRead))
    ensures r.EnumerationFailed? ==> forall n: nat :: !IsCompleteListing(reader, n, maxPages, maxItems)
    ensures |requests| <= maxPages && AllDiffer(requests)
  {
    var cursor: Option<Text> := None;
    var pagesRead := 0;
    var seenCursors: set<Text> := {};
    var orders := OrderMap([], map[]);
    requests := [];
    NothingRead(reader, maxItems);
    while pagesRead < maxPages
      invariant pagesRead <= maxPages && cursor == RequestAt(reader, pagesRead)
      invariant Progress(reader, pagesRead, seenCursors, orders, maxItems)
      invariant requests == RequestsOf(reader, pagesRead)
      decreases maxPages - pagesRead
    {
      requests := requests + [cursor];
      RequestsDifferSoFar(reader, pagesRead, requests);
      var turn := ReadOnePage(reader(pagesRead), seenCursors, orders, maxItems, reader, pagesRead, maxPages);
      match turn {
        case Stop => return EnumerationFailed, requests;
        case Finish(all) => return Enumerated(pagesRead + 1, all), requests;
        case Continue(more, next) =>
          orders := more;
          seenCursors := seenCursors + {next};
          cursor := Some(next);
          pagesRead := pagesRead + 1;
      }
    }
    NoListing(reader, pagesRead, maxPages, maxItems);
    RequestsOfDiffer(reader, pagesRead);
    return EnumerationFailed, requests;
  }
}
