/** What the paginated reader returns and asks for, said without the functions it uses. */
module PhoenixMeaning {
  import opened Common
  import opened CanonicalJson
  import opened CanonicalJsonProofs
  import opened FirstOccurrence
  import opened Phoenix

  // ---------------------------------------------------------------- which items are kept

  /** The items of the first `n` pages that any page can hold. */
  predicate PlainPages(server: nat -> Answer, n: nat) {
    forall k | 0 <= k < n :: forall i | 0 <= i < |ItemsOf(server(k))| :: IsPlain(ItemsOf(server(k))[i])
  }

  predicate AllPlain(items: seq<Json>) {
    forall i | 0 <= i < |items| :: IsPlain(items[i])
  }

  lemma {:induction false} ItemsArePlain(server: nat -> Answer, n: nat)
    requires PlainPages(server, n)
    ensures AllPlain(AllItems(server, n))
  {
    if n > 0 {
      ItemsArePlain(server, n - 1);
      var before, page := AllItems(server, n - 1), ItemsOf(server(n - 1));
      forall i | 0 <= i < |before + page| ensures IsPlain((before + page)[i]) {
        if i >= |before| { assert IsPlain(page[i - |before|]); }
      }
    }
  }

  /** Item `i` of page `k` is somewhere among all items. */
  lemma {:induction false} ItemIsThere(server: nat -> Answer, n: nat, k: nat, i: nat) returns (p: nat)
    requires k < n && i < |ItemsOf(server(k))|
    ensures p < |AllItems(server, n)| && AllItems(server, n)[p] == ItemsOf(server(k))[i]
  {
    if k == n - 1 {
      p := |AllItems(server, n - 1)| + i;
    } else {
      p := ItemIsThere(server, n - 1, k, i);
    }
  }

  lemma KeptIsPlain(all: seq<Json>, i: nat)
    requires AllPlain(all) && i < |FirstOf(all, Identity)|
    ensures IsPlain(FirstOf(all, Identity)[i])
  {
    FirstsAreAt(all, Identity);
  }

  lemma KeptDiffer(all: seq<Json>, i: nat, j: nat)
    requires AllPlain(all) && i < j < |FirstOf(all, Identity)|
    ensures Normalize(FirstOf(all, Identity)[i]) != Normalize(FirstOf(all, Identity)[j])
  {
    KeysAreDistinct(all, Identity, i, j);
    KeptIsPlain(all, i);
    KeptIsPlain(all, j);
    SameTextIffSameValue(FirstOf(all, Identity)[i], FirstOf(all, Identity)[j]);
  }

  lemma ItemIsKept(all: seq<Json>, p: nat) returns (i: nat)
    requires AllPlain(all) && p < |all|
    ensures i < |FirstOf(all, Identity)| && Normalize(FirstOf(all, Identity)[i]) == Normalize(all[p])
  {
    var kept := FirstOf(all, Identity);
    assert KeysOf(all, Identity)[p] == Identity(all[p]);
    SameKeys(all, Identity, Identity(all[p]));
    i :| 0 <= i < |kept| && KeysOf(kept, Identity)[i] == Identity(all[p]);
    KeptIsPlain(all, i);
    assert Identity(kept[i]) == Identity(all[p]) && IsPlain(all[p]);
    SameTextIffSameValue(kept[i], all[p]);
  }

  /** No two items that are returned are the same value up to the order of keys. */
  lemma ItemsDiffer(base: seq<QueryEntry>, server: nat -> Answer, b: Bounds, s: nat, queries: seq<seq<QueryEntry>>,
                    r: Observation, i: nat, j: nat)
    requires ValidBounds(b) && IsRun(base, server, b, s, queries, r) && r.Read? && i < j < |r.items|
    requires PlainPages(server, s + 1)
    ensures Normalize(r.items[i]) != Normalize(r.items[j])
  {
    var n := PagesUsed(server, b, s, r);
    ItemsAreLeadingDistinct(base, server, b, s, queries, r);
    assert PlainPages(server, n);
    ItemsArePlain(server, n);
    KeptDiffer(AllItems(server, n), i, j);
  }

  /** When the listing is complete, every item of every page that was read is among those returned. */
  lemma NothingIsMissing(base: seq<QueryEntry>, server: nat -> Answer, b: Bounds, s: nat, queries: seq<seq<QueryEntry>>,
                         r: Observation, k: nat, i: nat) returns (p: nat)
    requires ValidBounds(b) && IsRun(base, server, b, s, queries, r) && r.Read? && r.stopReason.CompleteListing?
    requires PlainPages(server, s + 1) && k <= s && server(k).Response? && server(k).projection.PageOf?
    requires i < |server(k).projection.items|
    ensures p < |r.items| && Normalize(r.items[p]) == Normalize(server(k).projection.items[i])
  {
    AllAreReturned(base, server, b, s, queries, r);
    p := PageItemIsKept(server, s + 1, r.items, k, i);
  }

  lemma AllAreReturned(base: seq<QueryEntry>, server: nat -> Answer, b: Bounds, s: nat, queries: seq<seq<QueryEntry>>,
                       r: Observation)
    requires ValidBounds(b) && IsRun(base, server, b, s, queries, r) && r.Read? && r.stopReason.CompleteListing?
    ensures r.items == Distinct(server, s + 1)
    ensures forall k | 0 <= k <= s :: IsPage(server(k))
  {
    ItemsAreLeadingDistinct(base, server, b, s, queries, r);
  }

  lemma PageItemIsKept(server: nat -> Answer, n: nat, items: seq<Json>, k: nat, i: nat) returns (p: nat)
    requires PlainPages(server, n) && k < n && IsPage(server(k)) && i < |server(k).projection.items|
    requires items == Distinct(server, n)
    ensures p < |items| && Normalize(items[p]) == Normalize(server(k).projection.items[i])
  {
    ItemsArePlain(server, n);
    var at := ItemIsThere(server, n, k, i);
    p := ItemIsKept(AllItems(server, n), at);
  }

  // ---------------------------------------------------------------- a listing that ends

  /** Page `k` of a listing in `n` pages: a success, and all but the last lead on to a cursor not asked for before. */
  ghost predicate IsListing(base: seq<QueryEntry>, server: nat -> Answer, n: nat) {
    && n > 0
    && (forall k | 0 <= k < n :: server(k).Response? && 200 <= server(k).status < 300 && server(k).projection.PageOf?)
    && (forall k | 0 <= k < n :: server(k).projection.hasMore <==> k < n - 1)
    && (forall k | 0 <= k < n - 1 ::
          && server(k).projection.nextCursor.Some?
          && server(k).projection.nextCursor != FindCursor(base)
          && forall j | 0 <= j < k :: server(j).projection.nextCursor != server(k).projection.nextCursor)
  }

  lemma {:induction false} CountItems(server: nat -> Answer, n: nat, k: nat)
    requires k <= n
    ensures |AllItems(server, k)| <= |AllItems(server, n)|
  {
    if k < n { CountItems(server, n - 1, k); }
  }

  lemma ListingGoesOn(base: seq<QueryEntry>, server: nat -> Answer, n: nat, maxItems: nat, k: nat)
    requires IsListing(base, server, n) && k < n && |AllItems(server, n)| <= maxItems
    ensures !IsRepeated(base, server, k) && |Distinct(server, k + 1)| <= maxItems
    ensures k < n - 1 ==> GoesOn(base, server, maxItems, k)
  {
    CountItems(server, n, k + 1);
    forall j | 0 <= j < k ensures CursorAt(base, server, j) != CursorAt(base, server, k) {
      assert server(k - 1).projection.nextCursor.Some?;
      if j > 0 { assert server(j - 1).projection.nextCursor != server(k - 1).projection.nextCursor; }
    }
  }

  /** A listing within the bounds is read to its end, and reported as complete. */
  lemma ListingIsRead(base: seq<QueryEntry>, server: nat -> Answer, b: Bounds, n: nat, s: nat,
                      queries: seq<seq<QueryEntry>>, r: Observation)
    requires ValidBounds(b) && IsRun(base, server, b, s, queries, r)
    requires IsListing(base, server, n) && n <= b.maxPages && |AllItems(server, n)| <= b.maxItems
    ensures r.Read? && r.stopReason == CompleteListing && r.pagesRead == n && |queries| == n
    ensures r.finalCursor == server(n - 1).projection.nextCursor
  {
    ListingStops(base, server, b, n);
    StopIsUnique(base, server, b, s, n - 1, r, Read(Distinct(server, n), n, server(n - 1).projection.nextCursor, CompleteListing));
  }

  lemma ListingStops(base: seq<QueryEntry>, server: nat -> Answer, b: Bounds, n: nat)
    requires ValidBounds(b) && IsListing(base, server, n) && n <= b.maxPages && |AllItems(server, n)| <= b.maxItems
    ensures StopsAt(base, server, b, n - 1,
                    Read(Distinct(server, n), n, server(n - 1).projection.nextCursor, CompleteListing))
  {
    forall k | 0 <= k < n - 1 ensures GoesOn(base, server, b.maxItems, k) { ListingGoesOn(base, server, n, b.maxItems, k); }
    ListingGoesOn(base, server, n, b.maxItems, n - 1);
  }

  // ---------------------------------------------------------------- the first answer that is no page

  /** What an answer that is no page of items makes the reader report. */
  predicate ReportsAnswer(a: Answer, r: Observation) {
    match a
    case RedirectUnavailable => r == Failed(RedirectResponseUnavailable)
    case TransportFailed => r == Failed(Transport)
    case NotDecoded => r == Failed(Decoding)
    case Response(status, projection) =>
      r.Read? && r.items == [] && r.pagesRead == 1
      && (if status < 200 || status >= 300 then r.stopReason == SourceResponse
          else !projection.PageOf? && r.stopReason == ProjectionFailure)
  }

  /** An answer to the first fetch that is no page of items is reported as what it is. */
  lemma FirstAnswerIsReported(base: seq<QueryEntry>, server: nat -> Answer, b: Bounds, s: nat,
                              queries: seq<seq<QueryEntry>>, r: Observation)
    requires ValidBounds(b) && IsRun(base, server, b, s, queries, r)
    requires server(0).Response? ==> !(200 <= server(0).status < 300 && server(0).projection.PageOf?)
    ensures ReportsAnswer(server(0), r)
  {
    assert s > 0 ==> GoesOn(base, server, b.maxItems, 0);
  }

  // ---------------------------------------------------------------- the queries

  lemma CursorName()
    ensures NEXT_CURSOR == T("nextCursor")
  {
  }

  /** Exactly the entries with another name are kept, in order. */
  lemma {:induction false} CursorsAreFiltered(a: seq<QueryEntry>, e: QueryEntry)
    ensures WithoutCursor([]) == []
    ensures WithoutCursor(a + [e]) == WithoutCursor(a) + (if e.0 == NEXT_CURSOR then [] else [e])
  {
    if a == [] {
      assert a + [e] == [e] && [e][1..] == [];
    } else {
      CursorsAreFiltered(a[1..], e);
      assert (a + [e])[1..] == a[1..] + [e];
    }
  }

  /** The cursor of a query is the value of its first entry of that name. */
  lemma {:induction false} CursorIsFirst(q: seq<QueryEntry>, i: nat)
    requires i <= |q| && forall j | 0 <= j < i :: q[j].0 != NEXT_CURSOR
    requires i < |q| ==> q[i].0 == NEXT_CURSOR
    ensures FindCursor(q) == if i < |q| then Some(q[i].1) else None
  {
    if i > 0 { CursorIsFirst(q[1..], i - 1); }
  }

  /** The first fetch sends the query as it is; every other one replaces its cursor by that of the page before. */
  lemma QueriesAre(base: seq<QueryEntry>, server: nat -> Answer, b: Bounds, s: nat, queries: seq<seq<QueryEntry>>,
                   r: Observation, k: nat)
    requires ValidBounds(b) && IsRun(base, server, b, s, queries, r) && k < |queries|
    ensures k == 0 ==> queries[k] == base
    ensures k > 0 ==>
              && server(k - 1).Response? && server(k - 1).projection.PageOf? && server(k - 1).projection.nextCursor.Some?
              && queries[k] == WithoutCursor(base) + [(NEXT_CURSOR, server(k - 1).projection.nextCursor.value)]
  {
    if k > 0 { assert GoesOn(base, server, b.maxItems, k - 1); }
  }
}
