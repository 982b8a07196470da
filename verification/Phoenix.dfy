/**
 The bounded paginated reader: `PhoenixClient.#execute` (packages/operations-node/src/phoenix.ts). The upstream is
 arbitrary: answer `k` is whatever the k-th fetch returned.
 */
module Phoenix {
  import opened Common
  import opened CanonicalJson
  import opened FirstOccurrence

  const MAX_PAGE_BOUND := 100
  const MAX_ITEM_BOUND := 100_000

  type QueryEntry = (Text, Text)

  datatype Projection =
    | PageOf(items: seq<Json>, nextCursor: Option<Text>, hasMore: bool)
    | OtherJson
    | NotProjected

  datatype Answer =
    | RedirectUnavailable
    | TransportFailed
    | NotDecoded
    | Response(status: int, projection: Projection)

  datatype StopReason =
    | CompleteListing
    | PageBound
    | ItemBound
    | CursorMissing
    | CursorRepeated
    | ProjectionFailure
    | SourceResponse

  datatype Failure = InvalidRequest | RedirectResponseUnavailable | Transport | Decoding

  datatype Observation =
    | Failed(failure: Failure)
    | Read(items: seq<Json>, pagesRead: nat, finalCursor: Option<Text>, stopReason: StopReason)

  datatype Bounds = Bounds(maxPages: int, maxItems: int)

  // ---------------------------------------------------------------- queries

  /** "nextCursor" */
  const NEXT_CURSOR: Text := [0x6e, 0x65, 0x78, 0x74, 0x43, 0x75, 0x72, 0x73, 0x6f, 0x72]

  /** `base.filter(([name]) => name !== "nextCursor")` */
  function WithoutCursor(base: seq<QueryEntry>): seq<QueryEntry> {
    if base == [] then []
    else if base[0].0 == NEXT_CURSOR then WithoutCursor(base[1..])
    else [base[0]] + WithoutCursor(base[1..])
  }

  /** The value of the first "nextCursor" entry. */
  function FindCursor(query: seq<QueryEntry>): Option<Text> {
    if query == [] then None
    else if query[0].0 == NEXT_CURSOR then Some(query[0].1)
    else FindCursor(query[1..])
  }

  function QueryWithCursor(base: seq<QueryEntry>, cursor: Option<Text>): seq<QueryEntry> {
    if cursor.None? then WithoutCursor(base) else WithoutCursor(base) + [(NEXT_CURSOR, cursor.value)]
  }

  /** The query asks for exactly the cursor; every other entry is kept, in order. */
  lemma {:induction false} QueryAsksForCursor(base: seq<QueryEntry>, cursor: Option<Text>)
    ensures FindCursor(QueryWithCursor(base, cursor)) == cursor
    ensures WithoutCursor(QueryWithCursor(base, cursor)) == WithoutCursor(base)
  {
    var rest := if cursor.None? then [] else [(NEXT_CURSOR, cursor.value)];
    assert QueryWithCursor(base, cursor) == WithoutCursor(base) + rest;
    CursorAppended(base, cursor, rest);
  }

  lemma {:induction false} CursorAppended(base: seq<QueryEntry>, cursor: Option<Text>, rest: seq<QueryEntry>)
    requires rest == if cursor.None? then [] else [(NEXT_CURSOR, cursor.value)]
    ensures FindCursor(WithoutCursor(base) + rest) == cursor
    ensures WithoutCursor(WithoutCursor(base) + rest) == WithoutCursor(base)
  {
    if base == [] {
      assert WithoutCursor(base) + rest == rest;
      if rest != [] { assert rest[1..] == []; }
    } else {
      CursorAppended(base[1..], cursor, rest);
      if base[0].0 != NEXT_CURSOR {
        var tail := WithoutCursor(base[1..]) + rest;
        assert WithoutCursor(base) + rest == [base[0]] + tail;
        assert ([base[0]] + tail)[1..] == tail;
      }
    }
  }

  // ---------------------------------------------------------------- the reference

  predicate IsSuccess(a: Answer) {
    a.Response? && 200 <= a.status < 300
  }

  /** A page that contributes items. */
  predicate IsPage(a: Answer) {
    IsSuccess(a) && a.projection.PageOf?
  }

  function ItemsOf(a: Answer): seq<Json> {
    if IsPage(a) then a.projection.items else []
  }

  /** The items of the first `n` answers, one page after another. */
  function AllItems(server: nat -> Answer, n: nat): seq<Json> {
    if n == 0 then [] else AllItems(server, n - 1) + ItemsOf(server(n - 1))
  }

  function Identity(item: Json): Text {
    CanonicalText(item)
  }

  /** Items without the repeats, in order of first appearance. */
  function Distinct(server: nat -> Answer, n: nat): seq<Json> {
    FirstOf(AllItems(server, n), Identity)
  }

  function Take(s: seq<Json>, n: nat): seq<Json> {
    if |s| <= n then s else s[..n]
  }

  /** The cursor that fetch `k` asks for. */
  function CursorAt(base: seq<QueryEntry>, server: nat -> Answer, k: nat): Option<Text> {
    if k == 0 then FindCursor(base)
    else if IsPage(server(k - 1)) then server(k - 1).projection.nextCursor
    else None
  }

  ghost predicate IsRepeated(base: seq<QueryEntry>, server: nat -> Answer, k: nat) {
    CursorAt(base, server, k).Some? && exists j | 0 <= j < k :: CursorAt(base, server, j) == CursorAt(base, server, k)
  }

  /** Page `k` is fetched, fits, and leads to a next one. */
  ghost predicate GoesOn(base: seq<QueryEntry>, server: nat -> Answer, maxItems: nat, k: nat) {
    && !IsRepeated(base, server, k)
    && IsPage(server(k))
    && |Distinct(server, k + 1)| <= maxItems
    && server(k).projection.hasMore && server(k).projection.nextCursor.Some?
  }

  /**
   `r` is what the reader has to return when the first `s` pages go on and page `s` does not: the reason is the first
   of the checks that page `s` fails, and the items are the leading distinct items of all pages.
   */
  ghost predicate StopsAt(base: seq<QueryEntry>, server: nat -> Answer, b: Bounds, s: nat, r: Observation)
    requires b.maxPages > 0 && b.maxItems > 0
  {
    && (forall k | 0 <= k < s :: GoesOn(base, server, b.maxItems, k))
    && (if s == b.maxPages then r == Read(Distinct(server, s), s, CursorAt(base, server, s), PageBound)
        else if IsRepeated(base, server, s) then r == Read(Distinct(server, s), s, CursorAt(base, server, s), CursorRepeated)
        else if !server(s).Response? then r == Failed(FailureOf(server(s)))
        else if !IsSuccess(server(s)) then r == Read(Distinct(server, s), s + 1, CursorAt(base, server, s), SourceResponse)
        else if !IsPage(server(s)) then r == Read(Distinct(server, s), s + 1, CursorAt(base, server, s), ProjectionFailure)
        else StopsOnPage(server(s).projection, Distinct(server, s + 1), s + 1, b.maxItems, r))
  }

  /** The reasons to stop that a whole page gives. */
  predicate StopsOnPage(page: Projection, distinct: seq<Json>, pages: nat, maxItems: nat, r: Observation)
    requires page.PageOf?
  {
    if |distinct| > maxItems then r == Read(Take(distinct, maxItems), pages, page.nextCursor, ItemBound)
    else if !page.hasMore then r == Read(distinct, pages, page.nextCursor, CompleteListing)
    else page.nextCursor.None? && r == Read(distinct, pages, None, CursorMissing)
  }

  function FailureOf(a: Answer): Failure
    requires !a.Response?
  {
    if a.RedirectUnavailable? then RedirectResponseUnavailable else if a.TransportFailed? then Transport else Decoding
  }

  // ---------------------------------------------------------------- the items of one page

  lemma {:induction false} DistinctGrows(before: seq<Json>, s: seq<Json>, n: nat)
    requires n <= |s|
    ensures |FirstOf(before + s[..n], Identity)| <= |FirstOf(before + s, Identity)|
    ensures FirstOf(before + s[..n], Identity) <= FirstOf(before + s, Identity)
  {
    FirstOfGrows(before + s[..n], s[n..], Identity);
    assert before + s[..n] + s[n..] == before + s;
  }

  /** The set of identities that have been seen. */
  ghost predicate SeenAre(seen: set<Text>, all: seq<Json>) {
    forall t: Text :: t in seen <==> t in KeysOf(all, Identity)
  }

  lemma SeenNext(seen: set<Text>, all: seq<Json>, item: Json)
    requires SeenAre(seen, all)
    ensures SeenAre(seen + {Identity(item)}, all + [item])
  {
    KeysOfSnoc(all, item, Identity);
  }

  /** One item: kept if its identity is new and there is room for it. */
  method TakeItem(item: Json, items: seq<Json>, seenItems: set<Text>, maxItems: nat, ghost all: seq<Json>)
    returns (full: bool, items': seq<Json>, seenItems': set<Text>)
    requires items == FirstOf(all, Identity) && |items| <= maxItems && SeenAre(seenItems, all)
    ensures full ==> items' == items && |items| == maxItems && FirstOf(all + [item], Identity) == items + [item]
    ensures !full ==> items' == FirstOf(all + [item], Identity) && |items'| <= maxItems
    ensures !full ==> SeenAre(seenItems', all + [item])
  {
    FirstOfSnoc(all, item, Identity);
    SeenNext(seenItems, all, item);
    if Identity(item) in seenItems {
      assert seenItems + {Identity(item)} == seenItems;
      return false, items, seenItems;
    }
    if |items| == maxItems { return true, items, seenItems; }
    return false, items + [item], seenItems + {Identity(item)};
  }

  /** Once there is no room for an item, the items are the first `maxItems` of all distinct ones. */
  lemma FullPage(before: seq<Json>, page: seq<Json>, n: nat, items: seq<Json>)
    requires 0 < n <= |page| && FirstOf(before + page[..n], Identity) == items + [page[n - 1]]
    ensures |FirstOf(before + page, Identity)| > |items|
    ensures items == FirstOf(before + page, Identity)[..|items|]
  {
    DistinctGrows(before, page, n);
  }

  /**
   The loop over the items of a page. It stops early exactly when the distinct items are too many; then the items are
   the first `maxItems` of them.
   */
  method TakeItems(page: seq<Json>, items: seq<Json>, seenItems: set<Text>, maxItems: nat, ghost before: seq<Json>)
    returns (full: bool, items': seq<Json>, seenItems': set<Text>)
    requires items == FirstOf(before, Identity) && |items| <= maxItems && SeenAre(seenItems, before)
    ensures full <==> |FirstOf(before + page, Identity)| > maxItems
    ensures items' == Take(FirstOf(before + page, Identity), maxItems)
    ensures !full ==> SeenAre(seenItems', before + page)
  {
    items', seenItems' := items, seenItems;
    full := false;
    assert before + page[..0] == before;
    for index := 0 to |page|
      invariant items' == FirstOf(before + page[..index], Identity) && |items'| <= maxItems
      invariant SeenAre(seenItems', before + page[..index])
    {
      assert before + page[..index + 1] == before + page[..index] + [page[index]];
      full, items', seenItems' := TakeItem(page[index], items', seenItems', maxItems, before + page[..index]);
      if full {
        FullPage(before, page, index + 1, items');
        return;
      }
    }
    assert page[..|page|] == page;
    full := false;
  }

  // ---------------------------------------------------------------- the cursor loop

  ghost predicate CursorsSeen(base: seq<QueryEntry>, server: nat -> Answer, n: nat, seen: set<Text>) {
    forall c: Text :: c in seen <==> exists k | 0 <= k < n :: CursorAt(base, server, k) == Some(c)
  }

  lemma CursorSeen(base: seq<QueryEntry>, server: nat -> Answer, n: nat, seen: set<Text>, cursor: Option<Text>)
    requires CursorsSeen(base, server, n, seen) && cursor == CursorAt(base, server, n)
    ensures IsRepeated(base, server, n) <==> cursor.Some? && cursor.value in seen
    ensures CursorsSeen(base, server, n + 1, if cursor.Some? then seen + {cursor.value} else seen)
  {
    var next := if cursor.Some? then seen + {cursor.value} else seen;
    forall c: Text ensures c in next <==> exists k | 0 <= k < n + 1 :: CursorAt(base, server, k) == Some(c) {
      if c in seen {
        var k :| 0 <= k < n && CursorAt(base, server, k) == Some(c);
        assert 0 <= k < n + 1 && CursorAt(base, server, k) == Some(c);
      }
      if cursor == Some(c) { assert 0 <= n < n + 1 && CursorAt(base, server, n) == Some(c); }
    }
  }

  /** What has been read after `n` pages that all go on. */
  ghost predicate Progress(base: seq<QueryEntry>, server: nat -> Answer, maxItems: nat, n: nat,
                           items: seq<Json>, seenItems: set<Text>) {
    && (forall k | 0 <= k < n :: GoesOn(base, server, maxItems, k))
    && items == Distinct(server, n) && |items| <= maxItems
    && SeenAre(seenItems, AllItems(server, n))
  }

  /** What is done with one answer: either an observation, or the reading goes on with the next cursor. */
  datatype Turn = Stop(observation: Observation) | Continue(items: seq<Json>, seenItems: set<Text>, cursor: Option<Text>)

  /** The part of the loop body after the fetch. */
  method UseAnswer(answer: Answer, items: seq<Json>, seenItems: set<Text>, cursor: Option<Text>, b: Bounds,
                   pageIndex: nat, ghost base: seq<QueryEntry>, ghost server: nat -> Answer)
    returns (turn: Turn)
    requires pageIndex < b.maxPages && b.maxItems > 0
    requires answer == server(pageIndex) && cursor == CursorAt(base, server, pageIndex)
    requires Progress(base, server, b.maxItems, pageIndex, items, seenItems) && !IsRepeated(base, server, pageIndex)
    ensures turn.Stop? ==> StopsAt(base, server, b, pageIndex, turn.observation) && !StopsBeforeFetch(turn.observation)
    ensures turn.Continue? ==> Progress(base, server, b.maxItems, pageIndex + 1, turn.items, turn.seenItems)
    ensures turn.Continue? ==> turn.cursor == CursorAt(base, server, pageIndex + 1)
  {
    if !answer.Response? { return Stop(Failed(FailureOf(answer))); }
    if answer.status < 200 || answer.status >= 300 {
      return Stop(Read(items, pageIndex + 1, cursor, SourceResponse));
    }
    if !answer.projection.PageOf? { return Stop(Read(items, pageIndex + 1, cursor, ProjectionFailure)); }
    var page := answer.projection;
    assert AllItems(server, pageIndex + 1) == AllItems(server, pageIndex) + page.items;
    var full, items', seenItems' := TakeItems(page.items, items, seenItems, b.maxItems, AllItems(server, pageIndex));
    if full { return Stop(Read(items', pageIndex + 1, page.nextCursor, ItemBound)); }
    if !page.hasMore { return Stop(Read(items', pageIndex + 1, page.nextCursor, CompleteListing)); }
    if page.nextCursor.None? { return Stop(Read(items', pageIndex + 1, None, CursorMissing)); }
    return Continue(items', seenItems', page.nextCursor);
  }

  /** The query of fetch `k`. */
  function QueryAt(base: seq<QueryEntry>, server: nat -> Answer, k: nat): seq<QueryEntry> {
    if k == 0 then base else QueryWithCursor(base, CursorAt(base, server, k))
  }

  function QueriesOf(base: seq<QueryEntry>, server: nat -> Answer, n: nat): (q: seq<seq<QueryEntry>>)
    ensures |q| == n
  {
    seq(n, k requires 0 <= k < n => QueryAt(base, server, k))
  }

  lemma NextQuery(base: seq<QueryEntry>, server: nat -> Answer, n: nat, query: seq<QueryEntry>)
    requires query == QueryAt(base, server, n)
    ensures QueriesOf(base, server, n) + [query] == QueriesOf(base, server, n + 1)
  {
  }

  /** No two fetches of a run ask for the same cursor. */
  ghost predicate CursorsDiffer(queries: seq<seq<QueryEntry>>) {
    forall i, j | 0 <= i < j < |queries| && FindCursor(queries[j]).Some? :: FindCursor(queries[i]) != FindCursor(queries[j])
  }

  lemma QueriesDiffer(base: seq<QueryEntry>, server: nat -> Answer, n: nat)
    requires forall k | 0 <= k < n :: !IsRepeated(base, server, k)
    ensures CursorsDiffer(QueriesOf(base, server, n))
  {
    var queries := QueriesOf(base, server, n);
    forall k | 0 <= k < n ensures FindCursor(queries[k]) == CursorAt(base, server, k) {
      QueryAsksForCursor(base, CursorAt(base, server, k));
    }
    forall i, j | 0 <= i < j < n && FindCursor(queries[j]).Some? ensures FindCursor(queries[i]) != FindCursor(queries[j]) {
      assert !IsRepeated(base, server, j);
    }
  }

  lemma NoneRepeated(base: seq<QueryEntry>, server: nat -> Answer, maxItems: nat, n: nat)
    requires forall k | 0 <= k < n :: GoesOn(base, server, maxItems, k)
    ensures forall k | 0 <= k < n :: !IsRepeated(base, server, k)
  {
    forall k | 0 <= k < n ensures !IsRepeated(base, server, k) {
      assert GoesOn(base, server, maxItems, k);
    }
  }

  predicate ValidBounds(b: Bounds) {
    1 <= b.maxPages <= MAX_PAGE_BOUND && 1 <= b.maxItems <= MAX_ITEM_BOUND
  }

  /** The two reasons to stop that need no further answer. */
  predicate StopsBeforeFetch(r: Observation) {
    r.Read? && (r.stopReason.PageBound? || r.stopReason.CursorRepeated?)
  }

  /** What a whole run is: at most `maxPages` fetches, no cursor twice, and a justified stop after them. */
  ghost predicate IsRun(base: seq<QueryEntry>, server: nat -> Answer, b: Bounds, s: nat, queries: seq<seq<QueryEntry>>,
                        r: Observation)
    requires b.maxPages > 0 && b.maxItems > 0
  {
    && |queries| == (if StopsBeforeFetch(r) then s else s + 1) && |queries| <= b.maxPages
    && queries == QueriesOf(base, server, |queries|) && CursorsDiffer(queries)
    && StopsAt(base, server, b, s, r)
  }

  /** The variables of the loop. */
  datatype Loop = Loop(
    cursor: Option<Text>, items: seq<Json>, seenItems: set<Text>, seenCursors: set<Text>, queries: seq<seq<QueryEntry>>)

  /** Their values when the loop turns to page `n`. */
  ghost predicate AtPage(base: seq<QueryEntry>, server: nat -> Answer, maxItems: nat, n: nat, l: Loop) {
    && l.cursor == CursorAt(base, server, n)
    && Progress(base, server, maxItems, n, l.items, l.seenItems)
    && CursorsSeen(base, server, n, l.seenCursors) && l.queries == QueriesOf(base, server, n)
  }

  lemma LoopBegins(base: seq<QueryEntry>, server: nat -> Answer, maxItems: nat)
    ensures AtPage(base, server, maxItems, 0, Loop(FindCursor(base), [], {}, {}, []))
  {
  }

  lemma QueriesSoFarDiffer(base: seq<QueryEntry>, server: nat -> Answer, maxItems: nat, n: nat, l: Loop)
    requires AtPage(base, server, maxItems, n, l)
    ensures CursorsDiffer(l.queries) && |l.queries| == n
  {
    NoneRepeated(base, server, maxItems, n);
    QueriesDiffer(base, server, n);
  }

  /** Asking for a cursor that has not been asked for. */
  method Ask(base: seq<QueryEntry>, pageIndex: nat, l: Loop, maxItems: nat, ghost server: nat -> Answer)
    returns (l': Loop)
    requires AtPage(base, server, maxItems, pageIndex, l) && !IsRepeated(base, server, pageIndex)
    ensures l'.cursor == l.cursor && l'.items == l.items && l'.seenItems == l.seenItems
    ensures CursorsSeen(base, server, pageIndex + 1, l'.seenCursors)
    ensures l'.queries == QueriesOf(base, server, pageIndex + 1) && CursorsDiffer(l'.queries)
  {
    NoneRepeated(base, server, maxItems, pageIndex);
    CursorSeen(base, server, pageIndex, l.seenCursors, l.cursor);
    QueriesDiffer(base, server, pageIndex + 1);
    var query := if pageIndex == 0 then base else QueryWithCursor(base, l.cursor);
    NextQuery(base, server, pageIndex, query);
    l' := l.(seenCursors := if l.cursor.Some? then l.seenCursors + {l.cursor.value} else l.seenCursors,
             queries := l.queries + [query]);
  }

  /** The loop body. */
  method DoPage(base: seq<QueryEntry>, b: Bounds, server: nat -> Answer, pageIndex: nat, l: Loop)
    returns (r: Option<Observation>, l': Loop)
    requires pageIndex < b.maxPages && b.maxItems > 0 && AtPage(base, server, b.maxItems, pageIndex, l)
    ensures r.Some? ==> IsRun(base, server, b, pageIndex, l'.queries, r.value)
    ensures r.None? ==> AtPage(base, server, b.maxItems, pageIndex + 1, l')
  {
    CursorSeen(base, server, pageIndex, l.seenCursors, l.cursor);
    if l.cursor.Some? && l.cursor.value in l.seenCursors {
      QueriesSoFarDiffer(base, server, b.maxItems, pageIndex, l);
      return Some(Read(l.items, pageIndex, l.cursor, CursorRepeated)), l;
    }
    l' := Ask(base, pageIndex, l, b.maxItems, server);
    var turn := UseAnswer(server(pageIndex), l.items, l.seenItems, l.cursor, b, pageIndex, base, server);
    if turn.Stop? { return Some(turn.observation), l'; }
    return None, l'.(items := turn.items, seenItems := turn.seenItems, cursor := turn.cursor);
  }

  /** `#execute`. A base query of `None` is one that could not be serialized; `s` counts the pages that went on. */
  method Execute(serialized: Option<seq<QueryEntry>>, b: Bounds, server: nat -> Answer)
    returns (r: Observation, queries: seq<seq<QueryEntry>>, ghost s: nat)
    ensures r == Failed(InvalidRequest)
            <==> serialized.None? || !(1 <= b.maxPages <= 100 && 1 <= b.maxItems <= 100_000)
    ensures serialized.Some? && ValidBounds(b) ==> IsRun(serialized.value, server, b, s, queries, r)
  {
    if serialized.None? || !ValidBounds(b) { return Failed(InvalidRequest), [], 0; }
    var base := serialized.value;
    var l := Loop(FindCursor(base), [], {}, {}, []);
    LoopBegins(base, server, b.maxItems);
    for pageIndex := 0 to b.maxPages
      invariant AtPage(base, server, b.maxItems, pageIndex, l)
    {
      var stop, l' := DoPage(base, b, server, pageIndex, l);
      if stop.Some? { return stop.value, l'.queries, pageIndex; }
      l := l';
    }
    QueriesSoFarDiffer(base, server, b.maxItems, b.maxPages, l);
    return Read(l.items, b.maxPages, l.cursor, PageBound), l.queries, b.maxPages;
  }

  // ---------------------------------------------------------------- what a caller gets

  /** The pages whose items count: those before the stop, and the page of the stop if it is one. */
  function PagesUsed(server: nat -> Answer, b: Bounds, s: nat, r: Observation): nat {
    if r.Read? && (r.stopReason.ItemBound? || r.stopReason.CompleteListing? || r.stopReason.CursorMissing?) then s + 1 else s
  }

  /**
   For every upstream and every reason to stop, the items are the first `maxItems` distinct items of the pages read;
   when the reason is that the listing is complete, nothing is missing: they are all of them, and the upstream said
   that there is no more.
   */
  lemma ItemsAreLeadingDistinct(base: seq<QueryEntry>, server: nat -> Answer, b: Bounds, s: nat,
                                queries: seq<seq<QueryEntry>>, r: Observation)
    requires ValidBounds(b) && IsRun(base, server, b, s, queries, r) && r.Read?
    ensures r.items == Take(Distinct(server, PagesUsed(server, b, s, r)), b.maxItems)
    ensures r.stopReason.CompleteListing? ==>
              && r.items == Distinct(server, s + 1) && IsPage(server(s)) && !server(s).projection.hasMore
              && forall k | 0 <= k < s :: IsPage(server(k)) && server(k).projection.hasMore
  {
    DistinctInBound(base, server, b.maxItems, s);
    forall k | 0 <= k < s ensures IsPage(server(k)) && server(k).projection.hasMore {
      assert GoesOn(base, server, b.maxItems, k);
    }
  }

  lemma DistinctInBound(base: seq<QueryEntry>, server: nat -> Answer, maxItems: nat, s: nat)
    requires forall k | 0 <= k < s :: GoesOn(base, server, maxItems, k)
    ensures |Distinct(server, s)| <= maxItems
  {
    if s > 0 { assert GoesOn(base, server, maxItems, s - 1); }
  }

  /** The run is determined by the answers: there is one place to stop and one thing to return. */
  lemma StopIsUnique(base: seq<QueryEntry>, server: nat -> Answer, b: Bounds, s: nat, s': nat, r: Observation, r': Observation)
    requires ValidBounds(b) && s <= b.maxPages && s' <= b.maxPages
    requires StopsAt(base, server, b, s, r) && StopsAt(base, server, b, s', r')
    ensures s == s' && r == r'
  {
    if s < s' { StopDoesNotGoOn(base, server, b, s, r); }
    if s' < s { StopDoesNotGoOn(base, server, b, s', r'); }
  }

  lemma StopDoesNotGoOn(base: seq<QueryEntry>, server: nat -> Answer, b: Bounds, s: nat, r: Observation)
    requires ValidBounds(b) && s < b.maxPages && StopsAt(base, server, b, s, r)
    ensures !GoesOn(base, server, b.maxItems, s)
  {
  }
}
