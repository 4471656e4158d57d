/**
 Cursor paging of the admin lists.

 TransactionsApi is `queryTransactions` of apps/admin/e2e/fixtures/transactions.js, the
 response contract of the list endpoints. ListQuery is the URL state of
 apps/admin/src/lib/useListQuery.js with the page-size control of Pagination.jsx.

 The URL parameters that hold numbers are kept as numbers; the row filter is a parameter.
 */
module TransactionsApi {
  import opened Prelude

  type Filters = map<string, string>

  datatype Row = Row(id: string, fields: map<string, string>)

  /** The dataset behind the endpoint and the test of its filter parameters. */
  datatype Source = Source(rows: seq<Row>, keep: (Filters, Row) -> bool)

  /** The query string. `after` and `before` are row ids, `page` never reaches the server. */
  datatype Url = Url(after: Option<string>, before: Option<string>, page: Option<nat>, limit: Option<nat>, filters: Filters)

  datatype Response = Response(data: seq<Row>, limit: nat, total: nat, hasMore: bool, nextCursor: Option<string>, prevCursor: Option<string>)

  const DEFAULT_LIMIT: nat := 10

  /** A parameter that is absent or empty does not count. */
  predicate Given(p: Option<string>) {
    p.Some? && p.value != ""
  }

  function Limit(url: Url): (n: nat)
    ensures n >= 1
  {
    if url.limit.Some? && url.limit.value != 0 then url.limit.value else DEFAULT_LIMIT
  }

  function Select(keep: (Filters, Row) -> bool, filters: Filters, rows: seq<Row>): seq<Row> {
    if rows == [] then []
    else (if keep(filters, rows[0]) then [rows[0]] else []) + Select(keep, filters, rows[1..])
  }

  function Filtered(source: Source, url: Url): seq<Row> {
    Select(source.keep, url.filters, source.rows)
  }

  /** `findIndex`: the first row with this id, or -1. */
  function FindIndex(rows: seq<Row>, id: string): (i: int)
    ensures -1 <= i < |rows|
    ensures i >= 0 ==> rows[i].id == id
    ensures forall j :: 0 <= j < (if i >= 0 then i else |rows|) ==> rows[j].id != id
  {
    if rows == [] then -1
    else if rows[0].id == id then 0
    else var i := FindIndex(rows[1..], id); if i < 0 then -1 else i + 1
  }

  function Max(a: int, b: int): int {
    if a >= b then a else b
  }

  function Start(source: Source, url: Url): (n: nat)
    ensures n <= |Filtered(source, url)|
  {
    var filtered := Filtered(source, url);
    if Given(url.before) then Max(0, FindIndex(filtered, url.before.value) - Limit(url))
    else if Given(url.after) then FindIndex(filtered, url.after.value) + 1
    else 0
  }

  function Window(rows: seq<Row>, start: nat, limit: nat): seq<Row>
    requires start <= |rows|
  {
    if start + limit < |rows| then rows[start..start + limit] else rows[start..]
  }

  function QueryTransactions(source: Source, url: Url): Response {
    var filtered := Filtered(source, url);
    var start := Start(source, url);
    var limit := Limit(url);
    var page := Window(filtered, start, limit);
    var hasMore := start + limit < |filtered|;
    Response(page, limit, |filtered|, hasMore,
             if hasMore then Some(page[|page| - 1].id) else None,
             if start > 0 && |page| > 0 then Some(page[0].id) else None)
  }

  /** Row ids are unique and not empty. */
  predicate Keyed(rows: seq<Row>) {
    && (forall i :: 0 <= i < |rows| ==> rows[i].id != "")
    && (forall i, j :: 0 <= i < j < |rows| ==> rows[i].id != rows[j].id)
  }

  lemma {:induction false} SelectKeyed(keep: (Filters, Row) -> bool, filters: Filters, rows: seq<Row>)
    requires Keyed(rows)
    ensures Keyed(Select(keep, filters, rows))
    ensures forall r :: r in Select(keep, filters, rows) ==> r in rows && keep(filters, r)
  {
    if rows != [] {
      SelectKeyed(keep, filters, rows[1..]);
      var rest := Select(keep, filters, rows[1..]);
      forall j | 0 <= j < |rest|
        ensures rest[j].id != rows[0].id
      {
        assert rest[j] in rows[1..];
      }
    }
  }

  lemma FindsRow(rows: seq<Row>, i: nat)
    requires Keyed(rows) && i < |rows|
    ensures FindIndex(rows, rows[i].id) == i
  {
  }

  /** An empty cursor is none, and without cursors the list is served from its beginning. */
  lemma EmptyCursorIsNone(source: Source, url: Url)
    ensures QueryTransactions(source, url.(after := Some(""), before := None)).data == QueryTransactions(source, url.(after := None, before := None)).data
    ensures Start(source, url.(after := None, before := Some(""))) == Start(source, url.(after := None, before := None)) == 0
  {
  }

  /** The window of a URL with an `after` cursor starts behind that row. */
  lemma StartAfter(source: Source, url: Url, i: nat)
    requires Keyed(source.rows) && i < |Filtered(source, url)| && url.before.None?
    requires url.after == Some(Filtered(source, url)[i].id)
    ensures Start(source, url) == i + 1
  {
    SelectKeyed(source.keep, url.filters, source.rows);
    hide Select, FindIndex;
    FindsRow(Filtered(source, url), i);
  }

  /** The window of a URL with a `before` cursor ends in front of that row. */
  lemma StartBefore(source: Source, url: Url, i: nat)
    requires Keyed(source.rows) && i < |Filtered(source, url)| && url.before == Some(Filtered(source, url)[i].id)
    ensures Start(source, url) == Max(0, i - Limit(url))
  {
    SelectKeyed(source.keep, url.filters, source.rows);
    hide Select, FindIndex;
    FindsRow(Filtered(source, url), i);
  }

  /** A next cursor is the last row shown, and is given exactly when rows follow. */
  lemma NextCursorOf(source: Source, url: Url)
    ensures var r := QueryTransactions(source, url); var end := Start(source, url) + Limit(url);
            && (r.hasMore <==> end < |Filtered(source, url)|)
            && r.nextCursor == if r.hasMore then Some(Filtered(source, url)[end - 1].id) else None
  {
    hide Start, Filtered, Limit;
  }

  /** A previous cursor is the first row shown, and is given exactly when rows go before. */
  lemma PrevCursorOf(source: Source, url: Url)
    requires Start(source, url) < |Filtered(source, url)| || Start(source, url) == 0
    ensures QueryTransactions(source, url).prevCursor
         == if Start(source, url) > 0 then Some(Filtered(source, url)[Start(source, url)].id) else None
  {
    hide Start, Filtered, Limit;
  }

}

module ListQuery {
  import opened Prelude
  import opened TransactionsApi

  function PageOf(url: Url): (n: nat)
    ensures n >= 1
  {
    if url.page.Some? && url.page.value >= 1 then url.page.value else 1
  }

  // ----- The URL updates

  function SetFilter(url: Url, key: string, value: string): Url {
    Url(None, None, None, url.limit, if value != "" then url.filters[key := value] else url.filters - {key})
  }

  function ResetFilters(url: Url, filterKeys: set<string>): Url {
    Url(None, None, None, url.limit, url.filters - filterKeys)
  }

  function ChangePageSize(url: Url, size: nat): Url {
    url.(limit := Some(size), after := None, before := None, page := None)
  }

  function GoNext(url: Url, cursor: string): Url {
    url.(after := Some(cursor), before := None, page := Some(PageOf(url) + 1))
  }

  /** Page 1 is the canonical default and leaves no `page` parameter. */
  function GoPrev(url: Url, cursor: string): Url {
    url.(before := Some(cursor), after := None, page := if PageOf(url) > 2 then Some((PageOf(url) - 1) as nat) else None)
  }

  // ----- Actions on a settled list

  datatype Action =
    | Next
    | Prev
    | Filter(key: string, value: string)
    | Reset(filterKeys: set<string>)
    | SizeChange(size: nat)

  predicate CanNext(shown: Response) {
    Given(shown.nextCursor) && shown.hasMore
  }

  predicate CanPrev(shown: Response) {
    Given(shown.prevCursor)
  }

  /** The buttons are disabled without a cursor. */
  predicate Enabled(source: Source, url: Url, a: Action) {
    match a
    case Next => CanNext(QueryTransactions(source, url))
    case Prev => CanPrev(QueryTransactions(source, url))
    case _ => true
  }

  function Act(source: Source, url: Url, a: Action): Url
    requires Enabled(source, url, a)
  {
    match a
    case Next => GoNext(url, QueryTransactions(source, url).nextCursor.value)
    case Prev => GoPrev(url, QueryTransactions(source, url).prevCursor.value)
    case Filter(key, value) => SetFilter(url, key, value)
    case Reset(filterKeys) => ResetFilters(url, filterKeys)
    case SizeChange(size) => ChangePageSize(url, size)
  }

  ghost predicate Run(source: Source, url: Url, actions: seq<Action>, end: Url)
    decreases |actions|
  {
    if actions == [] then url == end
    else Enabled(source, url, actions[0]) && Run(source, Act(source, url, actions[0]), actions[1..], end)
  }

  /**
   What a filter action does to the rows: the filter with this name is set, or dropped for the empty
   value, the others stay; the list is exactly the rows the new filters keep, and the first of them are served.
   */
  lemma FilterServes(source: Source, url: Url, key: string, value: string)
    ensures var next := SetFilter(url, key, value);
            && Enabled(source, url, Filter(key, value)) && Act(source, url, Filter(key, value)) == next
            && (forall name :: name != key ==> (name in next.filters <==> name in url.filters) && (name in url.filters ==> next.filters[name] == url.filters[name]))
            && (if value == "" then key !in next.filters else key in next.filters && next.filters[key] == value)
            && (forall row :: row in Filtered(source, next) <==> row in source.rows && source.keep(next.filters, row))
            && QueryTransactions(source, next).data <= Filtered(source, next) && QueryTransactions(source, next).total == |Filtered(source, next)|
            && |QueryTransactions(source, next).data| == Min(Limit(url), |Filtered(source, next)|)
            && Limit(url) == if url.limit == None || url.limit == Some(0) then 10 else url.limit.value
  {
    SelectsExactly(source.keep, SetFilter(url, key, value).filters, source.rows);
  }

  /** A reset drops exactly the named filters, a new page size keeps them all; both go back to the first page. */
  lemma OthersServe(source: Source, url: Url, filterKeys: set<string>, size: nat)
    ensures var reset := Act(source, url, Reset(filterKeys));
            && FirstPage(reset) && Limit(reset) == Limit(url)
            && (forall name :: name in reset.filters <==> name in url.filters && name !in filterKeys)
            && (forall name :: name in reset.filters ==> reset.filters[name] == url.filters[name])
    ensures var sized := Act(source, url, SizeChange(size));
            && FirstPage(sized) && sized.filters == url.filters && (size >= 1 ==> Limit(sized) == size)
            && Filtered(source, sized) == Filtered(source, url)
  {
  }

  /** Rows are kept in the order of the list. */
  lemma {:induction false} SelectsInOrder(keep: (Filters, Row) -> bool, filters: Filters, a: seq<Row>, b: seq<Row>)
    ensures Select(keep, filters, a + b) == Select(keep, filters, a) + Select(keep, filters, b)
  {
    if a == [] {
      assert a + b == b;
    } else {
      var kept := if keep(filters, a[0]) then [a[0]] else [];
      assert (a + b)[0] == a[0] && (a + b)[1..] == a[1..] + b;
      SelectsInOrder(keep, filters, a[1..], b);
      assert Select(keep, filters, a + b) == kept + Select(keep, filters, a[1..] + b);
      assert Select(keep, filters, a) == kept + Select(keep, filters, a[1..]);
      hide Select;
      Regroup(kept, Select(keep, filters, a[1..]), Select(keep, filters, b));
    }
  }

  function Min(a: nat, b: nat): nat {
    if a <= b then a else b
  }

  lemma {:induction false} SelectsExactly(keep: (Filters, Row) -> bool, filters: Filters, rows: seq<Row>)
    ensures forall row :: row in Select(keep, filters, rows) <==> row in rows && keep(filters, row)
  {
    if rows != [] {
      SelectsExactly(keep, filters, rows[1..]);
      assert rows == [rows[0]] + rows[1..];
    }
  }

  predicate FirstPage(url: Url) {
    url.after.None? && url.before.None? && PageOf(url) == 1
  }

  /** The rows before a page: `limit` for each page in front of it. */
  function Offset(page: nat, limit: nat): nat
    requires page >= 1
  {
    if page == 1 then 0 else Offset(page - 1, limit) + limit
  }

  lemma {:induction false} OffsetIsProduct(page: nat, limit: nat)
    requires page >= 1
    ensures Offset(page, limit) == (page - 1) * limit
  {
    if page > 1 {
      OffsetIsProduct(page - 1, limit);
      assert (page - 2) * limit + limit == (page - 1) * limit;
    }
  }

  lemma OffsetStep(page: nat, limit: nat)
    requires page >= 1 && limit >= 1
    ensures Offset(page + 1, limit) == Offset(page, limit) + limit
    ensures Offset(page, limit) > 0 <==> page > 1
  {
  }

  /** The page in the URL is the page the server serves, and at most one cursor is set. */
  predicate Synced(source: Source, url: Url) {
    && Start(source, url) == Offset(PageOf(url), Limit(url))
    && (Start(source, url) < |Filtered(source, url)| || Start(source, url) == 0)
    && !(url.after.Some? && url.before.Some?)
  }

  /** What one step forward does to the served window. */
  lemma NextMoves(source: Source, url: Url)
    requires Keyed(source.rows) && Synced(source, url) && CanNext(QueryTransactions(source, url))
    ensures var next := Act(source, url, Next);
            && Start(source, next) == Start(source, url) + Limit(url) < |Filtered(source, url)|
            && Synced(source, next) && PageOf(next) == PageOf(url) + 1
            && Limit(next) == Limit(url) && Filtered(source, next) == Filtered(source, url)
  {
    NextCursorOf(source, url);
    OffsetStep(PageOf(url), Limit(url));
    hide QueryTransactions, Start, Offset, Select, Keyed;
    var last := Start(source, url) + Limit(url) - 1;
    var next := Act(source, url, Next);
    assert Filtered(source, next) == Filtered(source, url) && Limit(next) == Limit(url) && PageOf(next) == PageOf(url) + 1;
    hide Filtered, Limit;
    StartAfter(source, next, last);
  }

  /** Going back to page 1 leaves no page parameter, and to any other page its number. */
  lemma FirstPageIsBare(source: Source, url: Url)
    requires Keyed(source.rows) && Synced(source, url) && CanPrev(QueryTransactions(source, url))
    ensures Act(source, url, Prev).page == if PageOf(url) == 2 then None else Some((PageOf(url) - 1) as nat)
  {
    hide QueryTransactions;
    PrevMoves(source, url);
  }

  /** What one step back does to the served window. */
  lemma PrevMoves(source: Source, url: Url)
    requires Keyed(source.rows) && Synced(source, url) && CanPrev(QueryTransactions(source, url))
    ensures var prev := Act(source, url, Prev);
            && PageOf(url) >= 2 && Start(source, prev) == Start(source, url) - Limit(url)
            && Synced(source, prev) && PageOf(prev) == PageOf(url) - 1
            && Limit(prev) == Limit(url) && Filtered(source, prev) == Filtered(source, url)
  {
    PrevCursorOf(source, url);
    OffsetStep(PageOf(url), Limit(url));
    hide QueryTransactions, Start, Offset, Select, Keyed;
    assert PageOf(url) > 1;
    OffsetStep(PageOf(url) - 1, Limit(url));
    var prev := Act(source, url, Prev);
    assert Filtered(source, prev) == Filtered(source, url) && Limit(prev) == Limit(url) && PageOf(prev) == PageOf(url) - 1;
    hide Filtered, Limit;
    StartBefore(source, prev, Start(source, url));
  }

  /** The cursors that a synced page offers are exactly those of its neighbours. */
  lemma CursorsExactly(source: Source, url: Url)
    requires Keyed(source.rows) && Synced(source, url)
    ensures CanNext(QueryTransactions(source, url)) <==> Start(source, url) + Limit(url) < |Filtered(source, url)|
    ensures CanNext(QueryTransactions(source, url)) <==> Offset(PageOf(url) + 1, Limit(url)) < |Filtered(source, url)|
    ensures CanPrev(QueryTransactions(source, url)) <==> PageOf(url) > 1
  {
    SelectKeyed(source.keep, url.filters, source.rows);
    NextCursorOf(source, url);
    PrevCursorOf(source, url);
    OffsetStep(PageOf(url), Limit(url));
    hide QueryTransactions, Start, Offset, Select, Filtered, Limit;
  }

  lemma ActKeepsSync(source: Source, url: Url, a: Action)
    requires Keyed(source.rows) && Synced(source, url) && Enabled(source, url, a)
    ensures Synced(source, Act(source, url, a))
  {
    match a
    case Next => NextMoves(source, url);
    case Prev => PrevMoves(source, url);
    case _ =>
  }

  /** From page 1, every run of actions on settled states keeps page and window in step. */
  lemma {:induction false} RunKeepsSync(source: Source, url: Url, actions: seq<Action>, end: Url)
    requires Keyed(source.rows) && Run(source, url, actions, end)
    requires FirstPage(url) || Synced(source, url)
    ensures Synced(source, end)
    ensures Start(source, end) == Offset(PageOf(end), Limit(end)) && !(end.after.Some? && end.before.Some?)
    decreases |actions|
  {
    if actions != [] {
      ActKeepsSync(source, url, actions[0]);
      RunKeepsSync(source, Act(source, url, actions[0]), actions[1..], end);
    }
  }

  /** Prev undoes next: the same page number and the same response. */
  lemma PrevUndoesNext(source: Source, url: Url)
    requires Keyed(source.rows) && Synced(source, url) && CanNext(QueryTransactions(source, url))
    ensures var next := Act(source, url, Next);
            && Enabled(source, next, Prev)
            && PageOf(Act(source, next, Prev)) == PageOf(url)
            && QueryTransactions(source, Act(source, next, Prev)) == QueryTransactions(source, url)
  {
    NextMoves(source, url);
    CursorsExactly(source, Act(source, url, Next));
    PrevMoves(source, Act(source, url, Next));
  }

  /** Next undoes prev. */
  lemma NextUndoesPrev(source: Source, url: Url)
    requires Keyed(source.rows) && Synced(source, url) && CanPrev(QueryTransactions(source, url))
    ensures var prev := Act(source, url, Prev);
            && Enabled(source, prev, Next)
            && PageOf(Act(source, prev, Next)) == PageOf(url)
            && QueryTransactions(source, Act(source, prev, Next)) == QueryTransactions(source, url)
  {
    PrevMoves(source, url);
    var prev := Act(source, url, Prev);
    CursorsExactly(source, prev);
    NextMoves(source, prev);
  }

  /** All rows seen by following next cursors from here on. */
  function Follow(source: Source, url: Url): seq<Row>
    requires Keyed(source.rows) && Synced(source, url)
    decreases |Filtered(source, url)| - Start(source, url)
  {
    var shown := QueryTransactions(source, url);
    if CanNext(shown) then
      NextMoves(source, url);
      shown.data + Follow(source, Act(source, url, Next))
    else shown.data
  }

  /** Following the cursors gives the filtered list from the current window on, with no gap and no repeat. */
  lemma {:induction false} FollowIsTheRest(source: Source, url: Url)
    requires Keyed(source.rows) && Synced(source, url)
    ensures Follow(source, url) == Filtered(source, url)[Start(source, url)..]
    decreases |Filtered(source, url)| - Start(source, url)
  {
    hide QueryTransactions, Start, Limit, Filtered, Synced, CanNext, Act, Keyed;
    CursorsExactly(source, url);
    WindowOf(source, url);
    if CanNext(QueryTransactions(source, url)) {
      NextMoves(source, url);
      FollowIsTheRest(source, Act(source, url, Next));
      var (rows, a, b) := (Filtered(source, url), Start(source, url), Start(source, url) + Limit(url));
      assert rows[a..b] + rows[b..] == rows[a..];
    }
  }

  lemma WindowOf(source: Source, url: Url)
    ensures var (filtered, start, limit) := (Filtered(source, url), Start(source, url), Limit(url));
            QueryTransactions(source, url).data == if start + limit < |filtered| then filtered[start..start + limit] else filtered[start..]
  {
    hide Start, Limit, Filtered;
  }

  lemma FollowFromFirstPage(source: Source, url: Url)
    requires Keyed(source.rows) && FirstPage(url)
    ensures Synced(source, url) && Follow(source, url) == Filtered(source, url)
  {
    FollowIsTheRest(source, url);
  }

  // ----- The hook's handlers

  function KeySet(keys: seq<string>): set<string> {
    set key | key in keys
  }

  /** The query string behind useSearchParams; each handler copies it, edits the copy and stores it. */
  class SearchParams {
    var url: Url

    constructor (url: Url)
      ensures this.url == url
    {
      this.url := url;
    }

    method OnFilter(key: string, value: string)
      modifies this
      ensures url == SetFilter(old(url), key, value)
    {
      var next := url;
      next := next.(filters := if value != "" then next.filters[key := value] else next.filters - {key});
      next := next.(after := None).(before := None).(page := None);
      url := next;
    }

    method OnNext(cursor: string)
      modifies this
      ensures url == GoNext(old(url), cursor)
    {
      var next := url.(after := Some(cursor)).(before := None);
      var current := PageOf(next);
      url := next.(page := Some(current + 1));
    }

    method OnPrev(cursor: string)
      modifies this
      ensures url == GoPrev(old(url), cursor)
    {
      var next := url.(before := Some(cursor)).(after := None);
      var current := PageOf(next);
      url := if current > 2 then next.(page := Some((current - 1) as nat)) else next.(page := None);
    }

    method OnReset(filterKeys: seq<string>)
      modifies this
      ensures url == ResetFilters(old(url), KeySet(filterKeys))
    {
      var next := url;
      for i := 0 to |filterKeys|
        invariant next == url.(filters := url.filters - KeySet(filterKeys[..i]))
        invariant url == old(url)
      {
        assert filterKeys[..i + 1] == filterKeys[..i] + [filterKeys[i]];
        assert KeySet(filterKeys[..i + 1]) == KeySet(filterKeys[..i]) + {filterKeys[i]};
        next := next.(filters := next.filters - {filterKeys[i]});
      }
      assert filterKeys[..|filterKeys|] == filterKeys;
      url := next.(after := None).(before := None).(page := None);
    }
  }
}
