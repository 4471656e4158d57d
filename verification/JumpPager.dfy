/**
 The jump-to-page walk of apps/admin/src/components/Pagination.jsx.

 A jump target is reached one cursor at a time. Every render decides the next walk step
 from the current page, the target and the shown response; an effect navigates when the
 step or one of the two cursor strings differs from the last committed ones. After a
 navigation the shown response is stale until the answer for the new URL arrives.

 The dataset is static, the pager stays mounted, and a jump is submitted while the shown
 response belongs to the URL. Renders may come at any time and any number of times.
 */
module JumpPager {
  import opened ListQuery
  import opened Prelude
  import opened TransactionsApi

  datatype Step = Idle | Arrived | WalkNext | WalkPrev | Stuck

  datatype JumpError = NoError | NotANumber | Clamped(totalPages: nat) | NoFurtherPages(page: nat)

  /** The dependency list of the navigation effect. */
  datatype Deps = Deps(step: Step, nextCursor: Option<string>, prevCursor: Option<string>)

  /**
   `draft` is what `parseInt` makes of the input field (`None` for NaN); `awaiting` says that
   the response for the URL has not arrived; `navigations` counts the calls of onNext and onPrev.
   */
  datatype Pager = Pager(
    url: Url, shown: Response, awaiting: bool,
    draft: Option<int>, shownPage: nat, jumpTarget: Option<nat>, jumpError: JumpError,
    deps: Deps, navigations: nat)

  const PAGE_SIZES := {10, 25, 50, 100}

  function PageSize(url: Url, shown: Response): (n: nat)
    ensures n >= 1
  {
    if url.limit.Some? && url.limit.value in PAGE_SIZES then url.limit.value
    else if shown.limit >= 1 then shown.limit else 50
  }

  /** `max(1, ceil(total / pageSize))`: one page, and one more for as long as rows are left over. */
  function TotalPages(total: nat, pageSize: nat): (n: nat)
    requires pageSize >= 1
    ensures n >= 1
  {
    if total <= pageSize then 1 else 1 + TotalPages(total - pageSize, pageSize)
  }

  lemma {:induction false} TotalPagesIsQuotient(total: nat, pageSize: nat)
    requires pageSize >= 1
    ensures TotalPages(total, pageSize) == if total == 0 then 1 else (total - 1) / pageSize + 1
  {
    if total > pageSize {
      TotalPagesIsQuotient(total - pageSize, pageSize);
      OneLessQuotient(total - 1, pageSize);
    } else if total > 0 {
      assert (total - 1) / pageSize == 0;
    }
  }

  lemma OneLessQuotient(n: nat, k: nat)
    requires 1 <= k <= n
    ensures n / k == (n - k) / k + 1
  {
    var a, b := n / k, (n - k) / k;
    assert n == a * k + n % k && n - k == b * k + (n - k) % k;
    assert (a - b - 1) * k == a * k - b * k - k;
    SmallMultiple(a - b - 1, k);
  }

  lemma SmallMultiple(x: int, k: int)
    requires k >= 1
    ensures x > 0 ==> x * k >= k
    ensures x < 0 ==> x * k <= -k
  {
  }

  function Decide(jumpTarget: Option<nat>, currentPage: nat, shown: Response): Step {
    if jumpTarget.None? then Idle
    else if jumpTarget.value == currentPage then Arrived
    else if jumpTarget.value > currentPage && CanNext(shown) then WalkNext
    else if jumpTarget.value < currentPage && CanPrev(shown) then WalkPrev
    else Stuck
  }

  /** A committed render, before its effects: the state adjustments made while rendering. */
  function Adjust(p: Pager): Pager {
    var page := PageOf(p.url);
    var step := Decide(p.jumpTarget, page, p.shown);
    p.(draft := if p.shownPage != page then Some(page) else p.draft,
       shownPage := page,
       jumpTarget := if step.Arrived? || step.Stuck? then None else p.jumpTarget,
       jumpError := if step.Stuck? then NoFurtherPages(page) else p.jumpError)
  }

  /** A render with its navigation effect. */
  function Render(p: Pager): Pager {
    var q := Adjust(p);
    var deps := Deps(Decide(q.jumpTarget, PageOf(q.url), q.shown), q.shown.nextCursor, q.shown.prevCursor);
    if deps == p.deps then q
    else if deps.step.WalkNext? then
      q.(deps := deps, url := GoNext(q.url, q.shown.nextCursor.value), awaiting := true, navigations := q.navigations + 1)
    else if deps.step.WalkPrev? then
      q.(deps := deps, url := GoPrev(q.url, q.shown.prevCursor.value), awaiting := true, navigations := q.navigations + 1)
    else q.(deps := deps)
  }

  /** The response for the current URL arrives. */
  function Respond(source: Source, p: Pager): Pager {
    Render(p.(shown := QueryTransactions(source, p.url), awaiting := false))
  }

  /** The existing page nearest to the one asked for. */
  function Clamp(parsed: int, totalPages: nat): (n: nat)
    requires totalPages >= 1
    ensures 1 <= n <= totalPages
    ensures n == parsed <==> 1 <= parsed <= totalPages
    ensures forall page :: 1 <= page <= totalPages ==> Distance(n, parsed) <= Distance(page, parsed)
  {
    if parsed < 1 then 1 else if parsed > totalPages then totalPages else parsed
  }

  function JumpSubmit(p: Pager): Pager {
    var page := PageOf(p.url);
    var totalPages := TotalPages(p.shown.total, PageSize(p.url, p.shown));
    if p.draft.None? then Render(p.(jumpError := NotANumber, draft := Some(page)))
    else
      var clamped := Clamp(p.draft.value, totalPages);
      Render(p.(jumpError := if clamped != p.draft.value then Clamped(totalPages) else NoError,
                draft := Some(clamped),
                jumpTarget := if clamped != page then Some(clamped) else p.jumpTarget))
  }

  // ----- Settled states and walks

  predicate Settled(source: Source, p: Pager) {
    && !p.awaiting && p.shown == QueryTransactions(source, p.url) && Synced(source, p.url)
    && p.jumpTarget.None? && p.deps.step == Idle
  }

  datatype Event = Rerendered | Responded

  function Apply(source: Source, p: Pager, ev: Event): Pager {
    match ev
    case Rerendered => Render(p)
    case Responded => Respond(source, p)
  }

  ghost predicate Walk(source: Source, p: Pager, events: seq<Event>, end: Pager)
    decreases |events|
  {
    if events == [] then p == end
    else (events[0].Responded? ==> p.awaiting) && Walk(source, Apply(source, p, events[0]), events[1..], end)
  }

  function Responses(events: seq<Event>): nat {
    if events == [] then 0 else Responses(events[1..]) + if events[0].Responded? then 1 else 0
  }

  function Distance(a: int, b: int): nat {
    if a <= b then b - a else a - b
  }

  /** The page `n` steps from `from` towards `target`. */
  function Towards(from: nat, target: nat, n: nat): int {
    if from <= target then from + n else from - n
  }

  function Direction(from: nat, target: nat): Step {
    if from < target then WalkNext else WalkPrev
  }

  function Back(from: nat, target: nat): Action {
    if from < target then Next else Prev
  }

  /** The shown response is the one from before the navigation that led to the URL. */
  ghost predicate StaleBy(source: Source, p: Pager, u: Url, a: Action) {
    && (a == Next || a == Prev) && Synced(source, u) && Enabled(source, u, a)
    && p.url == Act(source, u, a) && p.shown == QueryTransactions(source, u)
  }

  /** Same list, same page size, and the page in the URL is the page served. */
  predicate OnList(source: Source, start: Pager, p: Pager) {
    Synced(source, p.url) && Limit(p.url) == Limit(start.url) && Filtered(source, p.url) == Filtered(source, start.url)
  }

  /** While a response is awaited the last committed step and cursors are those of the stale response. */
  ghost predicate Pending(source: Source, p: Pager, a: Action, direction: Step) {
    && (exists u :: StaleBy(source, p, u, a))
    && p.deps.nextCursor == p.shown.nextCursor && p.deps.prevCursor == p.shown.prevCursor
    && (p.jumpTarget.Some? ==> p.deps.step == direction)
  }

  predicate Rested(source: Source, p: Pager) {
    p.shown == QueryTransactions(source, p.url) && p.jumpTarget.None? && p.deps.step == Idle
  }

  /** The number of navigations issued after `r` responses of a walk over `d` pages. */
  function Issued(r: nat, d: nat): nat {
    if r < d then r + 1 else d
  }

  /**
   A walk from page `from` to `target` after `r` responses: one navigation was issued for the
   submit and one for each response until the target is reached, all in one direction.
   */
  ghost predicate Walking(source: Source, start: Pager, p: Pager, target: nat, r: nat) {
    var from := PageOf(start.url);
    var d := Distance(from, target);
    && r <= d
    && p.navigations == start.navigations + Issued(r, d) && PageOf(p.url) == Towards(from, target, Issued(r, d))
    && OnList(source, start, p)
    && (p.awaiting <==> r < d)
    && (p.jumpTarget == Some(target) || (p.jumpTarget.None? && PageOf(p.url) == target))
    && (if p.awaiting then Pending(source, p, Back(from, target), Direction(from, target)) else Rested(source, p))
  }

  ghost predicate InRange(source: Source, start: Pager, target: nat) {
    1 <= target <= TotalPages(|Filtered(source, start.url)|, Limit(start.url))
  }

  // ----- Page counts

  /** A later page exists exactly while the rows of this page and before do not exhaust the list. */
  lemma {:induction false} MorePages(total: nat, limit: nat, page: nat)
    requires limit >= 1 && page >= 1
    ensures page < TotalPages(total, limit) <==> Offset(page + 1, limit) < total
  {
    if page == 1 {
      assert Offset(2, limit) == limit;
    } else if total <= limit {
      OffsetStep(page, limit);
    } else {
      MorePages(total - limit, limit, page - 1);
      OffsetStep(page, limit);
    }
  }

  /** Between the current page and a target in range there is always a cursor in that direction. */
  lemma CursorTowards(source: Source, url: Url, target: nat)
    requires Keyed(source.rows) && Synced(source, url)
    requires 1 <= target <= TotalPages(|Filtered(source, url)|, Limit(url))
    ensures PageOf(url) < target ==> CanNext(QueryTransactions(source, url))
    ensures target < PageOf(url) ==> CanPrev(QueryTransactions(source, url))
  {
    CursorsExactly(source, url);
    MorePages(|Filtered(source, url)|, Limit(url), PageOf(url));
  }

  /** Neighbouring pages start with different rows, so a fresh response changes the prev cursor. */
  lemma FreshCursors(source: Source, url: Url, a: Action)
    requires Keyed(source.rows) && Synced(source, url) && (a == Next || a == Prev) && Enabled(source, url, a)
    ensures var next := Act(source, url, a);
            QueryTransactions(source, next).prevCursor != QueryTransactions(source, url).prevCursor
  {
    SelectKeyed(source.keep, url.filters, source.rows);
    if a == Next {
      NextMoves(source, url);
    } else {
      PrevMoves(source, url);
    }
    hide QueryTransactions, Start, Act;
    PrevCursorOf(source, url);
    PrevCursorOf(source, Act(source, url, a));
  }

  // ----- The steps of a walk

  /** A navigation decided on a fresh response. */
  lemma StepFires(source: Source, start: Pager, p: Pager, target: nat, r: nat)
    requires Keyed(source.rows) && Settled(source, start) && InRange(source, start, target)
    requires r < Distance(PageOf(start.url), target)
    requires p.navigations == start.navigations + r && PageOf(p.url) == Towards(PageOf(start.url), target, r)
    requires OnList(source, start, p)
    requires !p.awaiting && p.shown == QueryTransactions(source, p.url) && p.jumpTarget == Some(target)
    requires p.deps != Deps(Direction(PageOf(start.url), target), p.shown.nextCursor, p.shown.prevCursor)
    ensures Walking(source, start, Render(p), target, r) && Render(p).jumpError == p.jumpError
  {
    hide QueryTransactions, Filtered, Start, Keyed, Offset, Limit, Settled, PageOf, Act, Render, CanNext, CanPrev;
    CursorTowards(source, p.url, target);
    SameDirection(PageOf(start.url), target, r);
    if PageOf(start.url) < target {
      NextMoves(source, p.url);
    } else {
      PrevMoves(source, p.url);
    }
    FreshStepRenders(source, p, target);
    StepIsWalking(source, start, p, Render(p), target, r);
  }

  lemma SameDirection(from: nat, target: nat, r: nat)
    requires r < Distance(from, target)
    ensures var page := Towards(from, target, r) as nat;
            && page != target && Direction(page, target) == Direction(from, target) && Back(page, target) == Back(from, target)
            && Issued(r, Distance(from, target)) == r + 1
  {
  }

  /** The state after a navigation is one of the walk. */
  lemma StepIsWalking(source: Source, start: Pager, p: Pager, q: Pager, target: nat, r: nat)
    requires r < Distance(PageOf(start.url), target) && OnList(source, start, p) && OnList(source, start, q)
    requires var a := Back(PageOf(start.url), target);
             && Enabled(source, p.url, a) && q.url == Act(source, p.url, a)
             && p.shown == QueryTransactions(source, p.url) && q.shown == p.shown
    requires q.navigations == start.navigations + r + 1 && PageOf(q.url) == Towards(PageOf(start.url), target, r + 1)
    requires q.awaiting && q.jumpTarget == Some(target)
    requires q.deps == Deps(Direction(PageOf(start.url), target), q.shown.nextCursor, q.shown.prevCursor)
    ensures Walking(source, start, q, target, r)
  {
    hide QueryTransactions, Filtered, Limit, PageOf, Act;
    assert StaleBy(source, q, p.url, Back(PageOf(start.url), target));
  }

  /** What a render on a fresh response does while the target is ahead or behind. */
  lemma FreshStepRenders(source: Source, p: Pager, target: nat)
    requires !p.awaiting && p.shown == QueryTransactions(source, p.url) && p.jumpTarget == Some(target) && target != PageOf(p.url)
    requires Enabled(source, p.url, Back(PageOf(p.url), target))
    requires p.deps != Deps(Direction(PageOf(p.url), target), p.shown.nextCursor, p.shown.prevCursor)
    ensures var q := Render(p);
            && q.url == Act(source, p.url, Back(PageOf(p.url), target)) && q.awaiting && q.navigations == p.navigations + 1
            && q.shown == p.shown && q.jumpTarget == p.jumpTarget && q.jumpError == p.jumpError
            && q.deps == Deps(Direction(PageOf(p.url), target), p.shown.nextCursor, p.shown.prevCursor)
  {
    hide QueryTransactions, PageOf;
  }

  lemma RerenderIsIdle(source: Source, start: Pager, p: Pager, target: nat, r: nat)
    requires Walking(source, start, p, target, r)
    ensures Walking(source, start, Render(p), target, r) && Render(p).jumpError == p.jumpError && Render(p).url == p.url
  {
    var from := PageOf(start.url);
    var a := Back(from, target);
    if p.awaiting {
      var u :| StaleBy(source, p, u, a);
      StaleRenderIsIdle(source, p, u, a, target);
      assert StaleBy(source, Render(p), u, a);
    }
  }

  /** On a stale response a render changes neither the URL nor the effect's view of the walk. */
  lemma StaleRenderIsIdle(source: Source, p: Pager, u: Url, a: Action, target: nat)
    requires StaleBy(source, p, u, a)
    requires p.deps.nextCursor == p.shown.nextCursor && p.deps.prevCursor == p.shown.prevCursor
    requires p.jumpTarget == Some(target) || (p.jumpTarget.None? && PageOf(p.url) == target)
    requires p.jumpTarget.Some? ==> p.deps.step == if a == Next then WalkNext else WalkPrev
    requires a == Next ==> PageOf(p.url) <= target
    requires a == Prev ==> PageOf(p.url) >= target
    ensures var q := Render(p);
            && q.url == p.url && q.shown == p.shown && q.awaiting == p.awaiting && q.navigations == p.navigations
            && q.jumpError == p.jumpError
            && q.deps.nextCursor == q.shown.nextCursor && q.deps.prevCursor == q.shown.prevCursor
            && (if PageOf(p.url) == target then q.jumpTarget.None? else q.jumpTarget == p.jumpTarget && q.deps == p.deps)
  {
  }

  lemma ResponseSteps(source: Source, start: Pager, p: Pager, target: nat, r: nat)
    requires Keyed(source.rows) && Settled(source, start) && InRange(source, start, target)
    requires Walking(source, start, p, target, r) && p.awaiting
    ensures Walking(source, start, Respond(source, p), target, r + 1) && Respond(source, p).jumpError == p.jumpError
  {
    hide Render, QueryTransactions, Synced, Act, Enabled, Filtered, Limit, PageOf, Keyed, InRange, Settled;
    var from := PageOf(start.url);
    var d := Distance(from, target);
    var a := Back(from, target);
    var answered := p.(shown := QueryTransactions(source, p.url), awaiting := false);
    var u :| StaleBy(source, p, u, a);
    FreshCursors(source, u, a);
    assert answered.shown.prevCursor != answered.deps.prevCursor;
    if r + 1 < d {
      StepFires(source, start, answered, target, r + 1);
    } else {
      ArrivesOn(source, answered, target);
    }
  }

  lemma ArrivesOn(source: Source, p: Pager, target: nat)
    requires p.shown == QueryTransactions(source, p.url) && !p.awaiting && PageOf(p.url) == target
    requires p.jumpTarget == Some(target) || p.jumpTarget.None?
    ensures var q := Render(p);
            && Rested(source, q) && !q.awaiting && q.url == p.url && q.navigations == p.navigations && q.jumpError == p.jumpError
  {
    hide QueryTransactions;
  }

  lemma EventSteps(source: Source, start: Pager, p: Pager, target: nat, r: nat, ev: Event)
    requires Keyed(source.rows) && Settled(source, start) && InRange(source, start, target)
    requires Walking(source, start, p, target, r) && (ev.Responded? ==> p.awaiting)
    ensures Walking(source, start, Apply(source, p, ev), target, r + if ev.Responded? then 1 else 0)
    ensures Apply(source, p, ev).jumpError == p.jumpError
  {
    hide Walking, Render, Respond, OnList, Settled, InRange, Keyed;
    match ev
    case Rerendered => RerenderIsIdle(source, start, p, target, r);
    case Responded => ResponseSteps(source, start, p, target, r);
  }

  lemma {:induction false} WalkKeeps(source: Source, start: Pager, p: Pager, target: nat, r: nat, events: seq<Event>, end: Pager)
    requires Keyed(source.rows) && Settled(source, start) && InRange(source, start, target)
    requires Walking(source, start, p, target, r) && Walk(source, p, events, end)
    ensures Walking(source, start, end, target, r + Responses(events)) && end.jumpError == p.jumpError
    decreases |events|
  {
    hide Walking, Apply, Settled, InRange, Keyed;
    if events != [] {
      EventSteps(source, start, p, target, r, events[0]);
      WalkKeeps(source, start, Apply(source, p, events[0]), target, r + if events[0].Responded? then 1 else 0, events[1..], end);
    }
  }

  /** The number of pages of the settled list. */
  function Pages(source: Source, start: Pager): nat {
    TotalPages(|Filtered(source, start.url)|, Limit(start.url))
  }

  /** The page a submit heads for: the requested one, or the nearest that exists. */
  function JumpPage(source: Source, start: Pager): nat
    requires start.draft.Some?
  {
    Clamp(start.draft.value, Pages(source, start))
  }

  lemma SubmitStarts(source: Source, start: Pager)
    requires Keyed(source.rows) && Settled(source, start) && start.draft.Some?
    ensures var target := JumpPage(source, start);
            && InRange(source, start, target)
            && Walking(source, start, JumpSubmit(start), target, 0)
            && JumpSubmit(start).jumpError == if target != start.draft.value then Clamped(Pages(source, start)) else NoError
  {
    assert PageSize(start.url, start.shown) == Limit(start.url);
    var target := JumpPage(source, start);
    if target != PageOf(start.url) {
      var p := start.(jumpError := if target != start.draft.value then Clamped(Pages(source, start)) else NoError,
                      draft := Some(target), jumpTarget := Some(target));
      StepFires(source, start, p, target, 0);
    }
  }

  lemma JumpWalks(source: Source, start: Pager, events: seq<Event>, end: Pager)
    requires Keyed(source.rows) && Settled(source, start) && start.draft.Some?
    requires Walk(source, JumpSubmit(start), events, end)
    ensures Walking(source, start, end, JumpPage(source, start), Responses(events))
    ensures end.jumpError == if JumpPage(source, start) != start.draft.value then Clamped(Pages(source, start)) else NoError
  {
    hide Walking, JumpSubmit, Keyed, JumpPage, Pages, Walk, InRange;
    SubmitStarts(source, start);
    WalkKeeps(source, start, JumpSubmit(start), JumpPage(source, start), 0, events, end);
  }

  /**
   The main result, for every static list, settled pager, requested page and interleaving of
   renders and responses: the walk heads for the clamped page, issues one navigation on submit
   and one per response until it is there (never for a mere render), never overshoots, never
   reports that it is stuck, and after exactly |target - page| responses rests on the target
   with its own response shown.
   */
  lemma JumpArrives(source: Source, start: Pager, events: seq<Event>, end: Pager)
    requires Keyed(source.rows) && Settled(source, start) && start.draft.Some?
    requires Walk(source, JumpSubmit(start), events, end)
    ensures var from := PageOf(start.url);
            var target := JumpPage(source, start);
            var d := Distance(from, target);
            var r := Responses(events);
            && r <= d
            && end.navigations == start.navigations + Issued(r, d)
            && PageOf(end.url) == Towards(from, target, Issued(r, d))
            && (end.awaiting <==> r < d)
            && (r == d ==> Settled(source, end) && PageOf(end.url) == target)
            && end.jumpError == if target != start.draft.value then Clamped(Pages(source, start)) else NoError
    ensures var target := JumpPage(source, start);
            && 1 <= target <= Pages(source, start)
            && (forall page :: 1 <= page <= Pages(source, start) ==> Distance(target, start.draft.value) <= Distance(page, start.draft.value))
            && (start.draft.value < 1 ==> target == 1) && (start.draft.value > Pages(source, start) ==> target == Pages(source, start))
            && (1 <= start.draft.value <= Pages(source, start) ==> target == start.draft.value)
  {
    hide JumpSubmit, Keyed, JumpPage, Pages, Walk;
    JumpWalks(source, start, events, end);
    NearestPage(source, start);
  }

  lemma NearestPage(source: Source, start: Pager)
    requires start.draft.Some?
    ensures var target := JumpPage(source, start);
            && 1 <= target <= Pages(source, start)
            && (forall page :: 1 <= page <= Pages(source, start) ==> Distance(target, start.draft.value) <= Distance(page, start.draft.value))
            && (start.draft.value < 1 ==> target == 1) && (start.draft.value > Pages(source, start) ==> target == Pages(source, start))
            && (1 <= start.draft.value <= Pages(source, start) ==> target == start.draft.value)
  {
    hide Pages;
  }

  /** When the list ends short of the target the walk stops on its page and says so. */
  lemma StuckStops(p: Pager)
    requires p.jumpTarget.Some? && p.jumpTarget.value != PageOf(p.url)
    requires if p.jumpTarget.value > PageOf(p.url) then !CanNext(p.shown) else !CanPrev(p.shown)
    ensures var q := Render(p);
            q.jumpTarget.None? && q.jumpError == NoFurtherPages(PageOf(p.url)) && q.url == p.url && q.navigations == p.navigations
  {
  }

  // ----- The page number in the input

  /** Once the pager has rendered for the page in its URL, the input shows that page. */
  ghost predicate DraftFollows(p: Pager) {
    (p.shownPage == PageOf(p.url) ==> p.draft == Some(PageOf(p.url))) && (!p.awaiting ==> p.shownPage == PageOf(p.url))
  }

  lemma RenderFollows(p: Pager)
    requires p.shownPage == PageOf(p.url) ==> p.draft == Some(PageOf(p.url))
    ensures DraftFollows(Render(p))
  {
  }

  lemma {:induction false} WalkFollows(source: Source, p: Pager, events: seq<Event>, end: Pager)
    requires DraftFollows(p) && Walk(source, p, events, end)
    ensures DraftFollows(end)
    decreases |events|
  {
    if events != [] {
      match events[0] {
        case Rerendered => RenderFollows(p);
        case Responded => RenderFollows(p.(shown := QueryTransactions(source, p.url), awaiting := false));
      }
      hide DraftFollows, Render, QueryTransactions;
      WalkFollows(source, Apply(source, p, events[0]), events[1..], end);
    }
  }

  /** However a jump is interleaved, when no response is awaited the input shows the page of the URL, at the end the target. */
  lemma JumpShowsPage(source: Source, start: Pager, events: seq<Event>, end: Pager)
    requires Keyed(source.rows) && Settled(source, start) && start.draft.Some? && start.shownPage == PageOf(start.url)
    requires Walk(source, JumpSubmit(start), events, end)
    ensures !end.awaiting ==> end.draft == Some(PageOf(end.url)) == Some(JumpPage(source, start))
  {
    SubmitFollows(source, start);
    hide JumpSubmit, Keyed, JumpPage, Pages, Walk;
    WalkFollows(source, JumpSubmit(start), events, end);
    JumpArrives(source, start, events, end);
  }

  lemma SubmitFollows(source: Source, start: Pager)
    requires Keyed(source.rows) && Settled(source, start) && start.draft.Some? && start.shownPage == PageOf(start.url)
    ensures DraftFollows(JumpSubmit(start))
  {
    var target := JumpPage(source, start);
    assert PageSize(start.url, start.shown) == Limit(start.url);
    SubmitStarts(source, start);
    hide Render, Walking;
    var p := start.(jumpError := if target != start.draft.value then Clamped(Pages(source, start)) else NoError,
                    draft := Some(target), jumpTarget := if target != PageOf(start.url) then Some(target) else start.jumpTarget);
    assert JumpSubmit(start) == Render(p);
    if target == PageOf(start.url) {
      RenderFollows(p);
    } else {
      SubmitMoves(source, start, p, target);
    }
  }

  lemma SubmitMoves(source: Source, start: Pager, p: Pager, target: nat)
    requires start.shownPage == PageOf(start.url) == p.shownPage && p.url == start.url && target != PageOf(start.url)
    requires Walking(source, start, Render(p), target, 0)
    ensures DraftFollows(Render(p))
  {
    assert Render(p).awaiting && PageOf(Render(p).url) != PageOf(start.url);
    assert Render(p).shownPage == PageOf(start.url);
  }

  /** Every submit can be walked to its end: as many responses as pages to go, and the pager rests on the target. */
  lemma JumpCompletes(source: Source, start: Pager) returns (events: seq<Event>, end: Pager)
    requires Keyed(source.rows) && Settled(source, start) && start.draft.Some?
    ensures Walk(source, JumpSubmit(start), events, end)
    ensures Responses(events) == Distance(PageOf(start.url), JumpPage(source, start))
    ensures Settled(source, end) && PageOf(end.url) == JumpPage(source, start)
    ensures forall page :: 1 <= page <= Pages(source, start) ==>
              Distance(PageOf(end.url), start.draft.value) <= Distance(page, start.draft.value)
  {
    hide JumpSubmit, Keyed, JumpPage, Pages, Walk, Walking, Settled, Responses, InRange;
    SubmitStarts(source, start);
    events, end := WalkCompletes(source, start, JumpSubmit(start), JumpPage(source, start), 0);
    JumpArrives(source, start, events, end);
  }

  lemma {:induction false} WalkCompletes(source: Source, start: Pager, p: Pager, target: nat, r: nat) returns (events: seq<Event>, end: Pager)
    requires Keyed(source.rows) && Settled(source, start) && InRange(source, start, target) && Walking(source, start, p, target, r)
    ensures Walk(source, p, events, end) && r + Responses(events) == Distance(PageOf(start.url), target)
    decreases Distance(PageOf(start.url), target) - r
  {
    hide *;
    AwaitsUntilArrived(source, start, p, target, r);
    if p.awaiting {
      ResponseSteps(source, start, p, target, r);
      var later;
      later, end := WalkCompletes(source, start, Respond(source, p), target, r + 1);
      events := [Responded] + later;
      WalkCons(source, p, later, end);
    } else {
      events, end := [], p;
      EmptyWalk(source, p);
    }
  }

  lemma AwaitsUntilArrived(source: Source, start: Pager, p: Pager, target: nat, r: nat)
    requires Walking(source, start, p, target, r)
    ensures r <= Distance(PageOf(start.url), target) && (p.awaiting <==> r < Distance(PageOf(start.url), target))
  {
  }

  lemma EmptyWalk(source: Source, p: Pager)
    ensures Walk(source, p, [], p) && Responses([]) == 0
  {
  }

  lemma WalkCons(source: Source, p: Pager, later: seq<Event>, end: Pager)
    requires p.awaiting && Walk(source, Respond(source, p), later, end)
    ensures Walk(source, p, [Responded] + later, end) && Responses([Responded] + later) == 1 + Responses(later)
  {
    hide Respond;
    assert ([Responded] + later)[1..] == later;
  }

  /** A submit that is not a number navigates nowhere and restores the field. */
  lemma BadDraftStays(source: Source, start: Pager)
    requires Settled(source, start) && start.draft.None?
    ensures var end := JumpSubmit(start);
            Settled(source, end) && end.url == start.url && end.navigations == start.navigations
            && end.jumpError == NotANumber && end.draft == Some(PageOf(start.url))
  {
    hide QueryTransactions, TotalPages, PageSize, Synced;
  }

  // ----- The component as it runs

  /** The component's state, the URL and the response it is given, changed in place. */
  class PagerComponent {
    var url: Url
    var shown: Response
    var awaiting: bool
    var draft: Option<int>
    var shownPage: nat
    var jumpTarget: Option<nat>
    var jumpError: JumpError
    var deps: Deps
    var navigations: nat

    constructor (url: Url, shown: Response)
      ensures this.url == url && this.shown == shown && !awaiting && jumpTarget.None? && navigations == 0
      ensures deps == Deps(Idle, shown.nextCursor, shown.prevCursor) && jumpError == NoError
    {
      this.url, this.shown, awaiting := url, shown, false;
      draft, shownPage := Some(PageOf(url)), PageOf(url);
      jumpTarget, jumpError := None, NoError;
      deps, navigations := Deps(Idle, shown.nextCursor, shown.prevCursor), 0;
    }

    ghost function Model(): Pager
      reads this
    {
      Pager(url, shown, awaiting, draft, shownPage, jumpTarget, jumpError, deps, navigations)
    }

    /** One render and commit: adjust state while rendering, then run the navigation effect if its dependencies changed. */
    method Commit()
      modifies this
      ensures Model() == Render(old(Model()))
    {
      var currentPage := PageOf(url);
      if shownPage != currentPage {
        shownPage := currentPage;
        draft := Some(currentPage);
      }
      var walkStep := Decide(jumpTarget, currentPage, shown);
      if walkStep == Arrived {
        jumpTarget := None;
      } else if walkStep == Stuck {
        jumpTarget := None;
        jumpError := NoFurtherPages(currentPage);
      }
      walkStep := Decide(jumpTarget, currentPage, shown);
      var next := Deps(walkStep, shown.nextCursor, shown.prevCursor);
      if next != deps {
        deps := next;
        if walkStep == WalkNext {
          url, awaiting, navigations := GoNext(url, shown.nextCursor.value), true, navigations + 1;
        } else if walkStep == WalkPrev {
          url, awaiting, navigations := GoPrev(url, shown.prevCursor.value), true, navigations + 1;
        }
      }
    }

    method OnResponse(source: Source)
      modifies this
      ensures Model() == Respond(source, old(Model()))
    {
      shown := QueryTransactions(source, url);
      awaiting := false;
      Commit();
    }

    method HandleJumpSubmit()
      modifies this
      ensures Model() == JumpSubmit(old(Model()))
    {
      var currentPage := PageOf(url);
      var totalPages := TotalPages(shown.total, PageSize(url, shown));
      if draft.None? {
        jumpError := NotANumber;
        draft := Some(currentPage);
        Commit();
        return;
      }
      var parsed := draft.value;
      var clamped := Clamp(parsed, totalPages);
      jumpError := if clamped != parsed then Clamped(totalPages) else NoError;
      draft := Some(clamped);
      if clamped != currentPage {
        jumpTarget := Some(clamped);
      }
      Commit();
    }
  }
}
