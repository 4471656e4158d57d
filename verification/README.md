# Verified models of the client-side protocols and migration scripts

This project models, in Dafny, the parts of the payments platform whose correctness depends on
state, order or arithmetic, and proves what they promise for every input, run or interleaving:

- the offline replay queue shared by the web apps (`RetryQueue`);
- log redaction over object graphs, its fixpoint property and the in-memory log buffer
  (`Redaction`, `RedactedCopies`, `LogBuffer`);
- the admin data grid: multi-key stable sorting, row virtualisation with keyboard focus, and
  column preferences (`StableSort`, `RowSort`, `RowWindow`, `ColumnPrefs`);
- cursor paging: the list endpoint's response contract, the URL state and the jump-to-page walk
  (`TransactionsApi`, `ListQuery`, `JumpPager`);
- the chat simulator: merging polled messages into the optimistic list, the poll loop, search
  highlighting and date separators (`ChatMerge`, `ChatPolling`, `Highlight`, `DayHeaders`);
- the reconnecting WebSocket client, the WebAuthn base64url codec and relative timestamps
  (`WebSocketManager`, `Base64Url`, `RelativeTime`);
- the batch scripts that rewrite phone numbers and re-encrypt wallet keys (`PhoneNumbers`,
  `PhoneTable`, `IdentityMigration`, `PhoneCanonicalization`, `CryptoService`, `SampleCipher`,
  `KeyRotation`).

`Prelude` holds the option type and facts about sequences that several models share.

Code that updates state in place is a class here (`RetryClient`, `RingBuffer`, `WeakSet`,
`SortControl`, `SearchParams`, `PagerComponent`, `DataGrid`, `ColumnControl`, `Database`,
`PhoneRows`, `WalletStore`, `PollingHook`, `Client`, `Subscription`). Its methods are proved equal
to functions on values, and the lemmas about whole runs speak of those functions.
`dafny verify dfyconfig.toml` checks everything.

## Where the code does less than it says

Each of these has a lemma with the exact condition, and usually one with a concrete case.

- `retryPendingRequests` documents "number of replayed requests" but returns the number that
  succeeded (`RetryQueue.ReturnsReplayedExactly`).
- `redact` copies function-valued properties as they are, so a listed key on such a function
  stays readable in the copy (`Redaction.RedactHidesListedKeys`).
- `compareValues` is not an order on a column that mixes two kinds of missing value
  (`RowSort.ConsistentExactly`).
- `focusRow` can leave the focused row unrendered when the header is taller than the container
  (`RowWindow.FocusRendersExactly`).
- "Keep at least one column visible": the column handlers count stored ids, not displayed ones,
  so after a column has been removed the last one on screen can be hidden, and after columns
  have been added hiding one can be refused (`ColumnPrefs.CollapsesExactly`, `HidesExactly`).
- The counts printed by the phone canonicalization overlap when a colliding group contains an
  already canonical number (`PhoneCanonicalization.CountsAddUpExactly`).
- Key rotation to a version that does not look like `v…` makes every rotated secret unreadable,
  because `decrypt` recognises only that form; and a new key for a version that is in use replaces
  its old one, so that every secret read through that version is lost, rotated or not
  (`KeyRotation.PlaintextsSurviveExactly`).
- A redelivered chat message can claim a second local twin (`ChatMerge.RedeliveryExactly`). Of two
  server messages logged in the same millisecond the second can be lost for good, because the merge
  takes equal timestamps for the same message and the cursor asks for strictly newer ones only
  (`ChatPolling.EveryRunDeliversExactly`). A local copy added after the server's was merged stays
  beside it (`ChatPolling.NothingIsLeftOverExactly`).
- `splitForHighlight` promises segments that "mark a case-insensitive occurrence". It applies
  positions of the lower-cased text to the text itself, so behind a character that lower-cases to
  two (U+0130) the highlights slip (`Highlight.HighlightsShowMatchesExactly`,
  `EveryQueryShowsExactly`).
- `buildRows` documents one date row "before the first message of each calendar day"; a day that
  comes back gets a second one with the same id (`DayHeaders.OneHeaderPerDayExactly`).
- A WebSocket frame that is JSON `null` or does not parse overtakes buffered messages
  (`WebSocketManager.OrderIsKeptExactly`), and the close event of an earlier socket makes an open
  connection show as disconnected or reconnecting (`WebSocketManager.ConnectedIsShownExactly`).
- `disconnect()` does not end the reconnecting: an abnormal close event that comes later opens a new
  socket (`WebSocketManager.StaysDisconnectedExactly`).
- `subscribeRelativeTime` promises to stop "once the text becomes an absolute date" and a new text
  "whenever it changes". It reads the clock once for the text and again for the delay; when an hour
  or the first day ends in between, an old text stays for the next hour or for good
  (`RelativeTime.RightUntilNextExactly`, `StopsAtDateExactly`).
- `getNextRelativeTimeUpdateDelay` documents the time "until the text can next change"; for
  instants in the future it is a minute even when the text changes sooner
  (`RelativeTime.FutureIsExact`).

## Model

| member | source | states |
|---|---|---|
| `RetryQueue.NothingIsLost` | packages/shared/src/api.js:32-45 | after every run of failures, retry calls and replay outcomes each unsettled request is held in exactly one place (the queue, the unprocessed tail of one retry call, or the item a call awaits) and settled ones in none |
| `RetryQueue.EventKeeps` | packages/shared/src/api.js:65-85 | every single event keeps the invariant behind that: one holder per request, and the retry calls' waiting order |
| `RetryQueue.SettlesOnce` | packages/shared/src/api.js:76-81 | once a promise is settled no later event changes its outcome |
| `RetryQueue.SettlesWithLastReply` | packages/shared/src/api.js:76-81 | an item settles with the outcome of the last replay made for it, success or failure |
| `RetryQueue.OfflineReplayIsParkedAgain` | packages/shared/src/api.js:75-76 | a replay that fails offline is always queued again, because its marker was deleted first and only idempotent requests are ever queued |
| `RetryQueue.NoWaitCycle` | packages/shared/src/api.js:70-84 | a chain of retry calls each waiting for a re-queued entry held by the next never closes |
| `RetryQueue.NeverStuck` | packages/shared/src/api.js:70-84 | with an empty queue, as long as any retry call is suspended some event can still happen |
| `RetryQueue.OneRetryDrains` | packages/shared/src/api.js:65-85 | from any reachable state, once replays stop failing offline, one further retry call leaves a fixed number of items to settle; every run settles at most that many, can go on while it has settled fewer, and has settled all promises and finished all calls when it has settled that many, however many reported failures and idle retry calls come in between |
| `RetryQueue.ReplayedInOrder` | packages/shared/src/api.js:40-82 | in every run the queue and the items of every retry call are in the order in which the requests failed, what a call took is older than what is queued, and a newly parked request goes to the end |
| `RetryQueue.ParksExactly` | packages/shared/src/api.js:19-51 | a request is parked exactly if it is a GET or HEAD that failed offline without a response and is not parked yet |
| `RetryQueue.WaitingIsMarked` | packages/shared/src/api.js:37-75 | in every run everything that waits to be replayed carries the queued marker, and what is being replayed does not |
| `RetryQueue.ReturnsSuccesses` | packages/shared/src/api.js:71-84 | a finished retry call returns the number of its items whose promise was resolved |
| `RetryQueue.ReturnsReplayedExactly` | packages/shared/src/api.js:63-84 | that is the documented number of replayed requests exactly when the network answered the last replay of each of them |
| `RetryQueue.FailedReplayIsNotCounted` | packages/shared/src/api.js:80-84 | a run with one request replayed to an error, which is not counted |
| `RetryQueue.RetryClient.OnRejected` | packages/shared/src/api.js:19-51 | the interceptor's effect on queue, marker and promise in each of its branches |
| `RetryQueue.RetryClient.GetPendingRetryCount` | packages/shared/src/api.js:57-59 | the number of queued requests |
| `RetryQueue.RetryClient.RetryPendingRequests` | packages/shared/src/api.js:65-76 | an empty queue returns 0 at once; otherwise the whole queue becomes one batch and its first item is replayed |
| `RetryQueue.RetryClient.OnReplayed` | packages/shared/src/api.js:73-84 | a reply settles the awaited item or blocks the batch on a re-queued entry |
| `RetryQueue.RetryClient.OnWoken` | packages/shared/src/api.js:76-81 | the outcome of a re-queued entry is passed on to the batch that waited for it |
| `RetryQueue.RetryClient.SettleAwaited` | packages/shared/src/api.js:77-82 | one iteration after its await: settle, count a success, start the next item |
| `Redaction.Redact` | packages/shared/src/logger.js:39-59 | terminates on every graph without array-only cycles and adds to the visited set only objects that were not in it |
| `Redaction.ListedExactly` | packages/shared/src/logger.js:21-50 | a key is redacted exactly if it is one of the fifteen names, letter by letter up to case |
| `Redaction.CopyMirrors` | packages/shared/src/logger.js:39-59 | at every depth a key that is one of the fifteen names up to case holds the placeholder, and nothing else is replaced, left out, added or moved, except for the marker of an object met before |
| `Redaction.VisitsTheReachable` | packages/shared/src/logger.js:39-59 | the objects visited are exactly those reachable along array items and unlisted object-valued properties |
| `Redaction.RedactHidesListedKeys` | packages/shared/src/logger.js:48-57 | no listed key at any depth of the copy holds anything but the placeholder if and only if no function-valued property on a copied path leads to such a key; the listed keys are the fifteen names in any letter case |
| `Redaction.FunctionPropertyLeaks` | packages/shared/src/logger.js:52-56 | a token on a function-valued property survives redaction |
| `RedactedCopies.RedactOnTree` | packages/shared/src/logger.js:39-59 | on a value without sharing the graph traversal equals plain recursion |
| `RedactedCopies.RedactingAgainChangesNothing` | packages/shared/src/logger.js:39-59 | redacting a copy again gives the same copy, at every depth and for every graph |
| `RedactedCopies.CopyIsRedacted` | packages/shared/src/logger.js:48-57 | in every copy each listed key, which is one of the fifteen names in any letter case, holds the placeholder, and the only functions are those of the graph, kept as they were |
| `RedactedCopies.RedactInPlace` | packages/shared/src/logger.js:39-59 | the imperative form with the shared mutable set computes the same copy and set |
| `RedactedCopies.MapItems` | packages/shared/src/logger.js:42-44 | the array loop, item by item with the set updated in between |
| `RedactedCopies.FillFields` | packages/shared/src/logger.js:48-57 | the property loop, with its three branches |
| `LogBuffer.RecordIsFixed` | packages/shared/src/logger.js:160-168 | every record built from any context, as an object beside any heap, is unchanged by redacting it again |
| `LogBuffer.RingBuffer.PushToBuffer` | packages/shared/src/logger.js:70-74 | the stored sequence becomes the last 100 of the old sequence and the new record |
| `LogBuffer.RingBuffer.Record` | packages/shared/src/logger.js:171-175 | builds, stores and returns the record |
| `LogBuffer.RingBuffer.GetRecentLogs` | packages/shared/src/logger.js:84-91 | returns exactly the last min(n, 100) records since the last clear, oldest first, though the graph redaction runs on each of them again |
| `LogBuffer.RingBuffer.ClearLogs` | packages/shared/src/logger.js:94-98 | empties the buffer |
| `StableSort.StableSortExists` | apps/admin/src/components/DataTable.jsx:46-53 | for every total preorder the sort is a permutation, in order, and keeps ties in input order (section 23.1.3.30 of ECMA-262) |
| `StableSort.StableSortIsUnique` | apps/admin/src/components/DataTable.jsx:46-53 | any result meeting those three requirements is that one |
| `RowSort.ConsistentExactly` | apps/admin/src/components/dataTableSort.js:18-26 | the comparator is a total preorder on a column of numbers and decimal strings exactly when at most one kind of missing value occurs |
| `RowSort.ExponentDisagrees` | apps/admin/src/components/dataTableSort.js:20-32 | it is none on 1e-7, 0.2 and "0.5", where the first is compared with the last as text |
| `RowSort.TwoMarkersDisagree` | apps/admin/src/components/dataTableSort.js:20-21 | null and the empty string are each said to be greater than the other |
| `RowSort.SortRowsIsKeyByKey` | apps/admin/src/components/DataTable.jsx:39-54 | sorting by several keys with mixed directions is the stable sort by the last key, then the one before it, up to the first; a permutation, lexicographically ordered, ties in input order also when descending |
| `RowSort.SortedRowsRead` | apps/admin/src/components/DataTable.jsx:39-54 | of two rows the result shows the one before the other only if, at the first active key that tells them apart, its value is the smaller one when ascending, with missing values last, or the larger one when descending, with missing values first |
| `RowSort.ActiveKeysExactly` | apps/admin/src/components/DataTable.jsx:39-46 | the active keys are those of sortable columns, in the order of the sort list |
| `RowSort.SortControl.HandleSort` | apps/admin/src/components/DataTable.jsx:169-181 | a click leaves one key, a shift-click adds a last key or flips the first entry of that key; distinct keys stay distinct |
| `ListQuery.NextMoves` | apps/admin/e2e/fixtures/transactions.js:53-60 | a next cursor moves the served window on by exactly one page and the page number by one |
| `ListQuery.PrevMoves` | apps/admin/e2e/fixtures/transactions.js:53-60 | a previous cursor moves the served window back by exactly one page and the page number by one |
| `ListQuery.CursorsExactly` | apps/admin/e2e/fixtures/transactions.js:59-70 | in a state where page and window agree, a next cursor is offered exactly when rows follow and a previous cursor exactly when the page is not the first |
| `ListQuery.OffsetIsProduct` | apps/admin/src/lib/useListQuery.js:34 | the offset of a page is (page - 1) times the limit |
| `ListQuery.FilterServes` | apps/admin/src/lib/useListQuery.js:36-47 | after a filter action the list is exactly the rows that the changed filters keep, its first rows are served, and the other filters and the limit stay |
| `ListQuery.OthersServe` | apps/admin/src/lib/useListQuery.js:71-80 | a reset drops exactly the named filters, a new page size keeps all, and both go back to the first page |
| `ListQuery.SelectsInOrder` | apps/admin/e2e/fixtures/transactions.js:42-51 | rows are kept in the order of the list |
| `ListQuery.FirstPageIsBare` | apps/admin/src/lib/useListQuery.js:59-70 | going back to page 1 leaves no page parameter |
| `ListQuery.RunKeepsSync` | apps/admin/src/lib/useListQuery.js:36-80 | from page 1, after every run of next, previous, filter, reset and page-size actions the server's start offset is (page - 1) times limit and at most one cursor is set |
| `ListQuery.PrevUndoesNext` | apps/admin/src/lib/useListQuery.js:49-70 | previous after next gives the same page number and response |
| `ListQuery.NextUndoesPrev` | apps/admin/src/lib/useListQuery.js:49-70 | next after previous gives the same page number and response |
| `ListQuery.FollowIsTheRest` | apps/admin/e2e/fixtures/transactions.js:53-70 | following next cursors concatenates to the filtered list from the current window on, without gap or repeat |
| `ListQuery.FollowFromFirstPage` | apps/admin/e2e/fixtures/transactions.js:53-70 | from the first page it concatenates to the whole filtered list |
| `ListQuery.SearchParams.OnFilter` | apps/admin/src/lib/useListQuery.js:36-47 | sets or deletes the filter and drops cursors and page |
| `ListQuery.SearchParams.OnNext` | apps/admin/src/lib/useListQuery.js:49-58 | replaces the cursor and counts the page up |
| `ListQuery.SearchParams.OnPrev` | apps/admin/src/lib/useListQuery.js:59-70 | replaces the cursor and counts the page down, leaving no parameter for page 1 |
| `ListQuery.SearchParams.OnReset` | apps/admin/src/lib/useListQuery.js:71-80 | removes exactly the filter keys, the cursors and the page |
| `JumpPager.TotalPagesIsQuotient` | apps/admin/src/components/Pagination.jsx:48 | the number of pages is the total divided by the page size, rounded up, and at least one |
| `JumpPager.MorePages` | apps/admin/src/components/Pagination.jsx:48 | a page lies before the last one exactly when rows are left behind it |
| `JumpPager.JumpArrives` | apps/admin/src/components/Pagination.jsx:57-120 | for every static list, requested page and interleaving of re-renders and responses the walk issues one navigation on submit and one per response, moves one page each time towards the existing page nearest to the requested one, stops there after exactly the distance, never overshoots and never reports being stuck |
| `JumpPager.JumpCompletes` | apps/admin/src/components/Pagination.jsx:57-120 | from every settled state and for every requested page there is such a walk that ends on the nearest existing page |
| `JumpPager.JumpShowsPage` | apps/admin/src/components/Pagination.jsx:50-55 | however a jump is interleaved, at its end the input shows the page arrived at |
| `JumpPager.StuckStops` | apps/admin/src/components/Pagination.jsx:67-80 | when the list ends short of the target the walk stops on its page, says so and navigates no further |
| `JumpPager.RerenderIsIdle` | apps/admin/src/components/Pagination.jsx:87-90 | a render without a new response issues no navigation |
| `JumpPager.ResponseSteps` | apps/admin/src/components/Pagination.jsx:57-90 | a fresh response on the way issues exactly one navigation towards the target |
| `JumpPager.BadDraftStays` | apps/admin/src/components/Pagination.jsx:108-113 | text that is not a number navigates nowhere, flags the field and restores it |
| `JumpPager.PagerComponent.Commit` | apps/admin/src/components/Pagination.jsx:52-90 | one render and its effect: state adjusted while rendering, navigation only when the effect's dependencies changed |
| `JumpPager.PagerComponent.OnResponse` | apps/admin/src/components/Pagination.jsx:40-48 | a response for the current URL is shown and rendered |
| `JumpPager.PagerComponent.HandleJumpSubmit` | apps/admin/src/components/Pagination.jsx:105-120 | clamps, flags a clamped request and starts a walk unless already there |
| `RowWindow.VisibleRowsAreRendered` | apps/admin/src/components/DataTable.jsx:299-308 | for all scroll positions, heights and overscans every row that meets the viewport is rendered |
| `RowWindow.RenderedExactly` | apps/admin/src/components/DataTable.jsx:299-304 | which rows are rendered, by their distance from the viewport |
| `RowWindow.RenderedBelow` | apps/admin/src/components/DataTable.jsx:299-304 | below the container the next `overscan` rows are rendered, and none further away than twice that and one row |
| `RowWindow.ScrollEnd` | apps/admin/src/components/DataTable.jsx:247-250 | the rows can be scrolled until the last one ends with the container, and not at all if they fit |
| `RowWindow.ScrollIsNeeded` | apps/admin/src/components/DataTable.jsx:373-402 | the index is clamped to the nearest row, and a row is left where it is exactly when it shows in full |
| `RowWindow.HeightIsConserved` | apps/admin/src/components/DataTable.jsx:306-308 | the top spacer is as tall as the rows before the window, and with the rendered rows and the bottom spacer as tall as all rows |
| `RowWindow.FocusRendersExactly` | apps/admin/src/components/DataTable.jsx:373-413 | after focusing, the row is in the rendered window unless focusing scrolls down under a header that overfills the container by at least the overscan |
| `RowWindow.FocusRendersRow` | apps/admin/src/components/DataTable.jsx:373-413 | if one row fits under the header the focused row is always rendered |
| `RowWindow.TallHeaderHidesRow` | apps/admin/src/components/DataTable.jsx:384-388 | a concrete grid where focusing does not render the row |
| `RowWindow.DataGrid.HandleScroll` | apps/admin/src/components/DataTable.jsx:280-286 | the anchor reproduces the browser's position to within a pixel |
| `RowWindow.DataGrid.ScrollRowIntoView` | apps/admin/src/components/DataTable.jsx:373-398 | scrolls up to the row's upper edge or down to its lower edge, from the committed position, and not at all when the row is in view or the index out of range |
| `RowWindow.DataGrid.FocusRow` | apps/admin/src/components/DataTable.jsx:400-413 | clamps the index, scrolls, focuses the row's element at once if it has one and leaves the focus pending otherwise |
| `RowWindow.DataGrid.Commit` | apps/admin/src/components/DataTable.jsx:415-424 | after a commit a pending row that has an element is focused and no longer pending |
| `RowWindow.DataGrid.HandleKeyDown` | apps/admin/src/components/DataTable.jsx:400-446 | after a key press and its commit no focus is left pending exactly when the row had an element or is rendered by then; never if one row fits under the header |
| `ColumnPrefs.ReconcilePermutes` | apps/admin/src/components/DataTable.jsx:75-87 | the shown order names every current column, keeps the stored order, and has no repetition exactly when the stored one has none |
| `ColumnPrefs.ReconcileTwice` | apps/admin/src/components/DataTable.jsx:75-87 | reconciling is idempotent, so persisted preferences are read back unchanged |
| `ColumnPrefs.CollapsedExactly` | apps/admin/src/components/DataTable.jsx:337-344 | no column is displayed exactly when every current one is marked hidden |
| `ColumnPrefs.HidesExactly` | apps/admin/src/components/DataTable.jsx:346-356 | hiding a displayed column takes effect exactly when the stored order counts more than one visible id, and touches no other column |
| `ColumnPrefs.CollapsesExactly` | apps/admin/src/components/DataTable.jsx:351-354 | the guard fails to keep the last displayed column exactly when the stored order still has another visible id |
| `ColumnPrefs.CollapseAfterRemoval` | apps/admin/src/components/DataTable.jsx:346-356 | two columns, one removed by the parent, the other hidden: nothing is displayed |
| `ColumnPrefs.RefusalAfterAddition` | apps/admin/src/components/DataTable.jsx:346-356 | one column, another added by the parent: hiding it is refused |
| `ColumnPrefs.NeverCollapses` | apps/admin/src/components/DataTable.jsx:346-371 | while the columns do not change, no run of toggles, moves, resets and reloads empties the table |
| `ColumnPrefs.ToggleTwice` | apps/admin/src/components/DataTable.jsx:346-356 | showing a column again undoes hiding it |
| `ColumnPrefs.ToggleShows` | apps/admin/src/components/DataTable.jsx:346-356 | toggling a hidden current column displays it again, in the same order, and leaves every other column as it was |
| `ColumnPrefs.MovesExactly` | apps/admin/src/components/DataTable.jsx:358-367 | a move changes places with the column at the offset and touches nothing else; past either end or for an unknown id it does nothing |
| `ColumnPrefs.ResetShowsAll` | apps/admin/src/components/DataTable.jsx:325-371 | a reset displays all current columns in their own order, a reload what was displayed |
| `ColumnPrefs.MoveBack` | apps/admin/src/components/DataTable.jsx:358-367 | a move is undone by the opposite move, loses no column and repeats none |
| `ColumnPrefs.ColumnControl.ToggleColumn` | apps/admin/src/components/DataTable.jsx:346-356 | the toggle with its guard on the stored preferences |
| `ColumnPrefs.ColumnControl.MoveColumn` | apps/admin/src/components/DataTable.jsx:358-367 | swaps with the neighbour, or does nothing at an end or for an unknown id |
| `PhoneNumbers.ValidatorCanonicalizes` | apps/api/src/utils/validators.js:31-60 | over any number parser that accepts its own output the validator is partial and idempotent and never yields an empty string |
| `PhoneNumbers.ValidatorIsExact` | apps/api/src/utils/validators.js:31-60 | blanks around a number do not count, and a number that the parser refuses is tried once more with a leading plus sign unless it has one |
| `PhoneTable.AllSucceed` | apps/api/scripts/migrate-customer-identities.js:123-129 | legal changes of distinct rows all succeed one by one, in any order and starting with any part of them done |
| `PhoneTable.MovesNeverClash` | apps/api/scripts/migrate-customer-identities.js:123-129 | every table in between, with any subset of the rows changed, keeps ids and phones unique |
| `PhoneTable.EveryStepIsATable` | apps/api/prisma/schema.prisma:11 | a list of updates that goes through keeps the unique columns unique after every one of them |
| `IdentityMigration.ScanReportsCollisions` | apps/api/scripts/migrate-customer-identities.js:62-86 | the collision list is empty exactly when every number is valid and no two users share a canonical one |
| `IdentityMigration.CollisionsInOrder` | apps/api/scripts/migrate-customer-identities.js:62-86 | each further user is reported, behind the others, for an invalid number or with the first user of the same canonical number, and otherwise not |
| `IdentityMigration.ScanCountsAll` | apps/api/scripts/migrate-customer-identities.js:60-118 | every user is counted once: canonical already, to be updated, or in a collision |
| `IdentityMigration.UsersMigrate` | apps/api/scripts/migrate-customer-identities.js:88-138 | without collisions every row update keeps the phone column unique and all users end canonical |
| `IdentityMigration.UsersRollBack` | apps/api/scripts/migrate-customer-identities.js:173-180 | writing the snapshot back also keeps it unique after every row and restores every user |
| `IdentityMigration.ProposalsMigrate` | apps/api/scripts/migrate-customer-identities.js:102-113 | the proposed wallet changes give every wallet of a changed user the new number and are undone by the snapshot |
| `IdentityMigration.MigrationRoundTrip` | apps/api/scripts/migrate-customer-identities.js:120-189 | without collisions migrating and rolling back restores every user and wallet, and no update in either direction meets a taken number |
| `IdentityMigration.Database.ScanAll` | apps/api/scripts/migrate-customer-identities.js:60-118 | the scan loop builds the specified report |
| `IdentityMigration.Database.Transact` | apps/api/scripts/migrate-customer-identities.js:122-137 | all updates are written, or none if one of them fails |
| `IdentityMigration.Database.RunCustomerIdentityMigration` | apps/api/scripts/migrate-customer-identities.js:120-138 | with any collision, or without `apply`, nothing is written; otherwise the transaction commits |
| `IdentityMigration.Database.ApplyRollback` | apps/api/scripts/migrate-customer-identities.js:162-193 | writes a snapshot back in full or not at all |
| `IdentityMigration.Database.MigrateAndRollBack` | apps/api/scripts/migrate-customer-identities.js:120-193 | running the migration and then the rollback leaves both tables as they were |
| `PhoneCanonicalization.MovableExactly` | apps/api/scripts/canonicalize-phone-numbers.js:84-113 | a row may be changed exactly when its number is valid and no other row of its owner has the same canonical number |
| `PhoneCanonicalization.ProposesExactly` | apps/api/scripts/canonicalize-phone-numbers.js:103-112 | the proposals are exactly the rows that are neither invalid, colliding nor canonical, each with its canonical number |
| `PhoneCanonicalization.UpdatesGoThrough` | apps/api/scripts/canonicalize-phone-numbers.js:269-280 | applied one by one the updates never break uniqueness (per owner, for contacts); colliding and invalid rows are untouched |
| `PhoneCanonicalization.SecondRunIsQuiet` | apps/api/scripts/canonicalize-phone-numbers.js:49-113 | a second run proposes nothing and reports the same collisions |
| `PhoneCanonicalization.WalletsFollowUsers` | apps/api/scripts/canonicalize-phone-numbers.js:272-284 | each wallet of a user whose number changes gets the new number, every other wallet stays as it is |
| `PhoneCanonicalization.ReportCounts` | apps/api/scripts/canonicalize-phone-numbers.js:51-113 | each count of the report is the size of a class of rows |
| `PhoneCanonicalization.ReportsCollisions` | apps/api/scripts/canonicalize-phone-numbers.js:84-101 | the collisions are the groups of two and more rows of one scope with one canonical number, each with all of its rows |
| `PhoneCanonicalization.InvalidInOrder` | apps/api/scripts/canonicalize-phone-numbers.js:49-70 | the invalid rows are those whose number cannot be read, in table order |
| `PhoneCanonicalization.CountsAddUpExactly` | apps/api/scripts/canonicalize-phone-numbers.js:65-101 | the counts add up to the scanned rows exactly when no colliding group has a row that is canonical already |
| `PhoneCanonicalization.CollidingCanonicalCountsTwice` | apps/api/scripts/canonicalize-phone-numbers.js:65-101 | two spellings of a number, one canonical: two rows, counted as one canonical and two colliding |
| `PhoneCanonicalization.PhoneRows.ScanAll` | apps/api/scripts/canonicalize-phone-numbers.js:49-113 | the grouping and judging loops build the specified report |
| `PhoneCanonicalization.PhoneRows.RunPhoneCanonicalization` | apps/api/scripts/canonicalize-phone-numbers.js:269-310 | applies the updates one row at a time, each with the wallets of its user; all of them succeed |
| `CryptoService.DecryptsExactly` | apps/api/src/services/crypto.service.js:75-120 | a text encrypted under a version decrypts to itself exactly when the version starts with `v`, has a second character and no colon |
| `CryptoService.OlderFormatsRead` | apps/api/src/services/crypto.service.js:106-119 | texts of three and of two parts are read with the key of v1, part by part, and a text without a colon not at all |
| `CryptoService.FromHexExactly` | apps/api/src/services/crypto.service.js:28-34 | the hex text of a key is read in capital and small letters, in full, and up to the first pair that is not hex |
| `KeyRotation.StartsExactly` | apps/api/scripts/rotate-wallet-keys.js:21-23 | a new key of 32 bytes becomes the key of the target version and of no other, any other new key stops the script |
| `KeyRotation.EveryWalletReachesTarget` | apps/api/scripts/rotate-wallet-keys.js:51-80 | with a target without a colon, after a run every wallet whose secret can be read and written names the target in its metadata and in front of the first colon of its text, and a wallet that did so before is unchanged |
| `SampleCipher.SampleIsLawful` | apps/api/src/services/crypto.service.js:75-93 | a cipher that meets what is assumed of AES, that opening undoes sealing, and under which a key rejects what another one sealed |
| `KeyRotation.PlaintextsSurvive` | apps/api/scripts/rotate-wallet-keys.js:21-95 | every text readable with the keys before the run is readable with the keys after it if the target's key is not replaced or no readable wallet is read through the target version, and the target version is one `decrypt` recognises or no readable wallet is rewritten; for every cipher that opens what it sealed |
| `KeyRotation.PlaintextsSurviveExactly` | apps/api/scripts/rotate-wallet-keys.js:21-95 | and only if, provided that a replacing key does not open the wallets read with the old one to the same texts |
| `KeyRotation.NewKeyForOldVersionLoses` | apps/api/scripts/rotate-wallet-keys.js:21-23 | a new key for v1 that does not open the wallet at v1 as the old one did: the wallet is not selected, unchanged and no longer readable |
| `KeyRotation.VersionsAgreeExactly` | apps/api/scripts/rotate-wallet-keys.js:69-80 | a wallet ends unchanged unless it was selected, readable and writable; then both version fields are at the target, the one in the text exactly when the target has no colon |
| `KeyRotation.RerunSelectsExactly` | apps/api/scripts/rotate-wallet-keys.js:51-55 | a rerun selects exactly the wallets that were not rotated if and only if the target version has no colon or none was rotated |
| `KeyRotation.ResumingCompletes` | apps/api/scripts/rotate-wallet-keys.js:49-95 | stopping after any part, with any writes failing, and running again with other failures reaches the result of one uninterrupted run up to ciphertext randomness; a selected wallet ends rotated exactly when it is readable and one of the runs could write it |
| `KeyRotation.WalletStore.FindMany` | apps/api/scripts/rotate-wallet-keys.js:37-57 | the scan counts the wallets with a secret and selects those that do not name the target version in metadata and text |
| `KeyRotation.WalletStore.RotateBatch` | apps/api/scripts/rotate-wallet-keys.js:67-94 | one batch rotates its wallets that decrypt and can be written and records the others in order |
| `KeyRotation.WalletStore.RotateBatches` | apps/api/scripts/rotate-wallet-keys.js:65-95 | the batches together rotate every selected wallet that decrypts and can be written, for every batch size |
| `KeyRotation.WalletStore.RotateWalletKeys` | apps/api/scripts/rotate-wallet-keys.js:21-99 | afterwards every readable and writable wallet is at the target version and those that were are unchanged; scanned = current + rotated + failed, where current counts exactly the wallets that were at the target, the errors name the failed wallets in order, a dry run writes nothing, and a new key that is not 32 bytes stops the script before anything is read |
| `ChatMerge.MergeExtends` | apps/chat-sim/src/usePolling.js:64-98 | existing messages keep place, text and sender, and change only by getting a timestamp and the id that goes with it |
| `ChatMerge.MergeCounts` | apps/chat-sim/src/usePolling.js:67-96 | per text and sender the acknowledged messages grow by the number delivered and the unclaimed shrink by as many as could be claimed |
| `ChatMerge.ClaimsInOrder` | apps/chat-sim/src/usePolling.js:71-81 | deliveries of a text and sender claim its local messages in list order, one each |
| `ChatMerge.MergeMeetsPromise` | apps/chat-sim/src/usePolling.js:59-98 | for fresh, distinct timestamps in any order: timestamps stay distinct and each text and sender occurs acknowledged + max(unclaimed, delivered) times |
| `ChatMerge.MergeAccounts` | apps/chat-sim/src/usePolling.js:64-98 | whatever the timestamps, each delivered message either stands in the list with its own text, sender and timestamp or was dropped; nothing else is stamped |
| `ChatMerge.DroppedExactly` | apps/chat-sim/src/usePolling.js:70-95 | nothing of a batch is dropped exactly when each delivery finds an unclaimed twin that no earlier one claims, or its timestamp is neither in the list nor on an earlier delivery |
| `ChatMerge.RedeliveryExactly` | apps/chat-sim/src/usePolling.js:71-95 | a redelivered batch changes nothing exactly when none of its messages has an unclaimed twin |
| `ChatMerge.RedeliveryClaimsSecondTwin` | apps/chat-sim/src/usePolling.js:71-81 | one message delivered twice claims two equal local messages |
| `ChatMerge.MergeLoop` | apps/chat-sim/src/usePolling.js:64-98 | the loop that edits the copied list computes the merge |
| `ChatPolling.EveryRunDeliversExactly` | apps/chat-sim/src/usePolling.js:43-133 | in every run, whatever the server's timestamps and the order in which messages are logged: the messages up to the cursor are those in the list, each once, and those lost on the way; all stand in the list exactly when each one was strictly newer than the cursor when it was logged, was not passed by an answer read before it was logged, and in its answer shared its timestamp with no earlier message or still had an unclaimed twin; and exactly one of a pending timer and a running poll exists |
| `ChatPolling.IncreasingTimesLoseNothing` | apps/chat-sim/src/usePolling.js:43-133 | with strictly increasing timestamps every message up to the cursor stands in the list exactly once |
| `ChatPolling.TiedInOneAnswer` | apps/chat-sim/src/usePolling.js:84-95 | two messages of one millisecond in one answer: the second is lost |
| `ChatPolling.TiedAfterTheAnswer` | apps/api/src/services/simMessage.service.js:20-24 | the second is logged after the first was merged: it is lost |
| `ChatPolling.TiedOnTheWay` | apps/api/src/services/simMessage.service.js:20-24 | the second is logged while the answer with the first is on its way: it is lost |
| `ChatPolling.NothingIsLeftOverExactly` | apps/chat-sim/src/usePolling.js:70-81 | after a run no local message of a text and sender is left beside the server's copies exactly when, from every point of the run on, at least as many server messages are merged as local ones are added |
| `ChatPolling.EarlyDeliveryLeavesCopy` | apps/chat-sim/src/usePolling.js:70-95 | a reply delivered before its local copy is added is in the list twice |
| `ChatPolling.AnswerCatchesUp` | apps/chat-sim/src/usePolling.js:54-98 | an answered poll covers the log it was served from, and all of that log stands in the list exactly when its merge keeps each message |
| `ChatPolling.AskedForExactly` | apps/api/src/services/simMessage.service.js:20-24 | a poll brings a logged message exactly when it is strictly newer than the cursor, and one that is not is brought by no later poll of any run |
| `ChatPolling.IntervalBacksOff` | apps/chat-sim/src/usePolling.js:8-23 | the delay lies between the active interval and the cap and never falls with more errors |
| `ChatPolling.IntervalIsExact` | apps/chat-sim/src/usePolling.js:4-23 | 30 seconds in a hidden tab; 3 seconds in a visible one, doubled with each error up to 30 seconds |
| `ChatPolling.PollEndsExactly` | apps/chat-sim/src/usePolling.js:57-112 | an answer resets the error count, a failure raises it, and both arm the next poll accordingly |
| `ChatPolling.VisibilityTurns` | apps/chat-sim/src/usePolling.js:115-137 | mounting polls at once in a visible tab without errors; showing the tab drops the timer and polls |
| `ChatPolling.PollingHook.Poll` | apps/chat-sim/src/usePolling.js:49-51 | a poll starts only when none is running |
| `ChatPolling.PollingHook.OnForeground` | apps/chat-sim/src/usePolling.js:115-122 | the pending timer is dropped and a poll starts at once |
| `ChatPolling.PollingHook.OnAnswer` | apps/chat-sim/src/usePolling.js:57-112 | clears the errors, moves the cursor to the latest message, merges and schedules |
| `ChatPolling.PollingHook.OnError` | apps/chat-sim/src/usePolling.js:100-112 | counts the error and schedules with the backed-off delay |
| `Highlight.SplitForHighlight` | apps/chat-sim/src/MessageList.js:326-344 | the loop computes the specified segments |
| `Highlight.NothingIsDropped` | apps/chat-sim/src/MessageList.js:326-344 | for every lower-casing, also one that changes lengths, the segments joined are the source text |
| `Highlight.FoundIsHighlighted` | apps/chat-sim/src/MessageList.js:314-344 | for every lower-casing the messages found are exactly those with a match segment |
| `Highlight.QueriesAlike` | apps/chat-sim/src/MessageList.js:314-329 | queries that differ only in letter case and in space around them find the same messages and highlight the same segments |
| `Highlight.HighlightsAreLeftmost` | apps/chat-sim/src/MessageList.js:330-343 | when lower-casing keeps lengths, highlights start exactly at the occurrences no earlier highlight runs into, and no other cut of the text has that property |
| `Highlight.SpotsAreLeftmost` | apps/chat-sim/src/MessageList.js:333-342 | for every lower-casing, the matches found in the lower-cased text are in order, do not overlap, and no occurrence of the query starts outside of them |
| `Highlight.HighlightsShowMatchesExactly` | apps/chat-sim/src/MessageList.js:326-344 | for every lower-casing there is one highlight for each match, and each covers exactly the characters whose lower-casing is its match, if and only if there is no match, or every character before the last match and of it lower-cases to one (of it: or it ends the text) |
| `Highlight.EveryQueryShowsExactly` | apps/chat-sim/src/MessageList.js:326-344 | all queries are highlighted on their matches exactly when every character of the text lower-cases to one |
| `Highlight.SegmentsAreExact` | apps/chat-sim/src/MessageList.js:339-341 | match segments lower-case to the query and plain ones do not contain it |
| `Highlight.LongLowerCaseShifts` | apps/chat-sim/src/MessageList.js:330-341 | searching "b" in U+0130 followed by "b" highlights an empty segment behind the "b" |
| `DayHeaders.BuildRows` | apps/chat-sim/src/MessageList.js:745-760 | the loop computes the specified rows |
| `DayHeaders.RowsAreDated` | apps/chat-sim/src/MessageList.js:745-760 | without the date rows the messages remain in order, and every dated message stands under its own day |
| `DayHeaders.OneHeaderPerDayExactly` | apps/chat-sim/src/MessageList.js:740-760 | each day has one date row, with its own id, exactly when no day comes back after another |
| `DayHeaders.ReturningDayIsHeadedTwice` | apps/chat-sim/src/MessageList.js:752-755 | a day that comes back is headed twice |
| `WebSocketManager.EveryRunIsSafe` | apps/admin/src/lib/websocket.js:48-226 | in every run, disconnects and late close events included: at most one socket is connecting or open, at most one reconnect timer is pending, the k-th delay since the last open is within 0.8 to 1.2 times the k-th backoff, and while a connection is wanted the current socket has not closed or a timer is pending |
| `WebSocketManager.EveryRunShowsRight` | apps/admin/src/lib/websocket.js:48-106 | in every run the first attempt shows as connecting and later ones as reconnecting, unless another socket's close event came, and the heartbeat runs only while an opened socket has not closed |
| `WebSocketManager.WantedUntil` | apps/admin/src/lib/websocket.js:98-106 | a connection is wanted from connect until disconnect or a normal close of the current socket |
| `WebSocketManager.HiddenTabHolds` | apps/admin/src/lib/websocket.js:81-96 | while the tab is hidden no parsed message is handed out, however many arrive |
| `WebSocketManager.BackoffGrows` | apps/admin/src/lib/websocket.js:162-166 | the backoff is positive, never falls with more attempts and is capped |
| `WebSocketManager.BackoffIsExact` | apps/admin/src/lib/websocket.js:162-166 | the first backoff is the base and each later one 1.5 times the one before, until the cap |
| `WebSocketManager.JitterStaysInBand` | apps/admin/src/lib/websocket.js:167-168 | the delay is at least 0.8 and less than 1.2 times the backoff |
| `WebSocketManager.StaysDisconnectedExactly` | apps/admin/src/lib/websocket.js:98-106 | after disconnect and until the next connect no timer is armed and no socket opened exactly when every close event that still comes has code 1000 |
| `WebSocketManager.LateCloseReconnects` | apps/admin/src/lib/websocket.js:98-106 | a run in which disconnect while connecting is followed by a second socket |
| `WebSocketManager.DisconnectKeeps` | apps/admin/src/lib/websocket.js:215-226 | when disconnect returns no socket is live and no timer pending |
| `WebSocketManager.ConnectedIsShownExactly` | apps/admin/src/lib/websocket.js:74-106 | an open connection is shown as connected and has its heartbeat exactly when no other socket's close event came since it opened |
| `WebSocketManager.LateCloseHidesConnection` | apps/admin/src/lib/websocket.js:98-106 | a run with disconnect and connect after which the open connection is not shown |
| `WebSocketManager.OrderIsKeptExactly` | apps/admin/src/lib/websocket.js:31-127 | in every run nothing is lost or delivered twice and an active tab holds nothing back; dispatched followed by buffered equals received, in order, exactly when no `null` or unparsable frame arrives while the buffer is not empty |
| `WebSocketManager.NullOvertakes` | apps/admin/src/lib/websocket.js:83-95 | a run in which `null` is delivered ahead of a buffered message |
| `WebSocketManager.Client.ScheduleReconnect` | apps/admin/src/lib/websocket.js:157-173 | arms one timer with the jittered delay unless one is pending |
| `WebSocketManager.Client.Connect` | apps/admin/src/lib/websocket.js:48-114 | opens a socket unless one is live; a constructor that throws schedules a reconnect |
| `WebSocketManager.Client.OnOpen` | apps/admin/src/lib/websocket.js:74-79 | resets the attempts, shows the connection and starts the heartbeat |
| `WebSocketManager.Client.OnMessage` | apps/admin/src/lib/websocket.js:81-96 | drops pongs, buffers in a hidden tab, dispatches otherwise and always on the catch path |
| `WebSocketManager.Client.OnClose` | apps/admin/src/lib/websocket.js:98-106 | stops the heartbeat and reconnects unless the close was normal |
| `WebSocketManager.Client.FlushBuffer` | apps/admin/src/lib/websocket.js:123-127 | dispatches the buffer in order and leaves it empty |
| `WebSocketManager.Client.OnVisibilityChange` | apps/admin/src/lib/websocket.js:30-37 | records visibility and flushes when the tab becomes active |
| `WebSocketManager.Client.OnTimer` | apps/admin/src/lib/websocket.js:169-172 | forgets the timer and connects |
| `WebSocketManager.Client.Disconnect` | apps/admin/src/lib/websocket.js:215-226 | clears the timer, stops the heartbeat, closes and forgets the socket |
| `Base64Url.RoundTrip` | apps/admin/src/lib/webauthn.js:126-151 | decoding what any byte string encodes to gives it back, and the padding rebuilt from the length is the one btoa wrote (sections 3.2, 4 and 5 of RFC 4648) |
| `Base64Url.TestVectors` | apps/admin/src/lib/webauthn.js:126-134 | the vectors of section 10 of RFC 4648, and one whose digits the two alphabets write differently |
| `Base64Url.AtobForgives` | apps/admin/src/lib/webauthn.js:136-151 | the decoder skips ASCII white space, refuses a single digit left over and characters outside the alphabet |
| `Base64Url.EncodedIsUrlSafe` | apps/admin/src/lib/webauthn.js:134 | the text has no '+', '/' or '=' |
| `Base64Url.EncodedIsCanonical` | apps/admin/src/lib/webauthn.js:126-134 | the text has only characters of the URL alphabet, no '=', a possible length and zero spare bits |
| `Base64Url.TextComesBackExactly` | apps/admin/src/lib/webauthn.js:126-151 | encoding what a text decodes to gives the text back exactly when it is such a canonical text |
| `Base64Url.BufferToBase64Url` | apps/admin/src/lib/webauthn.js:126-134 | the loop over the bytes, and null for no buffer |
| `Base64Url.Base64UrlToBuffer` | apps/admin/src/lib/webauthn.js:136-151 | null, buffers passed through, and for text the decoded bytes or its own bytes when it is not base64 |
| `RelativeTime.TextIsExact` | packages/shared/src/formatDate.js:42-61 | what each text says about the age, in completed minutes or hours |
| `RelativeTime.PastIsExact` | packages/shared/src/formatDate.js:74-84 | for instants not in the future, at one reading of the clock, the delay is positive, the text constant before it and different at it, and without a delay constant for ever |
| `RelativeTime.DueIsNextChange` | packages/shared/src/formatDate.js:100-104 | the timer is due at the first instant at which the text differs, and there is none when it never does |
| `RelativeTime.FutureIsExact` | packages/shared/src/formatDate.js:74-84 | for instants in the future the text is constant over the delay exactly when the minute or hour counted, the skew window or the absolute date outlasts it |
| `RelativeTime.NinetySecondsAhead` | packages/shared/src/formatDate.js:74-79 | ninety seconds ahead the text is wrong for half of the delay |
| `RelativeTime.AtMost84Callbacks` | packages/shared/src/formatDate.js:96-112 | however late the timers fire and whatever time passes between the two readings of the clock, a subscription to an instant not in the future calls back at most 84 times and never twice with the same text |
| `RelativeTime.StopsAtDateExactly` | packages/shared/src/formatDate.js:100-104 | a callback that arms no timer leaves the absolute date on screen exactly unless the first full day ended between its two readings of the clock |
| `RelativeTime.RightUntilNextExactly` | packages/shared/src/formatDate.js:100-104 | a text is right until the timer armed with it is due exactly when no change of the text falls between the two readings |
| `RelativeTime.ClockMovesBetweenReadings` | packages/shared/src/formatDate.js:101-102 | the readings after which "23h ago" stays for ever and "1h ago" for another hour |
| `RelativeTime.PunctualIsExact` | packages/shared/src/formatDate.js:96-112 | the bound is met: the run whose timers fire when due and whose two readings coincide has one callback per change left and ends with the absolute date |
| `RelativeTime.FutureCallbacks` | packages/shared/src/formatDate.js:96-112 | for an instant in the future the bound grows by one per minute ahead |
| `RelativeTime.Subscription.constructor` | packages/shared/src/formatDate.js:96-107 | calls back at once and arms a timer by the second reading of the clock, unless there is no delay |
| `RelativeTime.Subscription.Tick` | packages/shared/src/formatDate.js:100-105 | one more callback with the text of the first reading, within the bound, and the timer of the second, even if the callback unsubscribes; a timer that fires after that calls nothing back |
| `RelativeTime.Subscription.Unsubscribe` | packages/shared/src/formatDate.js:109-112 | nothing is armed, and the subscription stays inactive |

## Left out

- React rendering, styling, focus traps, themes and modals; of the components only the state and the arithmetic named above.
- Express wiring, workers, start-up and health checks: I/O.
- AES, random nonces, WebCrypto and passkey prompts, Stellar XDR: parameters or not modelled.
- The phone-number parser behind `canonicalizePhoneNumber`: a parameter that must accept its own output.
- `Date.parse` and `localeCompare` in `compareValues`: a parameter; sorting is stated for columns of numbers, decimal strings and missing values.
- RowSort.ConsistentExactly: assumes that no number printing with an exponent stands beside a decimal string; `SortRowsIsKeyByKey` assumes the same of its columns.
- `Intl` formatting and the absolute date string: one text that does not depend on the current time.
- `toLowerCase` in context (final sigma) and letter case of keys outside ASCII: lower-casing is per character.
- What `TextEncoder` writes in the fallback of `base64UrlToBuffer`: a parameter. Strings with lone surrogates.
- `buildRecord` with a context that is an array or a string, whose items would be spread under numeric keys.
- `serializeLogs`, `downloadLogs` and the console output of the logger.
- Number parsing of URL parameters: page and limit are natural numbers or absent; negative and fractional limits.
- A pager that unmounts while a list loads, a list that changes during a walk, and a response without a pagination block.
- Grids below the virtualisation threshold, where every row is rendered, and the measuring of row heights.
- The scans of transactions, voice commands, messages, notifications and aliases in the canonicalization script: single-branch rewrites without a uniqueness constraint.
- The transaction around all contact updates: none of them fails, so it never rolls back.
- The order in which contact collisions of different owners are reported: rows are grouped by owner and number together.
- `orphanedWallets`, the integrity flags and ownership counts of the identity migration: simple counts.
- A batch size of zero or less in the key rotation, for which its loop does not end, and the redaction of error texts.
- Polling across a change of phone number while a poll is in flight, and the `active` flag after unmounting.
- Listener registration of the WebSocket client, listeners that throw or call back into it, and the heartbeat's own timers: a heartbeat timeout is a close of the current socket at any time.
- The label of a date row and the local calendar: days are numbers.
- RetryQueue.OneRetryDrains: assumes that replays then succeed or fail for a reason other than being offline; nothing is said about a network that keeps failing.
- KeyRotation.ResumingCompletes: assumes a target version without a colon and the same registered keys in both runs.
- KeyRotation.PlaintextsSurviveExactly: assumes, for the direction in which texts are lost, that the new key does not open those very ciphertexts to the same texts, which the authentication tag makes unlikely but cannot exclude.
- Highlight.HighlightsAreLeftmost: assumes every character of the text lower-cases to one character; `HighlightsShowMatchesExactly` covers the others.
- Highlight.EveryQueryShowsExactly: assumes that no character lower-cases to nothing and that the first character of a longer lower-casing is one in lower case, as for U+0130.
- RelativeTime.AtMost84Callbacks: assumes a clock that does not go back and timers that do not fire early.
- WebSocketManager.EveryRunIsSafe: assumes positive backoff options.
