# Employee dashboard listing: a Dafny model

This project models the client-side logic of the employee dashboard page of an
employee-management web front end (`src/app/dashboard/page.tsx`). The page
holds the employee collection fetched from the back end. It shows the records
that match a free-text search, five at a time, numbered from 1 across the
whole filtered list. It also runs a two-step delete confirmation.

The model has five modules:

- `Text` (`text.dfy`): ASCII lower-casing and the substring test
  `includes`, with a proof that the scan finds the needle exactly when it
  occurs at some position.
- `Listing` (`listing.dfy`): the `Employee` record and the search filter. The
  filter's contract says a record is kept exactly when it matches. Lemmas show
  that the filter keeps order (subsequence, and filtering distributes over
  concatenation) and that an empty search keeps everything.
- `Pagination` (`pagination.dfy`): `Array.prototype.slice` with its clamping
  rules, the page window, `totalPages`, the page-change guard, row numbers and
  page buttons. Lemmas show that each page is the right window and that pages
  hold 5, 5, ..., then 1 to 5 records. Laid end to end, the pages give back the
  filtered list, and the row numbers give exactly 1..n.
- `DeleteWorkflow` (`delete_workflow.dfy`): the confirmation modal as a pure
  state machine over `openConfirmModal` and `selectedEmployeeId`. Success and
  failure of the delete request end in the same state.
- `Dashboard` (`dashboard.dfy`): the component as a class `DashboardPage`.
  Its fields are the component's state variables. Its methods are the event
  handlers, each specified against the pure functions above.

The environment enters as parameters:

- The session token is a boolean `hasToken`.
- The result of each HTTP request is an outcome value: `FetchOutcome`, or
  `Outcome` for the delete.
- A redirect to the login view is a boolean result, `redirected`.
- The identifier a delete request names is the result `requested`.

`StrandedPageAfterDelete` shows a consequence of the code. Deleting the only
record on the last page does not move the page number back. The visible page
is then empty. If only one page remains, the pagination control that would let
the user go back disappears too. Editing the search is the only way back to
page 1. The model keeps this behaviour as written.

Three behaviours of the code that one might expect to be otherwise:

- One might expect Cancel to discard the chosen record. Line 331 only closes
  the modal and keeps `selectedEmployeeId`.
- One might expect an out-of-range page request to be clamped to the nearest
  page. Lines 104-108 ignore it.
- One might expect the telephone number to be optional. The record type
  declares `telNo` as a plain string (line 11).

## Model

| member | source | states |
|---|---|---|
| `Text.LowerChar` | src/app/dashboard/page.tsx:93-95 | the lower-cased character is never an ASCII capital; non-capitals are kept; a capital maps to the lower-case letter at the same place in the alphabet |
| `Text.ToLower` | src/app/dashboard/page.tsx:93-95 | lower-casing keeps the length and lowers each character on its own |
| `Text.ToLowerIdempotent` | src/app/dashboard/page.tsx:93-95 | lowering an already lowered string changes nothing |
| `Text.Includes` | src/app/dashboard/page.tsx:93-95 | `includes` as a left-to-right scan of start positions; specified by `Text.IncludesIffOccurs` |
| `Text.IncludesIffOccurs` | src/app/dashboard/page.tsx:93-95 | `includes` answers true exactly when the needle occurs at some position of the haystack |
| `Listing.Matches` | src/app/dashboard/page.tsx:92-95 | the filter's predicate: the lowered search is included in the lowered full name, telephone or position name; specified by `Listing.MatchesMeaning` |
| `Listing.Filter` | src/app/dashboard/page.tsx:91-96 | the filtered list is no longer than the collection; a record is in it exactly when it is in the collection and matches the search |
| `Listing.MatchesMeaning` | src/app/dashboard/page.tsx:92-95 | a record matches exactly when the lowered search occurs in its lowered full name, telephone or position name |
| `Listing.MatchesIgnoresSearchCase` | src/app/dashboard/page.tsx:93-95 | the case of the search term does not matter: lowering it first matches the same records |
| `Listing.FilterConcat` | src/app/dashboard/page.tsx:91-96 | filtering a concatenation gives the two filtered parts in the same order |
| `Listing.FilterSingleton` | src/app/dashboard/page.tsx:91-96 | a single record is kept exactly when it matches |
| `Listing.FilterIsSubsequence` | src/app/dashboard/page.tsx:91-96 | the filtered list is a subsequence of the collection: fetched order is kept |
| `Listing.FilterEmptySearch` | src/app/dashboard/page.tsx:91-96 | an empty search keeps the whole collection unchanged |
| `Pagination.SlicePosition` | src/app/dashboard/page.tsx:101 | a slice position lies in [0, n], and a non-negative one is cut at n |
| `Pagination.Slice` | src/app/dashboard/page.tsx:101 | `slice` keeps only list elements, never more than end - start of them, and for 0 <= start <= end is the range [min(start, n), min(end, n)) |
| `Pagination.StartIndex` | src/app/dashboard/page.tsx:99 | `startIndex` = (page - 1) * 5; specified through `Pagination.PageIsWindow` |
| `Pagination.EndIndex` | src/app/dashboard/page.tsx:100 | `endIndex` = startIndex + 5; specified through `Pagination.PageIsWindow` |
| `Pagination.Paginated` | src/app/dashboard/page.tsx:101 | for every page number the visible list holds at most five records, all from the filtered list; the exact window is `Pagination.PageIsWindow` |
| `Pagination.TotalPages` | src/app/dashboard/page.tsx:102 | the page count is zero exactly for no records, and otherwise the least count of five-record pages that holds them all, i.e. ceil(n/5) |
| `Pagination.PageIsWindow` | src/app/dashboard/page.tsx:99-101 | for page p >= 1 the visible list is the filtered list from min((p-1)*5, n) to min(p*5, n); it holds at most five records and is empty exactly when (p-1)*5 >= n |
| `Pagination.PageSizes` | src/app/dashboard/page.tsx:99-102 | pages before the last hold five records, the last holds n - 5*(totalPages-1), which is between 1 and 5, and later pages are empty |
| `Pagination.AllPagesAreTheList` | src/app/dashboard/page.tsx:99-102 | pages 1 to totalPages laid end to end are exactly the filtered list |
| `Pagination.FirstPage` | src/app/dashboard/page.tsx:99-101 | page 1 shows the first five records, or all of them when there are fewer |
| `Pagination.RowNumber` | src/app/dashboard/page.tsx:259 | the number beside the record at index i < 5 of a page lies in that page's window (startIndex, endIndex]; its meaning is `Pagination.RowNumberIsPosition` |
| `Pagination.PageRowNumbers` | src/app/dashboard/page.tsx:216 | the row numbers one page shows, top to bottom; specified by `Pagination.RowNumbersAreOneToN` |
| `Pagination.RowNumberIsPosition` | src/app/dashboard/page.tsx:259 | the number beside a visible record lies in 1..n and is that record's 1-based position in the filtered list |
| `Pagination.RowNumbersAreOneToN` | src/app/dashboard/page.tsx:216 | across pages 1 to totalPages the row numbers shown are exactly 1, 2, ..., n, in order |
| `Pagination.PageAfterChange` | src/app/dashboard/page.tsx:104-108 | the page only ever changes to the requested page, and only when that page is in 1..totalPages |
| `Pagination.PageChangeNoOps` | src/app/dashboard/page.tsx:104-108 | Prev on page 1, Next on the last page and every request when there are no pages leave the page unchanged |
| `Pagination.PageChangeLandsOnRecords` | src/app/dashboard/page.tsx:104-108 | a page change keeps the page at least 1 and keeps an in-range page in range; an accepted request lands on a page with records |
| `Pagination.ShowPagination` | src/app/dashboard/page.tsx:278 | the condition `totalPages > 1`; specified by `Pagination.ShowPaginationThreshold` |
| `Pagination.ShowPaginationThreshold` | src/app/dashboard/page.tsx:278 | the pagination control renders exactly when there are more than five filtered records |
| `Pagination.PageButtons` | src/app/dashboard/page.tsx:294 | the page-number buttons; specified by `Pagination.PageButtonsArePages` |
| `Pagination.PageButtonsArePages` | src/app/dashboard/page.tsx:294 | there are totalPages buttons in strictly increasing order, and a number is a button exactly when it is a page 1..totalPages |
| `Pagination.ButtonsAreAccepted` | src/app/dashboard/page.tsx:294-305 | every page button's request is accepted and lands on that page |
| `DeleteWorkflow.Choose` | src/app/dashboard/page.tsx:85-88 | choosing a record opens the modal with that identifier selected |
| `DeleteWorkflow.Cancel` | src/app/dashboard/page.tsx:331 | Cancel closes the modal and keeps the selected identifier |
| `DeleteWorkflow.Finally` | src/app/dashboard/page.tsx:78-81 | the `finally` block closes the modal and clears the selection; its effect is stated by `DeleteWorkflow.Confirm` |
| `DeleteWorkflow.Confirm` | src/app/dashboard/page.tsx:60-82 | without a token or with nothing selected the modal state is unchanged; otherwise it ends closed with nothing selected |
| `DeleteWorkflow.RequestedId` | src/app/dashboard/page.tsx:61-73 | a delete request is sent exactly when there is a token and a selection, and it names the selected identifier |
| `DeleteWorkflow.ConfirmIgnoresOutcome` | src/app/dashboard/page.tsx:67-81 | success and failure of the delete request give the same modal state |
| `DeleteWorkflow.TransitionsKeepConsistent` | src/app/dashboard/page.tsx:60-88 | no transition leaves the modal open with nothing selected |
| `DeleteWorkflow.ConfirmFromOpenModal` | src/app/dashboard/page.tsx:324-340 | confirming from the open modal with a token ends idle, and the request names the selected record |
| `DeleteWorkflow.ChooseThenConfirm` | src/app/dashboard/page.tsx:60-88 | choosing a record then confirming sends a request for that record and ends idle, from any state and for either outcome |
| `DeleteWorkflow.ChooseThenCancel` | src/app/dashboard/page.tsx:85-88 | choose then cancel keeps the identifier with the modal closed; the next choice replaces it |
| `Dashboard.AfterFetch` | src/app/dashboard/page.tsx:25-41 | without a token or on failure the collection is kept; on success it is replaced by the fetched data |
| `Dashboard.ShowSkeleton` | src/app/dashboard/page.tsx:111 | the skeleton guard `!employees.length`, which reads only the fetched collection; specified by `Dashboard.SkeletonMeansNoRecords` and `Dashboard.NoMatchIsNotSkeleton` |
| `Dashboard.SkeletonMeansNoRecords` | src/app/dashboard/page.tsx:111 | while the skeleton shows, for any search, no record passes the filter, there are no pages and no pagination control |
| `Dashboard.NoMatchIsNotSkeleton` | src/app/dashboard/page.tsx:111 | a non-empty collection with no match shows no skeleton and has zero pages |
| `Dashboard.DashboardPage.constructor` | src/app/dashboard/page.tsx:19-23 | the component starts with no records, an empty search, page 1 and the modal idle |
| `Dashboard.DashboardPage.FilteredEmployees` | src/app/dashboard/page.tsx:91-96 | `filteredEmployees` of the live state: `Listing.Filter` of the records and the search |
| `Dashboard.DashboardPage.PaginatedEmployees` | src/app/dashboard/page.tsx:99-101 | `paginatedEmployees` of the live state; specified by `Dashboard.DashboardPage.VisibleRecordsAreTheWindow` |
| `Dashboard.DashboardPage.PageCount` | src/app/dashboard/page.tsx:102 | `totalPages` of the live state: `Pagination.TotalPages` of the filtered count |
| `Dashboard.DashboardPage.ShowsSkeleton` | src/app/dashboard/page.tsx:111 | the skeleton guard of the live state; it does not read the search |
| `Dashboard.DashboardPage.ShowsPagination` | src/app/dashboard/page.tsx:278 | the pagination condition of the live state |
| `Dashboard.DashboardPage.VisibleRecordsAreTheWindow` | src/app/dashboard/page.tsx:99-101 | in every valid state the visible records are the current page's window into the filtered list, at most five, and each row's number is its 1-based position in the filtered list |
| `Dashboard.DashboardPage.FetchEmployees` | src/app/dashboard/page.tsx:25-41 | redirects exactly when there is no token; the collection becomes `AfterFetch` of the old one; nothing else changes |
| `Dashboard.DashboardPage.HandlePageChange` | src/app/dashboard/page.tsx:104-108 | the page becomes the request when 1 <= page <= totalPages and stays otherwise; nothing else changes |
| `Dashboard.DashboardPage.PrevPage` | src/app/dashboard/page.tsx:281-291 | requests the previous page; on page 1 nothing changes |
| `Dashboard.DashboardPage.NextPage` | src/app/dashboard/page.tsx:309-319 | requests the next page; on or past the last page nothing changes |
| `Dashboard.DashboardPage.SearchChanged` | src/app/dashboard/page.tsx:191-194 | stores the search and resets the page to 1, touching nothing else; the visible page becomes the first five matches |
| `Dashboard.DashboardPage.OnDeleteClick` | src/app/dashboard/page.tsx:85-88 | the modal state becomes `Choose` of the old one; records, search and page are unchanged |
| `Dashboard.DashboardPage.CancelDelete` | src/app/dashboard/page.tsx:331 | the modal state becomes `Cancel` of the old one; records, search and page are unchanged |
| `Dashboard.DashboardPage.HandleConfirmDelete` | src/app/dashboard/page.tsx:60-82 | redirects exactly without a token; requests the selected identifier; the modal state becomes `Confirm` of the old one; the collection is refetched only after a sent, successful delete; search and page are unchanged |
| `Dashboard.StrandedPageAfterDelete` | src/app/dashboard/page.tsx:67-81 | deleting the sixth of six records from page 2 leaves page 2 selected and empty, with one page and no pagination control |
| `Dashboard.SevenRecordsTwoPages` | src/app/dashboard/page.tsx:99-102 | seven records and no search: page 1 is records 1-5, page 2 is records 6-7, and there are exactly the buttons 1 and 2 |
| `Dashboard.SingleMatchOnePage` | src/app/dashboard/page.tsx:278 | a search with one match gives one page and no pagination control |

## Left out

- HTTP requests (axios) are not modelled. Each request is an outcome parameter: the collection fetch, and the delete request to the endpoint named `DeletePosition`.
- Token storage (`localStorage`) is not modelled. Whether a token is present is the boolean `hasToken`, and the refetch after a delete sees the same token.
- Navigation (`router.push`) is not modelled. It appears only as the `redirected` result of the handlers that redirect to the login view.
- `handleLogout`, `handleEdit` and `handleCreate` (lines 47-58) are not modelled. They only clear the stored token and navigate.
- Toast notifications are left out. They are the only effect of a failed request besides the unchanged state.
- Asynchronous ordering is not modelled. In the source, the refetch after a successful delete is not awaited, so the `finally` block closes the modal before the new list arrives. The model applies both updates in one step. The final state is the same.
- Mounting is not modelled as a separate step. The `useEffect` that fetches on mount is the `FetchEmployees` call after the constructor.
- Re-rendering is not modelled. The derived views are functions of the state, and there is no render step.
- `Text.ToLower`: lower-cases ASCII letters only. JavaScript's `toLowerCase` is Unicode-aware and can change a string's length. The model assumes ASCII text and a length-preserving lower-casing.
- `Pagination.TotalPages`: computed with integer ceiling division `(n + 4) / 5`. It equals `Math.ceil(n / 5)` for every record count a list can have. Floating point is not modelled.
- JavaScript numbers are unbounded integers in the model. Employee identifiers and page numbers never reach the range where doubles lose precision.
- The skeleton markup, the table and card layouts, styling and the Prev/Next `disabled` attributes are left out. A disabled button does not fire, and a request it would send is ignored anyway (`PageChangeNoOps`).
- A `null` `telNo` from the back end is not modelled. The record type declares a string, and `toLowerCase` would throw on `null`.
- The create, edit, login and register pages and `next.config.ts` are not part of this model. They are forms that forward their fields to the back end, and a proxy rule.
