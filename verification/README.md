# AnalyticsHub state layer, modelled in Dafny

AnalyticsHub is a browser admin dashboard with a user table and an analytics
view. Its behaviour sits in two Redux slices and in some pure arithmetic inside
two React components. This project models that state layer as pure functions
over immutable records, with one function per reducer case:

- **Users store** (`UsersSlice`, from `src/store/slices/usersSlice.ts`). It holds the
  fetched user list, the rows the current search shows (`filteredUsers`), a
  1-based page cursor, a page count and a counter of delete dispatches. Its
  reducers are delete-by-id, case-insensitive search, set-page, and the
  pending, fulfilled and rejected cases of the fetch. `Step`/`Run` replay any
  sequence of these actions.
- **Table pagination** (`UserManagement`, from `src/components/UserManagement.tsx`).
  This covers the rows of the current page (`getCurrentPageUsers`), the
  "Showing X to Y of Z" numbers and the page buttons.
- **Analytics store** (`AnalyticsSlice`, from `src/store/slices/analyticsSlice.ts`).
  It covers the date range and region setters, the three fetch cases, which
  replace the snapshot wholesale, and the mock snapshot.
- **Analytics dashboard** (`AnalyticsDashboard`, from `src/components/AnalyticsDashboard.tsx`).
  This covers the region breakdown (`processRegionData`), the date-range guard
  (`handleDateRangeChange`) and the region select (`handleRegionChange`).
  `Handle`/`RunDashboard` replay any sequence of user inputs and fetch results.

Three support modules model the JavaScript built-ins the code relies on:

- `JsArray` covers `Array.prototype.filter`, `slice` with its negative-index
  rules, and the stable `sort`. It also defines `Subseq`, the order-preserving
  subsequence relation.
- `Text` covers ASCII `toLowerCase` and `includes`.
- `Wrappers` holds `Option` for `null` and the `message || fallback` error text.

Notable behaviour the model pins down, following the code:

- A delete counts every dispatch, even when the id is absent (`DeleteAbsentId`).
- The current page is never clamped, so the page can end up past the last page (`DeleteLeavesPageBeyondLast`).
- A successful fetch never clears an earlier error (`ErrorNeverCleared`, `AnalyticsErrorNeverCleared`).
- The store's invariant fails in the initial state, which has one page but no rows (`InitialStateNotConsistent`).
- `!selectedRegion` treats `''` like `null`.
- A selected region keeps every entry with that name, not just the first (`ProcessRegionData`).

## Model

| member | source | states |
|---|---|---|
| Wrappers.RejectionMessage | src/store/slices/usersSlice.ts:181 | A rejection keeps a non-empty message verbatim. A missing or empty message falls back to the fixed text, so the stored error is never empty. |
| JsArray.Filter | src/store/slices/usersSlice.ts:156-160 | `filter` returns an order-preserving subsequence of its input. Each accepted element appears exactly as often as in the input, and no rejected element appears. |
| JsArray.FilterUnique | src/store/slices/usersSlice.ts:156-160 | Any order-preserving subsequence with exactly those multiplicities equals `Filter`, so the contract above determines the result. |
| JsArray.FilterIdempotent | src/store/slices/usersSlice.ts:149-150 | Filtering twice with the same test gives the same list as filtering once. |
| JsArray.FilterMonotone | src/store/slices/usersSlice.ts:149-150 | Filtering a subsequence of `b` gives a subsequence of the filtered `b`. |
| JsArray.Slice | src/components/UserManagement.tsx:32 | For any bounds, `slice(start, end)` has length `max(to - from, 0)` for the normalised bounds `from` and `to`, and is the run of the input starting at `from`. For `0 <= start <= end` it is the segment between the two bounds, each clamped to the length. |
| JsArray.FilterSingle | src/components/AnalyticsDashboard.tsx:85 | When exactly one element passes the test, `filter` returns that element alone. |
| JsArray.SortDescBy | src/components/AnalyticsDashboard.tsx:75-76 | Sorting a copy with the comparator `b.count - a.count` yields a permutation of the input in non-increasing count order. |
| JsArray.SortStable | src/components/AnalyticsDashboard.tsx:76 | The sort is stable: for every count, the elements with that count keep their input order. |
| JsArray.SortSortedIsIdentity | src/components/AnalyticsDashboard.tsx:75-76 | Input that is already in descending order comes out of the sort unchanged. |
| Text.Lower | src/store/slices/usersSlice.ts:155 | `toLowerCase` keeps the length, maps each character to its lower-case form and leaves no upper-case ASCII letter. |
| Text.Contains | src/store/slices/usersSlice.ts:158-159 | `includes` holds exactly when some position of the string starts an occurrence of the needle. |
| Text.LowerIdempotent | src/store/slices/usersSlice.ts:155 | Lower-casing an already lower-cased string changes nothing. |
| UsersSlice.PageCount | src/store/slices/usersSlice.ts:152 | `Math.ceil(n / 5)` is the least number of pages of 5 rows that hold `n` rows. |
| UsersSlice.Matches | src/store/slices/usersSlice.ts:157-159 | A user matches exactly when the lower-cased term occurs at some position of the lower-cased name or of the lower-cased email. A term that lower-cases to `""` matches every user. |
| UsersSlice.InitialState | src/store/slices/usersSlice.ts:4-12 | The initial state has empty lists, page 1 of 1, no error, not loading and a zero counter. |
| UsersSlice.DeleteUser | src/store/slices/usersSlice.ts:148-153 | Delete removes every entry with the id from both lists and keeps the rest, in order and with their multiplicities. It adds exactly 1 to the counter and re-fits the page count to the visible rows. It leaves the page, loading flag and error as they were. |
| UsersSlice.FilterUsers | src/store/slices/usersSlice.ts:154-163 | Search sets the visible rows to a subsequence of the full list. It holds every user whose lower-cased name or email contains the lower-cased term, and no other. It re-fits the page count, goes back to page 1 and leaves the list, counter, loading flag and error alone. |
| UsersSlice.SetCurrentPage | src/store/slices/usersSlice.ts:164-166 | The page is stored as given, with no bounds check, and no other field changes. |
| UsersSlice.FetchUsersPending | src/store/slices/usersSlice.ts:170-172 | Pending raises only the loading flag. |
| UsersSlice.FetchUsersFulfilled | src/store/slices/usersSlice.ts:173-178 | Both lists become the payload and the page count fits it. Loading drops, and the error, page and counter stay as they were. |
| UsersSlice.FetchUsersRejected | src/store/slices/usersSlice.ts:179-182 | Loading drops and the error is set to a non-empty message or the fallback. Both lists and the page data stay. |
| UsersSlice.SeedUsers | src/store/slices/usersSlice.ts:18-139 | The mock fetch yields 15 users whose ids are 1 to 15 in order, so the ids are distinct. |
| UsersSlice.SeedFetchFillsThreePages | src/store/slices/usersSlice.ts:173-178 | Fetching the seed gives 15 visible rows on 3 pages. |
| UsersSlice.DeleteUserIdempotent | src/store/slices/usersSlice.ts:149-152 | Deleting the same id twice leaves the same lists and page count as deleting it once. The counter still moves twice. |
| UsersSlice.DeleteAbsentId | src/store/slices/usersSlice.ts:149-151 | Deleting an id that no user has keeps both lists unchanged but still increments the counter. |
| UsersSlice.SearchResultIsExact | src/store/slices/usersSlice.ts:155-160 | The search result is the unique order-preserving selection of exactly the matching users. |
| UsersSlice.EmptySearchShowsAll | src/store/slices/usersSlice.ts:155-160 | Searching for `""` shows the whole list, because every string contains the empty string. |
| UsersSlice.SearchIgnoresCase | src/store/slices/usersSlice.ts:155 | Searching for a term and for its lower-cased form give the same state. |
| UsersSlice.Step | src/store/slices/usersSlice.ts:144-184 | One dispatch to the slice. Delete, search and fulfilled fetch re-fit the page count. Page change, pending and rejected fetch leave both lists and the page count alone. The page moves only on search (to 1) and page change (to the given page). The counter moves only on delete, by 1. Pending raises loading, fulfilled and rejected drop it, the rest keep it. A stored error stays, and a rejection always leaves one. |
| UsersSlice.StepKeepsRowsFromUsers | src/store/slices/usersSlice.ts:148-182 | Every action keeps the visible rows an order-preserving subsequence of the full list. |
| UsersSlice.RecomputeEstablishes | src/store/slices/usersSlice.ts:148-163 | Delete, search and fulfilled fetch each establish the full invariant, whenever the rows come from the list beforehand. |
| UsersSlice.StepKeepsConsistent | src/store/slices/usersSlice.ts:148-182 | Every action keeps the invariant that rows come from the list and the page count equals `ceil(rows/5)`. |
| UsersSlice.RunKeepsConsistent | src/store/slices/usersSlice.ts:148-182 | Any sequence of actions keeps that invariant. |
| UsersSlice.RunKeepsRowsFromUsers | src/store/slices/usersSlice.ts:148-182 | Any sequence of actions keeps the rows drawn from the list. |
| UsersSlice.InitialStateNotConsistent | src/store/slices/usersSlice.ts:4-12 | The initial state's rows trivially come from its list, but its page count of 1 does not fit 0 rows. |
| UsersSlice.ReachableConsistent | src/store/slices/usersSlice.ts:148-182 | Once a delete, search or fulfilled fetch has run, the invariant holds whatever came before or after it. |
| UsersSlice.ErrorNeverCleared | src/store/slices/usersSlice.ts:173-182 | Once an error is stored, no sequence of actions removes it. |
| UsersSlice.DeleteLeavesPageBeyondLast | src/store/slices/usersSlice.ts:151-152 | On the last page holding a single row, deleting that row leaves the current page one past the new page count. |
| UserManagement.PageRows | src/components/UserManagement.tsx:30-33 | For page `p >= 1`, the rows are `filteredUsers[(p-1)*5 .. min(p*5, n))`, so there are at most 5. A page in range `1..ceil(n/5)` shows rows, and a page past the end shows none. |
| UserManagement.PageZeroIsEmpty | src/components/UserManagement.tsx:30-33 | Page 0 asks for `slice(-5, 0)` and shows no rows. |
| UserManagement.PagesPartitionRows | src/components/UserManagement.tsx:30-33 | Concatenating pages 1 to `ceil(n/5)` in order gives back exactly the filtered rows. |
| UserManagement.ShowingLabel | src/components/UserManagement.tsx:126-128 | The total is the row count. For a page `>= 1`, `first <= last` exactly when the page is in range `1..ceil(n/5)`. For such a page, `1 <= first <= last <= n` and the label spans at most 5 rows. |
| UserManagement.LabelDescribesPage | src/components/UserManagement.tsx:126-128 | For a page in range, `1 <= first <= last <= total`, and the page's rows are positions `first..last` of the list, counting from 1. |
| UserManagement.LabelPastLastPage | src/components/UserManagement.tsx:126-128 | Past the last page the label runs backwards (`first > last`) and the page is empty. |
| UserManagement.EmptyListLabel | src/components/UserManagement.tsx:126-128 | An empty list on page 1 reads "1 to 0 of 0". |
| UserManagement.PageButtons | src/components/UserManagement.tsx:131 | The buttons are exactly the numbers 1 to `totalPages` in ascending order, and there are none for 0 pages. |
| UserManagement.ButtonsAreNonEmptyPages | src/components/UserManagement.tsx:131-134 | In a consistent store, a number is a button exactly when it is a page that shows rows, and the buttons ascend. |
| UserManagement.SeedPageThree | src/components/UserManagement.tsx:30-33 | After the seed fetch, page 3 shows records 11 to 15 and the label reads "11 to 15 of 15". |
| AnalyticsSlice.InitialState | src/store/slices/analyticsSlice.ts:13-27 | The clock is read twice. The range starts 180 days before the first reading and ends at the second, so it spans at least 180 days when the readings are in order. All six snapshot fields are zero or empty, and there is no region, no error and no loading. |
| AnalyticsSlice.SetDateRange | src/store/slices/analyticsSlice.ts:69-71 | The range is stored verbatim without validation, and nothing else changes. |
| AnalyticsSlice.SetSelectedRegion | src/store/slices/analyticsSlice.ts:72-74 | The region is stored verbatim, `null` included, and nothing else changes. |
| AnalyticsSlice.FetchAnalyticsPending | src/store/slices/analyticsSlice.ts:78-80 | Pending raises only the loading flag. |
| AnalyticsSlice.FetchAnalyticsFulfilled | src/store/slices/analyticsSlice.ts:81-84 | All six snapshot fields become the payload and loading drops. The range, region and error stay as they were. |
| AnalyticsSlice.FetchAnalyticsRejected | src/store/slices/analyticsSlice.ts:85-88 | Loading drops and the error is set to a non-empty message or the fallback. The snapshot and query context stay. |
| AnalyticsSlice.LatestFetchWins | src/store/slices/analyticsSlice.ts:81-84 | Two fulfilled fetches in a row leave exactly the state the second one alone would. |
| AnalyticsSlice.MockAnalytics | src/store/slices/analyticsSlice.ts:40-58 | The mock snapshot is consistent. The total of 1000 equals the sum of the status counts and the sum of the region counts, and the active count is the `active` entry (750). |
| AnalyticsSlice.MockIgnoresQuery | src/store/slices/analyticsSlice.ts:34-61 | The mock answer does not depend on the requested dates or region. |
| AnalyticsDashboard.ProcessRegionData | src/components/AnalyticsDashboard.tsx:73-91 | Every row's average is the sum of all counts divided by the number of regions. With no region selected there are `min(10, n)` rows, drawn from the input, in non-increasing count order. With a region selected, the rows are exactly that region's entries, in input order and with unchanged counts. |
| AnalyticsDashboard.MeanCount | src/components/AnalyticsDashboard.tsx:81 | The average times the number of regions equals the sum of all counts. |
| AnalyticsDashboard.TopRegions | src/components/AnalyticsDashboard.tsx:75-77 | There are `min(10, n)` top regions, a sub-multiset of the input, in non-increasing count order. |
| AnalyticsDashboard.OmittedRegionsNotLarger | src/components/AnalyticsDashboard.tsx:75-77 | No region left out of the chart has a larger count than any charted region. |
| AnalyticsDashboard.TiesKeepInputOrder | src/components/AnalyticsDashboard.tsx:75-77 | For every count, the charted regions with that count are a prefix of the input's regions with that count. |
| AnalyticsDashboard.SelectedRegionEmptyIff | src/components/AnalyticsDashboard.tsx:84-90 | A selected region charts nothing exactly when no entry has that region. |
| AnalyticsDashboard.RankedRegionsChartedAsIs | src/components/AnalyticsDashboard.tsx:75-82 | At most ten regions already ranked by count are charted as they stand, each with the mean. |
| AnalyticsDashboard.MockAllRegionsBreakdown | src/components/AnalyticsDashboard.tsx:75-82 | With the mock data and no selection, all four regions are charted in order, each with average 250. |
| AnalyticsDashboard.SelectedRegionCharted | src/components/AnalyticsDashboard.tsx:84-90 | With a non-empty input and a non-empty selection, the chart is the input's entries for that region, each tagged with the mean. |
| AnalyticsDashboard.MockEuropeBreakdown | src/components/AnalyticsDashboard.tsx:84-90 | With the mock data, selecting Europe charts exactly one row: Europe, 300, average 250. |
| AnalyticsDashboard.HandleDateRangeChange | src/components/AnalyticsDashboard.tsx:54-67 | `setDateRange` is dispatched, with exactly the given pair, iff both dates parse and start is no later than end. Start after end gives the alert. An unparseable date makes `toISOString` throw. |
| AnalyticsDashboard.HandleRegionChange | src/components/AnalyticsDashboard.tsx:69-71 | `''` becomes `null` and every other value passes through verbatim. |
| AnalyticsDashboard.SelectValue | src/components/AnalyticsDashboard.tsx:251 | `selectedRegion \|\| ''` shows `''` exactly when no region is selected, and the selected name otherwise. |
| AnalyticsDashboard.Handle | src/components/AnalyticsDashboard.tsx:186-199 | The start input pairs the new start with the stored end, and the end input pairs the stored start with the new end. The range changes to that pair exactly when the new date parses and keeps the pair ordered; otherwise it stays. Date inputs change nothing else. The region select stores `''` as `null` and any other value as given, changing nothing else. Fetch results leave the range and region alone. |
| AnalyticsDashboard.RegionSelectRoundTrip | src/components/AnalyticsDashboard.tsx:251-252 | Reading the select back after choosing an option gives the option. A stored region other than `''` survives a round trip through the select. |
| AnalyticsDashboard.DashboardKeepsInvariant | src/components/AnalyticsDashboard.tsx:54-71 | Date inputs, region inputs and fetch results keep the stored range ordered. They also keep the stored region from being `''`. |
| AnalyticsDashboard.ReachableStatesOrdered | src/components/AnalyticsDashboard.tsx:54-71 | From the initial state, with its two clock readings in order, every reachable state has start no later than end. Its "no region selected" test is the same as the region being `null`. |
| AnalyticsDashboard.AnalyticsErrorNeverCleared | src/store/slices/analyticsSlice.ts:81-88 | Once an analytics error is stored, no dashboard event removes it. |

## Left out

- Timing and scheduling are not modelled: the `setTimeout` delays, the async-thunk plumbing and the React effects that trigger fetches. A fetch is modelled as its three reducer cases. `Run`/`RunDashboard` allow any order of those cases, but nothing ties a fulfilled case to the query that started it.
- Rendering is left out: JSX, styling, Recharts, `useSelector`/`useEffect` wiring, `window.confirm` before a delete, the `alert` text, the loading and error views, and `console.log`.
- `src/components/Login.tsx`, `Header.tsx`, `Sidebar.tsx`, `src/App.tsx` and `UserDetails.tsx` are not part of this model. They are view glue and routing. The auth store and `PrivateRoute` are not part of this model either, because their source is not among the files modelled.
- The date inputs' `min`/`max` attributes (AnalyticsDashboard.tsx:191, :197) only constrain the browser's picker and are not modelled. The handler's own start-after-end guard is.
- Dates are modelled as integer instants, and an input that does not parse is `None`. ISO-string formatting, `split('T')` and `Date` parsing are left out.
- `toLowerCase` is modelled for ASCII letters only. Unicode case mapping is left out.
- The average is an exact rational (`real`), not an IEEE double. Counts, ids and pages are unbounded integers. JavaScript numbers could also be fractional or out of the double's exact-integer range; neither is modelled.
- UserManagement.PageButtons: it takes the page count as a `nat`, as the store always holds one. `Array.from`'s conversion of a negative or fractional length is not modelled.
- The search for `"jane"` over the seed is not proved (it gives one match). Evaluating substring search over fifteen literal records is left to the general search lemmas.
- `processRegionData` sorts a copy, so the stored `usersByRegion` is never reordered. In the model this holds by construction, because sequences are values. It is not stated as a separate lemma.
- AnalyticsDashboard.ReachableStatesOrdered: assumes the clock does not run backwards between the initial state's two readings. A clock stepped back by more than 180 days in between would give a start after the end.
