# Inventory console: a verified model

This project models the core of a small inventory console in Dafny. The console has a FastAPI server over a products table and an activity log, and a React client. The model covers two layers.

- **The client's list screens.**
  - The activity-log screen (`Logs.jsx`):
    - an id-to-username index;
    - four conjunctive filters;
    - newest-first ordering;
    - twelve entries per page;
    - a CSV export of the whole filtered list.
  - The admin user screen (`AdminUsers.jsx`):
    - a search;
    - ten users per page;
    - an edit draft that becomes an update body;
    - a two-step delete confirmation.
  - Each screen's state is a class (`LogsView.LogsPage`, `AdminUsersView.AdminUsersPage`) whose methods are the event handlers.
  - Filtering, ordering, paging and CSV are functions.
  - Request outcomes are values that the handlers receive.
- **The server's inventory rules.**
  - The product endpoints (`routers/products.py`) are a class `Products.Inventory`. It holds the table, the log and the next keys.
    - The listings are functions.
    - The handlers are methods that state their 422/404/403/400 order and the table and log they leave behind.
  - The dashboard counts (`routers/stats.py`).
  - The request-body constraints (`app/schemas.py`).

Files:
- `common.dfy`: order-preserving filtering and counting, and the JavaScript string operations the screens use (`trim`, `toLowerCase`, `includes`, `String(n)`).
- `sorting.dfy`: a stable insertion sort under a total preorder, and the string order.
- `paging.dfy`: the paginator both screens share.
- `csv.dfy`: the export's quoting, and a reader that inverts it.
- `records.dfy`: the fetched records and the request outcomes.
- `logs.dfy`, `admin_users.dfy`: the two screens.
- `schemas.dfy`, `products.dfy`, `stats.dfy`: the server.

Instants are integer milliseconds. A day is 86 400 000 ms. The current instant is a parameter `now`, and the caller is the `TokenData` of a verified token.

## Model

| member | source | states |
|---|---|---|
| LogsView.DisplayAction | frontend/src/pages/Logs.jsx:6-12 | The five known action kinds map to their fixed label. Every other kind is shown as the raw action string. |
| LogsView.UserIndexLastWins | frontend/src/pages/Logs.jsx:58-62 | An id is in the username index exactly when some user has it. It maps to the username of the last user in the list with that id. |
| LogsView.BuildUserIndex | frontend/src/pages/Logs.jsx:58-62 | The `forEach`/`set` loop builds exactly that index. |
| LogsView.UsernameOr | frontend/src/pages/Logs.jsx:82 | A missing id (or an empty name) yields the fallback rather than failing. |
| LogsView.EndOfDay | frontend/src/pages/Logs.jsx:73-76 | The end bound is the last millisecond of the chosen day. |
| LogsView.Filtered | frontend/src/pages/Logs.jsx:64-97 | An entry is kept iff it meets every active criterion. The result is a sub-multiset of the fetched logs, the same multiset as the filter's result, and its timestamps never increase. |
| LogsView.FilteredLogs | frontend/src/pages/Logs.jsx:64-97 | Narrowing a copy one criterion at a time, then sorting, yields exactly `Filtered`. The input is not changed. |
| LogsView.InactiveKeepsAll | frontend/src/pages/Logs.jsx:67-79 | With no action, blank text and no dates, nothing is excluded: the list shown is a permutation of the fetched logs. |
| LogsView.DateRangeInclusive | frontend/src/pages/Logs.jsx:69-77 | The range includes the first instant of the start day and 23:59:59.999 of the end day. It excludes the millisecond after that. |
| LogsView.SearchIgnoresQueryCase | frontend/src/pages/Logs.jsx:79-93 | The search is active only for non-blank text. It matches the lower-cased untrimmed query, so changing the query's case keeps the same entries. |
| LogsView.ExportCsv | frontend/src/pages/Logs.jsx:121-132 | The text reads back as the five-column header followed by one record per entry. The record holds the ISO time, the username or `user#<id>`, the action label, the entity and the entity id (or ""). |
| LogsView.CsvRecords | frontend/src/pages/Logs.jsx:123-129 | One record per entry, in order. |
| LogsView.LogsPage.constructor | frontend/src/pages/Logs.jsx:15-24 | The screen starts loading, with no data, no filters and page 1. |
| LogsView.LogsPage.PageItems | frontend/src/pages/Logs.jsx:99-102 | At most twelve entries are shown, and some are shown whenever the filtered list has any. |
| LogsView.LogsPage.Export | frontend/src/pages/Logs.jsx:121-132 | The export covers the whole filtered list, not the page shown. |
| LogsView.LogsPage.FetchAll | frontend/src/pages/Logs.jsx:29-52 | Both collections are replaced only when both arrive (an absent body becomes empty). Otherwise the failing request's message is shown and the data is kept. Loading ends, and the filters and page are kept. |
| LogsView.LogsPage.SetActionFilter | frontend/src/pages/Logs.jsx:174 | Sets the action criterion only, and goes back to page 1. |
| LogsView.LogsPage.SetStartDate | frontend/src/pages/Logs.jsx:188 | Sets the start criterion only, and goes back to page 1. |
| LogsView.LogsPage.SetEndDate | frontend/src/pages/Logs.jsx:194 | Sets the end criterion only, and goes back to page 1. |
| LogsView.LogsPage.SetTextFilter | frontend/src/pages/Logs.jsx:201 | Sets the search text only, and goes back to page 1. |
| LogsView.LogsPage.ResetFilters | frontend/src/pages/Logs.jsx:113-119 | Clears all four criteria and goes back to page 1. The list shown is then every fetched entry. |
| LogsView.LogsPage.PrevPage | frontend/src/pages/Logs.jsx:256-257 | Enabled past the first page shown, it steps back from the stored page, as written: the page shown is then that of `PrevAsWritten(page)`. While the stored page is within the page count, that is the page before the one shown. |
| LogsView.LogsPage.NextPage | frontend/src/pages/Logs.jsx:263-264 | Enabled before the last page, it stores exactly the next page; when disabled the stored page is unchanged. The page shown advances by one, never past the last page. |
| Paging.TotalPages | frontend/src/pages/Logs.jsx:99 | `max(1, ceil(n / size))`: at least one page, enough pages for all items, and no more than needed. |
| Paging.CurrentPage | frontend/src/pages/Logs.jsx:100 | `min(page, totalPages)`: within 1..totalPages. It equals the stored page unless that is past the end. |
| Paging.Slice | frontend/src/pages/Logs.jsx:102 | `slice` clamps both bounds to the length, and an empty range gives nothing. |
| Paging.PageItems | frontend/src/pages/AdminUsers.jsx:59-60 | A page holds at most `size` items. |
| Paging.VisibleItems | frontend/src/pages/AdminUsers.jsx:57-60 | The clamped page has at most `size` items, and is non-empty whenever the list is. |
| Paging.PagesArePrefix | frontend/src/pages/Logs.jsx:101-102 | Pages 1 to k, concatenated, are the first `k * size` items. |
| Paging.PagesCoverList | frontend/src/pages/Logs.jsx:99-102 | Concatenating pages 1 to totalPages gives back the list exactly. |
| Paging.Next | frontend/src/pages/AdminUsers.jsx:211 | `min(totalPages, p + 1)`: stays within 1..totalPages, is `p + 1` when `p` is before the last page, and advances the page shown by one unless it is already the last. |
| Paging.PrevAsWritten | frontend/src/pages/AdminUsers.jsx:204 | `max(1, page - 1)`: the page before the stored one, and 1 from page 1. |
| Paging.PrevAsWrittenStalls | frontend/src/pages/AdminUsers.jsx:204 | Whenever the stored page is past a page count of at least two, "previous" is enabled but the page shown does not change. |
| Paging.Prev | frontend/src/pages/Logs.jsx:257 | The corrected step: stays within 1..totalPages and always shows the page before the one shown (or page 1). |
| Csv.ReadQuotedEscape | frontend/src/pages/Logs.jsx:131 | Doubling every `"` and closing the quote reads back as the original cell. |
| Csv.ReadFieldQuote | frontend/src/pages/Logs.jsx:131 | A quoted cell reads back as itself. |
| Csv.ReadRowEncodeRow | frontend/src/pages/Logs.jsx:131 | A comma-joined record reads back as its cells. |
| Csv.ParseEncode | frontend/src/pages/Logs.jsx:130-132 | Records joined by line breaks read back as the same records. |
| Sorting.SortBySorted | frontend/src/pages/Logs.jsx:95 | The sort orders its result under any total preorder; `SortBy` itself keeps the multiset. |
| Records.DetailOr | frontend/src/pages/AdminUsers.jsx:92 | A non-empty detail is shown, otherwise the fallback text. |
| Records.LoadErrorMessage | frontend/src/pages/AdminUsers.jsx:32-36 | Status 403 gives the fixed admin-only text. Otherwise the detail when non-empty, else the error's own message. |
| Common.TrimKeepsMiddle | frontend/src/pages/AdminUsers.jsx:84 | `trim()` keeps a contiguous part of the string and cuts off only white space before and after it. |
| Common.TrimEmptyIffBlank | frontend/src/pages/AdminUsers.jsx:47 | `s.trim()` is empty exactly when every character is white space. |
| Common.LowerKeepsBlank | frontend/src/pages/AdminUsers.jsx:47-48 | Lower-casing keeps a blank query blank and a non-blank one non-blank. |
| AdminUsersView.SearchUsers | frontend/src/pages/AdminUsers.jsx:46-55 | A blank search returns the users unchanged. Otherwise it returns exactly the users, in order, whose lower-cased username, e-mail or role (missing role: "") contains the lower-cased untrimmed query. |
| AdminUsersView.SearchTestsTrim | frontend/src/pages/AdminUsers.jsx:46-48 | The memo's `search.trim()` test: an empty trim returns the users unchanged, any other query filters them by the lower-cased query. |
| AdminUsersView.SearchIgnoresQueryCase | frontend/src/pages/AdminUsers.jsx:48-53 | The query's case does not change the result. |
| AdminUsersView.QueryIsNotTrimmed | frontend/src/pages/AdminUsers.jsx:47-48 | A non-blank query that starts with white space finds no user whose username, e-mail and role hold no white space (so " ali" does not find "ali"). |
| AdminUsersView.RoleOrUser | frontend/src/pages/AdminUsers.jsx:68 | A missing or empty role becomes "user"; any other role is kept. |
| AdminUsersView.EditDraft | frontend/src/pages/AdminUsers.jsx:229-261 | Editing one field of the form changes that field of the draft only. |
| AdminUsersView.UpdateBodyOf | frontend/src/pages/AdminUsers.jsx:79-84 | Username, e-mail and role are always sent. A password is sent iff the draft's is not blank, and then it is exactly the draft's password trimmed. |
| AdminUsersView.FreshDraftKeepsPassword | frontend/src/pages/AdminUsers.jsx:67-69 | A draft just opened sends no password. |
| AdminUsersView.AdminUsersPage.constructor | frontend/src/pages/AdminUsers.jsx:7-19 | Starts loading, with page 1, no draft and no confirmation. |
| AdminUsersView.AdminUsersPage.PageItems | frontend/src/pages/AdminUsers.jsx:57-60 | At most ten users are shown, and some whenever the search keeps any. |
| AdminUsersView.AdminUsersPage.FetchUsers | frontend/src/pages/AdminUsers.jsx:23-40 | On success the list is replaced by the body, or emptied. On failure it is kept and the message is shown. Loading ends either way. |
| AdminUsersView.AdminUsersPage.SetSearch | frontend/src/pages/AdminUsers.jsx:129 | Sets the search and goes back to page 1. |
| AdminUsersView.AdminUsersPage.PrevPage | frontend/src/pages/AdminUsers.jsx:203-204 | Enabled past the first page shown, it steps back from the stored page, as written: the page shown is then that of `PrevAsWritten(page)`. While the stored page is within the page count, that is the page before the one shown. |
| AdminUsersView.AdminUsersPage.NextPage | frontend/src/pages/AdminUsers.jsx:210-211 | Enabled before the last page, it stores exactly the next page; when disabled the stored page is unchanged. The page shown advances by one, never past the last page. |
| AdminUsersView.AdminUsersPage.OpenEdit | frontend/src/pages/AdminUsers.jsx:67-70 | The draft copies id, username and e-mail, takes the role or "user", gets an empty password, and opens. |
| AdminUsersView.AdminUsersPage.CloseEdit | frontend/src/pages/AdminUsers.jsx:72-75 | The form closes and the draft becomes the empty one with role "user". |
| AdminUsersView.AdminUsersPage.EditField | frontend/src/pages/AdminUsers.jsx:229-261 | One field of the draft changes. |
| AdminUsersView.AdminUsersPage.SaveUser | frontend/src/pages/AdminUsers.jsx:77-94 | Sends the draft's body to the draft's id. On success it refetches and closes the draft. On failure it alerts the detail or the fixed text, and nothing changes. |
| AdminUsersView.AdminUsersPage.AskDelete | frontend/src/pages/AdminUsers.jsx:96-99 | Records the target and opens the confirmation. |
| AdminUsersView.AdminUsersPage.CancelDelete | frontend/src/pages/AdminUsers.jsx:290 | "Hayır" closes the confirmation and keeps the target. |
| AdminUsersView.AdminUsersPage.DoDelete | frontend/src/pages/AdminUsers.jsx:101-112 | On success it refetches, closes the confirmation and clears the target. On failure, or with no target, it alerts and changes nothing. |
| Schemas.StringViolations | app/schemas.py:7-8 | A required string field is accepted iff it is present and its length is within the bounds. |
| Schemas.NonNegativeViolations | app/schemas.py:61 | A required integer field is accepted iff it is present and at least 0. |
| Schemas.CredentialViolations | app/schemas.py:13-14 | No violation iff the username has 3 to 50 characters and the password at least 6. |
| Schemas.ParseUserBase | app/schemas.py:5-9 | Accepted iff e-mail, username and password are present and the credentials are within bounds. The fields are kept, and an omitted role becomes "user". |
| Schemas.UserBaseRoundTrip | app/schemas.py:5-9 | Sending every field of a valid user gives it back. |
| Schemas.ParseUserRequest | app/schemas.py:11-14 | Accepted iff every field is present, the username has 3 to 50 characters and the password at least 6. |
| Schemas.ParseUserLogin | app/schemas.py:16-19 | The same username and password bounds. |
| Schemas.LoginAcceptsRegisteredCredentials | app/schemas.py:13-19 | Registration and login accept the same name and password. |
| Schemas.ParseProduct | app/schemas.py:35-43 | Accepted iff the name has 1 to 100 characters, the description is absent, null or at most 500, and the quantity is at least 0. |
| Schemas.ProductRoundTrip | app/schemas.py:35-43 | A valid product body parses back to itself. |
| Schemas.ParseStockChange | app/schemas.py:60-61 | Accepted iff the amount is present and at least 0. |
| Schemas.TokenDataOf | app/schemas.py:69-71 | Both token fields are optional and default to none. |
| Products.IndexOf | routers/products.py:100 | Finds the row with the id, or reports that none has it. |
| Products.RemoveOnlyThat | routers/products.py:181 | With unique ids, removing a row removes exactly the product with its id. |
| Products.TableOkRemove | routers/products.py:181 | Removing a row keeps ids increasing and quantities non-negative. |
| Products.SortColumn | routers/products.py:39-47 | The six known names choose their column. Any other name, or none, sorts by creation time. |
| Products.AscendingCases | routers/products.py:48 | A direction sorts ascending exactly when it is a capitalisation of "asc". A missing direction sorts descending. |
| Products.OrderLeIsPreorder | routers/products.py:48 | Both directions of every column are total preorders. |
| Products.Ordered | routers/products.py:48 | The result is a permutation of the matches, sorted by the requested column and direction. |
| Products.NormalPage | routers/products.py:24-25 | A page below 1 becomes 1. |
| Products.NormalPageSize | routers/products.py:26-27 | A page size outside 1..100 becomes 10. |
| Products.NarrowQuery | routers/products.py:29-35 | The owner, search and category stages together keep exactly the listed products. |
| Products.DistinctCategories | routers/products.py:56-59 | Each non-null category present appears exactly once. |
| Products.SortedCategories | routers/products.py:59-60 | The result is sorted, and holds each non-empty category present exactly once. |
| Products.CategoriesStrictlyIncrease | routers/products.py:59-60 | The category list strictly increases. |
| Products.DumpedFields | routers/products.py:126 | `model_dump(exclude_unset=True)`: name, then the description only if sent, then quantity, each with its sent value. |
| Products.UpdatedFields | routers/products.py:126-127 | The `setattr` loop replaces name and quantity, replaces the description only if it was sent, and changes nothing else. |
| Products.LogRow | routers/products.py:113 | A log row records the acting user, the action, entity "product" and the product id. |
| Products.Inventory.constructor | routers/products.py:9 | Starts with an empty table and an empty log. |
| Products.Inventory.Listing | routers/products.py:70-78 | A product is listed iff the caller sees it, its name contains an active search, and its category equals an active category. |
| Products.Inventory.GetProducts | routers/products.py:63-82 | Returns the listing, or 404 "No products found" exactly when it is empty. |
| Products.Inventory.GetLowStock | routers/products.py:85-94 | The visible products with quantity at most the threshold. |
| Products.Inventory.GetCategories | routers/products.py:54-60 | The sorted, distinct, non-empty categories of the products the caller sees. |
| Products.Inventory.GetProductById | routers/products.py:98-103 | The product with the id, or 404 exactly when there is none. |
| Products.Inventory.GetProductsPaged | routers/products.py:13-51 | The page and size are normalised. `total` counts every match. The items are that page of the ordered matches. |
| Products.Inventory.CreateProduct | routers/products.py:106-115 | A valid body becomes a row owned by the caller, with the next id, plus one "create_product" log row. An invalid body is 422 and changes nothing. |
| Products.Inventory.UpdateProduct | routers/products.py:118-134 | The order is 422, then 404, then 403 (neither owner nor admin), and errors change nothing. Otherwise the sent fields are assigned, that row alone changes and one "update_product" row is logged. |
| Products.Inventory.IncreaseStock | routers/products.py:137-151 | 422, 404 and 403 as for updates. Otherwise the quantity grows by exactly the amount, and one "increase_stock" row is logged. |
| Products.Inventory.DecreaseStock | routers/products.py:154-170 | 422, 404 and 403, then 400 when the stock is below the amount, and errors change nothing. Otherwise the quantity drops by exactly the amount and stays non-negative, and one row is logged. |
| Products.Inventory.DeleteProduct | routers/products.py:173-184 | 404, then 403 with the delete message. Otherwise exactly that product leaves the table and one "delete_product" row is logged. |
| Products.StockNeverNegative | routers/products.py:161-164 | In every valid state no quantity is negative. |
| Products.UnpagedAgreesWithPages | routers/products.py:37-50 | Reading every page of the paged listing, in any order and page size, gives the products of the unpaged listing (as a multiset), and the unpaged listing fails with 404 exactly when those pages are empty. |
| Products.RoleRestriction | routers/products.py:30-31 | A caller whose role is "user" lists only their own products. Any other caller, with no active search or category, lists the whole table. |
| Products.PagesCoverMatches | routers/products.py:50 | A page holds at most 100 products. The pages in order give every match once. |
| Stats.DayStart | routers/stats.py:32 | The first instant of the UTC day holding `t`. |
| Stats.Count | routers/stats.py:21 | A count never exceeds the table size. |
| Stats.MineAtMostAll | routers/stats.py:21-37 | Adding the owner filter never raises a count. |
| Stats.GetStats | routers/stats.py:14-43 | `all` counts every product, those with quantity strictly below the threshold, and those created since today's start. Each `mine` is the same count over the caller's own products, at most its `all`, and the threshold is echoed back. |
| Stats.MineCountsOwnRows | routers/stats.py:22-37 | Each of the caller's counts equals the matching count for everyone taken over the products the caller owns. |
| Stats.LowStockCountVsListing | routers/stats.py:25 | For a caller who sees everything, the dashboard's low count at t equals the length of the low-stock listing at t - 1. |
| Stats.AtThresholdListedNotCounted | routers/stats.py:25 | A visible product whose stock equals the threshold is on the low-stock listing but not among the dashboard's low products; for a caller who sees everything the dashboard's low count is then strictly below the listing's length. |
| Stats.NormalDays | routers/stats.py:51-52 | `days` outside 1..30 becomes 7. |
| Stats.CountMineIn | routers/stats.py:65-69 | A day's own count is at most its total. |
| Stats.CountInIsFilterCount | routers/stats.py:60-63 | A day's count is the count of the rows in the half-open window `[start, start + 1 day)`. |
| Stats.DailySeries | routers/stats.py:56-75 | The series has one entry per day. |
| Stats.SeriesAt | routers/stats.py:57 | Entry k is the day that begins n - 1 - k days before today. |
| Stats.DailyAddedStats | routers/stats.py:45-77 | The downward loop yields exactly the normalised number of days, oldest first, each counted over its window. |
| Stats.SeriesDays | routers/stats.py:56-58 | The entries are one day apart, oldest first, and the last one is today. |
| Stats.SeriesMineAtMostAll | routers/stats.py:60-69 | `count_mine <= count_all` on every day. |
| Stats.WindowsDisjoint | routers/stats.py:57-63 | A product falls in at most one day's window. |
| Stats.CountMineInIsFilterCount | routers/stats.py:65-69 | A day's own count is the count of the caller's rows in the window `[start, start + 1 day)`. |
| Stats.CountSplit | routers/stats.py:61-62 | Counts over adjacent windows add up to the count over their union. |
| Stats.SeriesSum | routers/stats.py:56-63 | The first m days together count every product created in those m days once. |
| Stats.SeriesCountsEachProductOnce | routers/stats.py:56-63 | The series' total is the count of products created from the first day's start up to the end of today. |

## Left out

- Transport. Requests, bearer headers, the stored token and `Promise.all` concurrency are not modelled: each screen handler receives the outcome of its request(s) as a value. When both of `fetchAll`'s requests fail, the model shows the log request's error; the browser shows whichever fails first.
- The browser download: the Blob, the object URL and the date-stamped file name. The export is modelled up to its text.
- Date parsing and time zones. Filter bounds arrive as integer instants (the start of the chosen day). The end of day is computed as in UTC, whereas `setHours` works in the browser's local zone. `toISOString` is a parameter `iso`, and the daily series gives each day's first instant, not its ISO date string.
- Stats.DailyAddedStats: takes one `now` for the whole loop, whereas the handler reads the clock on each pass (a run spanning midnight could shift later days).
- Common.Lower: lower-cases the ASCII letters, the Latin-1 letters À to Þ (Ç, Ö and Ü among them) and the Turkish Ğ and Ş. Other letters keep their case, and İ, which lower-cases to two characters, is kept as it is. So a text holding "İ" is not found by the query "i", as it would be on the screen, and `SearchIgnoresQueryCase` holds only for case changes among the covered letters. The "asc" test in `Products.Ascending` is exact.
- Products.Listed: models SQL `contains` as a case-sensitive substring test. `LIKE` wildcards in the search text (`%`, `_`) and the database's collation are not modelled.
- Products.Ordered: the order among products with equal keys is the table order; the database leaves it unspecified. A null category sorts first when ascending. Names and categories are compared in code-point order; the database's collation (chosen by `DATABASE_URL`) may order them differently.
- Query parameter defaults: the handlers take every query parameter as an explicit argument. A request that omits one gets the source's default, named as constants: `Products.DefaultLowStockThreshold` (5, routers/products.py:85), `Products.DefaultPage` and `Products.DefaultPageSize` (1 and 10, routers/products.py:17-18), and `Stats.DefaultThreshold` (10, routers/stats.py:17).
- Schemas.ParseUserBase: e-mail syntax (`EmailStr`) is not checked, and pydantic's coercion of types (numbers sent as strings and so on) is not modelled.
- Products.Inventory.CreateProduct: the description column is `String(255)` in `app/models.py` while the body allows 500 characters. The database's reaction to a longer description is not modelled.
- `category` is read and sorted by `routers/products.py`, but `app/models.py` declares no such column, and no body can set it. The model follows the router: a category that is optional and never written.
- `created_at`/`updated_at` come from the database's clock and the ORM's `onupdate`. Here a create stamps both with `now`, and an update or stock change stamps `updatedAt` with `now`.
- Authentication. `get_current_user` (token decoding and the 401 for a bad token) is not part of this model. The handlers require a caller with a user id.
- `schemas.StatsResponse`, `schemas.DailyStat` and `schemas.PagedProductsResponse` are named by the routers but are not defined in `app/schemas.py`. The reply shapes follow the handlers' return values.
- LogsView.DisplayAction: the screen looks action names up in a plain object, so a name that is an `Object.prototype` member ("toString", "constructor") would give a function instead of a label there. The model falls back to the raw name for every unknown kind. The server writes only the five known kinds.
- Presentational code: markup, the colour pickers `badge`/`roleBadge`, and the loading and error placeholders.
- Integers are unbounded. Quantities and ids in the database are 32-bit, and overflow is not modelled.

## Findings

| source | as written | input that shows it | evidently intended | confidence | as-written member | corrected member |
|---|---|---|---|---|---|---|
| frontend/src/pages/AdminUsers.jsx:204 | "Previous" sets `page` to `max(1, page - 1)` from the stored page, although the page shown is `min(page, totalPages)` | Page 3 stored, and a refetch leaves 13 users (2 pages). Page 2 is shown and "Previous" is enabled, yet pressing it stores 2 and page 2 is shown again. | Step back from the page shown: `max(1, currentPage - 1)` | medium, not executed | Paging.PrevAsWrittenStalls | Paging.Prev |
| frontend/src/pages/Logs.jsx:257 | The same update on the log screen | Page 3 stored and a refresh leaves 13 to 24 entries (2 pages): page 2 stays shown after "Previous". | Step back from the page shown | medium, not executed | Paging.PrevAsWrittenStalls | Paging.Prev |

The two screen classes keep the step as written (`Paging.PrevAsWritten`), so their `PrevPage` contracts promise the page before the one shown only while the stored page is within the page count. `Paging.Prev` is the corrected step, with the intended property proved about it.
