# Stock dashboard core, modelled in Dafny

The dashboard reads two PostgreSQL tables, `products` and `scraping_sessions`,
through `DatabaseManager` (database.py) and turns what it reads into charts,
a table and two status cards (app.py). This project models the logic
between those two ends:

- the **session resolver** of `get_latest_products`. It picks the latest
  completed session (`status ILIKE 'completed'`, `ORDER BY session_start DESC`,
  NULLs first) and returns every product processed inside that session's
  inclusive window.
- the **session-bucketed stock history** of `get_stock_history`. This is the
  SQL join of products to completed sessions, the per-(session, category)
  counts, `json_object_agg` and `SUM`, the inner join back to sessions and the
  ordering by start.
- `get_latest_scraping_session`.
- the **exception fallbacks**: any failing query gives an empty frame, `[]` or
  `{}`.
- the data side of the dashboard:
  - the stock-level series;
  - the per-category pivot;
  - the top-10-by-price table with its defaults;
  - the database status card counts;
  - the scraping status colour mapping.

Modules follow the program's structure:

| module | file | what it holds |
|---|---|---|
| `Records` | records.dfy | table rows, the store, frames, history points |
| `Text` | text.dfy | ASCII case folding, Python's string order, sorted lists |
| `Collections` | collections.dfy | count, filter and a stable sort under a total preorder |
| `Tally` | tally.dfy | `GROUP BY category`, the aggregated mapping and its sum |
| `Database` | database.dfy | the three queries of database.py |
| `Dashboard` | dashboard.dfy | the renderers' data in app.py |

How the source's behaviour is represented:

- **Timestamps** are integers on one clock.
- **Nullable columns** are `Option`s.
- **The store** is a `Store`, either `Up(snapshot)` or `Down`. `Down` stands
  for every path that reaches an `except` branch, such as a lost connection
  or a failed query.
- **NULL ordering.** PostgreSQL's default treats NULL as larger than every
  value. The predicate `Database.AtMost` states this once, so `DESC` puts
  NULLs first and `ASC` puts them last.
- **`ILIKE 'completed'`** has no wildcard, so it is case-insensitive equality.
  `.lower()` is modelled the same way.
- **Stock-history rows** are decoded maps. `category_counts` is a
  `map<string, nat>`.

Two consequences of the history query's SQL that the model keeps:

- **Sessions with no qualifying rows.** A completed session with no in-stock,
  categorised product in its window yields no history point, because the
  final join is an inner join (database.py:121-122).
- **Products with a NULL category.** In-stock products with a NULL category
  are excluded from `in_stock`, because `category IS NOT NULL` drops them
  before `SUM` (database.py:103).

## Model

| member | source | states |
|---|---|---|
| Database.LatestCompleted | database.py:51-63 | None exactly when no session's lowercased status is "completed". Otherwise the result is a completed session of the table that no completed session outranks under `session_start DESC`, where a NULL start ranks first. |
| Database.LatestWindow | database.py:58-71 | Bounds come only from the latest completed session's own start and end. None (the empty result) when no session is completed or the chosen session lacks a bound. |
| Database.LatestProducts | database.py:48-85 | No usable window gives the empty frame. Otherwise the frame carries the product columns and holds each product row exactly as often as the table does when the row lies in the window, and never otherwise. |
| Database.LatestWindowIsInclusive | database.py:73-80 | A table row is among the latest products iff it has a timestamp with start <= timestamp <= end. Both bounds are inclusive, and a NULL timestamp never matches. |
| Database.NullStartHidesLatestProducts | database.py:55-71 | One completed session with a NULL start wins the `DESC` pick, so the latest products are empty whatever the other sessions hold. |
| Database.HistoryRows | database.py:115-124 | At most one point per session row. Every point has a positive total equal to the sum of its positive category counts. |
| Database.StockHistory | database.py:87-135 | A failing store gives `[]`. Otherwise the points are ordered by session start ascending with NULLs last, there are no more points than sessions, and every point is well formed. |
| Database.StockHistoryMatchesSessions | database.py:92-126 | With unique session ids, the history is a reordering of one point per completed session that has an in-stock, categorised product in its window. Each category count is the number of such products of that category; the total is their number; every point has a date. |
| Database.LatestScrapingSession | database.py:137-155 | A failing store or an empty table gives None. Otherwise the result is a session of the table whose start no other start exceeds (NULL highest), whatever its status. |
| Tally.GroupCategories | database.py:93-105 | `GROUP BY category` with `COUNT`. Each category occurring in the counted rows has exactly one group, its count is its number of occurrences, every count is >= 1, and the counts add up to the number of rows. |
| Tally.ToMap | database.py:110 | `json_object_agg(category, count)` has exactly the grouped categories as keys, each mapped to its group's count. |
| Tally.SumValuesOfToMap | database.py:110-111 | `SUM(count)` over the groups equals the sum of the aggregated mapping's values. |
| Tally.TallyOfCategories | database.py:93-113 | For one session's counted rows, the mapping's keys are the categories present, each value is that category's number of rows (>= 1), and the values add up to the number of rows. |
| Text.Lower | database.py:54 | Case folding keeps the length, folds A-Z to a-z, keeps every other character, and leaves no upper-case letter. |
| Collections.Filter | database.py:76 | A `WHERE` condition keeps each row that satisfies it as often as it occurs and drops every other row. The result's length is the count of satisfying rows. |
| Collections.SortBy | database.py:125-126 | `ORDER BY` returns the same rows, as a multiset, with the order relation holding between every earlier and later row. |
| Collections.CountPermutation | app.py:197-198 | A count over rows depends only on which rows there are, not on their order. |
| Collections.CountOfFilter | app.py:198 | Counting rows that satisfy a second condition among the rows kept by a first is counting rows that satisfy both. |
| Dashboard.StockLevelChart | app.py:137-149 | "No data" iff the history is empty. Otherwise the date and in-stock series have the history's length and carry its fields point by point, in order. |
| Dashboard.SortedCategories | app.py:159-170 | `sorted(all_cats)` is strictly increasing under Python's string order and holds exactly the given categories. |
| Dashboard.CategoryStockChart | app.py:151-184 | "No data" iff no point has a non-empty category mapping. Otherwise: the history's dates; one line per category of the sorted union of keys; one value per point, the point's count for that category or 0. |
| Dashboard.PivotIsUnique | app.py:158-181 | The pivot is determined by the history: two charts that both satisfy its description are equal. |
| Dashboard.PivotStacksToTotal | app.py:171-180 | When a point's total is the sum of its category counts, its values across the category lines add up to that total. |
| Dashboard.HistoryChartsAgree | app.py:144-180 | For the history the store produces, the category lines add up at every point to the stock-level series' value. |
| Dashboard.CategoryChartEmptyIffNoHistory | app.py:153-156 | For the history the store produces, the category chart shows "no data" exactly when the history is empty, since every point has a category count. |
| Dashboard.TopByPrice | app.py:116 | `min(10, n)` rows, all from the frame. They are ordered by price descending with missing prices last, and no row left out ranks above a row kept. |
| Dashboard.TopProductsTable | app.py:108-135 | "No data available" iff the frame is empty. "Price data not available" iff it is non-empty without a price column. Otherwise `min(10, n)` rows in price order, each showing its product with a link when there is a URL, "Unknown" for a missing category or status, and 0 for missing counts. |
| Dashboard.DatabaseStatusCard | app.py:186-209 | "No product data" iff the frame is empty. Otherwise the total is the number of rows and the in-stock count is the number of rows whose status is exactly "In Stock", never more than the total. |
| Dashboard.DatabaseCardIgnoresRowOrder | app.py:197-198 | Two frames with the same rows in any order show the same card. |
| Dashboard.DatabaseCardOfLatestProducts | app.py:197-198 | For the latest products, the card counts the table's products in the latest window and those of them that are "In Stock". It shows "no product data" iff the window holds none. |
| Dashboard.StatusColour | app.py:222-226 | Lowercased "completed" gives success, "running" primary, "failed" danger, and anything else secondary. A missing status reads "failed", so danger. A NULL status makes `.lower()` fail. |
| Dashboard.StatusColourIgnoresCase | app.py:226 | Statuses equal up to case get the same colour. |
| Dashboard.ScrapingStatusCard | app.py:211-245 | No session gives "No Session Data". The card fails iff the status is NULL, or the end is set while the start is NULL (the duration subtraction raises). Otherwise it has the status colour and an error footer exactly when the error message is non-empty. |
| Dashboard.CompletedSessionShowsSuccess | app.py:222-226 | A session the resolver would count as completed, with a start, shows the success colour. |

## Left out

- Connection plumbing (`connect`, `disconnect`, `execute_query`, rollback) and the connect/disconnect order in `update_dashboard`. This is I/O over SQLAlchemy; its failures are the `Down` store.
- `load_latest_data` and `load_stock_history` catch exceptions the modelled queries cannot raise once failures are the `Down` store, so they are the identity here.
- Figure construction, layout, the interval callback and the other charts (variant, price, category and stock-status distributions). This is UI.
- JSON decoding of string-typed `category_counts`: the model holds the decoded mapping.
- Average price on the database card, the duration string, the capitalised status title and the "Started" and product-count lines of the scraping card. These are floating-point or datetime formatting, and none decides which card is shown.
- The price cell's `₪{:.2f}` formatting: the row keeps the price value.
- `update_dashboard` answers an empty frame with "no data" for every chart without calling the renderers. That sequencing is not modelled; each renderer is modelled on its own input.
- A frame that has rows but lacks a column a renderer reads makes pandas raise `KeyError`. The table raises it for a missing title, url, category, stock_status, variant_count or image_count column (app.py:122-127). The database card raises it for a missing stock_status or price column (app.py:198-199). The model does not return that failure: the table and card contracts describe frames with every product column or with none, which are the only kinds `LatestProducts` builds.
- Case folding is ASCII only. PostgreSQL's `ILIKE` and Python's `.lower()` also fold non-ASCII letters.
- `COUNT(p.id)` is taken as counting every joined row, because `id` is the products table's key and never NULL.
- config.py (environment defaults) and test_connection.py (a live-database script) are not part of this model.
- Database.LatestProducts: states the rows as a multiset only, because the query has no `ORDER BY` and PostgreSQL promises no row order.
- Database.StockHistory: does not state the order of points with equal session starts, which PostgreSQL leaves unspecified.
- Database.StockHistoryMatchesSessions: assumes unique session ids (the table's primary key). With duplicate ids, `GROUP BY ss.id` merges their rows. `StockHistory` itself models that merge.
- Dashboard.TopByPrice: does not state the order among equal prices. pandas' default sort is not stable, while the model's sort is.
