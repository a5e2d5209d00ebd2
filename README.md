# Olist database project: a Dafny model of its deterministic core

The Olist e-commerce database project loads the public Olist CSV files
into MySQL or PostgreSQL, serves a small Flask API over the tables, and
ships a few setup scripts, a category-matching report and a JavaScript
frontend. The heavy work (joins, grouping, ordering) happens in SQL. This
model covers the deterministic code around those SQL calls:

- **ETL loaders** (`db/etl/`). Each loader turns a CSV record (a map from
  column name to text) into a typed tuple. It trims text, turns blanks into
  None, coerces numbers leniently and skips rows without a key. It then
  cuts the rows into batches of 5000 for `executemany` and prints the
  total. `load_products` resolves category ids through an in-memory map.
  `load_geo_zip` keeps the first row per zip through a mutable `seen` set;
  it is modelled with the generator, the batcher and the writer
  interleaved as they run. `etl_utils` adds the env-flag parser, the
  vendor-dependent INSERT builder and the batch generators.
- **Flask request validators and response shaping** (`app/routes/`,
  `app/blueprints/`). These are the range and presence checks with their
  exact order, messages and status codes (400, 422, 500, 503). They also
  cover the review-stats total and weighted mean, the placeholder product
  list, `_query_all`'s row-to-dict shaping, and the incremental SQL and
  parameter builder of `last_orders`.
- **Configuration and scripts**: `app/config.py`'s vendor and `DB_CFG`
  defaulting; the DDL statement splitter and script loop of
  `tools/setup_mysql.py`; the password search and `.env` rewrite of
  `scripts/setup_mysql.py`; and the encoding fallback, column and
  category-name normalisers and matched/unmatched summary of
  `reports/categories_match_report.py`.
- **Frontend**: `handleFetchError` in `frontend/js/config.js` and the
  validation chain of `loadReviewStats` in `frontend/js/reviews.js`.

The database, files, the network, user input and Unicode normalisation
are parameters. A query is a function from its arguments to rows or an
error. `executemany` is the sequence of batches it receives. A CSV file is
its sequence of records. Whether a statement fails is a function of
everything executed before it. The password prompt is a function from the
attempt number to the typed text. NFKD decomposition is a function on
strings. Python's `str.strip`, `str.split`, `int()` and `float()`
(module `PyText`) and JavaScript's `parseInt` (in `JsReviews`) are
defined in the model.

Modules follow the source files: `EtlUtils`, `EtlCommon` (the shared
`to_int`, `to_float`, `gen_rows` and writer loop of the loaders), one
`Load*` module per loader, `Route*` and `Bp*` per route file,
`OrdersService`, `AppConfig`, `CategoriesMatchReport`, `ToolsSetupMysql`,
`ScriptsSetupMysql`, `JsConfig` and `JsReviews`. `Wrappers`, `PyText`,
`Sql` and `Http` are shared helpers.

## Model

| member | source | states |
|---|---|---|
| PyText.Strip | db/etl/load_customers.py:37 | str.strip(): a stripped slice of the text with only whitespace removed at either end |
| PyText.StripEmptyIffAllSpace | db/etl/load_customers.py:37-39 | a text strips to "" exactly when it is all whitespace |
| PyText.StripOfStripped | db/etl/load_customers.py:37 | stripping text without surrounding whitespace changes nothing |
| PyText.StripIdempotent | db/etl/load_customers.py:37 | stripping twice is stripping once |
| PyText.StripPadded | db/etl/etl_utils.py:11 | stripping text padded with whitespace on both sides gives back the text |
| PyText.Lower | db/etl/etl_utils.py:11 | str.lower() on ASCII letters: same length, each capital replaced by its lowercase letter |
| PyText.Replace | reports/categories_match_report.py:22 | str.replace of one character: same length, none of the replaced character left, everything else in place |
| PyText.Split | tools/setup_mysql.py:70 | str.split(d): at least one piece, no piece holding d |
| PyText.JoinSplit | scripts/setup_mysql.py:91-98 | joining the pieces of a split gives back the text |
| PyText.SplitJoin | scripts/setup_mysql.py:91-98 | splitting a join of separator-free pieces gives back the pieces |
| PyText.SplitNoSeparator | scripts/setup_mysql.py:91 | text without the separator splits into itself |
| PyText.SplitAtFirst | scripts/setup_mysql.py:91 | a split cuts at the first separator |
| PyText.SplitSpace | reports/categories_match_report.py:40 | the pieces between whitespace characters hold no whitespace |
| PyText.Words | reports/categories_match_report.py:40 | str.split(): every word is non-empty and holds no whitespace; with WordsKeepNonSpace and WordsOfSingleSpaced, no word is dropped and none merged |
| PyText.JoinWordsSingleSpaced | reports/categories_match_report.py:40 | " ".join of such words is single spaced |
| PyText.WordsJoinChars | reports/categories_match_report.py:40 | " ".join(s.split()) invents no character: each is ' ' or comes from s |
| PyText.WordsOfWord | reports/categories_match_report.py:40 | a single word splits to itself |
| PyText.WordsKeepNonSpace | reports/categories_match_report.py:40 | " ".join(s.split()) keeps every non-whitespace character of s, so only whitespace is dropped |
| PyText.WordsAfterWord | reports/categories_match_report.py:40 | the words of a word, a space and t are that word followed by the words of t |
| PyText.WordsOfSingleSpaced | reports/categories_match_report.py:40 | single-spaced text is its own " ".join(s.split()) |
| PyText.ParseInt | db/etl/load_customers.py:32 | int(): a value exactly when the stripped text is an optional sign and digits; blank text raises |
| PyText.ShowNat | app/routes/reviews.py:21 | str(n) of a natural number is a non-empty run of digits |
| PyText.ParseShow | app/routes/reviews.py:21 | int(str(n)) == n for every integer |
| PyText.ShowIntInjective | app/routes/products.py:15 | different numbers have different decimal text |
| PyText.ParseFloat | db/etl/load_geo_zip.py:48-49 | float(): blank text raises |
| PyText.FloatExtendsInt | db/etl/load_order_items.py:32-37 | float() agrees with int() on every integer literal |
| PyText.ParseFloatDecimal | db/etl/load_geo_zip.py:48-49 | a numeral with an optional minus, digits, a point and digits reads as its signed decimal value, as a coordinate does |
| EtlUtils.GetEnvBool | db/etl/etl_utils.py:9-16 | true for "1", "true", "yes" and "on" after strip and lower; every other value, including an unset variable, gives the default |
| EtlUtils.EnvFlagIgnoresCaseAndSpace | db/etl/etl_utils.py:11-13 | any spelling of a true word in any case, padded with any whitespace, reads as true whatever the default |
| EtlUtils.GetInsertIgnoreSql | db/etl/etl_utils.py:19-41 | mysql gets INSERT IGNORE and no conflict clause; any other vendor gets a plain INSERT, with ON CONFLICT (c) DO NOTHING exactly when a conflict column is given |
| EtlUtils.InsertSqlPlaceholders | db/etl/etl_utils.py:35-41 | for every vendor the statement holds exactly the placeholders of the caller's list, so the same tuples fit either dialect |
| EtlUtils.BatchesCorrect | db/etl/etl_utils.py:75-86 | the batches, concatenated, are the rows; none is empty, none is longer than the batch size, all but the last are full |
| EtlUtils.WellBatchedUnique | db/etl/etl_utils.py:75-86 | any split with those properties is the one the generator yields |
| EtlUtils.BatchesTotal | db/etl/etl_utils.py:75-86 | the batches hold as many rows as were given |
| EtlUtils.IterBatches | db/etl/etl_utils.py:75-86 | the generator's batches in order: lossless and well batched, with a batch size below 1 acting as 1 |
| EtlUtils.EffectiveSize | db/etl/etl_utils.py:82 | a batch size below 1 flushes after every row; any other size is used as is |
| EtlUtils.ReadCsvInBatches | db/etl/etl_utils.py:44-59 | the reader's records, in order, in well-formed batches |
| EtlUtils.DryInsertPreview | db/etl/etl_utils.py:62-72 | the table, the caller's total, and at most the first three rows numbered from 1 |
| EtlCommon.Key | db/etl/load_customers.py:37 | the key text is stripped and empty when the column is absent |
| EtlCommon.Cell | db/etl/load_customers.py:40 | a cell is None exactly when the stripped text is empty; otherwise it is non-empty stripped text |
| EtlCommon.CellNoneIffBlank | db/etl/load_customers.py:40 | a cell is None exactly when the column is absent or whitespace only |
| EtlCommon.CellOfStripped | db/etl/load_customers.py:42-43 | a present, already stripped value passes through unchanged |
| EtlCommon.ToInt | db/etl/load_customers.py:30-34 | None and "" give None without calling int(); otherwise a value exactly when int() accepts the text |
| EtlCommon.ToIntShow | db/etl/load_customers.py:30-34 | the decimal text of any integer converts back to that integer |
| EtlCommon.ToFloat | db/etl/load_order_items.py:35-39 | None and "" give None; any value is the one float() reads from the text |
| EtlCommon.ToFloatExtendsToInt | db/etl/load_order_items.py:30-39 | a cell to_int accepts is accepted by to_float with the same value |
| EtlCommon.FilterMapAppend | db/etl/load_customers.py:35-44 | gen_rows over two readers in turn is gen_rows over their concatenation |
| EtlCommon.FilterMapSound | db/etl/load_customers.py:35-44 | every yielded tuple comes from a record of the file, and as many are yielded as records pass |
| EtlCommon.FilterMapSkip | db/etl/load_customers.py:38-39 | a record that is skipped yields nothing |
| EtlCommon.GenRows | db/etl/load_customers.py:35-44 | the generator yields the accepted records' tuples in reader order |
| EtlCommon.WriteBatches | db/etl/load_customers.py:45-49 | executemany receives the rows in batches of 5000 and the printed total is the row count |
| EtlCommon.RunLoader | db/etl/load_customers.py:35-49 | a loader run executes the generator's rows in batches and prints their number |
| EtlCommon.InsertBatches | db/etl/load_customers.py:46-47 | executing batches never changes a row already in the table |
| EtlCommon.ExecutedInsertSkip | db/etl/load_customers.py:26-47 | executing the batches one after another is inserting all rows in order, skipping duplicate keys |
| EtlCommon.ReloadUnchanged | db/etl/load_customers.py:26-48 | a load never overwrites an existing row, and loading the same file twice leaves the table as one load does |
| Sql.InsertSkip | db/etl/load_customers.py:26 | ON CONFLICT DO NOTHING: the keys afterwards are the old keys plus the new rows' keys, existing rows keep their values, and a new key holds the first row that carries it |
| Sql.InsertSkipPresent | db/etl/load_customers.py:26 | rows whose keys are all present change nothing |
| Sql.InsertSkipIdempotent | db/etl/load_customers.py:26 | inserting the same rows twice equals inserting them once |
| Sql.InsertSkipAppend | db/etl/load_customers.py:46-47 | inserting a and then b equals inserting a + b, so batch boundaries do not matter |
| Sql.NoPercentNoPlaceholder | db/etl/etl_utils.py:36 | text without '%' contributes no placeholder |
| Sql.CountConcat | db/etl/etl_utils.py:36-41 | placeholders of concatenated text add up unless a '%' meets an 's' at the seam |
| LoadCustomers.Params | db/etl/load_customers.py:24-27 | the tuple has one value per INSERT column |
| LoadCustomers.RowOf | db/etl/load_customers.py:35-44 | a blank customer_id skips the record; otherwise the stripped id, uid, city and state cells and to_int of the zip |
| LoadCustomers.ParamsInColumnOrder | db/etl/load_customers.py:25-44 | position i of the tuple carries the i-th INSERT column's value |
| LoadCustomers.Load | db/etl/load_customers.py:23-49 | batches of the accepted rows and their count, every row with a non-empty id |
| LoadCustomers.ReloadUnchangedCustomers | db/etl/load_customers.py:26-48 | existing customers are never replaced and reloading changes nothing |
| LoadSellers.Params | db/etl/load_sellers.py:24-27 | the tuple has one value per INSERT column |
| LoadSellers.RowOf | db/etl/load_sellers.py:35-43 | a blank seller_id skips the record; otherwise the stripped id, to_int of the zip, and the city and state cells |
| LoadSellers.ParamsInColumnOrder | db/etl/load_sellers.py:25-43 | position i of the tuple carries the i-th INSERT column's value |
| LoadSellers.Load | db/etl/load_sellers.py:23-48 | batches of the accepted rows and their count, every row with a non-empty id |
| LoadSellers.ReloadUnchangedSellers | db/etl/load_sellers.py:26-47 | existing sellers are never replaced and reloading changes nothing |
| LoadOrders.Params | db/etl/load_orders.py:24-27 | the tuple has one value per INSERT column |
| LoadOrders.RowOf | db/etl/load_orders.py:30-39 | a blank order_id skips the record; every other field is its stripped cell or None |
| LoadOrders.TimestampVerbatim | db/etl/load_orders.py:37 | timestamps are not parsed: a present, stripped timestamp reaches the tuple verbatim |
| LoadOrders.ParamsInColumnOrder | db/etl/load_orders.py:25-39 | position i of the tuple carries the i-th INSERT column's value |
| LoadOrders.Load | db/etl/load_orders.py:23-44 | batches of the accepted rows and their count, every row with a non-empty id |
| LoadOrders.ReloadUnchangedOrders | db/etl/load_orders.py:26-43 | existing orders are never replaced and reloading changes nothing |
| LoadCategories.Params | db/etl/load_categories.py:27-30 | the pair has one value per INSERT column |
| LoadCategories.RowOf | db/etl/load_categories.py:33-39 | a record is kept exactly when its name cell is present; the pair is the two stripped cells |
| LoadCategories.SkippedIffBlankName | db/etl/load_categories.py:35-38 | a record is skipped exactly when the name is absent or whitespace only |
| LoadCategories.ParamsInColumnOrder | db/etl/load_categories.py:28-39 | position i of the pair carries the i-th INSERT column's value |
| LoadCategories.Load | db/etl/load_categories.py:23-45 | batches of the accepted pairs and their count, every name non-empty and stripped |
| LoadCategories.ReloadUnchangedCategories | db/etl/load_categories.py:29-44 | existing categories are never replaced and reloading changes nothing |
| LoadProducts.CategoryMap | db/etl/load_products.py:23-26 | the map's keys are exactly the truthy category names fetched |
| LoadProducts.CategoryMapLastWins | db/etl/load_products.py:26 | a name maps to the id on the last fetched row that carries it |
| LoadProducts.Params | db/etl/load_products.py:30-35 | the tuple has one value per INSERT column |
| LoadProducts.CategoryId | db/etl/load_products.py:51 | an id exactly when the name is truthy and a key of the map, and then the map's id |
| LoadProducts.RowOf | db/etl/load_products.py:45-57 | a blank product_id skips the record; otherwise the name cell, its id from the map and to_int of the five measures |
| LoadProducts.CategoryIdNeedsExactName | db/etl/load_products.py:50-51 | a category id is found only when the stripped name is a key as is, with no case folding |
| LoadProducts.ParamsInColumnOrder | db/etl/load_products.py:31-57 | position i of the tuple carries the i-th INSERT column's value |
| LoadProducts.Load | db/etl/load_products.py:29-63 | the map is built first; then batches of the accepted rows and their count |
| LoadProducts.LoadStub | db/etl/load_products.py:73-75 | the second definition does nothing |
| LoadProducts.ScriptRun | db/etl/load_products.py:66-82 | without an argument the script exits with status 1; with one, the real load runs once and the stub adds nothing |
| LoadProducts.ReloadUnchangedProducts | db/etl/load_products.py:34-62 | existing products are never replaced and reloading changes nothing |
| LoadOrderItems.Params | db/etl/load_order_items.py:24-27 | the tuple has one value per INSERT column |
| LoadOrderItems.RowOf | db/etl/load_order_items.py:40-53 | kept exactly when order_id is non-blank and to_int accepts the item number; the other fields are cells and to_float values |
| LoadOrderItems.BadItemIdDropped | db/etl/load_order_items.py:45-52 | an item number that is not an integer drops the row |
| LoadOrderItems.ParamsInColumnOrder | db/etl/load_order_items.py:25-53 | position i of the tuple carries the i-th INSERT column's value |
| LoadOrderItems.Load | db/etl/load_order_items.py:23-58 | batches of the accepted rows and their count, every row with a non-empty id |
| LoadOrderItems.ReloadUnchangedOrderItems | db/etl/load_order_items.py:26-57 | existing (order, item) rows are never replaced and reloading changes nothing |
| LoadPayments.Params | db/etl/load_payments.py:24-27 | the tuple has one value per INSERT column |
| LoadPayments.RowOf | db/etl/load_payments.py:40-51 | kept exactly when order_id is non-blank and to_int accepts payment_sequential; the other fields are a cell and to_int/to_float values |
| LoadPayments.ParamsInColumnOrder | db/etl/load_payments.py:25-51 | position i of the tuple carries the i-th INSERT column's value |
| LoadPayments.Load | db/etl/load_payments.py:23-56 | batches of the accepted rows and their count, every row with a non-empty id |
| LoadPayments.ReloadUnchangedPayments | db/etl/load_payments.py:25-55 | under INSERT IGNORE on the table's unique key, existing payments are never replaced and reloading changes nothing |
| LoadReviews.Params | db/etl/load_reviews.py:28-31 | the tuple has one value per INSERT column |
| LoadReviews.Comment | db/etl/load_reviews.py:46-48 | an absent comment stays None; a present one is stripped, and None when nothing is left |
| LoadReviews.CommentIsCell | db/etl/load_reviews.py:44-48 | the comment's None check gives the same result as the other cells' `or ''` idiom |
| LoadReviews.RowOf | db/etl/load_reviews.py:39-50 | a blank review_id skips the record; otherwise the order cell, to_int of the score, the comment and the date cell |
| LoadReviews.ParamsInColumnOrder | db/etl/load_reviews.py:29-50 | position i of the tuple carries the i-th INSERT column's value, and customer_id is not inserted |
| LoadReviews.Load | db/etl/load_reviews.py:23-75 | insert batches and their count, then the customer_id back-fill always, and the NOT NULL change exactly when no orphans remain |
| LoadReviews.ReloadUnchangedReviews | db/etl/load_reviews.py:29-54 | under INSERT IGNORE on the table's unique key, existing reviews are never replaced and reloading changes nothing |
| LoadGeoZip.Params | db/etl/load_geo_zip.py:25-52 | one value per INSERT column, the zip first |
| LoadGeoZip.ZipOf | db/etl/load_geo_zip.py:34-40 | the zip guard and int() with ValueError caught come to the same as to_int |
| LoadGeoZip.Coord | db/etl/load_geo_zip.py:48-49 | None or "" gives None; otherwise float() either reads the text or raises, and this ValueError is not caught |
| LoadGeoZip.StripIfTruthy | db/etl/load_geo_zip.py:50-51 | an absent or empty city or state gives None; any other text is stripped |
| LoadGeoZip.WhitespaceOnlyBecomesEmpty | db/etl/load_geo_zip.py:50-51 | a whitespace-only city becomes "" here, where the other loaders give None |
| LoadGeoZip.ParseRecordFields | db/etl/load_geo_zip.py:34-51 | the parsed zip is to_int's, an accepted coordinate is to_float's, and city and state are stripped only when non-empty |
| LoadGeoZip.ParseAll | db/etl/load_geo_zip.py:33 | one parse per record, in reader order |
| LoadGeoZip.StepOf | db/etl/load_geo_zip.py:34-52 | a yielded row carries the record's zip, and that zip was not seen before |
| LoadGeoZip.GenDistinct | db/etl/load_geo_zip.py:41-43 | the yielded zips are pairwise distinct and none was seen before |
| LoadGeoZip.GenZips | db/etl/load_geo_zip.py:33-52 | without a float() error, the yielded zips are exactly the records' valid zips not seen before |
| LoadGeoZip.DistinctCount | db/etl/load_geo_zip.py:41-43 | rows with distinct zips are as many as their zips |
| LoadGeoZip.GenTotal | db/etl/load_geo_zip.py:24-58 | without a float() error, the number of rows loaded is the number of distinct valid zips |
| LoadGeoZip.FirstSeenWins | db/etl/load_geo_zip.py:24-52 | each yielded row is built from the first record that carries its zip |
| LoadGeoZip.NextRow | db/etl/load_geo_zip.py:33-52 | one pass of the loop body: its continues, seen.add before the coordinates are parsed, and the two unguarded float() calls |
| LoadGeoZip.PushRow | db/etl/load_geo_zip.py:14-57 | a yielded row is appended, and a full batch goes to executemany and into the total |
| LoadGeoZip.FlushLast | db/etl/load_geo_zip.py:19-57 | once the generator is exhausted, the rows are executed in exactly the batches of 5000 |
| LoadGeoZip.AbortedWrites | db/etl/load_geo_zip.py:48-57 | when float() raises, only full batches have reached executemany and fewer than 5000 yielded rows are lost |
| LoadGeoZip.Consume | db/etl/load_geo_zip.py:33-57 | one record through the generator, the batcher and the writer: either the error leaves everything as it was, or the state matches the generator one record further |
| LoadGeoZip.Load | db/etl/load_geo_zip.py:23-58 | without an error, the batches of the generator's rows and their count; with one, no total is printed and only full batches of a prefix were written |
| Http.Arg | app/routes/customers.py:5 | absent exactly when the query string lacks the name; otherwise its value |
| Http.ArgOr | app/routes/analytics.py:40 | the argument's value, or the default when it is absent |
| Http.ArgInt | app/routes/analytics.py:40 | the integer the argument spells, or the default when it is absent or int() rejects it |
| RouteAnalytics.ZipDict | app/routes/analytics.py:28 | the record's keys are exactly the first n column names |
| RouteAnalytics.ZipDictPositions | app/routes/analytics.py:26-28 | with distinct column names, every column maps to the value at its position |
| RouteAnalytics.ZipDictAt | app/routes/analytics.py:28 | one position: no later column overwrites it |
| RouteAnalytics.QueryAll | app/routes/analytics.py:18-28 | one record per fetched row, in fetch order, zipped up to the shorter of columns and row |
| RouteAnalytics.QueryAllRecords | app/routes/analytics.py:26-28 | a full row with distinct columns gives a record with exactly those keys, each holding its value |
| RouteAnalytics.RangedQuery | app/routes/analytics.py:39-71 | 400 with the endpoint's message outside the range; otherwise 503 with the query's error, or 200 with the argument echoed and the records |
| RouteAnalytics.RevenueByCategory | app/routes/analytics.py:31-71 | 400 exactly when limit (10 by default) is outside 1..100; a 200 echoes the limit |
| RouteAnalytics.TopSellers | app/routes/analytics.py:74-115 | 400 exactly when limit (10 by default) is outside 1..100; a 200 echoes the limit |
| RouteAnalytics.ReviewVsDelivery | app/routes/analytics.py:118-163 | 400 exactly when min_reviews (50 by default) is outside 1..1000; a 200 echoes it |
| RouteAnalytics.OrderFunnel | app/routes/analytics.py:166-195 | 503 with the error when the query raises; otherwise 200, empty params and exactly the records QueryAll shapes from the fetched rows |
| RouteAnalytics.DefaultLimitAccepted | app/routes/analytics.py:40-42 | an absent or non-integer limit falls back to 10, which is accepted |
| RouteCustomers.CustomersByState | app/routes/customers.py:3-8 | 400 with the fixed message exactly when state is absent or ""; otherwise 200 echoing the text as given, with a count of 0 |
| RouteOrders.OrdersLimit | app/routes/orders/routes.py:20-27 | limit is "10" when absent; text int() rejects and a value outside 1..50 fail with their two messages; otherwise the value |
| RouteOrders.ListOrdersByCustomer | app/routes/orders/routes.py:12-34 | 422 with the limit's message on a bad limit; otherwise 200 with the service's answer for the customer and the limit |
| RouteOrders.DefaultLimitIsTen | app/routes/orders/routes.py:20-31 | without a limit argument the service is asked for 10 orders |
| RoutePayments.Validate | app/routes/payments.py:13-32 | accepted exactly when payment_type is truthy, not blank, at most 50 characters as given, and limit (20 by default) is an integer in 1..200; each of the five failures has its own message, first failure first |
| RoutePayments.DefaultLimit | app/routes/payments.py:14 | an absent limit is 20 |
| RoutePayments.PaymentsByType | app/routes/payments.py:10-73 | 400 with the validation message; 500 when the query fails; otherwise the type, the limit, the rows and row_count equal to their number |
| RoutePayments.TypeCheckedFirst | app/routes/payments.py:17-32 | a bad payment_type is reported whatever the limit |
| RouteProducts.Placeholders | app/routes/products.py:15 | n items, the k-th being placeholder k + 1 |
| RouteProducts.PlaceholderIdsAndNames | app/routes/products.py:15 | the ids run 1..n and no two items share a name |
| RouteProducts.NamesDiffer | app/routes/products.py:15 | different ids give different names |
| RouteProducts.ProductsSample | app/routes/products.py:5-16 | a missing or non-integer n gives 422 "n must be integer in [1,100]"; one outside 1..100 gives the range message; otherwise the n placeholders |
| OrdersService.LastOrdersParams | app/blueprints/orders/service.py:10-18 | one parameter per truthy date, from_date first and to_date last; none exactly when neither date is truthy |
| OrdersService.LastOrders | app/blueprints/orders/service.py:3-23 | the SQL text for the given dates, and None for execute exactly when no date is truthy, else the parameter list |
| OrdersService.OptionalFilter | app/blueprints/orders/service.py:12-18 | each filter adds one placeholder when its date is given and none otherwise |
| OrdersService.FilterPlaceholders | app/blueprints/orders/service.py:13-17 | a date filter holds exactly one placeholder |
| OrdersService.PlaceholdersMatchParams | app/blueprints/orders/service.py:5-23 | the SQL holds one placeholder per parameter, so execute always gets as many values as it asks for |
| OrdersService.EndsWithOrderAndLimit | app/blueprints/orders/service.py:20 | the query always ends with the newest-first order and LIMIT 20 |
| BpCustomers.ByState | app/blueprints/customers/routes.py:5-10 | 400 exactly when state is absent, "" or whitespace only; otherwise the service's answer for the stripped state |
| BpCustomers.ServiceGetsStrippedState | app/blueprints/customers/routes.py:8-10 | the service never sees surrounding whitespace nor an empty state |
| BpPayments.Mix | app/blueprints/payments/routes.py:5-7 | 200 with the service's answer, whatever the request carries |
| BpPayments.ByInstallments | app/blueprints/payments/routes.py:9-18 | min is "1" when absent; non-integer text and a value below 1 give 422 with their messages; otherwise the service's answer for min |
| BpPayments.NoUpperBound | app/blueprints/payments/routes.py:14 | any integer from 1 up reaches the service unchanged |
| BpProducts.Sample | app/blueprints/products/routes.py:5-14 | n is "10" when absent; non-integer text and a value outside 1..100 give 422 with their messages; otherwise the service's answer for n |
| BpProducts.DefaultSample | app/blueprints/products/routes.py:7 | without n the service is asked for 10 products |
| RouteReviews.ParseScore | app/routes/reviews.py:17-36 | accepted exactly when the text is truthy and int() reads a value in 1..5; a missing bound, a non-integer and an out-of-range value each fail with their own message |
| RouteReviews.ValidateScores | app/routes/reviews.py:13-40 | min_score, then max_score, then their order: the first failing check decides the message, and equal bounds are accepted |
| RouteReviews.LowerStep | app/routes/reviews.py:67-70 | one row's step of the lower bound on the weighted sum |
| RouteReviews.UpperStep | app/routes/reviews.py:67-70 | one row's step of the upper bound on the weighted sum |
| RouteReviews.WeightedSumBounds | app/routes/reviews.py:67-70 | with every score in lo..hi, the weighted sum lies between lo and hi times the total |
| RouteReviews.Average | app/routes/reviews.py:69-73 | no average exactly when the total is 0 |
| RouteReviews.AverageWithinBounds | app/routes/reviews.py:69-71 | when the rows keep to the requested bounds, the average does too |
| RouteReviews.JsonFields | app/routes/reviews.py:75-81 | the success body carries total_reviews and stats, average_score exactly when there are reviews, and neither review_count nor avg_score |
| RouteReviews.ReviewsStats | app/routes/reviews.py:10-85 | 400 with the validation message; 500 when the query fails; otherwise the bounds, the total, the average and the rows |
| RouteReviews.ReviewsStatsStatus | app/routes/reviews.py:10-85 | the status is 400, 500 or 200; 200 exactly when validation and the query succeed, and then 1 <= min <= max <= 5 |
| AppConfig.Getenv | app/config.py:18 | the variable's value when set, the default otherwise |
| AppConfig.Vendor | app/config.py:10-14 | always postgres or mysql, and mysql exactly when the lowercased DB_VENDOR is mysql |
| AppConfig.VendorWarned | app/config.py:12-14 | the vendor warning fires exactly when the setting is replaced, the fallback being postgres, and never when DB_VENDOR is unset |
| AppConfig.LowerIdempotent | app/config.py:10 | lowercasing twice is lowercasing once |
| AppConfig.VendorIgnoresCase | app/config.py:10 | the vendor ignores ASCII case |
| AppConfig.DbCfg | app/config.py:17-24 | fails exactly when int() rejects the port text, with that text; otherwise each setting with its default, the port the parsed value, and the user defaulting to the vendor's administrator |
| AppConfig.PasswordWarning | app/config.py:27-28 | the password warning fires exactly when DB_PASS is unset or empty |
| AppConfig.DefaultPort | app/config.py:19 | without DB_PORT the port is 5432 for postgres and 3306 for mysql |
| AppConfig.PostgresPortText | app/config.py:19 | "5432" reads as 5432 |
| AppConfig.MysqlPortText | app/config.py:19 | "3306" reads as 3306 |
| AppConfig.EmptyEnvironment | app/config.py:10-24 | an example: an empty environment gives the local postgres defaults |
| AppConfig.Debug | app/config.py:30 | true when FLASK_ENV is unset, else exactly when it is "development" |
| CategoriesMatchReport.PathArg | reports/categories_match_report.py:3-4 | the command-line argument when given, the default path otherwise |
| CategoriesMatchReport.LStripChar | reports/categories_match_report.py:22 | lstrip of one character removes exactly the leading run of it |
| CategoriesMatchReport.NormColumn | reports/categories_match_report.py:21-24 | a normalised column name holds no space, no '-' and no capital |
| CategoriesMatchReport.NormColumnFixed | reports/categories_match_report.py:21-24 | a name already in normal form is left as it is |
| CategoriesMatchReport.ReplaceKeeps | reports/categories_match_report.py:22 | replacing a character by '_' brings back no removed character and adds no capital |
| CategoriesMatchReport.NormColumns | reports/categories_match_report.py:21-24 | every column name is normalised in place and the cells are untouched |
| CategoriesMatchReport.ReadCsvSmart | reports/categories_match_report.py:7-28 | the loop over the three encodings gives the first frame read or the exit message |
| CategoriesMatchReport.ReadOutcome | reports/categories_match_report.py:8-28 | utf-8, then utf-8-sig, then latin-1: the first that reads wins with normalised columns; when all fail the message carries latin-1's error |
| CategoriesMatchReport.AsciiOnly | reports/categories_match_report.py:33 | the ASCII filter keeps only ASCII characters and never lengthens the text |
| CategoriesMatchReport.AsciiOnlyKeepsAscii | reports/categories_match_report.py:33 | ASCII text passes the filter unchanged |
| CategoriesMatchReport.Deaccent | reports/categories_match_report.py:30-34 | the result is ASCII; None gives "" and a NaN cell gives "nan" |
| CategoriesMatchReport.DeaccentAscii | reports/categories_match_report.py:30-34 | ASCII text that NFKD leaves alone comes through unchanged |
| CategoriesMatchReport.NormText | reports/categories_match_report.py:37-40 | the key is single spaced, without '-', '_', '/' or capitals |
| CategoriesMatchReport.NormTextOfWord | reports/categories_match_report.py:37-40 | a single lowercase word without separators is already normal |
| CategoriesMatchReport.NormTextFixed | reports/categories_match_report.py:36-41 | text already single spaced, without capitals, '-', '_' or '/' is its own key |
| CategoriesMatchReport.NormTextIdempotent | reports/categories_match_report.py:36-41 | normalising a key again changes nothing |
| CategoriesMatchReport.Norm | reports/categories_match_report.py:36-41 | norm's output is single spaced, without '-', '_' or '/' |
| CategoriesMatchReport.NormOfMissing | reports/categories_match_report.py:30-37 | norm(None) is "", and a NaN cell is keyed "nan" |
| CategoriesMatchReport.NormCell | reports/categories_match_report.py:30-73 | the corrected key: a missing cell gives "", text keeps norm's key |
| CategoriesMatchReport.FirstPresent | reports/categories_match_report.py:52-67 | a column exactly when some candidate is present, and then the first candidate present |
| CategoriesMatchReport.ColumnIndex | reports/categories_match_report.py:72-73 | the first column of that name |
| CategoriesMatchReport.Column | reports/categories_match_report.py:72-73 | one cell per row |
| CategoriesMatchReport.KeyColumn | reports/categories_match_report.py:72-73 | one key per cell, each the key of its cell |
| CategoriesMatchReport.RefsFor | reports/categories_match_report.py:80-81 | the references of the categories with that key: empty exactly when no category has it |
| CategoriesMatchReport.RowsFor | reports/categories_match_report.py:81 | each product gives at least one merged row with its key, a single NaN row when no category matches, and otherwise rows whose references are categories' |
| CategoriesMatchReport.MergeLeft | reports/categories_match_report.py:81 | the left merge keeps every product and only products' keys |
| CategoriesMatchReport.MergeKeepsRowCount | reports/categories_match_report.py:81-83 | with unique category keys the merge has exactly one row per product |
| CategoriesMatchReport.Matched | reports/categories_match_report.py:82 | the matched count never exceeds the row count |
| CategoriesMatchReport.UnmatchedKeys | reports/categories_match_report.py:84 | exactly the keys of the merged rows without a reference |
| CategoriesMatchReport.UnmatchedWhenNoCategory | reports/categories_match_report.py:81-84 | a product whose key meets no category is listed as unmatched |
| CategoriesMatchReport.AllMatchedWhenRefsPresent | reports/categories_match_report.py:81-84 | when every product key meets a category with a reference, everything matches and nothing is listed |
| CategoriesMatchReport.LessTransitive | reports/categories_match_report.py:84 | Python's string order is transitive |
| CategoriesMatchReport.LessTotal | reports/categories_match_report.py:84 | Python's string order is total |
| CategoriesMatchReport.Insert | reports/categories_match_report.py:84 | inserting into a strictly sorted list keeps it strictly sorted and holds exactly the old names and the new one |
| CategoriesMatchReport.SortedNames | reports/categories_match_report.py:84-88 | sorted(set(keys) - {""}): strictly sorted, holding exactly the non-empty keys |
| CategoriesMatchReport.MatchSummary | reports/categories_match_report.py:77-84 | matched <= total, at least one row per product, and the unmatched names sorted, non-empty and product keys |
| CategoriesMatchReport.NoMatchSummary | reports/categories_match_report.py:85-88 | nothing matched, every product counted, and exactly the non-empty keys listed in order |
| CategoriesMatchReport.Summarize | reports/categories_match_report.py:48-88 | exits when neither category column exists, then when the products column is missing; otherwise the merge summary on the Portuguese key, or no match without it |
| CategoriesMatchReport.SummarizePtOnly | reports/categories_match_report.py:75-84 | with the Portuguese and products columns found and no English one, the summary is the merge's |
| CategoriesMatchReport.NanListedAsUnmatched | reports/categories_match_report.py:30-84 | as written, one product with an empty category cell is listed under the name "nan" |
| CategoriesMatchReport.CorrectedKeyOfText | reports/categories_match_report.py:36-41 | a non-empty corrected key comes from a text cell and equals norm's key |
| CategoriesMatchReport.ListedNameComesFromText | reports/categories_match_report.py:73-84 | with the corrected key, every listed name is the normalised text of a product's non-empty category cell |
| CategoriesMatchReport.Rate | reports/categories_match_report.py:90 | the rate lies in 0..100: 0 for no products and 100 when everything matched |
| CategoriesMatchReport.UnmatchedCount | reports/categories_match_report.py:96 | unmatched plus matched is the total |
| CategoriesMatchReport.ListingLines | reports/categories_match_report.py:100-101 | "- name" for each of the first 20 names, or the single line "- (yok)" when there are none |
| CategoriesMatchReport.MatchReport | reports/categories_match_report.py:43-88 | the categories file is read first, then the products file; a failed read ends the script with its message; otherwise the summary under the given key rule, AsWritten being the script as it stands |
| ToolsSetupMysql.Password | tools/setup_mysql.py:15 | the first command-line argument when given, "root" otherwise |
| ToolsSetupMysql.StripNonEmpty | tools/setup_mysql.py:70 | the kept pieces are non-empty, stripped, no more than the pieces, and contain no character the pieces did not |
| ToolsSetupMysql.Statements | tools/setup_mysql.py:69-70 | every statement is non-empty, stripped and free of ';' |
| ToolsSetupMysql.StripNonEmptyKeeps | tools/setup_mysql.py:70 | non-empty stripped pieces are kept as they are |
| ToolsSetupMysql.StatementsOfJoin | tools/setup_mysql.py:69-70 | statements joined by ';' split back into the same statements in the same order |
| ToolsSetupMysql.BlankScriptIsEmpty | tools/setup_mysql.py:70 | a script of blanks and ';' alone has no statement |
| ToolsSetupMysql.PieceOfBlank | tools/setup_mysql.py:70 | every piece of such a script is whitespace only |
| ToolsSetupMysql.AllBlankDropped | tools/setup_mysql.py:70 | whitespace-only pieces are all dropped |
| ToolsSetupMysql.RunFrom | tools/setup_mysql.py:71-75 | one event per statement is appended after the earlier events, which stay as they were |
| ToolsSetupMysql.RunFromRuns | tools/setup_mysql.py:71-75 | the i-th new event runs the i-th statement, and whether it failed depends only on the events before it |
| ToolsSetupMysql.ApplyDdl | tools/setup_mysql.py:38-82 | the loop over the scripts and their statements produces the events of the specification |
| ToolsSetupMysql.RunStatements | tools/setup_mysql.py:71-75 | the inner loop executes every statement, reporting a failure and going on |
| ToolsSetupMysql.Outcomes | tools/setup_mysql.py:62-78 | the skip and commit events of a log |
| ToolsSetupMysql.OutcomesOfRun | tools/setup_mysql.py:71-75 | running statements adds no skip or commit |
| ToolsSetupMysql.ScriptOutcomes | tools/setup_mysql.py:52-64 | one outcome per script, naming that script |
| ToolsSetupMysql.ScriptStep | tools/setup_mysql.py:60-78 | one script adds exactly its own outcome |
| ToolsSetupMysql.ScriptsInOrder | tools/setup_mysql.py:60-78 | the scripts are handled in the listed order, each once: skipped when missing, committed otherwise, whatever its statements did |
| ToolsSetupMysql.DdlOutcomes | tools/setup_mysql.py:52-78 | apply_ddl records one outcome per listed script, in the listed order |
| ToolsSetupMysql.ScriptRunsEveryStatement | tools/setup_mysql.py:67-77 | a present script's statements all run in order after what came before, and the commit follows them |
| ScriptsSetupMysql.FirstFrom | scripts/setup_mysql.py:53-58 | the position found is accepted and none before it is; none found means none is accepted |
| ScriptsSetupMysql.FirstIs | scripts/setup_mysql.py:53-58 | an accepted position with none accepted before it is the one the search stops at |
| ScriptsSetupMysql.Typed | scripts/setup_mysql.py:63-64 | three prompts, the i-th answer at position i |
| ScriptsSetupMysql.ChoosePassword | scripts/setup_mysql.py:48-68 | the two loops, each left by break, try exactly the passwords of the two-phase search and keep the one that connected |
| ScriptsSetupMysql.FirstInSecond | scripts/setup_mysql.py:61-67 | when the common passwords all fail, the search continues at the first typed password |
| ScriptsSetupMysql.FirstInFirst | scripts/setup_mysql.py:56-61 | when a common password connects, nothing is typed |
| ScriptsSetupMysql.ChooseIsOneSearch | scripts/setup_mysql.py:48-68 | the two phases are one search over the seven candidates, common passwords first, stopping at the first that connects |
| ScriptsSetupMysql.GivesUpIffNoneConnects | scripts/setup_mysql.py:70-76 | the script gives up exactly when none of the seven candidates connects |
| ScriptsSetupMysql.RewriteEnv | scripts/setup_mysql.py:91-98 | the loop over the lines, left after the first DB_PASS= line, writes the text of the specification |
| ScriptsSetupMysql.RewriteLinesEffect | scripts/setup_mysql.py:91-95 | the line count is kept and only the first DB_PASS= line changes, to DB_PASS= and the password |
| ScriptsSetupMysql.NoPassLineUnchanged | scripts/setup_mysql.py:91-98 | a .env without a DB_PASS= line is written back unchanged |
| ScriptsSetupMysql.PassLineOfPassword | scripts/setup_mysql.py:93-94 | the written line is itself a DB_PASS= line |
| ScriptsSetupMysql.RewriteReadBack | scripts/setup_mysql.py:91-98 | read back, the first DB_PASS= line is where it was and carries the password |
| ScriptsSetupMysql.RewriteIdempotent | scripts/setup_mysql.py:91-98 | running the script again with the same password leaves .env as it is |
| ScriptsSetupMysql.Setup | scripts/setup_mysql.py:70-102 | exit status 1 exactly when no password connected; .env is rewritten exactly when a password was found, the database was created and .env could be read |
| JsConfig.MessageOr | frontend/js/config.js:19-23 | the error's own message when it is non-empty, the fallback otherwise |
| JsConfig.HandleFetchError | frontend/js/config.js:6-24 | a TypeError gives the not-reachable text; otherwise a 503 gives the database text, 400 and 422 the message or the validation fallback, anything else the message or the generic fallback |
| JsConfig.WarningsIdentifyBranch | frontend/js/config.js:6-24 | the not-reachable text appears exactly for a network failure and the database text exactly for a 503 |
| JsConfig.FixedTextsDiffer | frontend/js/config.js:9-23 | the four fixed texts are pairwise different |
| JsConfig.FixedTextWithoutMessage | frontend/js/config.js:6-24 | without a message of its own, the user sees one of the four fixed texts |
| JsConfig.NetworkFailureFirst | frontend/js/config.js:8-10 | a network failure wins over any response, even a 503 or a 400 |
| JsConfig.NoResponse | frontend/js/config.js:8-23 | without a response only the network and generic branches apply |
| JsConfig.ValidationStatusesAlike | frontend/js/config.js:18-20 | 400 and 422 are handled alike |
| JsReviews.JsLeadingSpace | frontend/js/reviews.js:25-26 | parseInt skips exactly the leading white space |
| JsReviews.DigitRun | frontend/js/reviews.js:25-26 | the longest prefix of digits of the radix |
| JsReviews.BlankIsNaN | frontend/js/reviews.js:25-29 | an empty or blank input parses to NaN and is rejected |
| JsReviews.ParseShowThenTail | frontend/js/reviews.js:25-26 | a decimal numeral followed by a non-digit parses to its value, the rest ignored |
| JsReviews.DigitRunOfNumeral | frontend/js/reviews.js:25-26 | the digit run of a numeral followed by a non-digit is exactly the numeral |
| JsReviews.CheckScores | frontend/js/reviews.js:25-49 | NaN first, then the minimum's range, then the maximum's, then min > max, each with its message; otherwise both scores |
| JsReviews.ValidIff | frontend/js/reviews.js:29-49 | the checks pass exactly for two parsed scores with 1 <= min <= max <= 5 |
| JsReviews.EqualScoresAccepted | frontend/js/reviews.js:46 | equal scores are accepted |
| JsReviews.ServerAcceptsRequest | frontend/js/reviews.js:56 | every request the page sends is accepted by the server's own validation with the same two scores |
| JsReviews.ScoreAccepted | frontend/js/reviews.js:56 | a score in 1..5, written out, passes the server's check of one bound |
| JsReviews.FailureMessage | frontend/js/reviews.js:59-62 | the body's error field when truthy, else the HTTP status text |
| JsReviews.AfterFetch | frontend/js/reviews.js:59-96 | results are shown exactly for an ok answer whose body holds the field read, with no error; a failure shows the error prefix and its message; an ok body without the field shows the TypeError |
| JsReviews.Receive | frontend/js/reviews.js:57-64 | response.ok exactly for a 2xx status; an error reply carries its message in the error field, a success reply the body's fields |
| JsReviews.SummaryNeverShown | frontend/js/reviews.js:64-95 | against GET /reviews/stats the summary is never shown: a failed query shows the 500 message, a successful one the TypeError of the missing review_count |
| JsReviews.ServedFieldShowsSummary | frontend/js/reviews.js:64-90 | reading total_reviews, the field the server returns, the summary is shown exactly when the query succeeds |
| JsReviews.ReviewsPage.constructor | frontend/js/reviews.js:15-18 | the page starts with no error, no results and no request |
| JsReviews.ReviewsPage.LoadReviewStats | frontend/js/reviews.js:14-97 | both areas cleared; a failed check shows its message and requests nothing; otherwise exactly one request for the stats URL, its outcome shown as AfterFetch renders it reading review_count |

## Left out

- Database connectivity and execution: connections, cursors, `execute`, commits and the driver's errors. A query is a parameter returning rows or an error. `executemany` is the list of batches it receives. The UPDATE back-fill and the NOT NULL change in `load_reviews` are recorded as decisions, with the orphan count as an input.
- SQL semantics: joins, GROUP BY, HAVING, ORDER BY and LIMIT belong to the database. Only the shape of the rows that come back is modelled. `INSERT ... ON CONFLICT DO NOTHING` and `INSERT IGNORE` are modelled as insert-or-skip on the conflict key (`Sql.InsertSkip`). For the two INSERT IGNORE loaders, that key is a parameter.
- Reading files and CSV decoding (`csv.DictReader`, codecs, the BOM, `csv.Sniffer`, `pandas.read_csv`): the records or the frame are inputs, and the per-encoding read is the `read` parameter of the report. Decode errors of `read_text` in `tools/setup_mysql.py` are not modelled.
- A CSV header that repeats a column name is not modelled. The record is a map, so each column holds one value.
- Printing and logging (progress lines, logger warnings, the report's Markdown text and its file write) are left out. The decisions that drive them are modelled: `AppConfig.VendorWarned`, `AppConfig.PasswordWarned`, `CategoriesMatchReport.ListingLines`, `CategoriesMatchReport.Rate` and `CategoriesMatchReport.UnmatchedCount`.
- Floating point: `float()` is read into exact reals, and the rounding of `average_score`, the match rate and the analytics averages is not modelled.
- RouteReviews.Average: states the exact weighted mean, without `round(..., 2)`.
- CategoriesMatchReport.Rate: states the exact percentage, without `round(..., 2)`.
- `_decimal_to_float` in `app/routes/analytics.py` is JSON serialisation, and is not modelled.
- PyText.ParseInt: accepts only an optional sign and ASCII digits after stripping. Python's underscores and non-ASCII digits are not modelled.
- PyText.ParseFloat: accepts an optional sign and decimal digits with at most one point. Exponents, `inf` and `nan` are not modelled.
- PyText.Lower: lowercases ASCII letters only. Python's full Unicode lowering is not modelled.
- Unicode NFKD in `deaccent` is the `nfkd` parameter. The ASCII filter after it is modelled.
- JavaScript numbers are unbounded integers: `parseInt` results beyond 2^53 are not rounded.
- The summary HTML of `frontend/js/reviews.js` is not modelled, only whether it is shown. Its `avg_score` read is not modelled either: that field is absent, so the text falls back to 'N/A' without an error. The `review_count` read throws, and that is modelled (see Findings).
- The DOM: input elements are the two text arguments of `LoadReviewStats`, `fetch` is a parameter, and `JSON.parse` errors of an error body are not modelled.
- `frontend/js/reviews.js` addresses `http://localhost:5000`, while `frontend/js/config.js` uses `http://127.0.0.1:5000`. Both constants are kept as written.
- Flask's URL decoding of the query string: arguments arrive as a map from name to text.
- `create_database` in both setup scripts and `test_connection`'s `is_connected` check are connections. A connection attempt is the `connects` parameter, and creation success is the `created` input of `ScriptsSetupMysql.Setup`.
- `tools/setup_mysql.py`'s `__main__` block turns any exception into exit status 1. Connection failures are not modelled, so that path is not either.
- The pass-through routes (`app/blueprints/orders/routes.py`, `app/blueprints/reviews/routes.py`) only hand database output to `jsonify`, and are not modelled. The query functions of `app/blueprints/customers/service.py`, `app/blueprints/payments/service.py`, `app/blueprints/products/service.py` and `app/blueprints/reviews/service.py` are SQL only and are not modelled either. They are the `service` parameter of the blueprint routes. `app/blueprints/orders/service.py` is modelled (`OrdersService`).
- The frontend pages other than the two functions above, the React dashboard and the diagnostic scripts are rendering or I/O only, and are not modelled.
- The root-level `categories_match_report.py` is an earlier version of the report that the one under `reports/` replaces, and is not modelled.

## Findings

| source | as written | input that shows it | evidently intended | confidence | as-written member | corrected member |
|---|---|---|---|---|---|---|
| reports/categories_match_report.py:30-84 | `deaccent` turns only None into "", so pandas' NaN for an empty category cell goes through `str()` and is keyed "nan". The product is then listed as an unmatched category named "nan". | a products CSV with one row whose product_category_name cell is empty, against a translation CSV with no rows | an empty cell is excluded from the unmatched list, like the "" key it would have had as None | not executed | CategoriesMatchReport.NanListedAsUnmatched | CategoriesMatchReport.ListedNameComesFromText |
| frontend/js/reviews.js:64-95 | The summary box reads `data.review_count.toLocaleString()`. The `/reviews/stats` body (app/routes/reviews.py:75-81) has `total_reviews` and no `review_count`, so the read throws a TypeError. The catch shows "❌ Error loading review stats: " with the TypeError's message and clears the results. | min "1", max "5" and a database that returns rows: the server answers 200, and the page shows the error instead of the statistics | the summary reads the count the server sends, `total_reviews`, and is shown for every successful answer | not executed | JsReviews.SummaryNeverShown | JsReviews.ServedFieldShowsSummary |

The corrected key is `CategoriesMatchReport.NormCell`, which maps a missing
cell to "". `CategoriesMatchReport.MatchReport` takes the key rule as a
parameter: `AsWritten` runs the script as it stands and `Corrected` the
intended one.

`JsReviews.AfterFetch` takes the field name it reads. `ReviewsPage.LoadReviewStats`
follows the code as written and reads `review_count`. `ServedFieldShowsSummary`
proves the intended behaviour when the field read is `total_reviews`.
