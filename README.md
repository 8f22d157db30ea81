# Country exchange rate service — Dafny model

This project models the core of a REST service. The service pulls every country
from a public country directory and the USD exchange rates from a rates feed.
For each country it derives a record with:

- the first currency code;
- that currency's rate;
- an estimated GDP, computed as population × a random factor in [1000, 2000) ÷ rate.

It upserts each record by name into a `countries` table and stamps the refresh time
in a one-row `app_status` table. It then renders a summary image of the five
countries with the highest estimated GDP.

The HTTP layer lists, looks up and deletes countries. It also reports the status
and serves the cached image. Each service outcome maps to a status code and a JSON
body.

The model is split into these modules:

- `CountryModel`: the stored record, and JavaScript truthiness of optional strings.
- `CountryDerive`: derivation of a record from a fetched country and the rates.
- `CountryTable`: the `countries` table as a value. It covers the auto-increment
  ids, upsert by name (`SELECT id … WHERE name`, then `UPDATE … WHERE id` or
  `INSERT`) and `DELETE … WHERE name`.
- `CountryRanking`: `ORDER BY estimated_gdp DESC` with NULLs last, and `LIMIT 5`.
- `CountrySummary`: the summary's figures and the layout of its top-five lines.
- `CountryQuery`: the `getCountries` query builder, and a small interpreter of the
  SQL fragment it emits. The interpreter is what gives the built query a meaning.
- `CountryService`: a class `CountryStore` holding the rows, the next id, the
  status row and the cached summary. Its methods are the service operations.
- `CountryController`: the response mappings and the handlers.
- `CountryScenarios`: the repository's API test cases, replayed on the model.

Numbers are reals. Server time (`NOW()`) is a `Clock` parameter. Each
`Math.random()` draw is one element of a `draws` parameter, one per fetched country.
The two HTTP fetches are inputs: `None` means the request failed.

## Model

| member | source | states |
|---|---|---|
| CountryDerive.Derive | src/services/country.service.ts:20-35 | Name, capital, region, population and flag are copied. The currency code is kept only when the first currency's code is present and non-empty. The rate is kept only when that code is in the rates and the rate is non-zero. The estimate exists exactly when the rate does and equals population × factor ÷ rate. The record is consistent. |
| CountryDerive.DeriveAll | src/services/country.service.ts:20-37 | One record per fetched country, in order. Each keeps its country's name and is consistent. Each has an estimate exactly when its country's first code is truthy and has a known, non-zero rate. |
| CountryDerive.Factor | src/services/country.service.ts:23 | A draw in [0, 1) gives a factor in [1000, 2000). |
| CountryDerive.GdpBounds | src/services/country.service.ts:23 | For a non-negative population and a positive rate, the estimate lies between population·1000/rate and population·2000/rate. |
| CountryTable.FirstMatch | src/services/country.service.ts:52-53 | Returns the index of the first row with the name, or None exactly when no row has it. |
| CountryTable.UpsertOne | src/services/country.service.ts:49-61 | A row is added, using up one id, exactly when no row had the name. Otherwise the row count and the next id stay. Afterwards a lookup by the name finds the record just written. |
| CountryTable.UpsertAll | src/services/country.service.ts:20-39 | A batch never removes a row and adds at most one per record. It spends exactly one id per row added. Afterwards a lookup by the last record's name finds that record. |
| CountryTable.UpsertOverwritesFirstOrInserts | src/services/country.service.ts:49-61 | Updating by the first match's id overwrites exactly that row and keeps its id. With no match, one row with the next id is appended. Id validity (ids below the counter, pairwise distinct) is kept. |
| CountryTable.UpsertNameSet | src/services/country.service.ts:49-61 | After an upsert, the set of names is the old set plus the record's name. |
| CountryTable.UpsertKeepsNamesUnique | src/services/country.service.ts:49-61 | An upsert keeps names unique. |
| CountryTable.UpsertKeepsConsistent | src/services/country.service.ts:49-61 | Upserting a consistent record keeps every row consistent. |
| CountryTable.UpsertAllInvariants | src/services/country.service.ts:20-39 | Upserting a whole batch keeps ids valid and names unique. The names afterwards are the old names plus the batch's names. |
| CountryTable.UpsertAllConsistent | src/services/country.service.ts:20-39 | A batch of consistent records keeps the table consistent. |
| CountryTable.UpsertAllKeeps | src/services/country.service.ts:20-39 | A batch keeps names unique, and keeps the table consistent when every record is. |
| CountryTable.UpsertAllCount | src/services/country.service.ts:20-39 | With unique names, the row count after a batch is the number of distinct names, old and new. |
| CountryTable.RefreshTwiceSameCount | src/services/country.service.ts:49-61 | A second batch with the same names adds no rows. |
| CountryTable.UniqueNamesCount | src/services/country.service.ts:49-61 | With unique names, the row count equals the number of names. |
| CountryTable.Without | src/services/country.service.ts:116-123 | The table does not grow, and afterwards a lookup by the name finds nothing. |
| CountryTable.WithoutMembers | src/services/country.service.ts:116-123 | After the delete, no row has the name. A row is kept exactly when it is in the table and has a different name. The table does not grow. |
| CountryTable.WithoutAbsentName | src/services/country.service.ts:116-123 | Deleting a name that no row has changes nothing. |
| CountryTable.WithoutConcat | src/services/country.service.ts:116-123 | The delete works row by row and keeps relative order: deleting from two tables laid end to end equals deleting from each and concatenating the results. |
| CountryTable.WithoutKeeps | src/services/country.service.ts:116-123 | A delete keeps ids valid and names unique. It leaves no row with the name, and it leaves the table unchanged when no row has the name. |
| CountryTable.WithoutKeepsIds | src/services/country.service.ts:116-123 | A delete keeps ids valid. |
| CountryTable.WithoutKeepsNamesUnique | src/services/country.service.ts:116-123 | A delete keeps names unique. |
| CountryTable.WithoutCount | src/services/country.service.ts:116-123 | With unique names, a delete removes one row if the name is present and none otherwise. |
| CountryRanking.RanksBeforeTotalOrder | src/services/country.service.ts:145 | The DESC ordering with NULLs last is total and transitive. |
| CountryRanking.Insert | src/services/country.service.ts:145 | Inserting into a sorted sequence keeps it sorted, adds exactly the new row, and grows it by one. |
| CountryRanking.SortByGdpDesc | src/services/country.service.ts:145 | The result is sorted by estimate, descending with NULLs last, and is a permutation of the input. |
| CountryRanking.SortNonNullCount | src/services/country.service.ts:145 | Sorting keeps the number of rows that have an estimate. |
| CountryRanking.SortedNullsLast | src/services/country.service.ts:145 | In sorted order, the rows with an estimate come exactly first. |
| CountryRanking.TopFive | src/services/country.service.ts:145 | `LIMIT 5` over the ranking yields min(5, n) rows. They are sorted by estimate, descending with NULLs last, and are drawn from the table (a sub-multiset). |
| CountryRanking.TopFiveIsTop | src/services/country.service.ts:145 | `LIMIT 5` yields min(5, n) sorted rows. Together with the rows it leaves out, they are a permutation of the table. Every selected row ranks at or above every row left out. |
| CountryRanking.TopFiveNullIff | src/services/country.service.ts:145 | A NULL estimate is among the top five exactly when fewer than five rows, and fewer than all rows, have one. |
| CountrySummary.LinesFrom | src/services/country.service.ts:169-171 | Line i sits at x = 70, y = 280 + 30·i with rank i + 1, the country's name and its estimate. Rendering fails, naming the first affected rank, exactly when an estimate is NULL. |
| CountrySummary.Render | src/services/country.service.ts:142-171 | Rendering fails exactly when a listed row has no estimate, and the error names such a row. On success the image is 800×600. It shows the whole table's count and the status time, with one line per listed row. |
| CountrySummary.RenderSpec | src/services/country.service.ts:142-171 | Rendering fails exactly when the top five include a NULL estimate. On success the image is 800×600. Its total is the row count and its time is the status time. It has min(5, n) lines, each laid out from the corresponding top-five row. |
| CountryQuery.BuildQuery | src/services/country.service.ts:75-94 | A truthy region adds ` WHERE region = ?`. A truthy currency adds ` AND currency_code = ?` after a region, or ` WHERE currency_code = ?` without one. Only the sort `gdp_desc` adds ` ORDER BY estimated_gdp DESC`. The parameters are the region, then the currency. The text and parameters parse back to exactly the filters' plan. |
| CountryQuery.Where | src/services/country.service.ts:96 | A row is kept exactly when it is in the table and satisfies every condition. |
| CountryQuery.RunPlan | src/services/country.service.ts:96 | Returns exactly the rows satisfying every condition, each as often as in the table. They are sorted by estimate when the plan orders, and in table order otherwise. |
| CountryQuery.RunQuery | src/services/country.service.ts:96 | It errors exactly when the text is outside the emitted fragment or the placeholder count differs from the parameters. Otherwise it returns exactly the rows satisfying the parsed conditions, sorted when the text orders. |
| CountryQuery.PlanForMeaning | src/services/country.service.ts:78-90 | A row satisfies the built conditions exactly when it has each truthy filter's value. |
| CountryQuery.RunPlanForFilters | src/services/country.service.ts:72-101 | The built plan returns exactly the matching rows. They are sorted by estimate when `sort` is `gdp_desc` and otherwise in table order. |
| CountryQuery.Bind | src/services/country.service.ts:96 | The i-th placeholder is bound to the i-th parameter. |
| CountryService.CountryStore.constructor | tests/countries.test.ts:61-66 | The state the test setup leaves: truncated tables, so the table is empty and AUTO_INCREMENT restarts at 1, then the `app_status` row 1 inserted with a NULL time (optionally absent), and no cached image. |
| CountryService.CountryStore.Upsert | src/services/country.service.ts:49-61 | The new table is the upsert of the old one: the first match is overwritten in place with its id kept, or a row with the next id is appended. Status and image are unchanged. |
| CountryService.CountryStore.UpdateLastRefreshedAt | src/services/country.service.ts:63-70 | The status time becomes `now` when the status row exists. Otherwise nothing changes. |
| CountryService.CountryStore.UpsertBatch | src/services/country.service.ts:20-39 | The table becomes the upsert of the records one by one in list order. Unique names and consistency are kept. Status and image are unchanged. |
| CountryService.CountryStore.List | src/services/country.service.ts:72-101 | Returns exactly the rows that match every truthy filter. They are sorted by estimate (NULLs last) for `gdp_desc` and otherwise in table order. |
| CountryService.CountryStore.FindByName | src/services/country.service.ts:103-114 | Returns the first row with the name, or null exactly when no row has it. With unique names it is the only such row. |
| CountryService.CountryStore.DeleteByName | src/services/country.service.ts:116-123 | Removes every row with the name and keeps the rest in order. An absent name changes nothing. Ids, status and image are unchanged. |
| CountryService.CountryStore.GetStatus | src/services/country.service.ts:125-138 | Returns the row count and the stored time. It fails exactly when the status row is absent. |
| CountryService.CountryStore.GenerateSummaryImage | src/services/country.service.ts:142-187 | Caches the rendered summary. It fails, keeping the old image, when the status row is absent or a top-five estimate is NULL. |
| CountryService.CountryStore.Refresh | src/services/country.service.ts:10-47 | A failed fetch writes nothing. Otherwise the table becomes the sequential upsert of all derived records, and the status time is set. The refresh succeeds exactly when the status row exists and the summary renders, and only then is the image replaced. Every failure carries the message `External data source unavailable`. Unique names and consistency are kept. |
| CountryController.RefreshResponse | src/controllers/country.controller.ts:5-12 | Success gives 200 with the success message. Failure gives 503 with the fixed error and the thrown message as details. |
| CountryController.ListResponse | src/controllers/country.controller.ts:14-21 | Success gives 200 with the rows. Failure gives 500 `Internal server error`. |
| CountryController.GetByNameResponse | src/controllers/country.controller.ts:23-34 | A found row gives 200 with it. Null gives 404 `Country not found`. Failure gives 500. |
| CountryController.DeleteResponse | src/controllers/country.controller.ts:36-43 | Success gives 204 with no body. Failure gives 500. |
| CountryController.StatusResponse | src/controllers/country.controller.ts:45-52 | Success gives 200 with the status. Failure gives 500. |
| CountryController.ImageResponse | src/controllers/country.controller.ts:56-63 | An existing file gives `cache/summary.png`. Otherwise the answer is 404 `Summary image not found`. |
| CountryController.HandleRefresh | src/controllers/country.controller.ts:5-12 | Runs the refresh. A failed fetch answers 503 with the fixed error and changes nothing. Otherwise the table becomes the sequential upsert of the derived records and the status time is set. The answer is 200 with the success message exactly when the status row exists and the summary renders, and only then is the image replaced. Any other outcome answers 503 with the fixed error and details. |
| CountryController.HandleList | src/controllers/country.controller.ts:14-21 | The answer is 200 with exactly the matching rows, each as often as in the table. They are sorted for `gdp_desc` and in table order otherwise. |
| CountryController.HandleGetByName | src/controllers/country.controller.ts:23-34 | The answer is 404 `Country not found` exactly when no row has the name. Otherwise it is 200 with the first row of that name in table order. |
| CountryController.HandleDelete | src/controllers/country.controller.ts:36-43 | The answer is 204. Afterwards the rows are the old rows without the name, and the ids, status and image are unchanged. |
| CountryController.HandleStatus | src/controllers/country.controller.ts:45-52 | The answer is 200 with count and time exactly when the status row exists, and 500 otherwise. |
| CountryController.HandleImage | src/controllers/country.controller.ts:56-63 | The image is served exactly when one has been rendered. Otherwise the answer is 404. |
| CountryScenarios.RefreshStoresBoth | tests/countries.test.ts:79-106 | Refreshing Nigeria and the United States with rates NGN 1600 and USD 1 answers 200 and stores two rows, both with an estimate. A second refresh keeps two rows. |
| CountryScenarios.RefreshFetchFails | tests/countries.test.ts:107-122 | A failed country fetch answers 503 `External data source unavailable` and stores nothing. |
| CountryScenarios.ListFiltersByRegion | tests/countries.test.ts:126-147 | Listing returns both rows. Filtering by `Africa` returns only Nigeria. |
| CountryScenarios.GetByName | tests/countries.test.ts:151-167 | A stored name answers 200 with its row. `NonExistent` answers 404 `Country not found`. |
| CountryScenarios.DeleteThenGet | tests/countries.test.ts:171-182 | Delete answers 204, and no row with the name remains. |
| CountryScenarios.Status | tests/countries.test.ts:186-197 | With the status row present and no countries, the status is (0, null). After one row is inserted and the status time is set directly to t, it is (1, t). |
| CountryScenarios.ImageBeforeAndAfterRefresh | tests/countries.test.ts:201-206 | The image answers 404 before any refresh, as the test checks. The model also states that the file is served after a successful refresh, which no test checks. |

## Left out

- The two fetches run in parallel (`Promise.all`), and so do the per-country upserts. Both are modelled as sequential steps in list order. A failure part-way keeps the earlier writes, but the interleaving of concurrent upserts is not modelled.
- HTTP fetching (axios) is not modelled. Each response body is an input, and `None` stands for a request that failed.
- A rates response without a `rates` field is not modelled. Neither are rate keys that come from the JavaScript object prototype.
- The MySQL engine, the connection pool and connection release are not modelled. Also out: collation, where names, regions and currency codes compare exactly rather than case-insensitively; DECIMAL rounding; storage errors; and the `console.error` logging of a failed refresh.
- `CountryService.CountryStore.List`, `CountryTable.FirstMatch`, `CountryService.CountryStore.FindByName`: a SELECT with no ORDER BY is taken to return rows in storage order. This covers the `rows[0]` that upsert and get-by-name take. Ties under `ORDER BY estimated_gdp DESC` are taken to keep storage order. MySQL guarantees neither.
- `CountryQuery.Filters`: each query parameter is one optional string. Express also delivers a repeated parameter as an array, or a nested one as an object. With such a value the source binds it differently, and the query may fail with 500; the model does not cover that.
- `NOW()` is an abstract clock parameter. The per-row `last_refreshed_at` column with its `ON UPDATE` timestamp is not stored.
- `Math.random()` is a parameter, one draw per fetched country.
- Floating point is modelled as exact reals.
- The image drawing (svg text, sharp) is not modelled: the summary is its data (size, total, time, top-five lines). The header text, the `toLocaleString`/date formatting, and the creation of the `cache` directory and file are also out.
- Failures of the image library or the file system are not modelled, apart from a NULL estimate among the top five, which throws in the source.
- The Express application, the route table and the order in which routes are matched are not modelled. Test setup and teardown are not modelled either.
