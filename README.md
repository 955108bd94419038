# weatherBack: cache-through weather lookup and paged user list

This project models the back end of a small weather service. Its core is
`WeatherService.GetWeatherByCityAsync`:

- A lookup first searches the database for a city whose name matches the
  query case-insensitively. If that city has a reading younger than 30
  minutes, the newest one is rendered back as provider-shaped JSON.
- Otherwise the provider (OpenWeatherMap) is asked. Its body is saved in one
  transaction and returned unchanged. The save finds or creates the city and
  the weather condition, then adds one reading, one wind row and one sun row.
- A failed fetch is classified by HTTP status (404, 401, other). A failed
  save rolls the transaction back. Either way the store is left as it was.

The second, smaller core is the admin user listing:

- the controller defaults and clamps the page number and page size;
- the service orders users by email and takes one page;
- the page DTO computes the number of pages and whether a previous or next
  page exists.

Layout, one module per file:

- `wrappers.dfy`: Option, Result and Outcome.
- `models.dfy`: the five weather tables as sequences of rows, fresh keys, and
  the store invariant `Valid` (unique keys, and the foreign keys of
  Data/WeatherDbContext.cs).
- `payload.dfy`: the provider's JSON as a datatype. Each property is `Absent`,
  `Null` or `Present`, and numbers are exact reals. It also has the
  `System.Text.Json` readers the save uses.
- `normalizer.dfy`: the values the save reads out of a payload.
- `queries.dfy`: the EF queries (city by name, condition by name and
  description, the freshest reading, navigation loads).
- `render.dfy`: `ConvertToJson`.
- `upstream.dfy`: the status classification of the fetch.
- `persist.dfy`: the save as a function of the store, the payload and the
  failing database call, with its properties.
- `roundtrip.dfy`: save followed by lookup.
- `weather_service.dfy`: the `WeatherService` class. Its fields are the
  tables and the log of provider requests, and its methods do the lookup, the
  fetch and the save step by step with rollback.
- `paging.dfy`: `PagedResponseDto`.
- `user_service.dfy`: `UserService.GetUsersAsync`.
- `users_controller.dfy`: `UsersController.GetUsers`.

Inputs that come from outside the program are parameters:

- the clock is `now`, in Unix seconds;
- the provider's answer is `reply`, a status and an already-parsed body;
- the database call that throws is `fault`: the cache query for the city or
  for its fresh reading, `BeginTransaction`, the save's city query, the
  `SaveChanges` after creating a city, the condition query, the `SaveChanges`
  after creating a condition, after adding the reading or after adding the
  wind and sun, or the commit.

Modelling notes:

- **Condition matching.** The find-or-create of a weather condition compares
  `MainName` and `Description` with `==` (Services/WeatherService.cs:109-111),
  and the model compares them exactly. How the database collation compares
  strings is left out.
- **Page count.** `TotalPages` is `(int)Math.Ceiling(TotalCount /
  (double)PageSize)`. With 32-bit operands the double quotient is never
  rounded onto or past an integer, so it is modelled as the exact ceiling.

## Model

| member | source | states |
|---|---|---|
| WeatherModels.NextKey | Services/WeatherService.cs:95-97 | a generated key is positive and larger than every key in the table, so it is fresh |
| WeatherJson.GetProperty | Services/WeatherService.cs:76 | `GetProperty` fails with a missing-property error exactly when the property is absent; otherwise it yields the property unchanged |
| WeatherJson.AsObject | Services/WeatherService.cs:126-129 | using an element as an object succeeds exactly when it is present and not null |
| WeatherJson.StringOr | Services/WeatherService.cs:104-106 | `GetString() ?? d` fails only for an absent property; a null gives `d`, and a string gives itself |
| WeatherJson.NullableString | Services/WeatherService.cs:77 | `GetString()` fails only for an absent property; a null gives None, and a string gives itself |
| WeatherJson.OptionalDouble | Services/WeatherService.cs:135-138 | `TryGetProperty ? GetDouble() : null` keeps absence as None and a value as itself; only an explicit null fails |
| WeatherJson.OptionalInt32 | Services/WeatherService.cs:139-141 | `TryGetProperty ? GetInt32() : null` succeeds exactly for an absent property or a number whose value is an integer in the 32-bit range, and then yields that value; how the literal is spelled is not modelled |
| WeatherJson.RequiredInt64 | Services/WeatherService.cs:143 | `GetProperty().GetInt64()` succeeds exactly for a present number whose value is an integer in the 64-bit range, and then yields that value; an absent property fails with a missing-property error; how the literal is spelled is not modelled |
| Normalizer.ReadCity | Services/WeatherService.cs:76-78 | succeeds exactly when name, sys.country and a non-null timezone can be read; a null name becomes "Unknown"; the code is the payload's country, or null when that is null; the timezone is the payload's, or absent when that is absent |
| Normalizer.ReadCondition | Services/WeatherService.cs:102-106 | reads only `weather[0]` and fails when the array is missing or empty; null main, description or icon become "" |
| Normalizer.ReadReading | Services/WeatherService.cs:125-144 | absent optional measurements are stored as absent, never as 0; visibility is stored as metres / 1000; `dt` is required; a missing `main` is the first error |
| Normalizer.ReadWindSun | Services/WeatherService.cs:149-163 | wind speed, deg and gust keep absence; sunrise and sunset are required and stored unchanged |
| StoreQueries.LowerMapsEachChar | Services/WeatherService.cs:31 | `ToLower` keeps the length and the order, turns each upper-case ASCII letter into its lower-case letter, leaves every other character as it is, and leaves no upper-case ASCII letter |
| StoreQueries.Lower | Services/WeatherService.cs:31 | `ToLower` keeps the length of the name; what it does to each character is LowerMapsEachChar |
| StoreQueries.LowerIdempotent | Services/WeatherService.cs:31 | lower-casing twice is lower-casing once, so a name matches its own lower-case form |
| StoreQueries.SameNameIffCharwise | Services/WeatherService.cs:31 | two names match exactly when they have the same length and agree position by position up to the case of a letter |
| StoreQueries.FindCity | Services/WeatherService.cs:30-31 | the first city whose name matches case-insensitively; None exactly when no city matches |
| StoreQueries.FindCondition | Services/WeatherService.cs:109-111 | the first condition with equal main name and description; None exactly when none has both |
| StoreQueries.NewestFresh | Services/WeatherService.cs:41-44 | a reading of the city with `TimeStamp > now - 1800` and no other such reading newer; None exactly when there is none |
| StoreQueries.IsFresh | Services/WeatherService.cs:41-42 | a reading is fresh for a city exactly when it references that city, has a `TimeStamp`, and is less than 30 minutes (1800 s) old at `now` |
| StoreQueries.CityById | Data/WeatherDbContext.cs:108-111 | the navigation property loads a row with that key exactly when one exists |
| StoreQueries.ConditionById | Data/WeatherDbContext.cs:113-116 | the navigation property loads a row with that key exactly when one exists |
| StoreQueries.RowsOf | Data/WeatherDbContext.cs:64-67 | a one-to-many collection holds exactly the rows naming the owner, in table order |
| StoreQueries.WindsOf | Data/WeatherDbContext.cs:131-134 | `Winds` holds exactly the wind rows that reference the reading |
| StoreQueries.SunsOf | Data/WeatherDbContext.cs:64-67 | `Suns` holds exactly the sun rows that reference the reading |
| StoreQueries.CachedReading | Services/WeatherService.cs:30-50 | a miss exactly when no city matches the query or that city has no reading with a non-null `TimeStamp` above now - 30 min; a hit is a stored reading of that city, fresh, and at least as new as every timestamped reading of the city, loaded with the city, condition, winds and suns that reference it |
| StoreQueries.Load | Services/WeatherService.cs:36-40 | the `Include`s load the reading with its city and its condition, present exactly when a row with the referenced key exists, and exactly the winds and the suns that reference the reading |
| Render.TruncateToInt | Services/WeatherService.cs:219 | `(int)` truncates toward zero and is exact on integers |
| Render.ConvertToJson | Services/WeatherService.cs:178-227 | every property is written; `name`, `timezone` and `sys.country` are the loaded city's, or null; one `weather` element with the condition's key, main name, description and icon, or 0 and empty strings; each stored measurement reads back as itself and a missing one as null; `wind` and `sys` are null exactly when there is no wind or sun row and otherwise carry the first one's values; `visibility` is `(int)(Visibility * 1000)`, or 10000 when null; `dt` is `TimeStamp ?? 0`; `id` is the reading's `CityId`; `cod` is 200 |
| Upstream.FetchResult | Services/WeatherService.cs:238-257 | success exactly for a 2xx status, returning the body verbatim; 404 is the not-found error for the city, 401 the invalid-key error, any other failure an error carrying the numeric status |
| Persist.FindOrCreateCity | Services/WeatherService.cs:84-98 | a matching city is reused with the table unchanged; otherwise exactly one city with a fresh key and the payload's name, code and timezone is appended |
| Persist.FindOrCreateCondition | Services/WeatherService.cs:109-123 | a condition with equal main and description is reused and its icon left as it is; otherwise exactly one condition with a fresh key is appended |
| Persist.NewReading | Services/WeatherService.cs:131-144 | the new reading has the given key, references the city and the condition found or created for it, and always carries a time stamp (from `dt`), so the cache lookup can see it |
| Persist.Save | Services/WeatherService.cs:64-176 | a failing `BeginTransaction` fails the save before anything is read; a reported database failure is always the call that threw (its success condition is SaveSucceedsIff) |
| Persist.SaveFromCondition | Services/WeatherService.cs:102-167 | from the condition on, a reported database failure is always the call that threw |
| Persist.SaveFromReading | Services/WeatherService.cs:126-167 | from the reading on, a reported database failure is always the call that threw |
| Persist.SaveSucceedsIff | Services/WeatherService.cs:64-176 | the save commits exactly when every part it reads is well formed and none of the database calls it makes fails (`BeginTransaction`, the city and condition queries, each `SaveChanges`, the commit); what it commits depends only on the store and the payload |
| Persist.RequiredPartsMissing | Services/WeatherService.cs:76-163 | a missing name, sys, weather[0], main, clouds, wind, dt, sunrise or sunset makes the save fail |
| Persist.CommitAppends | Services/WeatherService.cs:131-167 | a commit leaves existing rows untouched, adds a city or condition exactly when none matched, adds one reading, one wind and one sun, and the wind, the sun and the reading reference the new reading, the city and the condition |
| Persist.CityFoundAfterAppend | Services/WeatherService.cs:84-96 | a created city is what the next lookup by that name finds |
| Persist.ConditionFoundAfterAppend | Services/WeatherService.cs:109-122 | a created condition is what the next lookup by its main name and description finds |
| Persist.HasCityGrows | Data/WeatherDbContext.cs:108-111 | appending rows keeps every city key resolvable |
| Persist.HasConditionGrows | Data/WeatherDbContext.cs:113-116 | appending rows keeps every condition key resolvable |
| Persist.HasCurrentGrows | Data/WeatherDbContext.cs:131-134 | appending rows keeps every reading key resolvable |
| Persist.AppendCityKeepsKeysUnique | Services/WeatherService.cs:89-96 | appending a city with a fresh key keeps city keys unique |
| Persist.AppendConditionKeepsKeysUnique | Services/WeatherService.cs:115-122 | appending a condition with a fresh key keeps condition keys unique |
| Persist.CommitKeepsKeysUnique | Services/WeatherService.cs:84-167 | a commit keeps the keys of all five tables unique |
| Persist.CommitKeepsReadingReferences | Data/WeatherDbContext.cs:108-116 | after a commit every reading references an existing city and condition |
| Persist.CommitKeepsWindSunReferences | Data/WeatherDbContext.cs:64-67 | after a commit every wind and sun row references an existing reading |
| Persist.CommitPreservesValid | Services/WeatherService.cs:84-167 | a commit preserves the store invariant |
| Persist.SavePreservesValid | Services/WeatherService.cs:64-176 | a successful save preserves the store invariant |
| Persist.SaveAppends | Services/WeatherService.cs:131-167 | a successful save appends exactly one reading, one wind and one sun, creates at most one city and one condition, leaves existing rows untouched, and links the new rows to each other |
| Persist.CommitTwiceReuses | Services/WeatherService.cs:84-123 | committing the same city and condition fields again leaves the city and condition tables unchanged and references the same rows |
| Persist.SaveTwiceReusesCityAndCondition | Services/WeatherService.cs:84-123 | find-or-create is idempotent: saving the same payload twice creates its city and condition at most once |
| Persist.SaveKeepsRowsDistinct | Services/WeatherService.cs:84-123 | if no two cities match by name and no two conditions match, that stays so after a save |
| CacheRoundTrip.LoadCommitted | Services/WeatherService.cs:36-40 | the reading a commit adds loads with its own city, condition, one wind and one sun |
| CacheRoundTrip.RowsOfNew | Data/WeatherDbContext.cs:64-67 | a row appended under a reading no earlier row references is that reading's only row |
| CacheRoundTrip.RenderRows | Services/WeatherService.cs:183-223 | a reading loaded with its rows renders their values: measurements, wind, sun, visibility, dt, condition name, city name and timezone |
| CacheRoundTrip.RenderCommitted | Services/WeatherService.cs:178-227 | the reading a commit adds renders the decoded fields |
| CacheRoundTrip.FieldsReproduce | Services/WeatherService.cs:135-162 | a rendering of what the save read from a payload gives back that payload's measurements, with absent values as null and visibility back in metres or 10000 |
| CacheRoundTrip.CreatedCityEchoed | Services/WeatherService.cs:89-94 | a city the save created renders back the payload's name, country and timezone |
| CacheRoundTrip.RenderAfterSave | Services/WeatherService.cs:64-227 | the stored reading renders back the fetched payload's measurements, its condition, and the name of the city matching the payload's name |
| CacheRoundTrip.FindCityRespectsSameName | Services/WeatherService.cs:31 | queries that match case-insensitively find the same city |
| CacheRoundTrip.SavedReadingIsServed | Services/WeatherService.cs:30-50 | after a save, a lookup by the payload's city name while its `dt` is inside the window is a cache hit |
| Weather.GetWeather | Services/WeatherService.cs:27-62 | a provider call is made exactly on a cache miss whose queries succeed; a failing cache query reports the database failure; a hit renders the cached reading with the store unchanged; a successful miss returns the body verbatim and saves it; any failure leaves the store unchanged and reports the query, fetch or save error |
| Weather.GetWeatherPreservesValid | Services/WeatherService.cs:27-62 | every lookup preserves the store invariant |
| Weather.FetchAddsOneReading | Services/WeatherService.cs:53-61 | a successful miss adds exactly one reading, one wind and one sun and leaves existing rows untouched |
| Weather.SecondLookupHitsCache | Services/WeatherService.cs:30-61 | after a successful miss for a city whose name matches the query, a lookup inside the window makes no provider call, whatever the provider would answer |
| Weather.FetchedBodyRenderedBack | Services/WeatherService.cs:53-61 | the body returned on a miss is what the stored reading renders back, up to the fields the tables keep |
| Weather.WeatherService.constructor | Services/WeatherService.cs:15-25 | the service starts over the given tables, which must keep the store invariant, with no requests made, and keeps the invariant |
| Weather.WeatherService.GetWeatherByCity | Services/WeatherService.cs:27-62 | the response and the new tables are those of `GetWeather`; a hit or a failed cache query sends no request and a miss exactly one; the store invariant, required on entry, holds on exit |
| Weather.WeatherService.FetchWeatherFromApi | Services/WeatherService.cs:229-258 | one request is logged and the result is the status classification; the tables are unchanged |
| Weather.WeatherService.SaveWeatherToDatabase | Services/WeatherService.cs:64-176 | on success the tables are the committed store; on failure they are the tables before the call (rollback) and the error is the save's |
| Weather.WeatherService.ApplySave | Services/WeatherService.cs:67-98 | the step-by-step reads, queries and appends reach the committed store, or stop at the save's first error |
| Weather.WeatherService.ApplyFromCondition | Services/WeatherService.cs:102-123 | from the condition on, the step-by-step reads, query and appends reach the committed store, or stop at the save's first error |
| Weather.WeatherService.ApplyFromReading | Services/WeatherService.cs:126-167 | from the reading on, the appends of the reading, the wind and the sun and the commit reach the committed store, or stop at the save's first error |
| Paging.CeilDiv | DTO/PagedResponseDto.cs:9 | the least integer not below the exact quotient |
| Paging.CeilDivBounds | DTO/PagedResponseDto.cs:9 | for a positive divisor, `r * b >= a` and `(r - 1) * b < a` |
| Paging.PagedResponse.TotalPages | DTO/PagedResponseDto.cs:9 | `TotalPages` is the ceiling of the exact quotient `TotalCount / PageSize`: not below it, and less than one above it |
| Paging.PagedResponse.HasPreviousPage | DTO/PagedResponseDto.cs:10 | for a positive page size, there is a previous page exactly when this page skips some items |
| Paging.PagedResponse.HasNextPage | DTO/PagedResponseDto.cs:11 | there is a next page exactly when the page number is below the exact quotient `TotalCount / PageSize` |
| Paging.TotalPagesBounds | DTO/PagedResponseDto.cs:9 | for `PageSize > 0`, `TotalPages * PageSize >= TotalCount` and `(TotalPages - 1) * PageSize < TotalCount` |
| Paging.TotalPagesIsCeiling | DTO/PagedResponseDto.cs:9 | a page count satisfies both bounds exactly when it is `TotalPages`, the integer ceiling |
| Paging.NoItemsNoPages | DTO/PagedResponseDto.cs:9-11 | `TotalCount = 0` gives no pages and no next page for any `PageNumber >= 0` |
| Paging.HasNextPageIff | DTO/PagedResponseDto.cs:9-11 | for `PageSize > 0`, `HasNextPage` exactly when `TotalCount > PageNumber * PageSize` |
| UserService.EmailLeTotal | Services/UserService.cs:14 | any two emails are ordered one way or the other |
| UserService.EmailLeTransitive | Services/UserService.cs:14 | the email order is transitive |
| UserService.Insert | Services/UserService.cs:14 | insertion adds exactly the one user |
| UserService.InsertSorted | Services/UserService.cs:14 | insertion keeps the users ordered by email |
| UserService.OrderByEmail | Services/UserService.cs:14 | `OrderBy(u => u.Email)` is ordered by email and a permutation of the users |
| UserService.ToDto | Services/UserService.cs:17-22 | id and email copied; the role is the user's roles, or "User" when null |
| UserService.Skip | Services/UserService.cs:15 | `Skip(n)` drops the first n, all of them, or none when n is not positive |
| UserService.Take | Services/UserService.cs:16 | `Take(n)` keeps the first n, or all, and none when n is not positive |
| UserService.PageOffset | Services/UserService.cs:15 | the number of users skipped is never negative for a page number and a page size of at least 1 |
| UserService.GetUsers | Services/UserService.cs:9-32 | the corrected listing, equal to the code's while the offset fits in an `int` (UserService.AsWrittenAgreesWhileOffsetFits): the total count is the number of users; the page number and size are echoed; the page has at most `pageSize` items and is the email-ordered users from the unbounded offset `(pageNumber - 1) * pageSize` on, each mapped to its DTO |
| UserService.PageInEmailOrder | Services/UserService.cs:14-16 | the items of a page are in email order |
| UserService.UserOnItsPage | Services/UserService.cs:14-16 | the user at position i of the email order is item `i % pageSize` of page `i / pageSize + 1`, and that page is within `TotalPages` |
| UserService.UserAtPosition | Services/UserService.cs:14-16 | the user j places past the offset of page n is item j of that page, and page n is within `TotalPages` |
| UserService.ItemOnPage | Services/UserService.cs:15-16 | item j of a page is the user j places after the page's offset |
| UserService.HasNextIffNextPageNonEmpty | Services/UserService.cs:9-31 | `HasNextPage` exactly when the following page has users on it |
| UserService.PreviousPageIsFull | Services/UserService.cs:9-31 | a non-empty page with a previous page follows a full page |
| UserService.PageBeyondEndIsEmpty | Services/UserService.cs:15-16 | a page starting at or past the last user is empty |
| UserService.Wrap32 | Services/UserService.cs:15 | 32-bit two's complement wrap-around: in range and congruent modulo 2^32 |
| UserService.PageOffsetAsWritten | Services/UserService.cs:15 | the offset as the 32-bit code computes it: in the `int` range, congruent to the true offset modulo 2^32, and equal to it whenever the true offset fits in an `int` |
| UserService.GetUsersAsWritten | Services/UserService.cs:9-32 | the listing as written, with the offset computed in 32-bit `int` |
| UserService.AsWrittenAgreesWhileOffsetFits | Services/UserService.cs:15 | while the offset is below 2^31 the listing as written and the corrected one agree |
| UserService.OffsetOverflowServesFirstPage | Services/UserService.cs:15 | page 67108865 of size 64 has offset 2^32, which wraps to 0, so the first page is served where the true page is empty |
| UsersController.ClampedPageNumber | controllers/UsersController.cs:18 | the page number is at least 1, and one already at least 1 passes through |
| UsersController.ClampedPageSize | controllers/UsersController.cs:19 | the page size is from 1 to 100, and one already in that range passes through |
| UsersController.ClampBounds | controllers/UsersController.cs:18-19 | the service gets a page number from 1 and a page size from 1 to 100; in-range values pass through; a page number below 1 becomes 1; a page size out of range becomes 5, not the nearest bound |
| UsersController.ClampIdempotent | controllers/UsersController.cs:18-19 | clamping twice is clamping once |
| UsersController.GetUsers | controllers/UsersController.cs:14-22 | the clamped arguments are in range; omitted parameters default to page 1 of size 5; the result is the corrected service's page (UserService.GetUsers) for the clamped arguments |

## Left out

- HTTP transport and URL construction (Services/WeatherService.cs:231-236): network I/O. Only the status classification and the body are modelled; the provider's answer is the parameter `reply`.
- JSON text, `JsonDocument.Parse` and `JsonSerializer.Serialize`: a foreign library. The payload is a datatype, so malformed text and a value of the wrong JSON kind (a string where a number is read, a non-object array element) are not modelled.
- Floating point: numbers are exact reals, so the `/ 1000.0` of visibility (Services/WeatherService.cs:142) and the `(int)(v * 1000)` of the rendering (line 219) are exact in the model. In IEEE doubles they are not: `1001 / 1000.0 * 1000` is just below 1001, so a stored visibility of 1001 m is rendered as 1000, and likewise for other visibilities.
- CacheRoundTrip.FieldsReproduce: claims visibility comes back unchanged; the program renders one metre less for visibilities such as 1001 m (see the floating-point line).
- CacheRoundTrip.RenderAfterSave: claims visibility comes back unchanged; the program renders one metre less for visibilities such as 1001 m. It also claims `weather[0].main` and, for a created city, `sys.country` come back as saved; the program reads them back from fixed-length columns (Data/WeatherDbContext.cs:41-45 and 83-86), so a cache hit renders them padded with trailing spaces (`"GB"` as `"GB "`, `"Clouds"` followed by 44 spaces). The save's condition lookup still reuses the padded row, because SQL `=` ignores trailing spaces.
- CacheRoundTrip.CreatedCityEchoed: claims the created city's country code comes back as saved; on a cache hit the program renders it from the fixed-length `char(3)` column (Data/WeatherDbContext.cs:41-45), padded with trailing spaces (`"GB"` as `"GB "`).
- Weather.FetchedBodyRenderedBack: claims visibility comes back unchanged; the program renders one metre less for visibilities such as 1001 m.
- WeatherJson.OptionalInt32 and WeatherJson.RequiredInt64: a JSON number is its value, not its text. `GetInt32` and `GetInt64` throw `FormatException` on an integral value written with a fraction or an exponent (`1012.0`, `1.7e9`), which rolls the save back; the model accepts such a value.
- Render.TruncateToInt: a visibility whose truncation leaves the 32-bit range is not wrapped or saturated as the `(int)` cast would be.
- EF Core and SQL Server mechanics: `Include`, identity generation (fresh keys model it), column lengths, `nchar` padding, collation, and the connection string. Only the foreign keys are kept, as the store invariant.
- StoreQueries.LowerMapsEachChar: `ToLower` lower-cases ASCII letters only, not culture-specific or non-ASCII case mappings. A database collation that compares case-insensitively by itself is not modelled.
- UserService.OrderByEmail: emails are ordered by character code (ordinal). The database collation's order, and the order of equal emails, are not modelled.
- UserService.GetUsers: computes the offset without 32-bit overflow, which the code does not (see Findings); UsersController.GetUsers calls this corrected listing. A negative `Skip` count skips nothing, as in LINQ; SQL Server rejects a negative OFFSET. Only the 32-bit overflow can produce one, and the corrected offset never does for a page number and size of at least 1.
- UserService.OffsetOverflowServesFirstPage: requires at most 2^31 - 1 users, since `CountAsync` returns an `int`.
- Paging.PagedResponse.TotalPages: requires a non-zero `PageSize`. Dividing by zero gives an infinity or NaN, whose `(int)` cast depends on the runtime. The controller never passes 0.
- Concurrency: simultaneous misses racing to create the same city or condition, and async/await. The model is sequential.
- Logging throughout WeatherService, and the text of exception messages. Errors are datatype constructors carrying the city or status code.
- controllers/WeatherController.cs: it only forwards to the service and turns every exception into status 400.
- Authentication and authorisation: the `Admin` role check on UsersController.GetUsers, AuthController, JWT, cookies, CORS and Swagger. Services/IAuthService.cs and the `AuthService` that Program.cs:28 registers are not modelled.
- UsersController.GetUsers: a query value that does not bind to an `int` (model binding answers 400) is not modelled; an omitted parameter is `None`.
- Clock resolution: `now` is whole Unix seconds, as `ToUnixTimeSeconds` yields.

## Findings

| source | as written | input that shows it | evidently intended | confidence | as-written member | corrected member |
|---|---|---|---|---|---|---|
| Services/UserService.cs:15 | `Skip((pageNumber - 1) * pageSize)` multiplies in 32-bit `int`, which wraps silently | pageNumber = 67108865, pageSize = 64, at least one user: the offset 2^32 wraps to 0 and the first page is returned (both values pass the controller's clamp) | a page past the last user is empty, so the offset should be computed without overflow | not executed | UserService.OffsetOverflowServesFirstPage | UserService.PageBeyondEndIsEmpty |
