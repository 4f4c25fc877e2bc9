# Advertisement service: record store and search

This project models the core of an advertisement-listing service. Each
advertisement has a title, an optional description, a price and an author.
The service lets clients create, fetch, partially update, delete and search
these records. The repository has two variants, and both are modelled:

- **The durable variant** (`app/crud.py`, `app/schemas.py`) is in module
  `Crud`, with its request schemas in module `Schemas`.
  - The table is the class `Crud.AdTable`. It holds the committed rows
    (`map<int, AdvertisementOut>`) and the next value of the primary key's
    sequence.
  - `create_ad`, `get_ad`, `update_ad` and `delete_ad` are its methods.
  - The `setattr` loop of `update_ad` is the method `Crud.ApplyUpdate`. It is
    proved against `Crud.Merged`, which defines the update field by field.
  - `search_ads` is a pure function. It first builds the list of `.where(...)`
    clauses (`Crud.WhereClauses`), then keeps the rows that satisfy all of
    them, then applies OFFSET/LIMIT.
  - The pydantic constraints are pure predicates and validation functions.
- **The in-memory prototype** (`main.py`) is in module `Prototype`.
  - The global `database` dict and the `next_id` counter are the fields of
    the class `Prototype.Database`.
  - The four route handlers that change or read the store are its methods.
  - `search_ads` is a pure function made of four successive comprehensions.
    It is proved equal to a single filter by the conjunction of the supplied
    filters.

Shared pieces:

- `Wrappers` holds `Option` and `Patch`. A `Patch` is one entry of a sparse
  field mask: either `Unset` or `Set(v)`.
- `Text` holds ASCII lower-casing and substring matching.
- `Listing` holds filtering, pagination and the ascending-id listing of a
  keyed table.

The clock and the storage engine are outside the model:

- The creation time (`created_at`) is a parameter of `CreateAd`.
- Each call to the durable store is one atomic transaction.
- The only storage failure modelled is the NOT NULL violation on update.

The two variants differ, and each is modelled as written:

- The prototype requires `description` and puts no length or price
  constraints on any field.
- The prototype keeps a `created_at` that the client supplies.
- The prototype search has no description filter, no exact-price filter and
  no pagination.
- In the durable variant, an explicit JSON null for `title`, `price` or
  `author` passes validation and then fails at commit (`Crud.IntegrityError`).

## Model

| member | source | states |
|---|---|---|
| `Text.Lower` | main.py:91 | only the letters A–Z change; each becomes its lower-case letter, and no upper-case letter is left |
| `Text.LowerStr` | main.py:91 | `s.lower()` keeps the length and lower-cases each character in place |
| `Text.MatchIgnoresCase` | app/crud.py:50-54 | the substring match gives the same answer when either side is lower-cased first, so it ignores case |
| `Listing.Filter` | main.py:91 | a comprehension keeps exactly the elements that satisfy the condition, and never more than it was given |
| `Listing.FilterTwice` | main.py:90-97 | two successive comprehensions equal one filter by the conjunction of their conditions |
| `Listing.AscendingIsTable` | main.py:89 | the listing of the store holds every stored record and nothing else, and is as long as the store |
| `Listing.Paginate` | app/crud.py:62 | OFFSET/LIMIT: at most `limit` items; item `i` of the page is item `offset + i` of the input; empty when `offset` is past the end |
| `Listing.PagesAdjoin` | app/crud.py:62 | consecutive pages cover the sequence without gap or overlap |
| `Schemas.Violations` | app/schemas.py:5-9 | lists a field exactly when it breaks its bound (title 1–100, description at most 1000, price > 0, author 1–50); no field twice; empty exactly when the payload is valid |
| `Schemas.ValidateCreate` | app/schemas.py:11-12 | a creation payload is accepted, unchanged, exactly when it meets the base constraints; otherwise it is rejected with every violated field |
| `Schemas.UpdateViolations` | app/schemas.py:14-18 | lists an update field exactly when it carries a value that breaks the create bound; an unset field or a null is never listed |
| `Schemas.ValidateUpdate` | app/schemas.py:14-18 | an update is accepted, unchanged, exactly when every supplied value meets its bound; otherwise it is rejected with every violated field |
| `Schemas.UpdateBoundsMatchCreate` | app/schemas.py:14-18 | each update field has the same bound as on create; the empty update is valid |
| `Schemas.OutIsBasePlusIdentity` | app/schemas.py:20-22 | an output record is exactly a base record plus `id` and `created_at` |
| `Crud.UpdateData` | app/crud.py:21 | `model_dump(exclude_unset=True)` holds a pair for a field exactly when that field is set, with its value; it is empty exactly for the empty mask |
| `Crud.NullWriteIffWritesNull` | app/crud.py:21-23 | the loop writes NULL into a NOT NULL column exactly when the request sends an explicit null for title, price or author |
| `Crud.ApplyUpdate` | app/crud.py:22-23 | the `setattr` loop over the set fields produces the field-wise merge of the row and the request |
| `Crud.AssignIsMerged` | app/crud.py:21-23 | applying the dumped pairs in order is the field-wise merge |
| `Crud.MergedWritesOnlySetFields` | app/crud.py:21-23 | an update assigns exactly the set fields; `id`, `created_at` and the unset fields keep their values; an empty update changes nothing |
| `Crud.MergedStaysValid` | app/schemas.py:14-18 | a validated update keeps a valid row valid (the price stays positive, the title and author stay within bounds) |
| `Crud.MergedIdempotent` | app/crud.py:22-23 | sending the same update twice has the effect of sending it once |
| `Crud.WhereNarrows` | app/crud.py:49-50 | attaching a `.where` clause keeps exactly the rows that also satisfy that clause |
| `Crud.WhereMeansMatchesAt` | app/crud.py:47-60 | the accumulated clauses hold of a row exactly when the row meets every supplied filter: case-insensitive substring for title, description and author (a NULL description never matches), exact price, inclusive min/max |
| `Crud.WhereMeansMatches` | app/crud.py:47-60 | the same, for every row at once |
| `Crud.SearchAds` | app/crud.py:36-64 | a search returns at most `limit` rows, each a stored row that meets every supplied filter |
| `Crud.SearchIsPageOfMatches` | app/crud.py:62 | pagination comes after filtering: the result is the page at `offset` of the matching rows, in store order |
| `Crud.NoFiltersIsPage` | app/crud.py:47-62 | a search without filters is a page of all rows |
| `Crud.ContradictoryRangeIsEmpty` | app/crud.py:57-60 | `min_price > max_price` returns an empty list, not an error |
| `Crud.EmptyTextFiltersIgnored` | app/crud.py:49-54 | an empty title, description or author filter is ignored (a truthiness test), so it does not drop rows with a NULL description |
| `Crud.ZeroPriceStillFilters` | app/crud.py:55-56 | a price filter of 0 still applies (an `is not None` test) and, since stored prices are positive, matches nothing |
| `Crud.RedBikeExample` | app/crud.py:49-62 | for "Red Bike" at 50 and "Red Car" at 500, `title=Red&max_price=100` returns only the bike |
| `Crud.AdTable.constructor` | app/models.py:10 | an empty table whose id sequence starts at 1 |
| `Crud.AdTable.CreateAd` | app/crud.py:6-11 | stores every supplied field unchanged under a new id that is greater than every earlier id; records the creation time; the sequence advances by one; all other rows are unchanged |
| `Crud.AdTable.GetAd` | app/crud.py:13-15 | returns the row whose id equals the argument, or `None` when there is none; changes nothing |
| `Crud.AdTable.UpdateAd` | app/crud.py:17-26 | absent id: `None` and the table is unchanged; explicit null in a NOT NULL column: integrity error and the table is unchanged; otherwise only that row is replaced by its merge with the set fields |
| `Crud.AdTable.DeleteAd` | app/crud.py:28-34 | returns whether the id was present and removes exactly that row; the sequence is untouched, so the id is never reissued |
| `Crud.ListingIsTable` | app/crud.py:47 | the rows the query scans are every stored row once, in strictly ascending id order |
| `Crud.SearchReturnsStoredRows` | app/crud.py:62-64 | search results are stored rows, each at most once, in ascending id order |
| `Crud.Scenario` | app/crud.py:6-34 | create "Bike" at 10 → id 1 at time T0; update the price to 20 → title still "Bike", created_at still T0; delete → True; delete again → False; get → None |
| `Prototype.ModelCopyWritesOnlySetFields` | main.py:65-66 | `model_copy(update=...)` replaces exactly the set fields; `id`, `created_at` and the unset fields are kept |
| `Prototype.Database.constructor` | main.py:9-10 | an empty `database` with `next_id = 1` |
| `Prototype.Database.CreateAd` | main.py:41-46 | the record goes under key `next_id` with `id == next_id` and a client-supplied `created_at` if there is one; `next_id` grows by exactly 1; nothing else changes |
| `Prototype.Database.GetAd` | main.py:51-55 | the stored record for a present id, not-found otherwise; the store is unchanged |
| `Prototype.Database.UpdateAd` | main.py:60-68 | absent id: not-found and `database` is unchanged; otherwise only that entry is replaced by its copy with the set fields overwritten |
| `Prototype.Database.DeleteAd` | main.py:73-78 | removes exactly that key and answers deleted; for an absent key it answers not-found and changes nothing; `next_id` is untouched |
| `Prototype.SearchAds` | main.py:83-98 | the result is never longer than the store and holds only stored records |
| `Prototype.KeepIsFilter` | main.py:90-91 | a comprehension guarded by `if title:` is a filter by "not supplied, or holds" |
| `Prototype.SearchAdsIsConjunction` | main.py:89-98 | the four comprehensions equal one filter by the conjunction of the supplied filters, in store order |
| `Prototype.SearchAdsExactlyMatching` | main.py:89-98 | a record is in the result exactly when it is stored and meets every supplied filter |
| `Prototype.ContradictoryRangeIsEmpty` | main.py:94-97 | `min_price > max_price` returns an empty list |
| `Prototype.SearchReturnsStoredRecords` | main.py:89 | search results are stored records, each at most once, in ascending id order |
| `Prototype.Scenario` | main.py:41-78 | two creates get ids 1 and 2; deleting 1 succeeds and deleting it again is not-found; 1 is then not-found and 2 is still there |

## Left out

- HTTP routing, `HTTPException`, `Query` declarations and the health endpoints are left out. The 404 mapping is kept as a `NotFound` or `None` result. The search bounds (`1 <= limit <= 1000`, `offset >= 0`, price filters `>= 0`) are kept as `Crud.QueryBounds`.
- JSON parsing (missing or mistyped fields) and pydantic's error-message formatting are left out. Validation works on typed payloads and reports the list of violated fields.
- Lifespan, engine, sessions, `commit`/`refresh` and async/await are left out. Each store call is one atomic step, so concurrent last-writer-wins races are not modelled.
- The prototype's handlers are plain functions that the web framework runs on a thread pool. Each handler is treated as one atomic step, so the race in which two concurrent creates read the same `next_id` (main.py:43-45), overwrite one record and issue one id twice is not modelled.
- Storage failures other than the NOT NULL violation on update are left out; they would propagate as exceptions. Three are known:
  - Connection loss during any call.
  - A title, description or author containing the character U+0000. PostgreSQL rejects it in text columns, but a pydantic `str` accepts it, so `create_ad` and `update_ad` would fail at commit (app/crud.py:9, app/crud.py:24).
  - Exhaustion of the id sequence. `id` is a 32-bit integer column (app/models.py:10), so inserts fail once the sequence passes 2^31 − 1; `Crud.AdTable.nextId` is an unbounded integer.
- The clock is a parameter (`now`), both for the server-side default of `created_at` and for `datetime.now` in the prototype.
- Prices are `real`. Only comparisons are used, so IEEE corner cases such as NaN or rounding are not modelled.
- `ILIKE` treats `%` and `_` in the user's text as wildcards and `\` as the escape character, since the pattern `%{text}%` sets no ESCAPE clause (app/crud.py:50-54). For example, the title filter `50\` builds `%50\%`, which matches only titles ending in "50%", whereas `Crud.Holds` matches titles containing `50\`. Python's `lower()` and PostgreSQL also fold Unicode case. The model matches plain substrings and lower-cases ASCII letters only.
- Crud.ListingIsTable: the durable query has no `ORDER BY`, so the database may return rows in any order. The model assumes ascending id order. In the prototype this order is exact: ids are inserted in increasing order, and reassigning an existing key keeps its position in the dict.
- Crud.AdTable.CreateAd: the model advances the id sequence only on a successful insert. The real sequence also consumes values in transactions that fail. Either way, ids are never reused.
- Crud.AdTable.UpdateAd: an explicit null for title, price or author is written by the loop and rejected at commit, after which the transaction rolls back. The model checks for the null before the loop and returns `IntegrityError` with the table unchanged. The observable result is the same.
- Prototype.Database.UpdateAd: update fields take values only. An explicit JSON null would be stored by `model_copy` as `None` in a field typed `str`/`float`, and the model's record type cannot express that.
- `if not ad` in the prototype is modelled as "the id is absent". A stored pydantic model instance is always truthy.
