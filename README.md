# Product service core, modelled in Dafny

This project models the product CRUD path of a small Go gRPC service and proves
properties of it. A request enters the gRPC handler (`ProductService`), which
checks it and calls the orchestrator (`App`). The orchestrator mints ids and
wraps failures with logging data. It calls the repository, which puts an
in-memory TTL cache in front of a PostgreSQL store.

The modules follow the Go packages:

- `Log` (pkg/log/log_handler.go): the `LogData` record a request context carries, the four
  `With*` setters, and the attribute selection of `MyJSONLogHandler.Handle`.
- `Models` (pkg/models): `Product`, `ProductDigest`, the error values, and Go's `int32(x)` conversion.
  `Error.Wrapped` stands for `log.ErrorLogData`; it lives here because a Dafny datatype is closed.
- `ErrorLog` (pkg/log/error_log_handler.go): `WrapError`, `ErrorContext`, and `errors.Is` / `errors.As` as
  they behave on these errors.
- `Db`: a stand-in for the generated `db.Queries` over PostgreSQL. It holds rows keyed by id with
  unique names, a listing order, and an `outage` field through which any other store error can occur.
  `missingRowFails` says whether Update and Delete of an absent id report `ErrNoRows` or succeed
  without effect. The generated query code is not part of this model, so this is a parameter.
  The listing order is taken to be insertion order: Create appends the new id to `order`. The
  contracts above the store are stated against `order`, so they do not depend on that choice.
- `Repository` (repository/repository.go): class `Repository` with the `cache` map. Two ghost logs
  record its work: `trace` lists the store and cache steps in order, and `calls` lists each API
  call with its results.
- `App` (app/app.go): class `App` over the repository.
- `Handler` (handler/handler.go): class `ProductService`, the status codes, and the reply mapping.
- `Scenarios`: whole-stack runs on a fresh store.

What is proved, in short:

- Ordering. Every cache `Add` comes right after a store Create or Update of that id that returned
  no error. Every cache `Delete` comes right after a store Delete of that id that returned no
  error. This is `WritesFollowStore`, kept by every repository method. The methods append these
  steps to the ghost trace themselves, next to the calls they describe, so the rule holds by
  construction. The guarantee that matters lies in the methods' own clauses: a store failure leaves
  the cache as it was, and a store success is followed by exactly the matching cache change.
- Coherence. `Repository.Coherent()` says every cached product is what the store holds for that
  id. Create keeps it when the price fits in 32 bits. Update keeps it when, in addition, the id
  exists or the store rejects absent ids. Delete and cache expiry always keep it. Through the
  handler, prices are int32 on the wire, so Create keeps it unconditionally.
- Error flow. A duplicate name reaches the client as `Internal` "already exists", never as
  `AlreadyExists`. The app wraps the repository error in `ErrorLogData`, which has no `Unwrap`, so
  `errors.Is` at handler/handler.go:53 does not match it. In the same way, the `NotFound` branches of
  Delete and Update (handler/handler.go:107, 132) cannot be reached with this repository: it returns
  store errors unchanged, and none of them is `ErrNotFound`.
- An `UpdateRequest` without a product panics (handler/handler.go:117-120 reads `prod.Name` when `prod` is nil).

## Where the code defeats its own intent

The model follows the code in each case.

- Duplicate name. handler/handler.go:53 tests `errors.Is(err, models.ErrAlreadyExists)` to answer
  `AlreadyExists`, and handler/my_test.go:125-130 expects `codes.AlreadyExists` for a duplicate.
  But app/app.go:39 wraps every repository error in `log.ErrorLogData`, which has no `Unwrap`, so the
  test at line 53 never matches. Through this repository a duplicate name is answered `Internal`
  "already exists" (`Handler.DuplicateNameIsInternal`, `Scenarios.DuplicateName`).
- Id-generator failure. app/app.go:30-31 has `return "", models.ErrInternal` commented out, and
  line 32 returns the generator's own error instead. The handler answers `Internal` with that error's text.
- Get on a cache miss reads the store and does not fill the cache (repository/repository.go:70-81).
  Only Create and Update write the cache.
- The code refers to `models.ErrAlreadyExists`, but pkg/models/errors.go:12 defines `ErrUniqueViolation`
  ("already exists"). The model has one value, `ErrAlreadyExists`, with that text.

## Model

| member | source | states |
|---|---|---|
| `Log.WithUserID` | pkg/log/log_handler.go:65-71 | the new context's LogData is the old one (the empty one when absent) with only UserID set |
| `Log.WithService` | pkg/log/log_handler.go:73-79 | the same for Service |
| `Log.WithProductID` | pkg/log/log_handler.go:81-87 | the same for ProductID |
| `Log.WithProductName` | pkg/log/log_handler.go:89-95 | the same for ProductName |
| `Log.WithOnEmptyContext` | pkg/log/log_handler.go:65-95 | on a context without LogData, each setter yields a LogData with only its own field set |
| `Log.WithLastWriterWins` | pkg/log/log_handler.go:65-95 | setting a field twice keeps only the second value |
| `Log.WithCommute` | pkg/log/log_handler.go:65-95 | setters of different fields commute (all six pairs) |
| `Log.NonEmptyMembers` | pkg/log/log_handler.go:38-49 | the selection keeps exactly the fields whose value is non-empty |
| `Log.Handle` | pkg/log/log_handler.go:36-52 | the record gains exactly the non-empty LogData fields, after its existing attributes |
| `Log.AttrsPresence` | pkg/log/log_handler.go:37-50 | attribute user_id (service, product_id, product_name) is added iff that field is non-empty, with that field's value |
| `Log.KeyPresence` | pkg/log/log_handler.go:38-49 | the i-th key is added iff the i-th LogData field is non-empty |
| `Log.AttrsOfBareContext` | pkg/log/log_handler.go:37 | nothing is added when the context holds no LogData |
| `Log.AttrsInOrder` | pkg/log/log_handler.go:38-49 | keys appear at most once each, in the order user_id, service, product_id, product_name |
| `Log.NonEmptyKeepsRank` | pkg/log/log_handler.go:38-49 | dropping empty fields keeps the others in their order |
| `Models.ToInt32` | repository/repository.go:46 | `int32(x)` is the one int32 congruent to x modulo 2^32, and is x itself when x fits |
| `Models.ToInt32Identity` | repository/repository.go:116 | the conversion leaves x unchanged iff x fits in 32 bits |
| `Models.Error.Message` | pkg/models/errors.go:10-12 | the `Error()` text of each error: the sentinels' fixed texts, the PostgreSQL error's "severity: message (SQLSTATE code)", and for an ErrorLogData its inner error's text (pkg/log/error_log_handler.go:16-18) |
| `ErrorLog.Is` | handler/handler.go:53 | `errors.Is(err, target)`: err is target, since no error here has an Unwrap chain to search |
| `ErrorLog.WrapError` | pkg/log/error_log_handler.go:20-26 | the wrapper holds the context's LogData (empty when absent) and the unchanged error, and has the same text |
| `ErrorLog.WrapKeepsMessage` | pkg/log/error_log_handler.go:16-18 | `ErrorLogData.Error()` is the wrapped error's text |
| `ErrorLog.AsErrorLogData` | pkg/log/error_log_handler.go:30 | `errors.As` finds an ErrorLogData exactly when the error is one |
| `ErrorLog.ErrorContext` | pkg/log/error_log_handler.go:28-34 | a wrapper's LogData replaces the context's; any other error leaves the context as it was |
| `ErrorLog.WrapRoundTrip` | pkg/log/error_log_handler.go:20-34 | unwrapping in any context restores the LogData of the context the error was wrapped in |
| `ErrorLog.ErrorContextReplaces` | pkg/log/error_log_handler.go:31 | no field of the receiving context's LogData survives: replacement, not merge |
| `ErrorLog.ErrorContextIgnoresPlainErrors` | pkg/log/error_log_handler.go:33 | a plain error leaves the context unchanged |
| `ErrorLog.WrapHidesTarget` | pkg/log/error_log_handler.go:8-18 | without Unwrap, `errors.Is(WrapError(ctx, e), e)` is false |
| `Repository.StoreRoundTrip` | repository/repository.go:46 | a product stored as int32 reads back unchanged iff its price fits in 32 bits |
| `Repository.AppendKeepsOrder` | repository/repository.go:58 | appending store steps followed by their cache steps keeps the ordering rule |
| `Repository.ToDigests` | repository/repository.go:92-99 | one digest per row, same order, copying ID, Name and Price |
| `Repository.Repository.Create` | repository/repository.go:42-64 | store first; a unique violation (code 23505) becomes ErrAlreadyExists, other errors pass unchanged, and the cache stays as it was; on success the cache maps id to the product and nothing else changes; coherence is kept when the price fits |
| `Repository.Repository.Get` | repository/repository.go:66-82 | a hit returns the cached value without a store call; a miss asks the store, maps no-rows to ErrNotFound with an empty product, passes other errors, and leaves the cache unchanged; with a coherent cache the result is the store's row |
| `Repository.Repository.GetAll` | repository/repository.go:84-101 | cache untouched; a store error passes through; no rows gives ErrNotFound; otherwise one digest per store row, copying its id, name and price, in the store's listing order |
| `Repository.Repository.Delete` | repository/repository.go:103-110 | a store error leaves the cache unchanged; on success only id leaves the cache; coherence is kept |
| `Repository.Repository.Update` | repository/repository.go:112-124 | a store error leaves a possibly stale entry; on success the cache maps id to prod; an accepted update of an absent id caches an id the store lacks |
| `Repository.Repository.Expire` | repository/repository.go:62 | TTL expiry drops one entry and keeps the ordering rule and coherence |
| `App.App.Create` | app/app.go:27-42 | an id failure returns ("", that error) with no repository call; otherwise one repository call with the minted id and the product; success returns that id; failure returns "" and an ErrorLogData with the inner error's text; during an outage the repository fails with the outage's error, or ErrAlreadyExists when that error is a unique violation |
| `App.App.Get` | app/app.go:44-46 | exactly one repository Get, and its result is returned: a hit gives the cached product; a miss gives the store's row, ErrNotFound for an absent id, or the outage's error |
| `App.App.GetAll` | app/app.go:48-50 | exactly one repository GetAll, and its result is returned; an outage gives its error; an empty store gives ErrNotFound; otherwise the digests are exactly the store's rows in its order |
| `App.App.Delete` | app/app.go:52-54 | exactly one repository Delete, and its error is returned: an outage fails with its error and changes nothing; a present id is removed from store and cache; an absent id leaves the rows as they were and fails only with a store that rejects absent ids |
| `App.App.Update` | app/app.go:57-72 | exactly one repository Update with the product as given: no read, no merge; an outage fails with its error; a name held by another product fails with the store's unique violation; a failure leaves cache and store rows unchanged |
| `Handler.Incomplete` | handler/handler.go:37 | a product is refused when its name is empty, its price is not positive, or its description is empty (the same test as line 120) |
| `Handler.CreateReply` | handler/handler.go:52-63 | success returns the app's id; `errors.Is(err, ErrAlreadyExists)` gives AlreadyExists with the name; any other error gives Internal with its text |
| `Handler.GetReply` | handler/handler.go:71-82 | NotFound "<id> not found" iff `errors.Is(err, ErrNotFound)`; other errors Internal; success converts the price to int32 |
| `Handler.ChangeReply` | handler/handler.go:106-112 | Delete and Update: NotFound with the error text iff `errors.Is(err, ErrNotFound)`, else Internal; success is an empty reply |
| `Handler.DigestMessages` | handler/handler.go:93-100 | one wire digest per digest, same order, copying Id and Name, price as int32 |
| `Handler.DuplicateNameIsInternal` | handler/handler.go:53-60 | a wrapped ErrAlreadyExists yields Internal "already exists"; the bare one would yield AlreadyExists |
| `Handler.WrappedNeverAlreadyExists` | handler/handler.go:53 | no ErrorLogData ever yields AlreadyExists |
| `Handler.StoreErrorsAreInternal` | handler/handler.go:107-110 | a store error from Delete or Update becomes Internal, never NotFound |
| `Handler.ProductService.Create` | handler/handler.go:29-64 | InvalidArgument iff name, price or description is missing, with no app call; a failed app call leaves cache and store rows unchanged; a duplicate name yields Internal; an outage yields Internal with its text; AlreadyExists never occurs; coherence is kept |
| `Handler.ProductService.Get` | handler/handler.go:66-83 | an empty id gives InvalidArgument with no app call; otherwise the reply maps the app's answer; on a miss, or with a coherent cache, it is the store's row, NotFound "<id> not found", or Internal for an outage |
| `Handler.ProductService.GetAll` | handler/handler.go:85-102 | ErrNotFound becomes an empty success; other errors give Internal; success converts each digest in order, so the reply lists the store's products in the store's order |
| `Handler.ProductService.Delete` | handler/handler.go:104-113 | no id check; the reply maps the app's error; an outage, or an absent id with a store that rejects it, gives Internal and changes nothing; a failure is always Internal and leaves cache and store rows unchanged |
| `Handler.ProductService.Update` | handler/handler.go:115-138 | a missing product panics; an incomplete one gives InvalidArgument with no app call; otherwise one app Update; an outage or a name held by another product gives Internal with the store's text; a failure is always Internal and leaves cache and store rows unchanged |
| `Scenarios.DonutLifecycle` | repository/repository.go:42-124 | Create, Get, Update, Get on a fresh store: each read sees the last write |
| `Scenarios.DeleteThenRead` | handler/handler.go:66-113 | after Create and Delete, Get answers NotFound "X not found" and GetAll an empty success |
| `Scenarios.DuplicateName` | handler/handler.go:51-61 | a second Create with the same name fails as Internal "already exists" |
| `Scenarios.RenameToTakenName` | repository/repository.go:112-124 | renaming a product to a name another product holds is answered Internal with the unique-violation text, and a read still shows the old product |
| `Scenarios.UpdateOfAbsentId` | repository/repository.go:112-124 | with a store that accepts absent ids, Get answers a product the store does not have |

## Left out

- gRPC transport and server wiring (handler/setup.go), status encoding and protobuf getters: a reply is a value of `Reply`.
- The generated `db.Queries`, pgx and its pool, `repository.New` and the column names of repository/db/vars.go: the store is the `Db.Queries` stand-in; `created_at` is not modelled.
- The cache library and its clock: the cache is a map, and expiry is `Repository.Expire`, which may drop any entry at any time.
- UUIDv7 generation: its result is the `minted` parameter; uniqueness and time order are not modelled.
- slog plumbing: `Enabled`, `WithAttrs`, `WithGroup`, the downstream `Handle` and its error, and the log calls in handler/handler.go (including the `ErrorContext` call at line 59).
- The other values a Go context carries: a context is only the LogData it may hold.
- Concurrency: the shared cache's thread safety and pool arbitration; every operation runs alone.
- `FullProduct` and its time fields.
- Go's 64-bit `int`: product prices are unbounded integers; only `int32` conversion is modelled.
- `errors.Is` and `errors.As` on Unwrap chains: no error in this model unwraps, so both look at the error itself.
- The exact text of a `*pgconn.PgError` is modelled as severity, message and SQLSTATE; the other fields are not.
