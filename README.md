# esp8266-temp-web: the `/data` endpoint, modelled in Dafny

The service ingests temperature readings from an ESP8266 device and serves them
back in pages. Each reading has a coefficient temperature (`tempCo`), a room
temperature (`tempRoom`) and a Unix timestamp. All of its decision logic is in
the `/data` handler of `main.go` and in the `readings` table that handler
writes and reads. This project models that handler and table:

- `readings.dfy` (module `Readings`) holds the values. These are the decoded
  POST payload, the reading the service answers with, and a table row.
  Temperatures are opaque IEEE-754 bit patterns that are only passed through.
- `strconv.dfy` (module `Strconv`) models `strconv.Atoi`: an optional sign,
  one or more decimal digits, and a value that fits in 64 bits. `Atoi` is
  proved to parse `Itoa`'s output back to the same integer. The converse does
  not hold: `Atoi` also accepts forms such as `+5`, `007` and `-0`, as Go does,
  and `Itoa` never produces them.
- `table.dfy` (module `ReadingsTable`) models the `readings` table as a class
  `Store`. It holds a sequence of rows and the next value of the SERIAL
  sequence. `Insert` appends one row with a fresh id. `QueryPage` answers
  `ORDER BY timestamp DESC LIMIT .. OFFSET ..`. Rows with equal timestamps may
  come back in any order. So a legal page (`IsPage`) is any window of SOME
  permutation of the table that is sorted by timestamp, descending. The store
  picks one such order, an insertion sort (`SortDesc`), and promises only
  `IsPage`. `PageStampsDetermined` proves that ties are the only freedom: any
  two legal pages carry the same timestamps in the same order.
- `handlers.dfy` (module `Handlers`) holds the request handling:
  - `limit` and `offset` resolution.
  - Timestamp defaulting.
  - The `rows.Next`/`Scan` loop (`ReadAll`).
  - `App.DataHandler`, which dispatches POST, GET and any other method.
  - The GET-only `/health` and `/` handlers.

Some inputs come from outside the handler, so they are parameters:
- The outcome of JSON decoding (`DecodeResult`).
- The clock (`now`).
- Each database failure the handler checks for (`StoreFaults`): the INSERT, the
  SELECT, the scan of a given row, and `rows.Err()`.
- The bytes of `index.html`.

The code has no secret-key check. `app` has only a `db` field, and the POST
branch never reads a header. So POST has no 403 outcome here. A body that
decodes always proceeds: Go's decoder turns a missing `tempCo` or `tempRoom`
into 0 rather than failing. So the only 422 is a body that does not decode.

## Model

| member | source | states |
|---|---|---|
| Readings.Scan | main.go:185 | scanning a row gives a reading with the same id and temperatures, and a timestamp that is present and equal to the row's |
| Readings.ScanInjective | main.go:185 | scanning loses nothing: two rows that scan to the same reading are the same row |
| Readings.ScanAll | main.go:223-232 | scanning a result set gives one reading per row, in the order the rows came back, each with a present timestamp |
| Readings.ScanAllAppend | main.go:225-231 | scanning one more row appends that row's reading to the readings scanned so far |
| Handlers.QueryGet | main.go:194 | a query parameter reads as its first value when it has one, and as the empty string when it is absent or has no values |
| Handlers.HttpError | main.go:170 | an error reply is plain text with the given status, and its body is the message followed by exactly one newline; it replaces the JSON content type set earlier in the handler |
| Strconv.Atoi | main.go:197 | a string parses only if it is non-empty; a negative result needs a leading `-` |
| Strconv.AtoiItoa | main.go:197 | every 64-bit integer written in decimal parses back to exactly itself |
| Strconv.AtoiRejectsNonDigit | main.go:205 | a character that is neither a digit nor a leading sign makes the parse fail |
| Strconv.AtoiRejectsOverflow | main.go:205 | a decimal value outside the 64-bit range fails to parse; it is not wrapped |
| Handlers.ResolveLimit | main.go:194-200 | the limit is always in 1..100; it is the parsed value exactly when the parameter parses to an integer in 1..100, and 10 otherwise |
| Handlers.ResolveOffset | main.go:202-208 | the offset is never negative and fits in 64 bits; it is the parsed value exactly when that value is non-negative, and 0 otherwise |
| Handlers.ResolveLimitOfDecimal | main.go:194-200 | a decimal `limit` n is used when 0 < n <= 100 and replaced by 10 otherwise |
| Handlers.ResolveOffsetOfDecimal | main.go:202-208 | a decimal `offset` n is used when n >= 0 and replaced by 0 otherwise |
| Handlers.ResolveLimitFallbacks | main.go:194-200 | an empty, non-numeric, zero, negative or over-100 limit (`200`) resolves to 10; `100` is kept |
| Handlers.WithDefaultTimestamp | main.go:176-179 | after defaulting the timestamp is present; a supplied timestamp is kept exactly, an absent one becomes `now`; temperatures are unchanged |
| Handlers.ReadAll | main.go:223-237 | the loop yields the scan of every row of the result, scanned in order, exactly when no row scan fails and `rows.Err()` reports nothing |
| Handlers.ScannedPageShape | main.go:210-238 | a successful GET answers with min(limit, max(0, rows - offset)) readings, newest first, none with a null timestamp, each one a stored row |
| Handlers.HealthHandler | main.go:135-142 | `/health` answers 200 with `{"status": "ok"}` exactly for GET and 405 for every other method |
| Handlers.HomeHandler | main.go:144-156 | `/` answers 405 for a non-GET request, 500 when `index.html` cannot be read, and otherwise 200 with its bytes verbatim |
| Handlers.App.constructor | main.go:105 | the app holds exactly the store it is given, which may be null, as in a test that builds `app{}` |
| Handlers.App.DataHandler | main.go:158-244 | a method other than GET or POST gets 405 and never touches the store (it may be null); an undecodable POST body gets 422 before the store is used (it may be null) and leaves the store unchanged; a POST that decodes inserts exactly one row with the supplied-or-`now` timestamp and a fresh id larger than every stored id, answers 200 with that row, and leaves earlier rows unchanged, or on an insert failure answers 500 and adds nothing; a GET leaves the store unchanged and answers 500 exactly when the query, a row scan or `rows.Err()` fails, otherwise 200 with a legal page for the resolved limit and offset |
| ReadingsTable.Window | main.go:214 | `LIMIT limit OFFSET offset` keeps min(limit, max(0, n - offset)) entries, entry i being entry offset + i of the ordered result |
| ReadingsTable.Store.constructor | main.go:249-255 | a new table is empty and its id sequence starts at 1 |
| ReadingsTable.Store.Insert | main.go:181-185 | an insert that succeeds appends exactly one row carrying the given values and the next sequence id, which is larger than every existing id; it fails, changing nothing, when the store reports an error or the 32-bit sequence is exhausted; the ids stay positive and strictly increasing |
| ReadingsTable.Store.QueryPage | main.go:210-215 | the query fails exactly when the store reports an error; otherwise it returns a legal page: a window of some timestamp-descending permutation of the table |
| ReadingsTable.SortDescIsOrdering | main.go:213 | the insertion sort by timestamp is a descending permutation of the table, so the page query always has an answer |
| ReadingsTable.PageShape | main.go:210-215 | every legal page has min(limit, max(0, rows - offset)) rows, is non-increasing in timestamp, and is a sub-multiset of the table |
| ReadingsTable.SortedStampsUnique | main.go:213 | two timestamp-descending permutations of the same rows agree on every position's timestamp |
| ReadingsTable.PageStampsDetermined | main.go:210-215 | two legal pages for the same table, limit and offset have the same length and the same timestamps at every position; they can differ only in how ties are ordered |

## Left out

- Start-up and configuration (main.go:37-133) are not modelled. This covers flags, `APP_*` environment overrides, pool creation, ping, routing and `ListenAndServe`. It is process plumbing with no decision logic.
- `applyMigrations` (main.go:246-262) is not modelled. The schema is taken as given. The `created_at` column is never read by the handlers and is left out of `Row`.
- The middlewares and `responseWriter` (main.go:264-331) are not modelled. They cover request ids, logging, panic recovery and status capture. So is the Prometheus `/metrics` endpoint.
- Authentication is not modelled: `main.go` has no secret-key check and no 403 response. The tests refer to a `secretKey` field that is not part of this model's source.
- JSON encoding and decoding are abstract. Decoding is an input (`DecodeResult`). Responses carry the reading values rather than their JSON text.
- The error texts include the newline that `http.Error` appends. The newline that `json.Encoder` appends after a JSON body is not represented.
- `time.Now().UTC().Unix()` is the parameter `now`. Reading `index.html` is the parameter `indexHtml`.
- Floating point is not modelled. Temperatures are 64-bit patterns, compared only for equality and never computed on.
- Concurrency is not modelled: requests are handled one at a time against one store. Concurrent POSTs, the connection pool and its timeouts are left out.
- Rows written by anything other than this handler are not modelled. Such rows could have a NULL timestamp or NULL temperatures, and Postgres sorts NULL timestamps first under `DESC`. The handler itself only inserts non-NULL values. A scan failure on such a row is covered by the abstract `scanFailsAt` input.
- ReadingsTable.Store.Insert: a failed insert leaves the sequence unchanged. In Postgres, a statement that fails after calling `nextval` still uses up that id, which leaves a gap. Ids are therefore modelled as strictly increasing and gap-free, not merely strictly increasing.
- Handlers.App.DataHandler: requires a non-null store for GET and for a POST whose body decodes. In Go, a nil pool panics on those paths, and the recovery middleware would turn that into a 500; that middleware is not modelled. A POST whose body does not decode, and any other method, work with a null store.
- Handlers.App.DataHandler: a `seq` cannot be null, so the model cannot tell a nil slice from an empty one. Go needs `make(..., 0)` at main.go:223 so that an empty page encodes as `[]` rather than `null`. The model's "always a list" holds by construction and is not proved against that line.
- `strconv.Atoi`'s error values (syntax versus range error) are not distinguished. The handler only checks whether the error is nil.
