# Tenant message store, producer retry loop and dashboard proxy — a Dafny model

This project models the parts of the datetime-message system that have
behaviour of their own:

- **The API's tenant store** (`applications/api/src/server.js`). Every tenant
  owns a PostgreSQL schema. The API writes its name, unquoted, as `tenant_` +
  the id with every UTF-16 code unit outside `[a-zA-Z0-9]` replaced by `_`.
  PostgreSQL folds that name to lower case and cuts it to 63 characters, so
  the schema that exists is the folded name. `POST /api/messages` validates
  the body, creates the schema and its `messages` table if they do not
  exist, and inserts a row numbered by the table's SERIAL column.
  `GET /api/messages` returns the newest rows of one environment and their
  count. `GET /api/tenants` returns the row counts and the latest insertion
  time. The database is modelled as a class `TenantStore.TenantDatabase`. It
  holds the set of existing schemas and a map from schema name to its table
  (rows in insertion order plus the SERIAL sequence's last value). The two
  reading handlers are functions of that state.
- **The producer** (`applications/producer/src/producer.py`). It builds one
  payload `{datetime, environment}` and posts it with at most `max_retries`
  attempts (3 by default). It stops at the first 201 and sleeps between failed
  attempts. The network is a parameter giving the outcome of each attempt
  for the body it carries. The attempts, the sleeps and the bodies posted
  are ghost outputs.
- **The dashboard's proxies** (`applications/consumer/src/server.js`). The
  messages proxy fills in defaults with `||` and forwards the API's body or
  answers 500. The tenants proxy parses the counts with `parseInt(x) || 0`,
  replaces falsy fields, and falls back to all-zero statistics on any failure.
  `Dashboard.DashboardMirrorsApi` connects the two sides. Whatever the API's
  aggregate returns, the dashboard shows exactly those numbers, or the zero
  fallback when the API fails.

Modules: `Wrappers` (Option), `TenantSchema` (schema names), `Records` (rows,
filtering, newest-first ordering, statistics), `TenantStore` (the database
class and handlers), `JsInt` (`parseInt` and decimal text), `ConsumerProxy`,
`Dashboard`, `Producer`.

Inputs the source takes from outside are parameters: the insertion time
`createdAt` (SQL `CURRENT_TIMESTAMP`), the producer's formatted current time,
the outcome of each HTTP attempt, the API's reply as seen by the dashboard, and
the ISO rendering of a timestamp. The API's test middleware attributes every
request to tenant `test_tenant`. The handlers here take the tenant id as a
parameter, and `Dashboard.ApiTenantId` records the fixed value.

Behaviour of the code that a reader might not expect:

- The schema-name derivation is not injective. `SchemaNameCollision` states
  exactly when two ids get the same name text. Two more collisions arise in
  the schema PostgreSQL creates. `CaseVariantsShareStorage` shows that ids
  differing only in the case of ASCII letters share one schema.
  `TrailingTextShareStorage` shows that ids whose written names agree on
  their first 63 characters share one too.
- `GET /api/messages` checks only that the schema exists. A schema whose table
  is missing gives a 500, not an empty list.
- The dashboard always forwards a `limit` (default 50), so the API's default
  of 100 applies only to direct callers.
- The consumer's `server.js` only proxies HTTP. It has no queue intake, no
  connect-with-retry loop and no message buffer.

## Model

| member | source | states |
|---|---|---|
| `TenantSchema.EncodeChar` | applications/api/src/server.js:93-96 | a character of the Basic Multilingual Plane is one code unit, itself; any other is a surrogate pair (high half, then low half) |
| `TenantSchema.Utf16OfBmp` | applications/api/src/server.js:93-96 | an id without characters beyond the Basic Multilingual Plane has one code unit per character, equal to it |
| `TenantSchema.FoldChar` | applications/api/src/server.js:92-110 | PostgreSQL's folding of an unquoted name: an upper-case ASCII letter becomes its lower-case letter, any other character is kept |
| `TenantSchema.Sanitize` | applications/api/src/server.js:93-96 | one character per UTF-16 code unit of the id; every character in `[a-zA-Z0-9_]`; alphanumeric units kept in place, every other unit (a surrogate half included) becomes `_` |
| `TenantSchema.SchemaName` | applications/api/src/server.js:93-96 | the written name is `tenant_` followed by one character per UTF-16 code unit of the id, made only of `[a-zA-Z0-9_]`, with the id's alphanumeric units at their positions and `_` at every other unit's position |
| `TenantSchema.SanitizeIdempotent` | applications/api/src/server.js:93-96 | sanitising the code units of a sanitised name changes nothing |
| `TenantSchema.SchemaNameCollision` | applications/api/src/server.js:93-96 | two ids get the same written name text iff they have as many UTF-16 code units and agree at every unit where either is alphanumeric (the schema they share after folding is `CaseVariantsShareStorage`) |
| `TenantSchema.SchemaNameNotInjective` | applications/api/src/server.js:93-96 | `a-b` and `a.b` both map to `tenant_a_b` |
| `TenantSchema.AstralCharacterBecomesTwoUnderscores` | applications/api/src/server.js:93-96 | a character outside the Basic Multilingual Plane is two code units and becomes two `_` |
| `TenantSchema.SchemaNameOfAlphanumeric` | applications/api/src/server.js:93-96 | an id of ASCII letters and digits appears in its written name unchanged |
| `TenantSchema.StorageName` | applications/api/src/server.js:92-110 | the schema PostgreSQL creates for the unquoted name: at most 63 characters, no upper-case letter, each character the folded character of the written name; equal to the written name iff that name is already folded and short enough |
| `TenantSchema.StorageNameOfAlphanumeric` | applications/api/src/server.js:92-110 | a short alphanumeric id lives in `tenant_` + its lower-cased form |
| `TenantSchema.SchemaNameOfFoldCase` | applications/api/src/server.js:93-96 | the name written for the lower-cased id is the written name lower-cased |
| `TenantSchema.CaseVariantsShareStorage` | applications/api/src/server.js:92-110 | every id and its form with ASCII letters lower-cased share one schema |
| `TenantSchema.SchemaNameAppend` | applications/api/src/server.js:93-96 | the written name of a longer id extends the written name of its start |
| `TenantSchema.LookupName` | applications/api/src/server.js:148-156 | the name the existence check looks up: the written name cut to 63 characters, not folded; the schema's name is its folded form, and the two are equal iff it has no upper-case letter |
| `TenantSchema.LookupNameOfExtension` | applications/api/src/server.js:148-156 | once the written name reaches 63 characters, any longer id starting with that id looks up the same name |
| `TenantSchema.TrailingTextShareStorage` | applications/api/src/server.js:92-110 | once the written name reaches 63 characters, ids that continue it with any different texts share one schema |
| `TenantSchema.CaseVariantNamesDiffer` | applications/api/src/server.js:93-96 | an alphanumeric id and its lower-cased form write the same name iff the id has no upper-case letter |
| `TenantSchema.UpperCaseIdIsNotFolded` | applications/api/src/server.js:148-156 | an alphanumeric id with an upper-case letter among its first 56 characters writes, and looks up, a name that is not folded, so it names no schema PostgreSQL can have created |
| `TenantStore.ValidateMessage` | applications/api/src/server.js:84-89 | rejected iff `datetime` is missing or empty; `environment` becomes `prod` only when absent, and a supplied value (even empty) is kept |
| `TenantStore.Provision` | applications/api/src/server.js:100-110 | the schema gains a table: an existing one is kept as it is, a missing one starts empty; every other table is unchanged |
| `TenantStore.StoredEnvironment` | applications/api/src/server.js:107 | VARCHAR(10) stores a prefix of the value of length min(10, its length); for a value it accepts, only spaces are dropped |
| `TenantStore.PageReply` | applications/api/src/server.js:163-183 | the reply holds the newest page of the environment and `count` equal to its length |
| `TenantStore.TenantDatabase.EnsureTenantStorage` | applications/api/src/server.js:92-110 | the folded schema is added; an existing table is left unchanged (nothing changes for a provisioned tenant); a missing table is created empty |
| `TenantStore.TenantDatabase.InsertMessage` | applications/api/src/server.js:112-123 | fails, changing nothing, iff the table is missing, VARCHAR(10) refuses the environment (over 10 characters with a non-space past the tenth) or the int4 SERIAL sequence is exhausted; otherwise appends exactly one row with the next SERIAL id, greater than every id already there, holding the environment as stored, and returns it; other tenants' tables are unchanged |
| `TenantStore.TenantDatabase.PostMessage` | applications/api/src/server.js:82-139 | 400 with the store unchanged when `datetime` is missing or empty; otherwise the folded schema is provisioned and stays provisioned when the insert then fails with 500; on success 201 with the appended row |
| `TenantStore.TenantDatabase.GetMessages` | applications/api/src/server.js:142-188 | (existence checked on the folded schema) no schema: `{messages: []}` without `count`; schema without table: 500; otherwise the newest-first page of rows of the requested environment (default `prod`), at most `limit` rows (default 100), no omitted row newer than a returned one, and `count` equal to the number of rows |
| `TenantStore.TenantDatabase.GetMessagesAsWritten` | applications/api/src/server.js:142-188 | as written: when the looked-up name (cut to 63 characters, not folded) is not a schema, `{messages: []}` without `count`, even when the folded schema exists |
| `TenantStore.TenantDatabase.AsWrittenHidesFoldedTenants` | applications/api/src/server.js:148-160 | for an id whose looked-up name has an upper-case letter, the written check returns no messages while the folded schema holds a matching row that the corrected check returns |
| `TenantStore.TenantDatabase.AsWrittenAgreesWhenFolded` | applications/api/src/server.js:148-160 | for every id whose looked-up name has no upper-case letter (long names included), the written check and the corrected one give the same reply |
| `TenantStore.TenantDatabase.TenantStats` | applications/api/src/server.js:191-218 | reads the folded schema: 500 iff the tenant has no table; otherwise total, `prod` and `test` counts and the latest `created_at` (none when empty), with prod + test <= total |
| `TenantStore.NewestPageOfTwo` | applications/api/src/server.js:163-172 | of two rows of one environment with different insertion times, a page of size two or more is the newer row then the older |
| `TenantStore.InsertTwiceThenQuery` | applications/api/src/server.js:82-188 | after two posts for a new tenant (any id), a query for `prod` returns both rows with ids 2 and 1, newest first, and count 2; the check as written gives the same reply when the looked-up name has no upper-case letter, and no messages otherwise |
| `TenantStore.InsertThenAggregate` | applications/api/src/server.js:191-218 | statistics fail for a new tenant; after one `test` message they are total 1, prod 0, test 1 and that message's insertion time |
| `Records.WithEnvironment` | applications/api/src/server.js:165-167 | every row of the environment as often as it is stored, and no other row |
| `Records.OrderNewestFirst` | applications/api/src/server.js:168 | a permutation of the rows, sorted by `created_at` non-increasing |
| `Records.NewestPage` | applications/api/src/server.js:163-172 | newest first, min(limit, matching rows) long, drawn from the matching rows, no omitted match newer than a returned row |
| `Records.LatestCreated` | applications/api/src/server.js:201 | none iff there are no rows; otherwise a stored `created_at` no smaller than any other |
| `Records.TwoEnvironmentsBounded` | applications/api/src/server.js:198-200 | the rows of two different environments together number at most all rows |
| `Records.Summarize` | applications/api/src/server.js:196-203 | the statistics describe the rows, and prod + test <= total |
| `JsInt.ParseInt` | applications/consumer/src/server.js:109-111 | a number iff the text starts with a digit or with a sign followed by a digit; non-positive after `-`, non-negative otherwise |
| `JsInt.ParseDecimal` | applications/consumer/src/server.js:109-111 | `parseInt` reads back the decimal text of any count, whatever non-digit text follows it |
| `JsInt.ParseNegativeDecimal` | applications/consumer/src/server.js:109-111 | `parseInt` reads `-` followed by decimal text as the negated number |
| `ConsumerProxy.OrElse` | applications/consumer/src/server.js:107 | a missing or empty value gives the fallback; any other value is kept |
| `ConsumerProxy.OrNull` | applications/consumer/src/server.js:112 | a missing or empty value gives null; any other value is kept |
| `ConsumerProxy.TenantName` | applications/consumer/src/server.js:11 | the configured tenant name is never empty, and a non-empty setting is used as given |
| `ConsumerProxy.MessagesQueryFor` | applications/consumer/src/server.js:68-69 | `limit` defaults to 50 and `environment` to `prod` when absent or empty; neither is forwarded empty |
| `ConsumerProxy.ReadJson` | applications/consumer/src/server.js:75-81 | the body is used iff the fetch answered with a 2xx status and JSON; a non-2xx status is a failure carrying that status |
| `ConsumerProxy.MessagesProxy` | applications/consumer/src/server.js:66-90 | forwards the API's body iff it is a 2xx JSON reply to the defaulted query; otherwise 500 with the failure |
| `ConsumerProxy.CountOrZero` | applications/consumer/src/server.js:109-111 | the parsed number, or 0 when the value is missing, unparsable or parses to 0 |
| `ConsumerProxy.TenantsProxy` | applications/consumer/src/server.js:92-127 | any fetch failure, non-2xx status, non-JSON body or missing `statistics` gives the configured tenant with zero counts and null last message; otherwise the counts are parsed and falsy fields replaced; the tenant id is never empty and the last message never the empty string |
| `ConsumerProxy.FallbackView` | applications/consumer/src/server.js:115-125 | the configured tenant, all three counts 0 and no last message |
| `Dashboard.StatisticsBody` | applications/api/src/server.js:196-213 | each count is decimal text that `parseInt` reads back as that count; the last message is null iff there are no rows, otherwise the rendered latest insertion time |
| `Dashboard.TenantsReply` | applications/api/src/server.js:205-218 | 200 with the tenant and its statistics iff the aggregate succeeded, which is exactly when the dashboard reads a body; otherwise 500 with an error body that has neither |
| `Dashboard.DashboardMirrorsApi` | applications/consumer/src/server.js:106-126 | for the API's actual reply, the dashboard shows exactly the API's counts, tenant and latest message, or the zero fallback when the API answers 500 |
| `Producer.ConfiguredEnvironment` | applications/producer/src/producer.py:19 | `prod` only when the variable is unset; a set value is used as given |
| `Producer.CreateMessage` | applications/producer/src/producer.py:28-36 | the payload has exactly the keys `datetime` and `environment`, holding the formatted time and the configured environment |
| `Producer.SendToApi` | applications/producer/src/producer.py:38-79 | every attempt posts the given message; true iff one of the first `max_retries` attempts gets 201; then it stops at the first such attempt, with one sleep fewer than attempts; otherwise exactly `max(max_retries, 0)` attempts and `max(max_retries - 1, 0)` sleeps (none and false when `max_retries <= 0`) |
| `Producer.RunProducer` | applications/producer/src/producer.py:81-101 | creates the payload from the configured environment, posts that payload on every attempt (1 to 3 of them), reports sent iff one of the first 3 attempts with it got 201, and ends with exit status 0 either way |

## Left out

- Express wiring (helmet, cors, JSON body parsing, the rate limiter, the error
  middleware, the 404 handler, `app.listen`) and the health endpoints: framework
  glue with no logic of their own.
- Logging (winston, console, Python `logging`) and reading the CA certificate:
  output and file I/O only.
- The PostgreSQL pool, its SSL settings and real SQL execution. The store is an
  in-memory value. Concurrent `CREATE ... IF NOT EXISTS` and concurrent inserts
  into one tenant are not modelled; each handler runs as one atomic step.
- Login, dashboard HTML, GitHub OAuth redirects and logout: user-interface and
  authentication glue.
- The queue consumer, its message intake and acknowledgement, and its
  in-memory buffer with a clear operation: no code for them exists in the
  modelled files.
- `TenantStore.TenantDatabase.InsertMessage`: does not model a `datetime` that
  PostgreSQL cannot parse as a TIMESTAMP (a 500 in the source). The datetime is
  opaque, and any non-empty string is stored.
- `TenantStore.TenantDatabase.InsertMessage`: advances the SERIAL counter only
  on a successful insert. PostgreSQL may consume a sequence value on a failed
  insert, which leaves a gap; ids stay increasing either way.
- `TenantSchema.LookupName`: follows PostgreSQL 12 and later, where the
  existence check's parameter is read as a `name` and cut to 63 bytes.
  Earlier versions compare the full written name.
- `TenantSchema.StorageName`: the 63-character cut stands for PostgreSQL's
  63-byte limit. The two agree
  because a derived name holds only ASCII characters.
- `TenantStore.ValidateMessage`: body fields are strings or absent. JSON
  numbers, booleans and `null` (which JavaScript also treats as falsy or
  passes to the database) are not modelled.
- `TenantStore.TenantDatabase.GetMessages`: checks existence on the folded
  schema, which corrects the source; the check as the source writes it is
  `TenantStore.TenantDatabase.GetMessagesAsWritten` (see Findings).
- `TenantStore.TenantDatabase.GetMessages`: `limit` arrives as a parsed natural
  number. `parseInt(limit)` giving NaN or a negative number is not modelled.
- The fallback `stats.rows[0] || {...}` of `GET /api/tenants`: an aggregate
  query always yields one row, so the model always uses that row.
- Ties in `ORDER BY created_at DESC` may come back in any order. The model
  fixes one order but states only the newest-first property.
- `JsInt.ParseInt`: leading whitespace, radix prefixes, exponents, and the
  loss of precision of large numbers in JavaScript are not modelled.
- `ConsumerProxy.MessagesProxy`: the query goes to the API as a structured
  value. The URL text built without encoding is not modelled. The error
  `details` carry the kind of failure, not its message text.
- `Producer.SendToApi`: every 201 counts as success. `response.json()` raising
  on a 201 reply whose body is not JSON is not modelled; that depends on the
  `requests` version. Headers, the timeout and the 30-second sleep are not
  modelled; sleeps are only counted.
- The clock and date formatting (`datetime.now`/`strftime`,
  `new Date().toISOString()`, `CURRENT_TIMESTAMP`) are parameters.

## Findings

| source | as written | input that shows it | evidently intended | confidence | as-written member | corrected member |
|---|---|---|---|---|---|---|
| applications/api/src/server.js:148-160 | the existence check looks up `tenant_` + the sanitised id as spelled (a `name` parameter, so cut to 63 characters but not folded), but `CREATE SCHEMA` (line 93) gets the name unquoted, so PostgreSQL stores it lower-cased | tenant id `Acme`: `POST /api/messages` stores a row in `tenant_acme`, then `GET /api/messages` answers `{messages: []}` | check the schema that the unquoted name creates, so the tenant's rows are returned | not executed; latent while the test middleware fixes the id to `test_tenant` | `TenantStore.TenantDatabase.GetMessagesAsWritten`, `TenantStore.TenantDatabase.AsWrittenHidesFoldedTenants` | `TenantStore.TenantDatabase.GetMessages`, `TenantStore.InsertTwiceThenQuery` |
