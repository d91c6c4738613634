# To-do list API: route decisions as state transitions

This project models the decision logic of a small Express to-do API. It
covers three parts:

- the to-do routes in `routes/items.js`: list, get, create, update and delete;
- the account routes in `routes/auth.js`: register, login and profile;
- the global error middleware in `middleware/errorHandler.js`.

Each table is a Dafny `map` from primary key to row, plus the
AUTO_INCREMENT counter `nextId`. Most SQL statements in the routes read,
update or delete one row by key (`WHERE id = ?`), which is a map lookup,
update or removal. Three kinds of statement are different:

- `SELECT * FROM todos` (`routes/items.js:8`) reads the whole table. It is
  modelled as a scan of the keys below `nextId` in ascending order
  (`Items.RowsBelow`).
- The INSERTs (`routes/items.js:41-44`, `routes/auth.js:30-33`) have no
  key; AUTO_INCREMENT picks it. The model inserts under `nextId` and then
  increments the counter.
- `WHERE email = ?` (`routes/auth.js:19`, `72`) may return several rows, and
  login uses the first. The model takes the row with the smallest key
  (`Auth.FindBelow`). The users-table invariant keeps emails unique, so
  at most one row ever matches.

Each handler is a pure function from the table and the request to the new
table and the response.

Modules:

- `Js` (`js.dfy`): the request-body values `undefined`, `null` and strings.
  It also holds JavaScript truthiness, `v || fallback`, `v || null`, how a
  value is bound as a SQL parameter, and `Response(status, body)`.
- `Items` (`items.dfy`): the `todos` table and its five routes. The table
  invariant `Valid` says every key was issued by the counter and every
  title and status is non-empty. `Run` serves a sequence of requests.
- `Auth` (`auth.dfy`): the `users` table and its three routes. The table
  invariant says keys come from the counter and emails are unique.
  `bcrypt` is a `Crypto` record of two functions supplied by the caller,
  `hash(password, salt)` and `compare(password, stored)`. A token is
  `Token(userId)`.
- `ErrorHandler` (`error_handler.dfy`): maps an error and the production
  flag to a status and a body.

Inputs the code takes from outside become parameters:

- the bcrypt salt;
- the clock reading stored in `created_at`;
- the hash functions;
- whether `NODE_ENV` is exactly `'production'`;
- the user id that the token middleware (`middleware/auth`, not modelled) puts in `req.user`.

What the routes do not do, as written:

- `routes/items.js` has no per-user scoping of to-dos and no pagination: every route reads or writes the whole `todos` table by key.
- `routes/auth.js` checks only that email and password are present; it applies no email-format or password-length rule.
- A duplicate email and bad credentials both get 400 (`routes/auth.js:22`, `75`, `84`).
- Replies are bare bodies such as `{message, todo}` and `{token}`, with no common wrapper.

## Model

| member | source | states |
|---|---|---|
| Js.ColumnAndOrNullDifferOnlyOnEmpty | routes/auth.js:32 | a value bound as it arrives (as `description` is) and the same value passed through `name || null` are stored identically except for the empty string, which the first stores as `""` and the second as NULL |
| Items.Empty | config/database.js:44-51 | a fresh `todos` table is empty, its counter starts at 1, and it satisfies the table invariant |
| Items.RowsBelow | routes/items.js:8 | the primary-key scan returns each row with key below the bound exactly once, in strictly ascending key order, with its stored columns |
| Items.List | routes/items.js:6-9 | GET / answers 200 with exactly the rows of a valid table, each with its stored columns, in ascending key order |
| Items.Get | routes/items.js:17-25 | GET /:id answers 200 with the stored row exactly when the id is present, and 404 "Todo not found" otherwise |
| Items.Create | routes/items.js:33-51 | a missing or empty title gives 400 "Title is required" and leaves the table unchanged; otherwise exactly one row is added under the counter's fresh key and no other row changes; the stored title is the given one; the description is the given string, or NULL for undefined/null; the status is the given one when truthy, else `'pending'`; the reply is 201 with the stored row; the invariant is kept |
| Items.Update | routes/items.js:59-88 | an absent id gives 404 and no change; otherwise only that row changes; title and status take the new value only when it is truthy; description takes the new value whenever it is not undefined, so `null` clears it and `""` overwrites it; the reply is 200 with the stored row; the invariant is kept |
| Items.Delete | routes/items.js:96-113 | an absent id gives 404 and no change; otherwise exactly that key is removed, every other row and the counter stay, and the reply echoes the id (as a key, not as the path text); the invariant is kept |
| Items.RunPreservesValid | routes/items.js:41-46 | over any sequence of requests the table stays valid, the counter never decreases, and every key present afterwards was either present before or issued after the starting counter |
| Items.CreateThenGet | routes/items.js:41-50 | creating a todo and then getting its new id returns 200 with the same row the 201 reply carried, holding the title, description and defaulted status that were sent |
| Items.UpdateEmptyIsIdempotent | routes/items.js:72-80 | an update whose body carries no title, description or status leaves the table exactly as it was |
| Items.DeleteThenGet | routes/items.js:101-108 | after a successful delete the id is absent and a get of it answers 404 "Todo not found" |
| Auth.Empty | routes/auth.js:30-33 | a fresh `users` table is empty, its counter starts at 1, and it satisfies the table invariant, including email uniqueness |
| Auth.FindBelow | routes/auth.js:72-78 | the lookup by email returns the smallest key below the bound whose row has that email, or nothing when no such row exists |
| Auth.FindByEmail | routes/auth.js:19-21 | on a valid table the lookup finds a row exactly when some user has that email, and the row it finds has that email |
| Auth.Register | routes/auth.js:9-54 | a missing email or password gives 400 and no change; a taken email gives 400 "User already exists" and no change; otherwise exactly one row is added under a fresh key with the email, `hash(password, salt)` as password, the name or NULL, and the clock reading; the reply is 201 with a token for the new key; the invariant, including email uniqueness, is kept |
| Auth.Login | routes/auth.js:62-103 | login never changes the table; missing fields give 400; an unknown email gives 400 "Invalid credentials"; for the user holding the email, the reply is 200 with a token for that user's id when `compare` accepts the password and "Invalid credentials" otherwise; a failing login gives one of only two fixed replies |
| Auth.GetProfile | routes/auth.js:111-119 | an absent id gives 404 "User not found"; otherwise the reply carries the id, email, name and created_at of that user and has no password field |
| Auth.ProfileIgnoresPassword | routes/auth.js:113 | two tables that differ only in stored password hashes give identical profile replies |
| Auth.LoginHidesWhichCredentialFailed | routes/auth.js:74-85 | an unknown email and a known email with a wrong password give the identical reply 400 "Invalid credentials" |
| Auth.RegisterTwiceRejected | routes/auth.js:19-23 | registering the same email a second time is refused with "User already exists" and leaves the table as the first registration left it |
| Auth.RegisterThenLogin | routes/auth.js:26-92 | the register token carries the new id, and a login with the same credentials (under a `compare` that accepts its own hash) answers 200 with a token for that same id |
| ErrorHandler.StatusOf | middleware/errorHandler.js:6 | a non-zero `statusCode` passes through unchanged, a missing or zero one becomes 500, so the status is never 0 |
| ErrorHandler.MessageOf | middleware/errorHandler.js:7 | a non-empty `message` passes through unchanged, a missing, null or empty one becomes "Something went wrong on the server", so the message is never empty |
| ErrorHandler.Handle | middleware/errorHandler.js:2-28 | a `ValidationError` gives 400 "Validation Error" with its `errors` whatever its statusCode, and this test comes before the `UnauthorizedError` one; an `UnauthorizedError` gives the fixed 401 body; any other error gives its truthy statusCode or 500, its truthy message or the default, and as `error` the fixed "Internal server error" in production or the stack otherwise |
| ErrorHandler.ValidationIgnoresStatusCode | middleware/errorHandler.js:10-15 | two validation errors with the same `errors` get the same 400 reply, whatever their status code, message, stack or environment |
| ErrorHandler.UnauthorizedIsFixed | middleware/errorHandler.js:17-22 | every `UnauthorizedError` gets the same 401 reply, whatever else it carries |
| ErrorHandler.ProductionHidesStack | middleware/errorHandler.js:27 | in production the reply does not depend on the error's stack |

## Left out

- bcrypt: `genSalt`, `hash` and `compare` are foreign cryptography. The salt is a parameter. The two functions are an uninterpreted `Crypto` record, so the model proves no property of the hash itself. In particular it cannot show that the stored hash differs from the plain password. The salt cost of 10 is not modelled.
- JWT signing, the 24-hour expiry, the `JWT_SECRET`, and the exception thrown inside the signing callback are left out. A token is just `Token(userId)`. The token-checking middleware is not part of this model. GET /profile takes the id that middleware would supply.
- Every `catch` block that answers 500 "Server error", and all console logging, are left out. A failing database call is not modelled.
- MySQL behaviour is left out: the ENUM check on `status` (the model stores any status string, where MySQL would reject or blank a value outside the ENUM), VARCHAR(255) truncation, the `created_at`/`updated_at` timestamps of `todos`, and the string-to-integer conversion of the `:id` path segment. Status is an opaque string and the path id is a `nat`.
- Items.Delete: the reply echoes the key as a `nat`. The code echoes `req.params.id`, which is the raw path text, so `DELETE /items/07` deletes key 7 but answers `"id": "07"`, a string. The model does not keep the path text.
- `SELECT * FROM todos` has no `ORDER BY`. The model returns rows in primary-key order, which is what a scan of the clustered key gives.
- Items.List: states the exact row set only for a valid table. The scan runs up to the counter, so it would miss a key at or above the counter, which a valid table never has.
- Email comparison is exact string equality. The collation of the `users` table is unknown, because its DDL is not in `config/database.js`.
- ErrorHandler.Handle: `app.js` never installs this middleware. It mounts only `/items`, `/auth` and the root route (`app.js:21-25`), and every route catches its own errors and answers 500 itself. The model describes the function as written, but this app never calls it.
- The error's `message`, `stack` and `errors` are `undefined`, `null` or a string. A `ValidationError`'s `errors` is usually an object or an array. The handler passes `errors` and `stack` through unchanged, so their shape does not change any decision.
- Request-body values other than strings, `null` and `undefined` are left out. For numbers, booleans, objects and arrays, JavaScript truthiness and MySQL coercion would add cases. Error `statusCode` is an optional integer; NaN is left out. Express's rejection of out-of-range status codes is not modelled.
- The race between the duplicate-email check and the insert is left out. The model is sequential.
- `config/database.js` (connection pool, environment loading, table creation) and `app.js` (Express bootstrap, CORS, body parsing, the root route) are plumbing. They are not modelled.
