# Todo service: request handlers, modelled in Dafny

This project models the request-handling layer of a small multi-user todo
service. The service answers six HTTP endpoints: register, login, and create,
update, delete and list todo items. The model has two parts:

- a store with two tables, users (id to name, email and password hash) and
  todo items (id to title, description and owning user id);
- the handlers that read and change that store.

The model is a class, `Routes.TodoApi`. Its `users` and `todos` map fields are
reassigned by the handlers that change state (`Register`, `CreateTodo`,
`UpdateTodo`, `DeleteTodo`). The handlers that only read are functions over
those fields (`Authenticate`, the bearer-token guard; `Login`; `GetTodos`).
Each handler is one atomic step on the store.

Files:

- `wrappers.dfy`: `Option` and `Result`.
- `security.dfy`: salted password hashing. The key-derivation function is a
  parameter (`Kdf`), and nothing is assumed about it.
- `jwt.dfy`: HS256-signed tokens. The MAC and the compact serialisation are
  function-valued fields of `Codec`. The only thing assumed about them is
  `Codec.Sound`: a serialised token parses back to itself and is never empty.
  `Decode` checks, in this order: the token parses, the algorithm is HS256,
  the signature matches, and the `exp` claim is strictly after `now`.
- `listing.dfy`: the page order and the page window. Items are listed in
  ascending id order. Page `p` with `limit` items per page is the run that
  starts at position `(p - 1) * limit`.
- `routes.dfy`: the store class, the guard, the handlers, and the guarded
  endpoints (`HandleCreateTodo`, `HandleUpdateTodo`, `HandleDeleteTodo`,
  `HandleGetTodos`). Each endpoint runs the guard first and calls its handler
  only for an admitted caller.

Inputs that the service reads from outside are parameters of the model:

- the request body fields;
- the `Authorization` header (`Option<string>`);
- the `page` and `limit` query arguments (`Option<int>`; `None` stands for an
  absent or non-numeric argument, which the service replaces with the default);
- the clock (`now`, integer seconds);
- the random salt;
- the signing secret, the MAC, the token serialisation and the key-derivation
  function.

Status codes and messages are the service's own. This includes the spelling
"Unathorized!".

## Model

| member | source | states |
|---|---|---|
| Security.GeneratePasswordHash | routes.py:39 | the stored record has the requested method `pbkdf2:sha256` and the given 16-character salt |
| Security.CheckPasswordHash | routes.py:52 | a record in the service's form accepts a password exactly when hashing that password afresh with the record's salt reproduces the record |
| Security.HashAcceptsItsPassword | routes.py:39 | a freshly hashed record accepts the password it was made from, and exactly the passwords whose digest under that salt equals the original's |
| Jwt.Encode | routes.py:53 | with a sound codec, the token is non-empty and parses to an HS256 token whose payload is the claims and whose signature is the MAC of the claims under the key |
| Jwt.Decode | routes.py:23 | succeeds exactly when the token parses, its algorithm is HS256, its signature is the MAC of its payload under the key, and it is not expired (`exp` absent or after `now`); on success the result is the payload |
| Jwt.DecodeEncode | routes.py:53 | a token signed by the service decodes to exactly its claims until its expiry, and is refused as Expired from then on |
| Jwt.ForeignKeyRejected | routes.py:23 | a token signed under a key whose MAC differs is refused as BadSignature at any time |
| Listing.LeastExists | routes.py:93 | every non-empty set of ids has a least element, so the ascending order is well defined |
| Listing.Ascending | routes.py:93 | lists every id of the set exactly once (same length, same members), in strictly ascending order |
| Listing.Window | routes.py:93 | a page holds at most `limit` ids; its k-th id is the id at position `(page - 1) * limit + k`; a page shorter than `limit` reaches the end of the list |
| Listing.WindowIncreasing | routes.py:93 | a page of an ascending list is ascending |
| Listing.EveryRecordOnItsPage | routes.py:93 | position i of the list is slot `i % limit` of page `i / limit + 1`, so no item is skipped by paging |
| Listing.PastTheEndIsEmpty | routes.py:93 | a page whose offset is at or past the item count is empty |
| Listing.PagesAreDisjoint | routes.py:93 | two different pages of a list without repeats share no item |
| Routes.PageIds | routes.py:93 | the ids on page `page` are the caller's ids in ascending order from position `(page - 1) * limit` on: the k-th is the one at position `(page - 1) * limit + k`; at most `limit` of them; all the caller's own; a short page is the last one |
| Routes.PageData | routes.py:93-95 | the items on page `page`, each shown as its stored id, title and description: the k-th is the caller's item at position `(page - 1) * limit + k` in ascending id order; at most `limit` of them, none of another user's; a short page is the last one |
| Routes.TodoApi.Authenticate | routes.py:17-28 | an absent or empty header is refused with 401 "Unathorized!"; any other refusal is 401 "Token is invalid!"; the caller is admitted exactly when the token decodes and carries a `user_id` claim; the admitted id is that claim; the outcome is Granted exactly when that user exists |
| Routes.TodoApi.AddUser | routes.py:35-43 | a duplicate email leaves the user table unchanged; otherwise exactly one user is added under a fresh id, holding the name, the email and the salted hash (not the password); the unique-email invariant is kept |
| Routes.TodoApi.Register | routes.py:31-45 | 400 "User already exists!" exactly when the email is taken, with no change to the store; otherwise exactly one new user and a 200 response whose token carries the new id under the `id` claim |
| Routes.TodoApi.RegisterWithSessionToken | routes.py:44 | the corrected registration: the same effect on the store, and the token it returns is admitted by the guard for the new user |
| Routes.TodoApi.Login | routes.py:48-55 | 200 exactly when some user has the email and the password checks against that user's stored hash; the token then names that user under `user_id` and expires after an hour; otherwise 401 "Invalid email or password", the same message whichever check failed |
| Routes.TodoApi.CreateTodo | routes.py:59-64 | exactly one item is added under a fresh id, owned by the caller, with the given title and description; all other items are unchanged; the response is 201 with the new id, title and description |
| Routes.TodoApi.UpdateTodo | routes.py:68-76 | 403 "Forbidden" and no change when the item is missing or belongs to someone else; otherwise only that item's title and description change, its id and owner are kept, and every other item is unchanged |
| Routes.TodoApi.DeleteTodo | routes.py:80-86 | 403 "Forbidden" and no change when the item is missing or belongs to someone else; otherwise exactly that item is removed and nothing else changes |
| Routes.TodoApi.GetTodos | routes.py:90-99 | 200 with page and limit defaulting to 1 and 10; the k-th item shown is the caller's item at position `(page - 1) * limit + k` in ascending id order, shown as its stored id, title and description; at most `limit` items, none of another user's; `total` is the number of the caller's items; a short page is the last one |
| Routes.TodoApi.HandleCreateTodo | routes.py:57-59 | when the guard refuses, no item is added and its 401 is the answer; when it admits the caller, the effect is exactly that of CreateTodo for that caller |
| Routes.TodoApi.HandleUpdateTodo | routes.py:66-70 | when the guard refuses, nothing changes and its 401 is the answer; when the token names no user and the item does not exist, nothing changes and the answer is 403 "Forbidden"; when it admits the caller, the effect is exactly that of UpdateTodo for that caller |
| Routes.TodoApi.HandleDeleteTodo | routes.py:78-82 | when the guard refuses, nothing changes and its 401 is the answer; when the token names no user and the item does not exist, nothing changes and the answer is 403 "Forbidden"; when it admits the caller, the effect is exactly that of DeleteTodo for that caller |
| Routes.TodoApi.HandleGetTodos | routes.py:88-90 | the guard's 401 when it refuses; when it admits the caller, exactly the page GetTodos gives for that caller |
| Routes.RegisterTokenRejected | routes.py:44 | the token issued at registration carries `id`, while the guard reads `user_id` (routes.py:24), so that token is refused with 401 "Token is invalid!" at any time |
| Routes.SessionTokenAdmits | routes.py:53 | a login token for an existing user is admitted as that user until it expires |
| Routes.SessionTokenExpires | routes.py:53 | from one hour after issue, a login token is refused with 401 "Token is invalid!" |
| Routes.LoginTokenAdmits | routes.py:48-55 | the token returned by a successful login is admitted by the guard as the user with that email for the token's lifetime |
| Routes.ListedOnSomePage | routes.py:93-95 | for any page size, each of the caller's items appears on some page of the caller's listing |
| Routes.NoItemOnTwoPages | routes.py:93-95 | two different pages of the same size never show the same item |
| Routes.PastLastPageIsEmpty | routes.py:93 | a page past the caller's last item is empty and still reports the caller's total |

## Left out

- HTTP routing, blueprints, JSON parsing and serialisation are not modelled. Inputs are parameters and outputs are `Response` values. A request body that lacks a field raises in the service; that path is not modelled.
- The database is not modelled. The tables are in-memory maps, each handler is one atomic step, and new rows get the next id of a counter. That counter never hands out an id again, whereas SQLite without AUTOINCREMENT may reuse the id of the highest row after it is deleted; the contracts give the new id as the counter's current value, which exceeds every id in use. Concurrency between requests is not modelled.
- The SHA-256 digest, PBKDF2, HMAC and the token's base64/JSON encoding are not modelled; they are uninterpreted function parameters. So is the random salt. Claims are integers only, and the `nbf`, `iat` and `aud` checks are not modelled because the service never issues those claims.
- Routes.TodoApi.HandleCreateTodo and Routes.TodoApi.HandleGetTodos require that the guard does not return `Unresolved`, and Routes.TodoApi.HandleUpdateTodo and Routes.TodoApi.HandleDeleteTodo require it only when the item exists. `Unresolved` is a validly signed token naming a user id that has no user. The service then passes no user to the handler. Update and delete test for a missing item first and answer 403, which the model covers. In every other case the handler reads the missing user's id and raises an unhandled exception (a 500 answer), which is not modelled.
- Routes.TodoApi.GetTodos and Routes.TodoApi.HandleGetTodos require page >= 1 and limit >= 1. The pagination library's own answers for other values are not modelled. Neither is its choice to answer 404 for an empty page other than the first. Here such a page is simply empty, with the total.
- Listing order: the store's default order is replaced by ascending id order.
- The hashing library stores the method together with its iteration count (`pbkdf2:sha256:<iterations>`); the model keeps only the requested method name, which is all the abstract key-derivation function sees.
- Distinct salts giving distinct hashes of the same password is not modelled, because nothing is assumed about the key-derivation function.
- The hard-coded signing secret and the database location in the application bootstrap are not modelled (app.py and create_app.py are not part of this model). The secret is a constant of the store object.

## Findings

| source | as written | input that shows it | evidently intended | confidence | as-written member | corrected member |
|---|---|---|---|---|---|---|
| routes.py:44 | registration issues a token carrying the new id under claim `id`; the guard (routes.py:24) reads `user_id`, so the lookup raises and the guard answers 401 "Token is invalid!" | register any new email, then send the returned token with any todo request before it expires | registration's token names the user under `user_id`, as login's does, and so authenticates the new user | high (not executed) | Routes.RegisterTokenRejected | Routes.TodoApi.RegisterWithSessionToken |
