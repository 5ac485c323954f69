# CRUD-FASTAPI core in Dafny

This project models the two pieces of logic in the CRUD-FASTAPI service that
go beyond wiring: the API-key store with its request guard, and the user
table with its paged search.

- `ApiKeyModels` (`api_key_models.dfy`) is the `api_keys` table of
  `app/api_keys/models.py`. It is a class holding the rows keyed by digest.
  Keys are only ever stored and looked up under `hash(plaintext)`, where
  `hash` is a deterministic function fixed when the table is built. It
  covers issuance (`CreateKey`), validation (`CheckKey`), and the usage
  update (`UpdateUsage`). Each successful validation hands off a usage
  update, modelled as a queue of plaintexts that `RunPendingUpdates` drains.
  The per-owner listing, newest use first, is `GetUsageStatus`.
- `ApiKeyRouters` (`api_key_routers.dfy`) is `app/api_keys/routers.py`: the
  "Bearer " stripping, the guard `api_key_security` (query credential before
  header, one uniform 403 for every validation failure), the argument
  shaping of `get_new_api_key` (roles `["admin"]`, `config or {}`), and the
  usage listing, which copies every field except `is_active`.
- `UserRouters` (`user_routers.dfy`) is `app/users/routers.py`. It models a
  map from id to user with `get_users`, `create_user`, `get_user`,
  `update_user` and `delete_user`. `get_users` first runs the API-key guard.
  It then filters by substring on username, first name or last name, orders
  by id ascending, and takes offset `(page - 1) * limit` and at most `limit`
  rows. The stored password is the table's hash of the submitted password.
- `Common` holds `Option`/`Result`. `Json` holds configuration values with
  Python truthiness, which `config or {}` needs.

The generated key, the clock (whole seconds), the key TTL in hours, the
digest function, the bcrypt password-hashing function, a new user's id and the
decoding of a bearer token into a uid are all parameters.

## Model

| member | source | states |
|---|---|---|
| ApiKeyModels.NewApiKey | app/api_keys/models.py:45-56 | the new row is stored under the given digest with the given name, owner, `never_expire`, roles and config. It is active, has 0 queries, was last used at `now` and expires `now` plus TTL hours. It is valid at time t exactly when it never expires or t is before that expiry |
| ApiKeyModels.ApiKeyTable.CreateKey | app/api_keys/models.py:35-60 | an unused digest gets exactly one new row and the plaintext is returned. A digest already present is an error and the table is unchanged. The plaintext is never stored |
| ApiKeyModels.ValidationRejects | app/api_keys/models.py:94-115 | validation fails iff no row has the digest, or the row may expire and its expiry is not strictly after now, or the row is inactive |
| ApiKeyModels.ApiKeyTable.CheckKey | app/api_keys/models.py:89-120 | the answer is the projection (uid, is_active, roles, config, last query date) of the valid row under the digest, else nothing. The rows are untouched. Exactly one usage update is queued on success and none on failure |
| ApiKeyModels.IssueThenValidate | app/api_keys/models.py:94-112 | validating a freshly issued plaintext succeeds iff the key never expires or now is before its expiry. It then reports the owner, roles and config given at issuance |
| ApiKeyModels.UsageApplied | app/api_keys/models.py:66-70 | an existing row gets one more query and is stamped now. Every other field and every other row stays the same. An unknown digest changes nothing |
| ApiKeyModels.ApiKeyTable.UpdateUsage | app/api_keys/models.py:62-75 | the rows after the update are the single usage update of the key's digest applied to the old rows |
| ApiKeyModels.ApiKeyTable.RunPendingUpdates | app/api_keys/models.py:118 | draining the queue applies the queued usage updates in order and leaves the queue empty |
| ApiKeyModels.UsageAppliedAllCounts | app/api_keys/models.py:66-70 | after a batch of usage updates, each row's counter has grown by the number of updates aimed at it. A row is stamped iff at least one update hit it. No other field changes |
| ApiKeyModels.UsageAppliedAllKeepsValidity | app/api_keys/models.py:66-70 | usage updates never change whether a key validates |
| ApiKeyModels.InsertByRecency | app/api_keys/models.py:85 | inserting a row into a listing gives a permutation of the listing plus that row |
| ApiKeyModels.InsertByRecencySorted | app/api_keys/models.py:85 | inserting into a newest-first listing keeps it newest-first |
| ApiKeyModels.ApiKeyTable.GetUsageStatus | app/api_keys/models.py:77-87 | the listing is a permutation of exactly the owner's rows, with last query dates non-increasing |
| ApiKeyModels.OwnedByMember | app/api_keys/models.py:84 | every listed row is a stored row of that owner, under its own digest |
| ApiKeyRouters.BearerToken | app/api_keys/routers.py:64-65 | the token is the header minus a leading "Bearer " when the header starts with it, else the whole header |
| ApiKeyRouters.BearerTokenRoundTrip | app/api_keys/routers.py:65 | prefixing "Bearer " to a token and stripping it gives the token back |
| ApiKeyRouters.PresentedKey | app/api_keys/routers.py:170 | the validated credential is the query value when it is non-empty, otherwise the header value, and never empty |
| ApiKeyRouters.GuardDecision | app/api_keys/routers.py:164-177 | the missing-credential 403 is raised iff both credentials are absent or empty. Otherwise the answer is the unchanged validation dictionary iff the presented key is valid, else the single wrong/revoked/expired 403 |
| ApiKeyRouters.QueryCredentialWins | app/api_keys/routers.py:170 | with a query credential passed, the header never changes the decision |
| ApiKeyRouters.MissingCredentialIgnoresTable | app/api_keys/routers.py:164-168 | without a credential the decision does not depend on the stored keys |
| ApiKeyRouters.ApiKeySecurity | app/api_keys/routers.py:159-177 | the guard answers the guard decision for the current table. A missing credential queues nothing. Otherwise it queues one usage update exactly when it succeeds |
| ApiKeyRouters.ConfigOrEmpty | app/api_keys/routers.py:77 | `config or {}`: the caller's configuration when it is given and truthy, and `{}` otherwise |
| ApiKeyRouters.ConfigOrEmptyTruthyOrEmpty | app/api_keys/routers.py:77 | the stored configuration is never falsy except `{}` |
| ApiKeyRouters.GetNewApiKey | app/api_keys/routers.py:64-78 | issuance is for the uid in the bearer token, with `never_expires` passed through, roles ["admin"] and `config or {}`. It answers with what `create_key` answers |
| ApiKeyRouters.GetApiKeyUsageLogs | app/api_keys/routers.py:114-156 | the listing fails (500) iff one of the caller's rows holds a configuration that is neither an object nor null, which the log's `dict \| None` field refuses. Otherwise there is one log per stored key of the caller, each copied field for field from its row without `is_active`. Every key of the caller appears, newest use first |
| UserRouters.ContainsIffOccurs | app/users/routers.py:48-53 | the substring scan succeeds iff the search text occurs at some position of the field |
| UserRouters.ContainsEmpty | app/users/routers.py:32 | the default empty search text occurs in every string |
| UserRouters.AscendingIdsWithin | app/users/routers.py:48 | the id-ascending listing holds only ids of the set |
| UserRouters.AscendingIdsComplete | app/users/routers.py:48 | the id-ascending listing holds every id of the set |
| UserRouters.AscendingIdsIncreasing | app/users/routers.py:48 | the id-ascending listing is strictly increasing, so no id appears twice |
| UserRouters.SortIds | app/users/routers.py:48 | the loop that takes the least remaining id each round yields exactly the id-ascending listing of the set |
| UserRouters.SearchResultsSpec | app/users/routers.py:45-54 | before offset and limit, the query yields exactly the stored users the search keeps, each once, in strictly ascending id order |
| UserRouters.EmptySearchKeepsEveryone | app/users/routers.py:45-53 | searching for "" yields the same users as not filtering at all |
| UserRouters.Page | app/users/routers.py:54 | OFFSET then LIMIT: the page is the slice from the offset of length `min(limit, remaining)` and is empty past the end |
| UserRouters.PagesTile | app/users/routers.py:44-54 | with a positive limit, every result at position i is row `i % limit` of page `i / limit + 1`, so paging through the pages reaches every result |
| UserRouters.PagesDisjoint | app/users/routers.py:44-54 | two different pages never hold the same position of the results |
| UserRouters.PageOfSearchResults | app/users/routers.py:44-55 | a page holds at most `limit` stored users, each matching the search, in strictly ascending id order |
| UserRouters.UserTable.GetUsers | app/users/routers.py:44-55 | the query part of `get_users`: status "success" and `results` equal to the number of users returned. The users are that page of the search results. Each is a stored user the search keeps, ids ascending, at most `limit` |
| UserRouters.GetUsersWithApiKey | app/users/routers.py:27-55 | the endpoint with its API-key dependency: when the guard rejects, its 403 is the answer. Otherwise the answer is the page of the search results. The user table never changes. One usage update is queued exactly when a credential was passed and the call succeeds |
| UserRouters.PatchedFieldwise | app/users/routers.py:118-121 | a partial update keeps id and password. Each field the payload sets takes the last value set for it, and every other field keeps its value |
| UserRouters.UserTable.UpdateUser | app/users/routers.py:112-126 | an unknown id is a 404 and nothing changes. A patched username that another user already has makes the commit fail (500) and nothing changes. Otherwise only that user's row is replaced, by the row with the payload applied, and it is returned. Ids and usernames stay unique |
| UserRouters.UserTable.CreateUser | app/users/routers.py:75-86 | a taken id or username gives 400 "User already exists" and leaves the table unchanged. Otherwise exactly one row is added, whose stored password is the table's hash of the submitted password, and the username is returned |
| UserRouters.FreshIdCreates | app/users/routers.py:79-85 | a fresh id with an unused username never conflicts, so its create succeeds |
| UserRouters.UserTable.CreateUserWithDefaultId | app/users/models.py:10 | `create_user` as written: the new row takes the column's single default id, and its stored password is the hash of the submitted one |
| UserRouters.TwoDefaultIdCreates | app/users/models.py:10 | on a new table, creating "alice" and then "bob" through the default id stores the first and rejects the second with "User already exists" |
| UserRouters.TwoFreshIdCreates | app/users/routers.py:75-86 | on a new table, creating "alice" and then "bob" under fresh distinct ids stores both |
| UserRouters.DefaultIdUserRejected | app/users/models.py:10 | with the shared default id, the first create on an empty table succeeds, and while any row holds that id every create conflicts, whatever its username |
| UserRouters.UserTable.GetUser | app/users/routers.py:145-150 | a known id yields its stored row. An unknown id yields 404 |
| UserRouters.UserTable.DeleteUser | app/users/routers.py:170-178 | an unknown id is a 404 and nothing changes. Otherwise exactly that row is removed and all others stay |

## Left out

- Threads. The fire-and-forget thread of `check_key` becomes the `pending` queue, drained later by `RunPendingUpdates`. Interleavings and concurrent validations are not modelled, and neither is the exception the thread swallows when its own session fails.
- SHA-256 and the hex-digest format are not modelled. The digest is any deterministic function `string -> string`, fixed when the table is built.
- `uuid.uuid4()`, `datetime.now(UTC)`, the key TTL setting, JWT decoding and bcrypt are parameters. JWT decode failures and a token without a `uid` are not modelled. Neither are timezones.
- ApiKeyModels.ApiKeyTable.CreateKey: a digest that is already stored yields an error and the table stays unchanged, as the failing commit would. No retry is modelled, because the code has none.
- ApiKeyModels.ApiKeyTable.RunPendingUpdates: the whole batch is stamped with one `now`, while each real update reads the clock when its thread runs.
- ApiKeyModels.UsageApplied: `total_queries` is an unbounded integer; the database column's width is not modelled.
- The revoke and renew endpoints call `revoke_key`/`renew_key`, which `app/api_keys/models.py` does not define, so there is nothing to model.
- The rate limiter and the `check_api_key` endpoint are not modelled. The endpoint calls `api_key_security` without a database session. The guard is modelled directly.
- app/auth/auth.py, app/main.py, app/database.py, app/config.py and the schema modules are not part of this model.
- app/users/models.py declares no username or password columns. The user row is modelled from the fields the routers read and write. Ids are modelled as natural numbers rather than uuids.
- Uniqueness of usernames is assumed as a table constraint, next to the primary key on id. Together they are the source of the `IntegrityError` that `create_user` turns into a 400. `update_user` does not catch it, so a rename onto a taken username is modelled as a 500 that stores nothing.
- UserRouters.UserTable.GetUsers: requires `page >= 1` and `limit >= 0`. Negative offsets and limits are left out. `.contains()` is plain substring search, without SQL `LIKE` wildcards. NULL first or last names never match. The absent-search branch is the `None` search.
- UserRouters.UserTable.UpdateUser: the payload is the sequence of explicitly set (field, value) items over username, first name and last name. The update schema class is not part of this model.
- ApiKeyModels.ApiKeyTable.CreateKey: `create_key` reads the clock twice, once for the expiry and once for the last query date. The model uses one `now` for both.
- UserRouters.UserTable.GetUsers: the endpoint defaults `limit=10`, `page=1` and `search=''` are not represented. Callers pass all three.
- The detail text of the 404 responses, the `createdAt`/`updatedAt` columns, and nullable key timestamps are not modelled.
- The `/me` endpoint reads a `username` attribute that the bearer credential does not have. It is not modelled.
- The bearer scheme on `/new` and `/list` answers 403 by itself when the authorization header is missing or does not use the Bearer scheme. That rejection is not modelled; both endpoints receive the header as a string.

## Findings

| source | as written | input that shows it | evidently intended | confidence | as-written member | corrected member |
|---|---|---|---|---|---|---|
| app/users/models.py:10 | `default=uuid.uuid4()` calls `uuid4` once, when the class is defined, so every row created without an id shares that one id | once the table has the username and password columns the routers use, two `create_user` calls with different usernames: the second hits the primary key and is answered 400 "User already exists" | `default=uuid.uuid4`, so each row gets a fresh id | high; not executed | UserRouters.UserTable.CreateUserWithDefaultId, UserRouters.DefaultIdUserRejected, UserRouters.TwoDefaultIdCreates | UserRouters.UserTable.CreateUser, UserRouters.FreshIdCreates, UserRouters.TwoFreshIdCreates |
