# Task store of todo-backend, modelled in Dafny

The repository keeps one kind of record, a task with a name, a description, a
priority and a status. It stores tasks in three backends:

- `main_dict.py` is a command-line tool that keeps tasks in a Python `dict` from integer index to record.
- `main_db.py` is the same tool over one SQLite table with `AUTOINCREMENT` ids and a `CHECK` on the status.
- `api.py` is a multi-user HTTP service over remote `users` and `tasks` tables. It has bcrypt passwords and 15-minute JWT access tokens, and every task query is filtered on the caller's `user_id`.

The model keeps the three apart because they really do differ. The dict reuses
the key of a deleted maximum. SQLite never reuses an id. Only the HTTP service
has owners.

Files, one module each:

- `outcomes.dfy` (`Outcomes`): `Option` and `Result`.
- `text.dfy` (`Text`): Python's `str.strip()` with Python's whitespace set, and `str.lower()` restricted to ASCII letters. `LowerMatches` shows what `x.lower() == "yes"` accepts.
- `sorting.dfy` (`PrioritySort`): a stable insertion sort by an integer key, in either direction. This is Python's `sorted(key=..., reverse=...)`. Lemmas prove it permutes, sorts, and keeps equal keys in input order.
- `tables.dfy` (`Tables`): `Row(id, fields)` and `Enumerates(rs, table)`. The predicate holds when every row of the table occurs exactly once in `rs` and nothing else does, which is what a `SELECT` without `ORDER BY` returns. `Rows` is the loop that produces such a result.
- `task_dict.dfy` (`TaskDict`): class `TaskStore`. It holds the dict as a map plus the keys in insertion order. Python dicts remember insertion order, and `show` and the stable `sorted` both depend on it.
- `task_db.dfy` (`TaskDb`): class `TaskTable`. It holds the rows by id, the `AUTOINCREMENT` counter, and a ghost set of every id issued. Its invariant is the table schema.
- `api.dfy` (`Api`): the Pydantic field bounds as predicates, abstract bcrypt and JWT, `get_current_user`, `login`, and the owner-scoped queries. Read-only operations are functions or methods over the table values. The writes are methods of class `TaskStore`, which holds both tables and their id counters.

Clocks are integer seconds passed in as `now`. A bcrypt hash is
`Bcrypt(salt, password)`, with the salt passed in. A JWT is either
`Signed(claims, key)` or `Malformed`. Its signature is valid when `key` is the
server's secret. A token is expired when `exp <= now`, which is PyJWT's rule.
Interactive answers are parameters, for example the reply to
"Are you sure you want to delete ...".

Behaviours of the code that the model keeps as written:

- In `get_tasks`, every `order` other than `desc` in any letter case sorts ascending, unrecognised values included (api.py:234-235).
- No backend breaks ties between equal sort keys (main_db.py:144-147, api.py:243). Only the dict backend has a defined tie order, insertion order, because `sorted` is stable.
- A whitespace-only task name such as `"   "` passes `min_length=1` and is stored as the empty string after `strip()` (api.py:75, 206). `Text.Strip` proves that the result is empty exactly when the input is all whitespace.
- `create_access_token` treats a zero `expires_delta` like a missing one and uses 15 minutes, because `timedelta(0)` is falsy (api.py:117).

## Model

| member | source | states |
|---|---|---|
| `Text.Strip` | api.py:206 | The result is a slice of the input with only whitespace cut off either end. It neither starts nor ends with whitespace, and it is empty exactly when the input is all whitespace. |
| `Text.LowerMatches` | main_db.py:132 | `s.lower()` equals a lower-case word exactly when `s` spells that word letter by letter in either case. This is the "yes" test in both CLIs and the "desc" test in the API. |
| `PrioritySort.SortPermutes` | main_dict.py:115 | Sorting returns a permutation of its input (same multiset). |
| `PrioritySort.SortSorted` | main_dict.py:114-115 | The result is ordered by the key: non-decreasing, or non-increasing when `reverse` is set. |
| `PrioritySort.SortStable` | main_dict.py:115 | For every key value, the elements with that key keep their input order. This holds in both directions, as for Python's `sorted`. |
| `Tables.Rows` | main_db.py:162-163 | A `SELECT` of a whole table returns every row exactly once and nothing else, in an order left open. |
| `TaskDict.Max` | main_dict.py:77 | `max` of a non-empty key list is one of the keys and no smaller than any of them. |
| `TaskDict.NextIndex` | main_dict.py:77 | The new index is 1 for an empty dict. Otherwise it is one more than an existing key and greater than every key, so it is fresh. |
| `TaskDict.Without` | main_dict.py:108 | `del` removes exactly that key from the key order, and the remaining keys stay distinct. |
| `TaskDict.TaskStore.constructor` | main_dict.py:132 | The store starts as an empty dict. |
| `TaskDict.TaskStore.Items` | main_dict.py:121-128 | `database.items()`, which `show` prints, lists every entry exactly once, in insertion order. |
| `TaskDict.TaskStore.Create` | main_dict.py:75-83 | The record goes in under `max(keys)+1`, or 1 when the dict is empty. That key is greater than every old key and is appended to the key order. No other entry changes. |
| `TaskDict.TaskStore.TaskStatus` | main_dict.py:86-98 | A missing index, or a status equal to the stored one, leaves the dict unchanged. Each case has its own outcome. Otherwise only the Status of that one record changes. |
| `TaskDict.TaskStore.Delete` | main_dict.py:101-110 | A missing index, or an answer that is not "yes" in any letter case, changes nothing. A confirmed delete removes exactly that key from the map and from the order. |
| `TaskDict.TaskStore.SortBy` | main_dict.py:113-118 | The result is a permutation of the items. It is ordered by priority, highest first only for "descending". Equal priorities keep insertion order. |
| `TaskDb.TaskTable.constructor` | main_db.py:177-186 | A new database file: the table is empty, with no id issued, and satisfies the schema invariant. Every row's status passes the CHECK and every id lies between 1 and the counter. |
| `TaskDb.TaskTable.Create` | main_db.py:79-91 | The insert succeeds exactly when the priority fits 64 bits, ids are not exhausted and the status passes the CHECK. Each failure is tied to its cause, checked in this order: integer overflow (raised while binding parameters), then id exhaustion, then the CHECK. On success there is exactly one new row with the given columns. Its id is one more than the last id issued, so it differs from every id issued before. On failure the table is unchanged. |
| `TaskDb.TaskTable.TaskStatus` | main_db.py:94-114 | An out-of-range id, a missing row or an unchanged status performs no update, and so does a status the CHECK rejects. Otherwise only that row's status changes. |
| `TaskDb.TaskTable.Delete` | main_db.py:117-137 | An out-of-range id, a missing row or an answer other than "yes" (any case) leaves the table unchanged. A confirmed delete removes exactly that row. |
| `TaskDb.TaskTable.Show` | main_db.py:160-170 | Returns every row exactly once. |
| `TaskDb.TaskTable.SortBy` | main_db.py:140-157 | Returns every row exactly once. The order is ascending priority for "ascending" and descending for any other string. Tie order is not promised. |
| `Api.ParseStatus` | api.py:59 | The status literal accepts exactly "done" and "pending", and maps back to the same string. |
| `Api.HashPassword` | api.py:103-110 | Under an idealised hash, a hash verifies exactly the password it was made from. The bcrypt limits are listed under Left out. |
| `Api.VerifyPassword` | api.py:103-105 | Under the idealised hash, a plaintext verifies against a hash exactly when it is the password that hash was made from. |
| `Api.FindUser` | api.py:135-136 | The first `users` row with that username, if any: it has the name and no earlier row does. The result is absent exactly when no row has that name. |
| `Api.ValidUserCreate` | api.py:63-65 | Accepts a username of 3 to 50 characters and a password of at least 6. |
| `Api.ValidTaskCreate` | api.py:74-78 | Accepts a name of 1 to 100 characters, no description or one of at most 500 characters, a priority of at least 1, and a status of "done" or "pending". |
| `Api.ValidTaskUpdate` | api.py:91-95 | As `TaskBase`, except that the description is required and at most 500 characters. |
| `Api.CreateAccessToken` | api.py:114-119 | The token is signed with the secret and its `sub` is the subject. Its `exp` is `now + expires_delta`, or `now + 15 min` when no delta or a zero delta is given. |
| `Api.Expired` | api.py:125 | The `exp` rule of `jwt.decode`: a token is expired exactly when it has an `exp` claim and `exp <= now`. A token without `exp` never expires. |
| `Api.Decode` | api.py:125 | A token decodes exactly when its signature is valid and it has not expired. The error is "expired" for a valid signature and "invalid" otherwise. |
| `Api.IssuedTokenDecodes` | api.py:114-132 | A token the server issued decodes to its own claims before its `exp` and is refused as expired from then on. |
| `Api.GetCurrentUser` | api.py:122-141 | Each failure happens exactly when its condition holds: invalid token, expired, missing or empty subject, no `users` row for the subject. On success the user is a `users` row named by the token's subject. |
| `Api.Login` | api.py:173-197 | Success happens exactly when the first `users` row with that name accepts the password, and it gives the 15-minute token for that name. With unique usernames this is the same as any row with that name accepting it. Every failure is "incorrect credentials". |
| `Api.RegisterThenLogin` | api.py:145-197 | After registering a fresh name, logging in with the same password yields a token. That token resolves to the new user for 15 minutes and is refused as expired afterwards. |
| `Api.SortColumnOf` | api.py:230-232 | `created_on` and `last_modified` select those columns. Every other `sort_by` value selects `priority`. |
| `Api.ColumnName` | api.py:230 | Normalising a column's own name gives back that column. |
| `Api.IsDescending` | api.py:234-235 | Sorting is descending exactly when `order` is the four letters d, e, s, c in any case. |
| `Api.StatusFilter` | api.py:240-241 | A filter applies exactly when `status` is "done" or "pending". |
| `Api.Visible` | api.py:238-241 | The selected rows are exactly the caller's rows, restricted to the filtered status when there is a filter, with their stored columns. |
| `Api.GetTasks` | api.py:222-250 | Lists each of the caller's rows that pass the status filter exactly once, and no other row. The list is ordered by the normalised column, descending exactly when `order.lower() == "desc"`. |
| `Api.GetTask` | api.py:254-269 | Finds the task exactly when the id exists and the caller owns it, and returns that row. Otherwise the answer is "Task not found". |
| `Api.OnlyOwnRowsObservable` | api.py:238-260 | Two stores that agree on the caller's rows give the caller identical `get_task` answers and the same selection of rows for every status filter, whatever other users own. |
| `Api.OtherOwnersTaskLooksMissing` | api.py:256-267 | A task owned by another user gets the same answer as a task id that does not exist: "Task not found". |
| `Api.TaskStore.constructor` | api.py:55 | The model's starting point: no users, no tasks, and both id sequences at 1. |
| `Api.TaskStore.Register` | api.py:145-170 | Fails as unprocessable exactly when the `UserCreate` bounds fail (username 3 to 50 characters, password at least 6). Fails with "username exists" exactly when the name is taken. Otherwise it appends one user row with the hashed password. Tasks never change, and usernames stay unique. |
| `Api.TaskStore.CreateTask` | api.py:201-219 | Fails exactly when the body breaks the `TaskBase` bounds. Otherwise it adds one new row owned by the caller, with a fresh id, and advances the id sequence by one. The row holds the trimmed name and the given description, priority and status, with `created_on == last_modified == now`. No other user's rows change. |
| `Api.TaskStore.UpdateTask` | api.py:272-306 | Fails exactly when the body breaks the `TaskUpdate` bounds. Fails with "Task not found", changing nothing, when the caller does not own the id. It succeeds exactly when the body is valid and the caller owns the id, and then only that row changes: its name (untrimmed), description, priority and status are overwritten and `last_modified = now`, while `created_on` and `user_id` are kept. |
| `Api.TaskStore.DeleteTask` | api.py:311-336 | Succeeds exactly when the caller owns the id, and then removes exactly that row. Otherwise it answers "Task not found" and changes nothing. Other users' rows never change. |

## Left out

- Terminal I/O: `clear`, `menu`, the `main` input loops and every `print` and `input` in `main_dict.py` and `main_db.py`. The input validation those loops do (an integer priority or index, a status of "complete" or "incomplete") is not modelled. The operations take their arguments directly, the delete confirmation is a string parameter, and the printed messages become outcome values.
- The `main_db.py` status CHECK is enforced by the model's `Create` and `TaskStatus`. They fail instead of inserting or updating. The dict tool's operations accept any status string, as the Python functions do.
- Application startup: environment loading, `SECRET_KEY` checking, the FastAPI app, `get_client`, and `/health` (api.py:19-55, 339-342).
- HTTP framing: status codes, headers and exception wrapping are reduced to `ApiError` and `AuthError` variants. Storage failures are not modelled: the remote store always answers. This covers an empty `response.data` and a `postgrest` `APIError` (api.py:162-168, 181-183, 215-216, 303-304, 333-334).
- Response models: FastAPI's filtering of returned rows through `TaskRead` is not modelled. It drops `user_id`, which for the caller's own rows is the caller's id anyway. It also validates outgoing rows, so it would reject a stored empty name.
- The order of FastAPI's checks: the task routes take the already-resolved `current_user`. Whether a bad token or a bad body is reported first is not modelled.
- bcrypt: `Bcrypt(salt, password)` is an abstract hash. It models neither one-wayness, nor cost, nor `verify` failing on a malformed hash.
- JWT: encoding, HS256 and base64 are abstract. Among the claims, only `sub` and `exp` are modelled. Other claim checks PyJWT performs (`nbf`, `iat`, `aud`, the type of `sub`) are not.
- Time: `datetime`, timezones, ISO strings and sub-second precision are replaced by integer seconds.
- The race between the duplicate-username check and the insert in `register` (api.py:151-159). Registration is modelled as one sequential step.
- Database internals: SQLite's and Postgres's tie order under `ORDER BY`, the row order of a plain `SELECT`, and the column types of the remote tables.
- `Text.Lower`: maps only ASCII letters. Python's full Unicode `lower()` gives the same answer for the comparisons with "yes" and "desc". The only non-ASCII characters that lower to ASCII letters are the Kelvin sign and the dotted capital I, which give 'k' and 'i', and neither letter occurs in those words.
- `Api.TaskStore.UpdateTask`: does not promise that `last_modified` never decreases. `now` is a parameter, and the model has no monotonic clock.
- `TaskDb.TaskTable.constructor`: starts from a new `tasks.db`. `main` opens a persistent file with `CREATE TABLE IF NOT EXISTS` (main_db.py:174-185), so a later run starts with the earlier rows and `AUTOINCREMENT` counter. Such a reopened file is represented only by states the modelled operations reach from an empty table.
- `Api.GetTasks`: the query defaults `sort_by="priority"`, `order="desc"` and `status=None` (api.py:224-226) are not modelled. The method always takes all three explicitly, so a bare `GET /tasks` is described only through the call `GetTasks(tasks, user, "priority", "desc", None)`.
- `Api.HashPassword`, `Api.VerifyPassword`: the hash is idealised. It is injective and never fails. passlib's bcrypt differs in three ways. It compares only the first 72 UTF-8 bytes, so two long passwords with the same 72-byte prefix verify against one hash. It raises on a password containing NUL. It raises on a password over its size limit (4096). The call in `register` (api.py:148) is outside the `try`. For such a password `register` answers 500 and inserts nothing, where `Api.TaskStore.Register` returns Ok and appends a row. `verify_password` in `login` (api.py:187) can raise the same way, which `Api.Login` does not model either.
- `Api.TaskStore.constructor`: starts from empty `users` and `tasks` tables. The remote tables behind api.py:55 may already hold rows. Such a database is covered only when it meets `TaskStore.Valid()`: unique usernames, unique user ids, ids below the counters, rows within the request bounds, and every task's owner present in `users`.
