# telerun: the database layer, modelled in Dafny

telerun is a Telegram bot that keeps a ledger of runs for each group chat. Chat
members add a distance, list the chat's recent runs, edit or delete a run by id,
and ask for a tally: runs counted as "medals" and distances summed, per user.
This project models the bot's persistence and aggregation layer,
`src/database.rs`, as an in-memory store. The database holds two tables:

- `users(id, chat_id, user_name)`, unique on `(chat_id, user_name)`;
- `runs(id, distance, run_datetime, user_id)`. `run_datetime` is set by the
  database when a run is inserted.

The model has four modules:

- `Wrappers` (`wrappers.dfy`): `Option` ("no data" vs data) and `Result` (the
  `DBResult` of each statement).
- `Models` (`models.dfy`): the records `User`, `Run` and `Score`, with the fields
  `src/database.rs` reads and writes. `AsU32` is Rust's `as u32` cast.
- `Queries` (`queries.dfy`): the read-only queries `get_user`,
  `get_users_in_chat`, `get_runs` and `get_tally`. Each is a function of the two
  tables' contents. The module also holds what each SQL clause does: the
  `WHERE user_id = ANY(..)` filter, `ORDER BY run_datetime DESC` as a sort,
  `LIMIT` as a prefix, and the `JOIN ... GROUP BY user_name` with `COUNT` and
  `SUM`. The lemmas state what the queries promise.
- `Database` (`database.dfy`): class `Store`. Its fields are the two tables
  and three counters that stand for values the database assigns: the next
  `users.id`, the next `runs.id`, and a clock whose reading becomes a new run's
  `run_datetime`. Its methods are `create_user`, `add_run`, `add_run_wrapper`,
  `update_run` and `delete_run`. Each states the tables it leaves behind and keeps
  the invariant `Valid()`:
  - `(chat_id, user_name)` is unique;
  - user ids and run ids are unique and below their counters;
  - every timestamp is before the clock;
  - every run's `user_id` names a user.

  Three client methods show what a caller can prove from these contracts alone.

Modelling choices:

- Distances are `real` kilometres, so sums are exact.
- A chat id is the text that `chat_id.to_string()` stores.
- Two failures are modelled, because the SQL itself produces them:
  - `get_runs` with a negative `limit` fails: PostgreSQL refuses a negative
    LIMIT.
  - `add_run` with a `user_id` that names no user fails: this breaks the
    `runs.user_id` foreign key.
- Queries that cannot fail in this model return `Option` directly, without the
  `DBResult` wrapper.
- PostgreSQL draws an id sequence's value before it checks constraints. So in the
  model every insert attempt advances its id counter, including an
  `ON CONFLICT DO NOTHING` that inserts nothing and an insert that fails.

What the code does, and so what the model does:

- `get_tally` has no `ORDER BY`, so scores are not sorted by distance. No member
  in the table below states an order of the scores.
- `get_tally` returns `Some([])` when a chat has users but no runs. It returns
  "no data" only when the chat has no users.
- `update_run` and `delete_run` in `src/database.rs` take no owner argument and
  check no ownership. The calls in `src/bot.rs` pass extra arguments that these
  signatures do not have.
- Users are keyed by `(chat_id, user_name)` only. `src/database.rs` reads and
  writes no Telegram user id.

## Model

| member | source | states |
|---|---|---|
| `Models.AsU32` | src/database.rs:223 | `COUNT(*) as u32` is below 2^32, equals the count when the count fits, and differs from it by a multiple of 2^32 |
| `Queries.GetUser` | src/database.rs:35-48 | returns `Some(u)` exactly when some stored user has that `user_name` and `chat_id`, and then `u` is such a stored user; otherwise `None` |
| `Queries.GetUserUnique` | src/database.rs:14-22 | under the unique `(chat_id, user_name)` key, the user `get_user` finds is the only user with that key |
| `Queries.UsersInChat` | src/database.rs:57-71 | the rows selected by `WHERE chat_id = $1` are exactly the stored users of that chat, each no more often than stored |
| `Queries.GetUsersInChat` | src/database.rs:53-78 | `None` exactly when no user has the chat id; otherwise a non-empty sequence holding exactly the chat's users, none more often than stored |
| `Queries.UserIds` | src/database.rs:143 | an id is in the collected list exactly when some listed user has it |
| `Queries.ChatUserIds` | src/database.rs:141-143 | an id is bound to `ANY($1)` exactly when it is the id of a user of the chat |
| `Queries.RunsOwnedBy` | src/database.rs:144-147 | `WHERE user_id = ANY(ids)` keeps exactly the stored runs whose owner id is listed, each no more often than stored |
| `Queries.ChatRuns` | src/database.rs:141-147 | the runs get_runs selects are exactly the stored runs owned by a user of the chat, none more often than stored |
| `Queries.InsertByTime` | src/database.rs:148 | inserting into a newest-first sequence gives a newest-first sequence with the one extra run |
| `Queries.SortNewestFirst` | src/database.rs:148 | `ORDER BY run_datetime DESC` gives a newest-first permutation of the selected runs |
| `Queries.Page` | src/database.rs:149 | `LIMIT n` keeps the first `min(n, rows)` rows, in order |
| `Queries.NewestPage` | src/database.rs:148-149 | the first `limit` sorted rows come from the selected runs. They are empty only for a zero limit or no rows. No selected run left out is newer than one kept |
| `Queries.GetRuns` | src/database.rs:136-172 | fails only when the chat has users and the limit is negative. A `Some` page is non-empty, holds at most `limit` runs, and is ordered by `run_datetime`, newest first |
| `Queries.GetRunsNoData` | src/database.rs:164-171 | "no data" exactly when the chat has no users, the limit is 0, or no run belongs to a user of the chat. The result is never `Some([])` |
| `Queries.GetRunsNewest` | src/database.rs:144-162 | a page holds `min(limit, chat's runs)` runs, all stored runs of users of the chat, and no run of the chat that was left off is newer than one on the page |
| `Queries.NewestRunListedFirst` | src/database.rs:119-149 | a run of the chat that is newer than every other stored run is the first one listed for any limit of at least 1 |
| `Queries.Names` | src/database.rs:209-213 | a name occurs in the joined rows' `user_name` column exactly when its group counts at least one row |
| `Queries.Distinct` | src/database.rs:213 | the GROUP BY keys are exactly the names that occur, each once |
| `Queries.JoinRun` | src/database.rs:211 | `JOIN users ON users.id = runs.user_id` gives a run at most one row per user, each with the run's distance and the name of a user whose id is the run's owner id; `JoinRunNone` and `JoinRunOwner` say which rows |
| `Queries.JoinRows` | src/database.rs:210-212 | every joined row of `WHERE user_id = ANY(ids)` comes from a stored run whose owner id is listed, joined with that owner; `GroupOfUser` says what a chat user's rows add up to |
| `Queries.CountNamed` | src/database.rs:209-213 | `COUNT(*)` of a group is at most the number of rows, and positive exactly when some row carries the group's name; `GroupOfUser` equates it with the user's number of runs |
| `Queries.SumNamed` | src/database.rs:209-213 | `SUM(distance)` of a name no row carries is 0, and the sum of non-negative distances is non-negative; `GroupOfUser` equates it with the user's total distance |
| `Queries.GroupByName` | src/database.rs:209-226 | `GROUP BY user_name` makes no more groups than rows, and every group counts at least one row; `GroupByNameSpec` gives each group's score |
| `Queries.GroupByNameSpec` | src/database.rs:209-226 | one score per group: names are distinct; a name has a score exactly when some joined row carries it; each score's medals and distance are its group's count (as u32) and sum |
| `Queries.GetTally` | src/database.rs:203-232 | `None` exactly when the chat has no users |
| `Queries.JoinRunNone` | src/database.rs:211 | a run whose `user_id` matches no user yields no joined row |
| `Queries.JoinRunOwner` | src/database.rs:211 | with unique user ids, a run joins into exactly one row, carrying its owner's name and its own distance |
| `Queries.JoinRowsNone` | src/database.rs:210-212 | when no run's owner id is listed, the joined, filtered rows are empty |
| `Queries.HeadOfUser` | src/database.rs:208-215 | one run adds one row and its distance to the group of a chat user `u` exactly when it is `u`'s run |
| `Queries.GroupOfUser` | src/database.rs:208-224 | the group of a chat user's name counts exactly that user's runs and sums exactly their distances |
| `Queries.JoinedNamesInChat` | src/database.rs:207-213 | every joined row of the chat carries the name of one of the chat's users |
| `Queries.GetTallyScores` | src/database.rs:203-232 | for a chat with users the tally is `Some`, one score per name. Each score is a chat user's run count (as u32) and total distance, for a user with at least one run. Every chat user with a run has a score |
| `Queries.TallyWithoutRuns` | src/database.rs:206-228 | a chat whose users have no runs gets `Some([])`, not "no data" |
| `Queries.TallyExample` | src/database.rs:203-228 | runs of 5 and 3 km by `a`, 10 km by `b` and 7 km by another chat's `a` tally as exactly two scores, `a`: 2 medals, 8 km and `b`: 1 medal, 10 km, in either order |
| `Database.WithDistance` | src/database.rs:176-179 | `UPDATE ... SET distance = $1 WHERE id = $2` keeps every run's id, timestamp and owner, and changes a distance only on the run with that id |
| `Database.WithDistanceUnknown` | src/database.rs:175-187 | updating an id that no run has leaves the runs table unchanged |
| `Database.WithDistanceKnown` | src/database.rs:175-187 | updating the id of run `k` sets that run's distance and changes no other run |
| `Database.WithoutRun` | src/database.rs:192-193 | `DELETE ... WHERE id = $1` keeps exactly the runs with other ids |
| `Database.WithoutRunUnknown` | src/database.rs:190-200 | deleting an id that no run has leaves the runs table unchanged |
| `Database.WithoutRunKnown` | src/database.rs:190-200 | deleting the id of run `k` removes exactly that one run |
| `Database.WithoutRunIdsUnique` | src/database.rs:190-200 | deleting keeps run ids unique |
| `Database.Store.constructor` | src/main.rs:33-36 | the database the statements run against starts with both tables empty, both id sequences at 1, and the invariant holding |
| `Database.Store.CreateUser` | src/database.rs:14-30 | always succeeds. Leaves the users table unchanged when the key is taken, and otherwise appends exactly one user with the next id. The runs table is unchanged |
| `Database.Store.AddRun` | src/database.rs:116-131 | appends a run with the next id, the distance, the current time and the owner, and succeeds, exactly when the owner exists. Otherwise fails with a foreign-key violation and changes no table |
| `Database.Store.AddRunWrapper` | src/database.rs:80-114 | always succeeds. The user with that name and chat exists afterwards, and was created only if it was absent. The runs table has exactly one new row, with that distance and that user's id. The branch where the re-lookup misses is proved unreachable |
| `Database.Store.UpdateRun` | src/database.rs:174-187 | always succeeds; the runs table becomes `WithDistance` of the old one; users and counters are unchanged |
| `Database.Store.DeleteRun` | src/database.rs:189-200 | always succeeds; the runs table becomes `WithoutRun` of the old one; users and counters are unchanged |
| `Database.CreateUserTwice` | src/database.rs:18-30 | `create_user` called twice with one key creates the user at most once |
| `Database.AddRunTwice` | src/database.rs:99-107 | `add_run_wrapper` called twice with one name and chat leaves the users table as one `create_user` would (unchanged when the key was taken, else one new user appended), and adds two runs, in order, owned by that user's id |
| `Database.AddThenList` | src/database.rs:93-172 | after `add_run_wrapper` (users table as `create_user` leaves it, exactly one run appended with the next id, the distance and the user's id), the result is `get_runs` of the new tables, and with a limit of at least 1 it lists that new run first |

## Left out

- Transport failures (`sqlx::Error` from the connection pool) are not modelled. Every statement completes, and the only failures are the two that SQL itself produces: a negative LIMIT and a foreign-key violation.
- Concurrency is not modelled. The store is sequential, so the race between two first-time inserts that `ON CONFLICT DO NOTHING` tolerates is not modelled.
- Floating point is not modelled. Distances are `f32` in the code and `real` in the model, so `SUM(distance)` here has no rounding.
- Ids are `i32` in the code; the model's ids are unbounded, so exhausting a sequence is not modelled.
- The schema and migrations are not part of this model. The model assumes five things they would declare: the unique key named in the comment on `create_user`, primary keys on both `id` columns, a foreign key from `runs.user_id` to `users.id`, a `run_datetime` filled in on insert, and a freshly migrated database with both tables empty and both id sequences starting at 1.
- A NULL `run_datetime` is not modelled, because every insert assigns a timestamp.
- `Queries.GetRuns`: SQL leaves the order of runs with equal timestamps open. The model's sort fixes one order. The helper lemma `GetRunsIsSortedPrefix` names that sort and so depends on it; no member in the table above does.
- `Queries.GetTally`: SQL leaves the order of groups and of `get_users_in_chat`'s rows open. The model fixes one order for each. The helper lemma `ExampleGroups` computes the worked example's groups in that order; `TallyExample` and the other tally lemmas say nothing about order.
- `Database.Store.AddRun`: the clock is a counter, so every new run is strictly later than all earlier runs. A database-assigned `now()` does not promise this: two inserts in one transaction or in one clock tick get equal timestamps. `NewestRunListedFirst`'s requirement is met by `AddThenList` only because of this counter, so with equal timestamps the new run need not be listed first.
- Ownership-gated edit and delete are not modelled, because `src/database.rs` has neither. The extra arguments in the calls in `src/bot.rs` have no counterpart.
- `src/bot.rs` (command parsing, the Telegram loop, sending messages, logging) is framework I/O and is not modelled.
- `src/message.rs` (askama templates and `Display` formatting) is rendering and is not modelled.
- `src/main.rs` (provisioning, migrations and secrets) is bootstrap and is not modelled.
- The `error!` log in `add_run_wrapper`'s failure branch is not modelled. The branch is proved unreachable.
