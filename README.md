# RouteLink core, modelled in Dafny

RouteLink is a small trip planner. Users keep a list of named *locations* and a
*schedule*: a list of visits to those locations, each of which can be marked done.
This project models the parts of it that carry logic:

- **The database access helper** (`useDb`). It keeps a process-wide table with one
  connection handle per connection string. A handle is created on the first request
  for a string and reused after that (`db.dfy`, class `Db.ConnectionPool`).
- **The four collection endpoints** (`POST`/`GET` on `/api/locations` and
  `/api/schedules`). Each one checks the caller's identity (401) and runs one
  statement scoped to the caller. The two POST handlers first validate the body (400). It answers with the
  `{ success, data }` envelope, or with a 500 when the statement fails. Each handler
  has two parts:
  - a pure function that gives its answer (`CreateLocation`, `CreateSchedule`,
    `ListLocations`, `ListSchedules`), with the handler's promises as its `ensures`;
  - a method that runs it against the connection table and the in-memory tables
    (`PostLocation`, `PostSchedule`, `GetLocations`, `GetSchedules`). It fetches the
    handle at the same point as the source, and the POST methods append the
    returned row.

  The identity provider's answer is an `Option<UserId>` parameter. The database's
  failure is an `Option<string>` parameter holding its error message. Ids and
  `created_at` values come in as a `Generated` parameter.
- **The client's schedules cache** (`schedule_cache.dfy`). The query client's entry
  for `["schedules"]` is the class `SchedulesQuery`: the cached list, whether a read
  is in flight, and a log of cancellations and invalidations. The toggle-completed
  mutation is written as the source's `onMutate` / `onError` / `onSettled`
  callbacks. The optimistic rewrite is the pure function `MarkCompleted`. The add
  and remove hooks invalidate the list only on success.

Request bodies are JSON values with JavaScript truthiness (`Common.Truthy`). The
model therefore covers the source's `!name`, `!location_id` and `note || null`
exactly: absent, `null`, `false`, `0` and `""` are falsy. Destructuring a `null` or
empty body throws a TypeError outside the handler's `try`. The model shows this as
the response `Uncaught`, which the web framework answers with a generic 500.

Behaviour of the source worth noting:

- `POST /api/locations` gets the connection handle before it validates the body
  (`locations.post.ts:15-26`). So an authenticated request with a bad body still
  registers the connection string. It runs no statement. `POST /api/schedules`
  validates first (`schedules.post.ts:17-25`).
- `POST /api/schedules` does not check who owns `location_id`. The `GET` join does
  not filter locations by owner either. Both are stated as proved properties
  (`OtherOwnersLocationAccepted`, `MatchedScheduleListed`).
- The rollback calls `setQueryData(["schedules"], context?.previous)`. TanStack Query
  ignores an `undefined` value there. So when nothing was cached at the start, the
  rollback leaves the entry as it is, rather than clearing it. For a toggle that runs
  alone, when no read answers while the update is pending, toggle-then-fail therefore
  restores the exact starting state. A read started after `onMutate` that answers in that window is stored. If the
  update then fails and nothing was cached at the start, that read's answer stays
  (`ToggleCompleted`).

- The hook's callbacks run for every `mutate` call, so two quick toggles overlap.
  Each rollback puts back its own snapshot. When both fail, the first rollback wipes
  the second toggle's pending rewrite. The second rollback then puts back the first
  toggle's rejected flag, which stays until a refetch answers
  (`OverlappingTogglesFail`).

## Model

| member | source | states |
|---|---|---|
| `ScheduleCache.MarkCompleted` | app/composables/useSchedules.ts:84-89 | Same length and order. Every entry whose id is the target gets the requested `completed`, and no other field changes. Every other entry is returned unchanged. |
| `ScheduleCache.MarkCompletedLastWins` | app/composables/useSchedules.ts:84-89 | Two rewrites with the same id equal one rewrite with the second value. |
| `ScheduleCache.MarkCompletedUnchanged` | app/composables/useSchedules.ts:84-89 | A rewrite to the value every matching entry already holds changes nothing. This includes a list with no matching entry. |
| `ScheduleCache.MarkCompletedUndo` | app/composables/useSchedules.ts:84-89 | The rewrite has an inverse: rewriting back to the matching entries' old value restores the list. |
| `ScheduleCache.SchedulesQuery.GetQueryData` | app/composables/useSchedules.ts:78 | Returns the cached list, or none when nothing is cached. |
| `ScheduleCache.SchedulesQuery.SetQueryData` | app/composables/useSchedules.ts:81-90 | A defined value replaces the entry. An undefined value leaves it as it is, as the query library does. |
| `ScheduleCache.SchedulesQuery.CancelQueries` | app/composables/useSchedules.ts:77 | No read is left in flight afterwards, and a cancellation is logged. The cached list is not touched. |
| `ScheduleCache.SchedulesQuery.InvalidateQueries` | app/composables/useSchedules.ts:102 | Logs an invalidation of the key. Nothing else changes. |
| `ScheduleCache.SchedulesQuery.StartFetch` | app/composables/useSchedules.ts:13-24 | A read of the key is in flight. |
| `ScheduleCache.SchedulesQuery.FetchResolved` | app/composables/useSchedules.ts:13-24 | A read's answer is stored only if the read was not cancelled. Afterwards no read is in flight. |
| `ScheduleCache.SchedulesQuery.constructor` | app/composables/useSchedules.ts:13-24 | An entry holding the given list, with no read in flight and an empty log. |
| `ScheduleCache.ToggleUpdater` | app/composables/useSchedules.ts:81-90 | An empty cache is handed back empty, so the entry is left alone. A cached list keeps its length and order. The target's entries carry the requested flag, and every other field of theirs is kept. All other entries are unchanged. |
| `ScheduleCache.ToggleOnMutate` | app/composables/useSchedules.ts:76-93 | In-flight reads are cancelled first. The returned context holds the cache contents from before the rewrite. The cache then holds the rewritten list. An empty cache stays empty. |
| `ScheduleCache.ToggleOnError` | app/composables/useSchedules.ts:95-99 | A defined snapshot is put back. With no snapshot (nothing was cached) the entry is left as it is, as `setQueryData(key, undefined)` does. No read state or log entry changes. |
| `ScheduleCache.ToggleOnSettled` | app/composables/useSchedules.ts:101-103 | The schedules key is invalidated, and the cached list is untouched. |
| `ScheduleCache.ToggleCompleted` | app/composables/useSchedules.ts:64-105 | One full mutation. A read already in flight at `onMutate` is cancelled, so its answer is dropped. With no other read answering, a failed update leaves the cache as it was before the toggle, and a success leaves the rewritten list. A read started after `onMutate` that answers before the update does is stored. A success then keeps its answer. A failure puts back the snapshot if there was one, and otherwise keeps that answer. No read is in flight at the end. The log gains a cancellation, then an invalidation, in every case. |
| `ScheduleCache.OverlappingTogglesFail` | app/composables/useSchedules.ts:76-99 | Two overlapping toggles on `[s1, s2]` that both fail: after the first rollback the list is `[s1, s2]`, with the second toggle's rewrite gone. After the second rollback `s1` shows the rejected `completed = true`. |
| `ScheduleCache.AddScheduleSettled` | app/composables/useSchedules.ts:36-42 | Invalidates the schedules key only on success. The cached list never changes. |
| `ScheduleCache.RemoveScheduleSettled` | app/composables/useSchedules.ts:54-60 | Invalidates the schedules key only on success. The cached list never changes. |
| `Db.ConnectionPool.constructor` | server/utils/db.ts:3 | The connection table starts empty, with no handle created. |
| `Db.ConnectionPool.UseDb` | server/utils/db.ts:5-13 | Returns the handle stored under the URL. A new handle is created, and the counter rises by one, only on a miss. Entries for other URLs are neither changed nor removed. The handle count always equals the number of distinct URLs requested. |
| `Db.UseDbTwice` | server/utils/db.ts:6-7 | Two calls with the same URL return the identical handle. |
| `Db.UseDbDistinct` | server/utils/db.ts:10-12 | Different URLs get different handles. |
| `Common.Member` | server/api/locations.post.ts:18-19 | Destructuring a field of the body. It throws for a `null` or `undefined` body, gives the field's value when present, and `undefined` otherwise. |
| `Common.Unauthorized` | server/api/locations.post.ts:8-13 | The error every handler raises without a user: status 401 with the message "未登入". |
| `Common.OrNull` | server/api/schedules.post.ts:30 | `v \|\| null`: truthy values pass through, and falsy ones become `null`. |
| `LocationsPost.HasRequiredFields` | server/api/locations.post.ts:21 | The negation of `!name \|\| !address`. It holds only for an object body that carries both fields, neither of them `null`. |
| `LocationsPost.CreateLocation` | server/api/locations.post.ts:4-45 | No user gives 401, whatever the body and the database would do. A falsy `name` or `address` gives 400, and any truthy pair passes. A 500 comes only from the insert, with "新增失敗: " and its message. A success returns `{success: true}` with a row owned by the caller that carries the body's values. |
| `LocationsPost.PostLocation` | server/api/locations.post.ts:4-45 | Answers as `CreateLocation`. The locations table gains exactly the returned row on success, and nothing otherwise. The connection is registered only after the auth guard passes. Handles already stored are kept unchanged. |
| `SchedulesPost.HasLocationId` | server/api/schedules.post.ts:17 | The negation of `!location_id`. It holds only for an object body that carries the field, with a value other than `null`, `false`, `0` and `""`. |
| `SchedulesPost.CreateSchedule` | server/api/schedules.post.ts:4-44 | No user gives 401. A falsy `location_id` gives 400. A 500 comes only from the insert, with "新增行程失敗: " and its message. On success the row is owned by the caller, keeps `location_id` as sent, and stores a falsy `note` as `null`. |
| `SchedulesPost.PostSchedule` | server/api/schedules.post.ts:4-44 | Answers as `CreateSchedule`. The schedules table gains exactly the returned row on success, and nothing otherwise. The connection is registered only after validation passes. The locations table is neither read nor changed. Handles already stored are kept unchanged. |
| `SchedulesPost.OtherOwnersLocationAccepted` | server/api/schedules.post.ts:27-32 | A `location_id` naming a location in the table that another user owns is inserted all the same, as the caller's row. The caller's schedule listing then shows that location's name and address. |
| `Ordering.SortBy` | server/api/locations.get.ts:21 | `ORDER BY`: the result is sorted by the key and is a permutation of the input. |
| `Ordering.Insert` | server/api/schedules.get.ts:31 | Inserting adds exactly the one row, and the result is headed by the new row or by the old head. |
| `Ordering.InsertSorted` | server/api/schedules.get.ts:31 | Inserting into a sorted sequence keeps it sorted. |
| `LocationsGet.OwnedBy` | server/api/locations.get.ts:19-20 | `WHERE user_id = caller`: each owned row is kept as often as the table holds it, and no other row is kept. |
| `LocationsGet.ListLocations` | server/api/locations.get.ts:4-34 | No user gives 401 and runs no query. A failed query gives 500 with "取得地點失敗: " and its message. Otherwise `{success: true}` holds exactly the caller's locations, newest first. |
| `LocationsGet.ListingMembers` | server/api/locations.get.ts:19-20 | A row is listed exactly when it is in the table and owned by the caller. |
| `LocationsGet.ListingsArePermutations` | server/api/locations.get.ts:21 | Any two valid answers hold the same rows, with the same timestamp at every position. They differ at most in the order of equal timestamps. |
| `LocationsGet.SameTimestamps` | server/api/locations.get.ts:21 | Two newest-first permutations of one another agree on the timestamp at each position. |
| `LocationsGet.GetLocations` | server/api/locations.get.ts:4-16 | Answers as `ListLocations`. The connection is registered only after the auth guard passes, and nothing is written. Handles already stored are kept unchanged. |
| `SchedulesGet.Joined` | server/api/schedules.get.ts:20-27 | The SELECT list: the schedule's id, `location_id`, note, `completed` and `created_at`, with the location's name and address. |
| `SchedulesGet.Matches` | server/api/schedules.get.ts:29 | The join condition, compared with the location's id as a string. A `location_id` that is not a string matches no location, and a match means the ids are equal. |
| `SchedulesGet.JoinOne` | server/api/schedules.get.ts:28-29 | For one schedule, the join yields exactly the rows pairing it with each location whose id equals its `location_id`, carrying that location's name and address. Each answer row occurs as often as a location row yields it, so the row count is the number of matches. |
| `SchedulesGet.JoinOwned` | server/api/schedules.get.ts:28-30 | The join's rows are exactly the caller's schedules paired with every matching location. It has no condition on the location's owner. The row count is the sum of the caller's schedules' match counts. |
| `SchedulesGet.AtMostOneMatch` | server/api/schedules.get.ts:29 | With `locations.id` unique, a schedule matches at most one location. It matches exactly one when a location with its `location_id` exists, so it contributes one row to the join in that case and none otherwise. |
| `SchedulesGet.ListSchedules` | server/api/schedules.get.ts:4-44 | No user gives 401 and runs no query. A failed query gives 500 with "取得行程失敗: " and its message. Otherwise the rows are a permutation of the inner join, as many as the join yields, oldest first. Each row belongs to a schedule of the caller and carries the name and address of the location it references. |
| `SchedulesGet.UnmatchedScheduleOmitted` | server/api/schedules.get.ts:29 | Inner join: a schedule whose `location_id` matches no location yields no row. |
| `SchedulesGet.MatchedScheduleListed` | server/api/schedules.get.ts:26-30 | A caller's schedule that references an existing location is listed with that location's name and address, whoever owns the location. |
| `SchedulesGet.GetSchedules` | server/api/schedules.get.ts:4-16 | Answers as `ListSchedules`. The connection is registered only after the auth guard passes, and nothing is written. Handles already stored are kept unchanged. |

## Left out

- Session-token verification (`serverSupabaseUser`) is a call into the identity
  provider. Its answer is the `user` parameter.
- The postgres driver, the SQL text, and what the database assigns are outside the
  model. Connection pooling and the tagged-template parameter binding are not
  modelled. Ids, `created_at` and the `completed` column default arrive as
  parameters. The tables in the model do not enforce their primary keys.
  `SchedulesGet.UnmatchedScheduleOmitted` assumes unique schedule ids (`UniqueIds`),
  and `SchedulesGet.AtMostOneMatch` assumes unique location ids (`UniqueLocationIds`),
  as the primary keys guarantee.
- SchedulesGet.JoinOwned: a stored column holds the JSON value as the body sent it.
  The database's conversion of a body value to the column's type is not modelled.
  The join therefore matches only a string `location_id`: a body `{"location_id": 7}`
  is stored as the number 7 and joins no location.
- SchedulesPost.CreateSchedule: the returned row (`RETURNING *`) carries
  `location_id` and `note` as sent, not as the database would convert them.
- LocationsPost.CreateLocation: the returned row carries `name` and `address` as
  sent, not as the database would convert them.
- ScheduleCache.ToggleCompleted: only two reads are modelled, one in flight at
  `onMutate` and one started after it that answers before the update. Several reads,
  and a read still in flight when the mutation settles, are not modelled. Nor are
  overlapping mutations: its contract covers one toggle running alone.
- Every way a statement can fail (network, constraint, type cast of a body value)
  is the single `dbError` input.
- The handle returned by `useDb` does not itself run the statements. The tables are
  the separate `Database` object the handlers are given.
- `useRuntimeConfig` is left out. The connection string is the `url` parameter.
- JSON numbers are integers in the model. NaN, fractions and `-0` are not modelled.
  Nested objects and arrays in a field are one truthy `Composite` value.
- Rows with equal timestamps are listed in table order by this model's sort. SQL
  leaves their order unspecified. The listing contracts state only what SQL
  guarantees (sorted, same rows), and `ListingsArePermutations` shows that any two
  such answers differ only among equal timestamps.
- The content of the framework's generic 500 for an `Uncaught` body error is not
  modelled.
- The network requests of the mutations (`axios.put`/`post`/`delete`) are left out.
  They appear only through their outcome, the `serverOk` / `ok` inputs, and
  `AddScheduleSettled` / `RemoveScheduleSettled` start at that outcome.
- `alert` and `console.error` are user-interface side effects and are not modelled.
- `context?.previous` for a failed `onMutate` is not modelled. `onMutate` cannot
  fail in the model.
- What the query library does on cancel and invalidate is reduced to the
  `fetching` flag and the event log. The refetch that follows an invalidation is
  not modelled.
- `staleTime`, `placeholderData`, and hydration (`app/plugins/vue-query.ts`) are
  not part of this model.
- The health probe (`server/api/health.get.ts`) is not modelled: it holds no logic
  beyond its query.
- The auth store and the locations query hook (`app/stores/auth.ts`,
  `app/composables/useLocations.ts`) are thin wrappers and are not modelled.
- The build configuration (`nuxt.config.ts`) is not modelled.
- The item-level `PUT`/`DELETE` handlers under `server/api/locations/` and
  `server/api/schedules/` are not part of this model.
