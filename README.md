# CrowdTrain store, in Dafny

CrowdTrain is a single-page prototype of a crowdsourcing market. Clients post
annotation tasks with a credit reward. Contributors submit a response to a
task and are credited at once. An admin page counts submissions per task and
per user. All of it lives in one in-memory `state` object: three growing
tables (`tasks`, `submissions`, `users`) and a fixed active user. The object is
mirrored to the browser's local storage after every change.

This project models that state and the handlers that change or read it:

- `lists.dfy` (`Lists`): `Array.prototype.find` and `Array.prototype.filter`,
  and what `filter(...).length` counts.
- `strings.dfy` (`Strings`): `String.prototype.trim` over the ECMAScript
  white-space and line-terminator characters.
- `entities.dfy` (`Entities`): the records, the two lookups by id
  (`state.tasks.find`, `findUser`), the wallet balance and the
  `task.reward || 1` credit rule.
- `views.dfy` (`Views`): the read-only pages. These are the open-task catalog,
  the client's own tasks and the admin dashboard rows with their counts.
- `rules.dfy` (`Rules`): the handlers as pure functions from old tables to new
  ones. They cover task creation with its defaults, recording a submission
  with find-or-create and crediting, and first-run seeding. The module also
  holds the bookkeeping invariant `Consistent`: task, submission and user ids
  are each unique, every submission names an existing task and user, and
  every balance is the sum of what its owner's submissions credited. Lemmas show that seeding establishes
  the invariant and each handler keeps it.
- `store.dfy` (`App`): the `state` object as a class `Store` whose methods
  reassign its three tables in place. `CreateTask`,
  `FindOrCreateCurrentUser` and `SubmitAnnotation` are each proved equal to
  the pure function of `Rules` they implement. Local storage is a `SnapshotSlot` object
  that `Persist` overwrites.

Ids come from `uid`, which draws on `Math.random`, and times come from
`Date.now()`. Both are parameters of the operations. The lemmas that need an
id to be fresh say so in their `requires`.

A negative reward is kept. `Number(...) || 5` (app.js:138) replaces only 0 and
non-numbers, and `Rules.RewardOr` does the same, so
`Rules.BalancesNonNegative` assumes non-negative rewards.

## Model

| member | source | states |
|---|---|---|
| Lists.FindFirst | app.js:69-71 | `find`: None exactly when no element passes the test; otherwise a position whose element passes and before which none does |
| Lists.Filter | app.js:56 | `filter`: keeps exactly the passing elements, no more of them than the input holds |
| Lists.FilterAppend | app.js:56 | filtering distributes over concatenation, so the result keeps the input's order |
| Lists.FilterSnoc | app.js:140 | filtering after one push adds that element at the end exactly when it passes |
| Lists.FilterKeepsAll | app.js:56 | when every element passes, the filter returns the input unchanged |
| Lists.MatchingSnoc | app.js:171 | one push adds its position to the matching positions exactly when it passes |
| Lists.FilterCount | app.js:171 | `filter(...).length` equals the number of positions whose element passes |
| Strings.TrimStartShape | app.js:106 | the leading part `trim` drops is all white space, and what remains is a suffix of the input that does not start with white space |
| Strings.TrimEndShape | app.js:106 | the trailing part dropped is all white space, and what remains is a prefix of the input that does not end with white space |
| Strings.Trim | app.js:106 | `trim` yields a string with no white space at either end. It is empty exactly when the input is all white space |
| Strings.TrimLocated | app.js:106 | the trimmed result occurs in the input right after the leading white space, with only white space after it |
| Strings.TrimSplits | app.js:135-137 | the input is white space, then the trimmed result, then white space |
| Strings.TrimTrimmed | app.js:106 | trimming a string with no white space at its ends returns it unchanged |
| Strings.TrimIdempotent | app.js:106 | trimming twice is trimming once |
| Entities.FindTask | app.js:74 | the task lookup finds nothing exactly when no task has the id; otherwise a task of the table with that id |
| Entities.FindUser | app.js:69-71 | `findUser` finds nothing exactly when no user has the id; otherwise the first user with it |
| Entities.FindTaskDistinct | app.js:74 | with unique ids, looking up a task's id finds that task |
| Entities.FindUserDistinct | app.js:69-71 | with unique ids, looking up a user's id finds that user's entry |
| Entities.FindUserSameIds | app.js:69-71 | the user lookup depends only on the ids, so a balance change does not move it |
| Entities.FindUserAppend | app.js:111-115 | pushing a user leaves any existing entry's lookup unchanged; an id that was absent now finds the new entry |
| Entities.WalletBalance | app.js:126-129 | the wallet shows the first matching user's balance, and 0 when the user has no entry |
| Entities.CreditFor | app.js:116 | the credit for a task is exactly 1 when its reward is 0 and the reward otherwise; so it is never 0, and positive when the reward is non-negative |
| Views.OpenTasks | app.js:56 | the catalog holds exactly the open tasks |
| Views.Catalog | app.js:56-60 | the "no tasks" line appears exactly when no task is open; otherwise the rows are the open tasks |
| Views.ClientTasks | app.js:156 | the client's list holds exactly the tasks posted as `client-demo` |
| Views.ClientListing | app.js:156-157 | "No tasks posted" appears exactly when the client posted none; otherwise the rows are the client's tasks |
| Views.ListsFollowInsertion | app.js:56 | both lists of a longer table list the older tasks first, then the newer ones |
| Views.TaskSubmissionCount | app.js:171 | the admin count for a task is the number of submissions naming it |
| Views.UserSubmissionCount | app.js:180 | the admin count for a user is the number of submissions made by that user |
| Views.AdminTasks | app.js:169-174 | one admin row per task, in order, with its title, type, reward and submission count |
| Views.AdminUsers | app.js:178-183 | one admin row per user, in order, with its name, credits and submission count |
| Views.CountsAfterAppend | app.js:109 | one more submission raises its task's count and its author's count by one, and no other count |
| Rules.ContentPlaceholder | app.js:137 | the content placeholder is non-empty and has no white space at its ends |
| Rules.TrimmedOr | app.js:135 | a text field with its fallback: the trimmed input, or the fallback when the input is all white space; never empty and never padded |
| Rules.RewardOr | app.js:138 | the reward field with its default: 0 or a non-number becomes 5, any other number is kept, and the result is never 0 |
| Rules.NewTask | app.js:135-139 | the created task has the given id, type and time. It is open and posted by `client-demo`. Its title and content are trimmed and non-empty, with the `Untitled Task` and placeholder fallbacks. Its reward is the field's number, or 5 when the field is 0 or not a number |
| Rules.CreateAddsOpenTask | app.js:140 | creation adds exactly the new task, at the end of both the catalog and the client's list |
| Rules.FindOrCreate | app.js:111-115 | afterwards the lookup finds the active user. An existing entry leaves the table as it was; otherwise one entry with balance 0 is pushed |
| Rules.CreditUser | app.js:111-116 | only the active user's entry changes (or one entry is appended); ids and names of the others stay |
| Rules.CreditUserBalances | app.js:116 | the active user's wallet balance rises by the credit; every other wallet balance stays |
| Rules.Submit | app.js:105-117 | an all-blank response is refused and changes nothing. Otherwise one submission with the trimmed response is appended, the active user is credited the task's reward (1 when it is 0), and the tasks stay as they were |
| Rules.SubmitAppendsOne | app.js:108-109 | a valid submission appends exactly one record at the end: the task, the active user and the trimmed, non-empty response. Earlier records stay |
| Rules.SubmitCredits | app.js:111-116 | the active user's balance rises by the credit. Every other user's balance and entry stays, and the table grows only when the user was absent |
| Rules.SubmitCreatesUserOnce | app.js:112-115 | an absent active user gets exactly one new entry, holding exactly the credit |
| Rules.RepeatSubmissionsCreditTwice | app.js:105-117 | two valid submissions to the same task credit twice and count twice: there is no de-duplication |
| Rules.SeedTasks | app.js:26-30 | first run seeds three open `client-demo` tasks with rewards 5, 3, 6 and types text, rating, image, each stamped with its own clock reading |
| Rules.SeedListsAll | app.js:26-30 | on first run the catalog and the client's list show all three seeded tasks in order |
| Rules.SeedUsers | app.js:31 | first run seeds one user, the active user, with wallet balance 0 |
| Rules.EarnedNothing | app.js:116 | a user with no submissions earned nothing |
| Rules.EarnedNewTask | app.js:140 | a task with a fresh id changes no earlier credit |
| Rules.FindTaskPrefix | app.js:74 | a task lookup that succeeds is unchanged by appending tasks |
| Rules.EarnedNonNegative | app.js:116 | with non-negative rewards, earnings are never negative |
| Rules.BalancesNonNegative | app.js:116 | in consistent tables with non-negative rewards, no balance is negative |
| Rules.SeedConsistent | app.js:26-31 | the first-run tables satisfy the bookkeeping invariant |
| Rules.CreateKeepsConsistent | app.js:139-140 | creating a task with a fresh id keeps the invariant |
| Rules.EarnedAppend | app.js:108-109 | one more submission adds its credit to its author's earnings only |
| Rules.CreditUserIds | app.js:111-115 | after find-or-create and credit, the ids present are the old ones plus the active user's, and they stay unique |
| Rules.BalanceIsWallet | app.js:126-128 | with unique ids, each user's balance is the wallet balance of its id |
| Rules.WalletIsEarned | app.js:126-128 | in tables where balances equal earnings, every id's wallet balance is what it earned |
| Rules.CreditKeepsLedger | app.js:111-116 | after crediting, every balance equals its owner's earnings over the longer submission table |
| Rules.FreshSubmissionKeepsIdsDistinct | app.js:108-109 | pushing a submission with a fresh id keeps submission ids unique |
| Rules.SubmitKeepsConsistent | app.js:105-117 | recording a submission with a fresh id for a task of the table keeps the invariant |
| App.Store.constructor | app.js:6-11 | the state starts with the demo contributor and three empty tables |
| App.Store.Persist | app.js:36-42 | local storage afterwards holds exactly the three tables |
| App.Store.LoadState | app.js:19-34 | a stored snapshot replaces the three tables and nothing else. Without one, the seed tasks and seed user are installed and persisted |
| App.Store.CreateTask | app.js:133-141 | pushes exactly `Rules.NewTask` of the form, leaves the other tables alone and persists |
| App.Store.FindOrCreateCurrentUser | app.js:111-115 | leaves the tables and position that `Rules.FindOrCreate` specifies |
| App.Store.SubmitAnnotation | app.js:105-117 | the new tables and the outcome are those of `Rules.Submit`. A refused response writes nothing to storage; an accepted one persists |

## Left out

- DOM querying and rendering, the alerts, the form reset and the skip button
  (app.js:14-15, 53-66, 73-104, 142-162): they produce no state. The model
  stops at the sequences and counts the pages display.
- Routing and navigation (app.js:45-50, 187-218): they toggle CSS classes only.
- `localStorage` and JSON: the stored entry is a `SnapshotSlot` holding the
  three tables as values. Serialisation, parse errors and a snapshot lacking
  one of the tables are not modelled. `App.Store.LoadState` replaces all three
  tables, which is what `Object.assign` does with a snapshot written by
  `persist`.
- `uid`, `Math.random` and `Date.now()`: ids and times are parameters.
  Freshness is required only by the lemmas that need it.
- `Number(...)` parsing: the reward field arrives as `Option<int>`, with None
  for a non-number. Fractions, infinities and numeric coercion are not modelled.
- Number width: rewards and balances are JavaScript doubles, which round
  above 2^53 (the addition at app.js:116). The model uses unbounded integers.
- `u.balance || 0` with a missing or non-numeric balance: balances are always
  integers here, so the `|| 0` changes nothing.
- The confirmation text shows `task.reward` while the balance gets
  `task.reward || 1`. They differ only for a reward of 0, which the form
  cannot produce. Messages are not modelled.
- The submit handler uses the task captured when the view was opened. The
  methods take that task as a value. `Rules.SubmitKeepsConsistent` requires it
  to be in the table.
- Entities.FindTask: the contract states that the result is a task of the
  table with the id, not that it is the first such task.
  `Entities.FindTaskDistinct` pins it down when ids are unique, as `uid` makes
  them.
- App.Store.CreateTask, App.Store.SubmitAnnotation: their contracts tie the
  new tables to `Rules.NewTask` and `Rules.Submit`. The bookkeeping invariant is
  proved about those functions (`Rules.CreateKeepsConsistent`,
  `Rules.SubmitKeepsConsistent`), not restated on the methods.
