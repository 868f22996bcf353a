# Habit tracker server — a Dafny model

This project models the request-handling core of a small multi-user habit
tracker: a Node/Express server over a MongoDB store. Users register and log
in. Login sets an `auth_token` cookie that carries a signed token. Behind an
auth guard, each user creates, lists, edits and deletes their own habits
(a name, an optional description, and a frequency of Daily, Weekly or
Monthly). Users also record log events whose status is Completed or Missed,
list their logs, and ask for a per-habit summary of done and missed counts.

The model is organised as the server is:

- `common.dfy` (`Common`): ids, optional request fields (JavaScript's `??`
  and truthiness), and the part of an HTTP reply a handler decides: the
  status, a JSON body (a payload, `{ message }` or `{ error }`), and a
  cookie instruction.
- `crypto.dfy` (`Crypto`): bcrypt and jsonwebtoken as function-valued
  parameters. Nothing is assumed about them except where a lemma names its
  assumption: a password matches its own hash, and a token the server
  signed is non-empty (so it passes the `!token` test) and verifies to its
  payload.
- `habit_schema.dfy`, `habit_log_schema.dfy`: the two Mongoose models. Each
  gives the stored record, the validators run on save, and the defaults.
- `habit_controller.dfy` (`HabitController`): the habit collection as a
  class `HabitStore`, which keeps a sequence of habits and an id counter.
  `NewHabit`, `EditHabit` and `DeleteHabit` are methods that update it.
  `GetAllHabits` reads it.
- `habit_summary.dfy` (`HabitSummary`): the summary aggregation, stage by
  stage ($match, $lookup, $unwind, two $group stages), as pure functions.
  `SummaryMeaning` proves what the pipeline computes against a
  count-based reference.
- `habit_log_controller.dfy` (`HabitLogController`): the log collection as a
  class `HabitLogStore`. `LogHabit` appends to it. `GetLogsByUser` lists the
  caller's logs with their habit populated.
- `user_controller.dfy` (`UserController`): the user collection as a class
  `UserStore` with `RegisterUser`. Login, current user and logout are pure
  decisions whose only effect is the reply and its cookie.
- `auth_middleware.dfy` (`AuthMiddleware`): the guard's decision, and the
  guard as a method on a `Request` object. The method sets `userId` and
  calls `next` once, or sends a 401.
- `server.dfy` (`Server`): the mounting order. The auth routes come before
  the guard; the habit and log routes come after it.

The clock (`Date.now`), ObjectId generation (a counter) and the crypto
libraries are parameters or fields. The model itself does no I/O.

Notes on the source: `logHabit` failures reply `{ error }`, not
`{ message }` (server/controllers/habitLog.js:17), and the summary's missed
count compares against the lowercase "missed" (see Findings).

## Model

| member | source | states |
|---|---|---|
| Common.Option.GetOr | server/controllers/habit.js:35-37 | `x ?? fallback` is the value when present, otherwise the fallback |
| Common.Option.OrElse | server/controllers/habit.js:36 | `??` between two optional values keeps the first when present |
| HabitSchema.BuildHabit | server/models/Habit.js:3-8 | a habit is stored iff its name is present and non-empty and its frequency is present and one of Daily/Weekly/Monthly; the stored record carries the given fields, the owner, a fresh id and `createdAt` = the clock reading |
| HabitSchema.NameIsRequired | server/models/Habit.js:4 | a missing or empty name always fails validation |
| HabitSchema.FrequencyDecides | server/models/Habit.js:6 | with a name present, validity holds exactly for the three enumerated frequencies; the description never matters |
| HabitLogSchema.BuildLog | server/models/habitLog.js:3-8 | a log is stored iff user and habit are present, the habit id casts, and a supplied status is Completed or Missed; `date` defaults to the clock, `status` to "Completed" |
| HabitLogSchema.ReferencesAreRequired | server/models/habitLog.js:4-5 | a log without a user or a habit reference is rejected |
| HabitLogSchema.Defaults | server/models/habitLog.js:6-7 | without date and status, the log is dated now with status "Completed" |
| HabitController.OwnedByMeaning | server/controllers/habit.js:17 | the query `{ user }` returns exactly the habits of that owner, each drawn from the collection |
| HabitController.OwnedByAppend | server/controllers/habit.js:17 | the query distributes over concatenation, keeping storage order |
| HabitController.OtherOwnersAppend | server/controllers/habit.js:7-8 | saving a habit stamped with one owner leaves every other owner's list identical |
| HabitController.OtherOwnersReplace | server/controllers/habit.js:29-39 | replacing one owner's habit by an edit with the same owner leaves every other owner's list identical |
| HabitController.OtherOwnersRemove | server/controllers/habit.js:51 | removing one owner's habit leaves every other owner's list identical |
| HabitController.Find | server/controllers/habit.js:29 | `findOne({ _id, user })`: a position whose habit has that id and owner, and none exactly when no habit matches |
| HabitController.FindIsTheOnlyMatch | server/controllers/habit.js:29 | with unique ids, Find returns the one matching position |
| HabitController.RemoveAt | server/controllers/habit.js:51 | removing one position keeps every other habit in order, and with unique ids no habit with the removed id remains |
| HabitController.LookupId | server/controllers/habitLog.js:22 | the habit with a given id whoever owns it, or none exactly when no habit has it |
| HabitController.InsertNewest | server/controllers/habit.js:17 | one insertion step adds exactly that habit to the list |
| HabitController.InsertNewestSorted | server/controllers/habit.js:17 | inserting into a newest-first list keeps it newest-first |
| HabitController.SortNewestFirst | server/controllers/habit.js:17 | `sort({ createdAt: -1 })` returns a permutation of its input |
| HabitController.SortNewestFirstSorted | server/controllers/habit.js:17 | the sorted list is ordered by `createdAt`, newest first |
| HabitController.Edited | server/controllers/habit.js:35-37 | each field takes the request's value unless it is null/undefined; id, owner and creation time are kept |
| HabitController.HabitStore.NewHabit | server/controllers/habit.js:4-13 | on valid fields, appends the habit built for the caller with a fresh id and replies 201 with it; otherwise the collection is unchanged and the reply is 500 "Error creating habit"; other users' habits are untouched |
| HabitController.HabitStore.GetAllHabits | server/controllers/habit.js:15-22 | replies 200 with a newest-first permutation of exactly the caller's habits |
| HabitController.HabitStore.EditHabit | server/controllers/habit.js:24-45 | an uncastable id gives 500 and no habit of the caller with that id gives 404 "Habit not found or not authorized", both with no change; otherwise the found habit is replaced by its edited version and 200 returns it, or 500 with no change when the edit fails validation; other users' habits are untouched |
| HabitController.HabitStore.DeleteHabit | server/controllers/habit.js:47-61 | an uncastable id gives 500 and no match gives 404, both with no change; otherwise exactly the matching habit is removed (the rest keep their order) and the reply is 200 "Habit deleted successfully"; other users' habits are untouched |
| HabitSummary.AddDocSum | server/controllers/habit.js:79-87 | the first $group taking one document adds it to the count of its (habit, name, status) key |
| HabitSummary.GroupFromSum | server/controllers/habit.js:79-87 | after the first $group, the counts with status c for habit x add up to the documents of x with status c |
| HabitSummary.GroupFromName | server/controllers/habit.js:79-87 | the first $group keeps the first name seen for each habit |
| HabitSummary.AddGroupFacts | server/controllers/habit.js:88-102 | the second $group adds one group's count to its habit's done count when its status is "Completed", and to its missed count when its status is the missed key |
| HabitSummary.RegroupFromFacts | server/controllers/habit.js:88-102 | after the second $group, each habit's done and missed counts are the sums of its groups' contributions, and its name is the first group's |
| HabitSummary.RegroupFromDistinct | server/controllers/habit.js:89-90 | grouping by `_id: habitId` yields at most one entry per habit |
| HabitSummary.LookupUnwindCount | server/controllers/habit.js:69-77 | after $lookup and $unwind, the documents of habit x with status c number that habit's logs with status c |
| HabitSummary.LookupUnwindName | server/controllers/habit.js:69-77 | every owned habit yields at least one document after $unwind, carrying its name |
| HabitSummary.UnwindOneName | server/controllers/habit.js:77 | `preserveNullAndEmptyArrays` keeps one document for a habit with no logs |
| HabitSummary.PipelineAt | server/controllers/habit.js:67-104 | for each habit id, the summary has an entry exactly when the caller owns a habit with that id, and that entry carries the habit's name and its counts |
| HabitSummary.SummaryMeaning | server/controllers/habit.js:67-104 | the summary holds one entry per habit of the caller and nothing else: habit id, name, the number of its logs with status "Completed", and the number with the missed key |
| HabitSummary.HabitWithoutLogs | server/controllers/habit.js:77 | a habit no log refers to is listed with zero done and zero missed |
| HabitSummary.NewLogEntry | server/controllers/habit.js:67-104 | a newly stored log raises its habit's done count by one when Completed, and its missed count by one when it has the missed key; other habits' entries are unchanged |
| HabitSummary.MissedCountAlwaysZero | server/controllers/habit.js:97-101 | as written, every entry's missed count is 0 whatever Missed logs exist |
| HabitSummary.ValidStatusesSplit | server/models/habitLog.js:7 | with the status enum, each log of a habit is either Completed or Missed |
| HabitSummary.CorrectedCountsEveryLog | server/controllers/habit.js:92-101 | with the stored spelling "Missed", done + missed equals the habit's number of logs |
| HabitSummary.MissedLogIsLost | server/controllers/habit.js:97-101 | for one habit with two Completed logs and one Missed log, the source reports (2, 0) and the corrected pipeline (2, 1) |
| HabitLogController.LogsOfMeaning | server/controllers/habitLog.js:22 | the query `{ user }` returns exactly that user's logs, and nothing when the user has none |
| HabitLogController.LogsOfAppend | server/controllers/habitLog.js:22 | the query distributes over concatenation, keeping storage order |
| HabitLogController.AppendOneLog | server/controllers/habitLog.js:7-12 | storing a log adds it at the end of its user's list and leaves every other user's list identical |
| HabitLogController.Populate | server/controllers/habitLog.js:22 | `populate("habit")` replaces the reference with the habit of that id, or null when none exists, keeping the other fields |
| HabitLogController.HabitLogStore.LogHabit | server/controllers/habitLog.js:3-18 | appends a log for the caller dated now, with the given habit id and status defaulting to Completed, and replies 201 with it; replies 201 iff the habit id is present and casts and any status is in the enum, otherwise 500 `{ error: "Failed to log habit" }` with no change; other users' logs are untouched |
| HabitLogController.HabitLogStore.GetLogsByUser | server/controllers/habitLog.js:20-27 | replies 200 with the caller's logs in storage order, each populated, all belonging to the caller |
| UserController.FindByEmail | server/controllers/user.js:9 | `findOne({ email })`: a user with that email, none exactly when no user has it |
| UserController.AppendNewEmail | server/controllers/user.js:9-14 | storing a user whose email is new keeps emails unique, and that user is then the one found by the email |
| UserController.LoginUser | server/controllers/user.js:22-50 | unknown email gives 401 "User not found"; a password that does not match the stored hash gives 401 "Invalid credentials"; otherwise 200 "Login successful" sets `auth_token` to a token signed over (id, email) with a one-hour max age; a cookie is set iff the login succeeds |
| UserController.GetCurrentUser | server/controllers/user.js:52-62 | no token gives 401 "Not logged in", a token that does not verify gives 401 "Invalid token", otherwise 200 with the token's email |
| UserController.LogoutUser | server/controllers/user.js:64-71 | always 200 "Logged out", clearing `auth_token` |
| UserController.LoginAfterRegister | server/controllers/user.js:12-45 | a user stored with the hash of a password logs in with that password and gets the session cookie for their id and email |
| UserController.UserStore.RegisterUser | server/controllers/user.js:5-20 | a known email gives 400 "User already exists" with no change; otherwise the user with the hashed password and a fresh id is appended (201 "Registered successfully"), or nothing changes and the reply is 500 when the User model rejects it; emails stay unique |
| AuthMiddleware.Authenticate | server/middlewares/authMiddleware.js:3-15 | no token gives 401 "Not authorized", a token that does not verify gives 401 "Unauthorized – Invalid token", otherwise the request proceeds with the token's user id |
| AuthMiddleware.Guard | server/middlewares/authMiddleware.js:3-15 | on rejection the 401 is sent and `next` is not called; otherwise `req.userId` is the token's user id and `next` runs exactly once |
| Server.Admit | server/server.js:25-28 | the auth routes are reached without the guard and every other route only through it |
| Server.NoCookieOnlyAuthRoutes | server/server.js:25-28 | without a session cookie, every habit and log route answers 401 "Not authorized" |
| Server.SessionCookieAdmits | server/controllers/user.js:32-45 | with tokens that verify to their payload, the cookie from a successful login makes `/me` return the user's email and the guard admit the user's id |
| Server.RegisteredUserAdmitted | server/controllers/user.js:12-45 | a newly registered user's login token gets them through the guard as themselves |

## Left out

- Storage failures and exceptions other than validation and cast errors are
  not modelled. These are the 500 replies "Error fetching habits",
  "Failed to get habit logs", "Error retrieving habit summary" and
  "Login Error". The handlers that can reply so are modelled as always
  succeeding.
- The `error` detail that the habit handlers add to their 500 replies is not
  modelled; only the message is.
- JSON `null` and `undefined` request fields are one case, `None`.
- HabitLogController.HabitLogStore.LogHabit: a body with `status: null`
  stores "Completed" in the model, while Mongoose applies the default only
  to an undefined field, so the source does not give such a log the
  default status.
- UserController.UserStore.RegisterUser: `server/models/User.js` is not part
  of this model. The User model's validation is a predicate parameter, and
  `name`, `email` and `password` are taken as present strings. An absent
  password makes bcrypt throw, which would be a 500.
- UserController.LoginUser: email and password are present strings; the
  500 "Login Error" path (bcrypt throwing on an absent argument) is not
  modelled.
- UserController.LoginUser, AuthMiddleware.Authenticate: token expiry is not
  modelled. The token's `expiresIn` is one day while the cookie's `maxAge`
  is one hour (server/controllers/user.js:35,42); the model keeps the
  cookie's max age, and the token's lifetime becomes whatever the `verify`
  parameter accepts.
- The cookie's `httpOnly`, `sameSite` and `secure` options are not modelled;
  only the name, value and max age are.
- HabitController.SortNewestFirst: the order of habits with equal
  `createdAt` is open in the database; the model fixes one.
- HabitSummary.SummaryMeaning: MongoDB leaves the order of $group output
  open. The model emits groups in order of first appearance, and the
  theorem states membership and distinctness only.
- The Habit schema declares no `user` path, so Mongoose's strict mode may
  drop the owner on save. The `user` filters then behave according to the
  Mongoose version's `strictQuery` setting. The model follows the
  controllers' evident intent: the owner is stored and filtered on.
- `logHabit` does not check that the habit exists or belongs to the caller,
  and the model keeps it that way. So a log's user may differ from its
  habit's owner, and `populate` looks the habit up by id alone.
- Express routing, CORS, body and cookie parsing, database connection, and
  process start-up are not modelled beyond the mounting order.
- Concurrent requests are not modelled: each operation is one atomic step
  on the store.
- `server/controllers/habitController.js` and `server/routes/habitRoutes.js`
  are unused duplicates of the mounted code and are not modelled. The
  client UI is not modelled.

## Findings

| source | as written | input that shows it | evidently intended | confidence | as-written member | corrected member |
|---|---|---|---|---|---|---|
| server/controllers/habit.js:99 | the missed count sums groups whose status equals "missed" (lowercase), while the status enum stores "Missed" | one habit "Read Book" with logs Completed, Completed, Missed: the summary reports doneCount 2, missedCount 0 | missedCount counts the logs whose status is "Missed" (2 done, 1 missed) | high; proved in the model, not executed | HabitSummary.MissedCountAlwaysZero | HabitSummary.CorrectedCountsEveryLog |
