# Room-access request ledger (securite2ie backend), modelled in Dafny

This project models the part of the 2iE room-access backend that has real rules.

- **The `demande_acces` ledger.** Users submit a request to use a room on a given day between two times. A request passes these checks, in order:
  1. every required field is present;
  2. the day is not in the past;
  3. the end time is after the start time;
  4. the user exists;
  5. the room exists;
  6. the window lies inside the room's opening hours;
  7. no conflicting pending request exists.

  If all pass, the request is stored as `en_attente` (pending). An administrator then approves it (`approuvee`) or rejects it (`rejetee`), and only from pending. Requests can be listed by status, or per user with the newest first.
- **The smaller validators in the same handlers:**
  - room creation;
  - user registration;
  - the update builder of a user patch;
  - the merge of the per-weekday statistic into seven French day labels.

Modelling conventions:
- Times of day are minutes since midnight. The backend compares zero-padded `HH:MM` strings, which order the same way when both sides share that format (see "## Left out").
- Days are day numbers. "Today" and the creation instant (`created_at`) are parameters.
- A JSON field is `Field.Absent` exactly when the handler's own test treats it as missing:
  - where the handler tests `!x` (the submission, registration and room fields), a missing key, `null` and the falsy values are missing. The falsy values a field's type can hold are tested for explicitly: `0` for an id or a capacity, `""` for a text;
  - where it tests `x !== undefined` (the user-patch fields and `nombre_presents`), only a missing key is. There `0`, `false` and `""` are `Given`, and a `null` text in a patch is `Given(None)`.

Files, one module each:
- `base.dfy` (`Base`): `Option`, `Field`, `Result`, and `Filter`, the value of a `SELECT … WHERE`.
- `errors.dfy` (`Errors`): one error constructor per client error of the handlers.
- `rooms.dfy` (`Rooms`): rooms and room creation.
- `users.dfy` (`Users`): users, registration, and the update builder with the meaning of the update.
- `requests.dfy` (`Requests`): requests as values, plus the pure checks behind the handlers:
  - admission and the conflict query;
  - the lookup behind approve and reject;
  - the newest-first ordering.
- `ledger.dfy` (`Ledger`): the class `AccessLedger`. It holds the request table as a sequence, with an auto-increment counter, and the user and room tables as constants the ledger never writes. It has one method or function per handler, plus four scenario methods that drive it.
- `stats.dfy` (`Stats`): the weekday merge, in place on an array, as written and corrected.

On four design points the code departs from the rule one would expect. The model follows the code:
- **Conflict test.** The usual rule for a clash of two windows is inclusive overlap, `a0 ≤ b1 ∧ b0 ≤ a1`. The query at `index.js:241` only asks whether an existing pending window contains the new start or the new end. So a new window that strictly encloses a pending one is admitted (`Requests.HitsVersusOverlap`, `Ledger.EnclosingScenario`).
- **Pending windows can overlap.** So the invariant that pending windows of one user, room and day never overlap does not hold. `AccessLedger.Valid` keeps the weaker invariant that does hold: a pending row never hits the window of an earlier pending row of its slot.
- **Check order.** The lookups of the user and the room come only after the field, day and time-order checks.
- **NotPending carries nothing.** The message for a request that is no longer pending does not report its current status, so `NotPending` carries nothing.

## Model

| member | source | states |
|---|---|---|
| `Rooms.CreateRoom` | index.js:133-152 | Each rejection holds exactly when its check is the first to fail: a missing or falsy field, then a capacity at or below 0, then a given `nombre_presents` outside `[0, capacite]`, then closing not after opening. Acceptance holds exactly when all four pass. The stored room is valid and carries the given fields, with `nombre_presents` defaulting to 0 |
| `Rooms.CreateRoomRoundTrip` | index.js:133-152 | Every valid room, given field by field, is accepted and stored unchanged |
| `Users.Register` | index.js:55-71 | Missing holds exactly when nom, prenom, email or password is falsy. Otherwise an invalid statut holds exactly when statut is not one of the four allowed values. Success holds exactly when both checks pass. The row holds the given fields, `numero_inscription` and `uid_badge_rfid` turned to null when falsy, and `isadmin` false unless given |
| `Users.BuildUpdates` | index.js:376-383 | The result is an error (NoUpdates) exactly when no field is defined. Otherwise it holds one assignment per defined field, no column twice, and applying it to any user row replaces exactly the defined fields and keeps the rest |
| `Requests.PendingConflicts` | index.js:240-243 | A row is returned exactly when it is in the table, pending, of the same user, room and day, and its window contains the new start or the new end (both ends inclusive) |
| `Requests.Admit` | index.js:203-246 | Each error holds exactly when its check is the first to fail. Missing fields, a past day and a bad time order are decided whatever the directories hold. An unknown user comes before an unknown room. OutsideHours carries the room's hours. DuplicatePending holds exactly when some row conflicts. Success holds exactly when every condition holds, and returns the submitted fields |
| `Requests.HitsVersusOverlap` | index.js:241 | The conflict test implies overlap. An overlapping window fails the test exactly when it strictly encloses the existing window |
| `Requests.AdmitIgnoresDecided` | index.js:241 | Admission gives the same answer on the table and on its pending rows alone: approved and rejected rows are never consulted |
| `Requests.EnclosingIsAdmitted` | index.js:234-246 | A well-placed window that strictly encloses every pending window of its slot is admitted |
| `Requests.DecisionFreesSlot` | index.js:240-246 | Once the only conflicting row is decided, the same submission is admitted |
| `Requests.FindIndex` | index.js:267-268 | Finds the first row with the id, and finds nothing exactly when no row has it |
| `Requests.Locate` | index.js:267-275 | RequestNotFound holds exactly when no row has the id. NotPending holds exactly when the row found is not pending. Success returns the index of a pending row with that id |
| `Requests.DecisionIsFinal` | index.js:273-277 | After a successful approve or reject, a second one on the same id fails with NotPending |
| `Requests.StatusNamesDistinct` | index.js:250 | The three stored status texts are distinct, so a status text selects the rows of exactly one status in `List` |
| `Requests.SortNewestFirst` | index.js:322-324 | The result is ordered by `created_at`, newest first, and is a permutation of its input |
| `Ledger.AccessLedger.Submit` | index.js:199-260 | Keeps the table invariant. When admission fails, it answers with that error and changes nothing. When it succeeds, it appends exactly one pending row with the next id, the submitted fields and `created_at`, and keeps every earlier row |
| `Ledger.AccessLedger.Approve` | index.js:263-285 | Keeps the invariant. An unknown id or a non-pending row gives its error and changes nothing. Otherwise only that row's status changes, to approved, and the row is returned |
| `Ledger.AccessLedger.Reject` | index.js:288-310 | The same as approve, with the status rejected |
| `Ledger.AccessLedger.Decide` | index.js:267-277 | The transition both decisions share: only the located pending row's status changes |
| `Ledger.AccessLedger.List` | index.js:403-415 | With no or an empty `statut`, exactly the pending rows are returned. Otherwise exactly the rows whose stored status text equals it, compared exactly: the rows of status `s` when it is `s`'s text, none if it is no status text. Each row appears as often as in the table |
| `Ledger.AccessLedger.ListByUser` | index.js:313-336 | UserNotFound holds exactly when the user is unknown. NoRequests holds exactly when a known user has no rows. Success holds exactly when a known user has rows, and the result is exactly that user's rows, newest first |
| `Ledger.ConflictScenario` | index.js:199-246 | With room hours 09:00-18:00: 10:00-11:00 is admitted as pending, 10:30-11:30 then conflicts, and 07:00-08:00 is refused with the room's hours |
| `Ledger.ApprovalScenario` | index.js:240-277 | Once 10:00-11:00 is approved, an overlapping 10:30-11:30 is admitted as pending beside it, and a second approval of the first request fails |
| `Ledger.EnclosingScenario` | index.js:234-252 | Two pending rows of one slot with overlapping windows both get in. The second equals the room's hours exactly and encloses the first. This holds when body times and room hours share one text format (see "## Left out") |
| `Ledger.RejectScenario` | index.js:288-302 | A rejected request cannot then be approved |
| `Stats.IndexOf` | index.js:470 | The first position of a day name among the keys, and none exactly when the name is absent |
| `Stats.MergedBy` | index.js:460-472 | The merged answer always has the seven French labels in order |
| `Stats.MergedByUnnamed` | index.js:460-472 | With distinct keys, a slot whose key no row names stays at 0 |
| `Stats.MergedByNamed` | index.js:469-472 | With distinct keys, a slot holds the count of the last row naming its key |
| `Stats.UnmatchedRowsIgnored` | index.js:470-471 | Rows that name no key leave the answer at its initial all-zero value |
| `Stats.LabelRowsCounted` | index.js:469-472 | As written, each French label holds the last count of a row bearing exactly that label, or 0 |
| `Stats.MergeWeekdays` | index.js:460-472 | The in-place loop over the array with its `findIndex` leaves the array equal to the merge of the rows against the French labels |
| `Stats.DaynameRowsLost` | index.js:453-471 | As written, rows named as MySQL's `DAYNAME` names days leave every count at 0 |
| `Stats.MergeDaynames` | index.js:451-472 | The corrected in-place merge equals the merge of the rows against the `DAYNAME` names |
| `Stats.DaynameRowsCounted` | index.js:451-472 | Corrected, each French label holds the last count of the row for the same weekday's `DAYNAME`, or 0 |
| `Stats.MondayExample` | index.js:451-472 | One row ("Monday", 3) gives Lundi 0 as written and Lundi 3 corrected |

## Findings

| source | as written | input that shows it | evidently intended | confidence | as-written member | corrected member |
|---|---|---|---|---|---|---|
| index.js:451-471 | The handler looks up each row's `DAYNAME(date)` among the French labels "Lundi" … "Dimanche". The same query orders its rows by `FIELD(DAYNAME(date), 'Monday', …, 'Sunday')`, so it expects English day names | Three approved requests on a Monday give the row ("Monday", 3); the answer shows Lundi 0, and every day stays 0 | Map each `DAYNAME` to the French label of the same weekday | not executed; medium: it depends on the server's `lc_time_names`, and only a locale whose day names are exactly the capitalised French labels would match | `Stats.MergeWeekdays` (with `Stats.DaynameRowsLost`, `Stats.MondayExample`) | `Stats.MergeDaynames` (with `Stats.DaynameRowsCounted`) |

## Left out

- HTTP plumbing is not modelled: Express routing, CORS, JSON parsing and status codes. Each client error is an `Errors.Error` constructor. Storage failures (HTTP 500) are not modelled.
- The MySQL pool and SQL execution are not modelled, nor is the schema bootstrap (`initializeDatabase`: reading `db/setup.sql` and splitting it on `;`). Re-reading the inserted or updated row by `insertId` or id is not modelled either: the row a handler returns is the row it wrote.
- Hashing and signing are left out, since they are calls into crypto libraries: bcrypt hashing at registration, the whole login handler (bcrypt comparison, the `etat` check, JWT signing), and the password column.
- The occupancy-rate statistic is left out. It is an SQL `AVG` over floating-point ratios.
- The plain directory reads and deletes are not part of this model: get, list and delete for rooms, and get and list for users. They run one SQL statement each, with no rule of their own.
- Concurrency is not modelled. Each handler runs atomically and alone, so the check-then-insert race of submit and the approve/reject race are out.
- JavaScript `Date` parsing and time zones are abstracted to an integer day and an injected `today`. The code also lets an unparsable date through its "before today" test, because its comparison is false; that path is not modelled.
- Times are integers. The code compares strings, which orders correctly only for zero-padded `HH:MM`. The model also assumes that the body's times and the room hours stored in `salles` share one text format. The schema is not part of this model. If the room hours are a MySQL `TIME` column, the driver returns them as `HH:MM:SS`. A body start `"09:00"` is then below `"09:00:00"` as a string, so a window starting exactly at the opening time is refused with OutsideHours, while the model (and `Ledger.EnclosingScenario`) admits it.
- Loose JavaScript comparisons on values of an unexpected type are not modelled, such as a numeric string as `capacite`. Neither is a `null` given for `isadmin` at registration.
- A `null` `etat` or `isadmin` in a user patch is not modelled. The handler's `!== undefined` test lets it through and the `UPDATE` would write NULL. `Users.PatchBody` holds only booleans for those two fields.
- A `null` `nombre_presents` at room creation is not modelled. It passes the `!== undefined` test, its range checks compare as 0, and `|| 0` stores 0.
- For a user patch, only the builder is modelled. The `UPDATE` itself, its 404 when no row matched, and duplicate-key errors are not. `Users.ApplyAll` states what the built assignments mean.
- Duplicate-key errors at registration and room creation (`ER_DUP_ENTRY`) come from the storage layer and are not modelled.
- The `users` table's default for `etat` is not modelled. The registration row leaves it out. Submit does not look at `etat`, just as the source does not.
- Ledger.AccessLedger.List: compares `statut` with the stored text by exact equality. In SQL the column's collation decides the comparison: the default collations ignore case, and MySQL 8's default `utf8mb4_0900_ai_ci` also ignores accents, so `APPROUVEE` or `approuvée` lists the approved rows there, while the model lists none. Case and accent folding are not modelled.
- Ledger.AccessLedger.List: does not state the order of its rows, because the query has no `ORDER BY`. The model returns insertion order.
- Ledger.AccessLedger.ListByUser: the order among rows with equal `created_at` is left open by SQL. The model puts the later-inserted row first.
- Logging is not modelled.
