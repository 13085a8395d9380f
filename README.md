# Task-tracking backend: verified model of the task commands

This project models the core of a small task-tracking backend in Dafny.
Three request handlers act on a record store of users, applications and
tasks:

- `CreateTask` mints a task id from the application's running number and inserts a task in state `Open`.
- `GetTaskbyState` lists the tasks of an application that are in one of the five states `Open`, `ToDo`, `Doing`, `Done` and `Close`.
- `PromoteTask2Done` moves a task from `Doing` to `Done`. It prepends an audit entry to the task's notes and names the Done group's members as recipients of a notice.

Each handler is a fixed chain of checks. The first check that fails decides
the response code:

1. presence of the mandatory fields (`PS001`);
2. their types (`PS002`);
3. the credentials (`IM001`);
4. the `is_disabled` flag (`IM002`);
5. the application lookup (`AM001`);
6. the permit group (`AM002`), in `CreateTask` and `PromoteTask2Done` only;
7. then each handler's own checks (`T001`, `T002`, `T003`).

The project also models the router-level URL filter that refuses any URL
whose part after the first character holds a special character (`AS002`).

Layout, one module per file:

- `wrappers.dfy` — `Option`.
- `text.dfy` — JavaScript `split` on one character, `join`, and the decimal rendering of integers. Proved: split/join round trips, the field characterisation of split pieces, and reading a decimal rendering back.
- `jsvalues.dfy` — the values a JSON request field can hold: `undefined`, `null`, booleans, numbers, strings and objects. Also truthiness and the string conversion done by `+`.
- `taskmodel.dfy` — the rows, result codes, task states, group authorization, task-id minting, audit notes and the first-row lookups used by the controllers.
- `notification.dfy` — the recipient list of the Done notice and the loop that builds it.
- `controllers.dfy` — `ValidateUser`; the shared check chain `Admit`; the decision functions `PlanCreate` and `PlanPromote`; and the class `TaskStore`. `TaskStore` holds the three tables as fields. Its methods are the store writes (insert, counter update, task update) and the three handlers.
- `middleware.dfy` — the special-character filter.

How they fit together:

- The two mutating handlers are methods with `modifies this`; `GetTaskbyState` only reads the tables. Each mutating handler first computes its decision with a pure function and then performs the writes one at a time. Each method's `ensures` ties the response and the new tables to that decision, the old tables and the outcome of each write.
- The lemmas beside the decision functions state what the code promises: the refusal order, the inserted row, the promoted row, and that input errors do not depend on the store.
- `TaskStore.Valid()` is the primary key of the task table (task ids are unique). Every mutating handler preserves it. Every handler also preserves "all stored states are among the five".

Where the code is easy to misread, the model follows it:

- `PromoteTask2Done` authorizes against the application's `App_permit_Doing` group, not its Done group (controllers/controllers.js:283). The notice goes to the `App_permit_Done` group (controllers/controllers.js:387).
- The empty-name check of `CreateTask` comes after authorization (controllers/controllers.js:111).
- The two writes of `CreateTask` are separate. When the counter update fails, the inserted task stays and the answer is `T003` (controllers/controllers.js:116-137). Nothing rolls the inserted row back when the counter update fails.

`TaskIdsCollideAcrossApplications` records one consequence of putting no separator between acronym and number. Application `A` at counter 10 and application `A1` at counter 0 both mint `A11`. Ids are unique only within one application (`TaskIdInjective`).

## Model

| member | source | states |
|---|---|---|
| Text.Split | controllers/controllers.js:83 | `split(",")` always yields at least one piece, and no piece holds the separator |
| Text.JoinSplit | controllers/controllers.js:83 | joining the pieces of a split with the separator gives back the group list |
| Text.SplitJoin | controllers/controllers.js:290 | splitting a join of separator-free pieces gives back exactly those pieces |
| Text.InSplitIffField | controllers/controllers.js:83-86 | a string is a piece of the split exactly when it is a whole field of the list: bounded by ends or commas, with no comma inside |
| Text.ParseIntToDecimal | controllers/controllers.js:98 | the decimal rendering of the counter used in ids can be read back to the number |
| Text.IntToDecimalInjective | controllers/controllers.js:98 | two integers have the same rendering exactly when they are equal |
| Text.IntToDecimal | controllers/controllers.js:98 | the number-to-string conversion of `+`: never empty; read back by `ParseIntToDecimal` and injective by `IntToDecimalInjective` |
| JsValues.Falsy | controllers/controllers.js:94-96 | `!v` holds exactly for undefined, null, false, 0 and the empty string; a falsy description is stored as NULL (`PlanCreateRow`) |
| JsValues.ToJsString | controllers/controllers.js:343-344 | the text `+` appends for a supplied note: a string as itself, a number in decimal, the other values by their JavaScript names; placed by `PromotedNotesLayout` |
| TaskModel.LegalStatesAreStateNames | controllers/controllers.js:204 | the whitelist accepts exactly the names of the five states, and each name parses back to its state |
| TaskModel.IsLegalState | controllers/controllers.js:204 | the five-literal whitelist; by `LegalStatesAreStateNames` it accepts exactly the state names |
| TaskModel.AuthorizedIffWholeGroup | controllers/controllers.js:83-92 | a permit admits a user exactly when it is one whole comma-separated field of the user's `group_list`; a prefix or substring does not match |
| TaskModel.Authorized | controllers/controllers.js:83-86 | `group_list.split(",").includes(permit)` with a NULL permit admitting nobody; by `AuthorizedIffWholeGroup` a whole-field test |
| TaskModel.UnsatisfiablePermits | controllers/controllers.js:77-82 | a NULL permit admits nobody, and a permit containing a comma admits nobody |
| TaskModel.PartialGroupNameDenied | controllers/controllers.js:86 | group list "developer" does not satisfy permit "dev" |
| TaskModel.ListedGroupMatches | controllers/controllers.js:86 | group list "lead,dev" satisfies permit "dev" |
| TaskModel.TaskIdInjective | controllers/controllers.js:98 | within one application, two counter values mint the same id exactly when they are equal |
| TaskModel.TaskId | controllers/controllers.js:98 | acronym followed by counter + 1 in decimal; its parts, injectivity and cross-application collision are the lemmas beside it |
| TaskModel.TaskIdParts | controllers/controllers.js:98 | an id starts with the acronym, and the rest reads back as counter + 1 |
| TaskModel.TaskIdExample | controllers/controllers.js:98 | acronym "APP1" with counter 5 mints "APP16" |
| TaskModel.TaskIdsCollideAcrossApplications | controllers/controllers.js:98 | "A" at counter 10 and "A1" at counter 0 mint the same id "A11" |
| TaskModel.CreationNote | controllers/controllers.js:97 | "Task created by <user> on <date>"; `PlanCreateRow` states it is the new row's notes |
| TaskModel.PrependNote | controllers/controllers.js:348 | entry, blank line, old notes; positions stated by `PrependNoteKeepsHistory` |
| TaskModel.PrependNoteKeepsHistory | controllers/controllers.js:348 | new notes = entry, then a blank line, then the old notes; the old notes are an exact suffix and the entry an exact prefix |
| TaskModel.PromotionEntry | controllers/controllers.js:318-345 | the entry `Added_Task_notes`; its layout is stated by `PromotionEntryRecordsSuppliedNotes` and `PromotedNotesLayout` |
| TaskModel.NoSuppliedNotes | controllers/controllers.js:319 | the test for undefined, null or the empty string; by `PromotionEntryRecordsSuppliedNotes` it decides exactly whether the entry ends after the generated line |
| TaskModel.PromotionLineSpelt | controllers/controllers.js:321-330 | the generated line is "<actor> moved <task name> from Doing to Done on <timestamp>" |
| TaskModel.PromotionEntryRecordsSuppliedNotes | controllers/controllers.js:318-345 | the entry starts with the generated line; it is exactly that line when the supplied notes are undefined, null or ""; otherwise the line is followed by a newline and then the supplied notes as `+` renders them, to the end |
| TaskModel.Promoted | controllers/controllers.js:316-352 | the row after the `UPDATE`: notes, state and owner rewritten; what changes and what stays is stated by `PromotedChangesOnlyNotesStateOwner` |
| TaskModel.PromotedNotesLayout | controllers/controllers.js:318-348 | the promoted notes are the generated line, then (only when supplied) a newline and the supplied notes, then a blank line, then the old notes, each at a stated position |
| TaskModel.PromotionNotesExample | controllers/controllers.js:318-348 | actor alice, task "Fix bug", no supplied notes, old notes "OLD" give "alice moved Fix bug from Doing to Done on <ts>\n\nOLD" |
| TaskModel.PromotedChangesOnlyNotesStateOwner | controllers/controllers.js:316-352 | the promoted row has state Done and the acting user as owner; its notes end with the old notes; id, name, description, plan, application, creator and creation date are unchanged |
| TaskModel.UserIndex | controllers/controllers.js:370-380 | the position of the first user row with the username, or none when no row has it |
| TaskModel.TaskIndex | controllers/controllers.js:301-306 | the position of the first task row with the id, or none when no row has it |
| TaskModel.TasksWhere | controllers/controllers.js:211-213 | the query result holds exactly the rows whose state and application acronym both match |
| TaskModel.TasksWhereConcat | controllers/controllers.js:211-213 | the query distributes over a split of the rows, so results keep row order |
| Notification.Recipients | controllers/controllers.js:394-404 | the recipient list is never longer than the user list |
| Notification.Recipient | controllers/controllers.js:396-402 | the loop body for one user: their email when they are in the group and have one; by `RecipientsAreGroupMembers` and `RecipientsConcat` the list is these contributions in row order |
| Notification.RecipientsAreGroupMembers | controllers/controllers.js:394-404 | an address is a recipient exactly when some user in the Done group has that non-null email |
| Notification.RecipientsConcat | controllers/controllers.js:395-403 | the recipient list follows user-row order: it distributes over concatenation of the users |
| Notification.NoGroupNoRecipients | controllers/controllers.js:387-398 | with a NULL Done group nobody is a recipient |
| Notification.CollectRecipients | controllers/controllers.js:394-404 | the push loop returns exactly the specified recipient list |
| Controllers.ValidateUser | controllers/controllers.js:369-381 | a user is returned exactly when the first row with that username has a hash matching the password; the returned user is that first row |
| Controllers.AnyUndefined | controllers/controllers.js:25 | the presence test of lines 25, 151 and 233; by `Admit` it holds exactly when the answer is PS001 |
| Controllers.AllStrings | controllers/controllers.js:35 | the `typeof` test of lines 35, 161 and 243; by `Admit` a present field that is not a string gives exactly PS002 |
| Controllers.Admit | controllers/controllers.js:25-71 | the shared chain (also lines 151-197 and 233-280): PS001 iff a mandatory field is undefined; PS002 iff all are present and one is not a string; then IM001, IM002 and AM001, each exactly when all earlier checks pass and its own fails; otherwise admitted with the validated user and the named application |
| Controllers.InputErrorsIgnoreStore | controllers/controllers.js:25-39 | for missing or mistyped fields the answer is PS001 or PS002 and the same for every store and password check, so no lookup decides it |
| Controllers.DisabledAccountRefused | controllers/controllers.js:56-60 | valid credentials of a disabled user give IM002 for any application, with any permits |
| Controllers.PlanCreate | controllers/controllers.js:25-115 | the decision of `CreateTask`; its refusal order and inserted row are stated by `PlanCreateRefusals` and `PlanCreateRow` |
| Controllers.PlanCreateRefusals | controllers/controllers.js:77-115 | after the shared checks: AM002 when the create permit is NULL or the user is not in its group; then T003 exactly for an empty task name |
| Controllers.PlanCreateRow | controllers/controllers.js:94-108 | the planned row has id acronym + (R+1), the given name (non-empty), state Open, the user as creator and owner, notes "Task created by <u> on <date>", NULL description when the supplied one is falsy, NULL plan; the next counter value is R+1 |
| Controllers.PlanPromote | controllers/controllers.js:301-313 | an update is planned only for the first row with the requested id (its `TaskIndex`), and only when its state is Doing |
| Controllers.PlanPromoteRefusals | controllers/controllers.js:283-313 | after the shared checks: AM002 when the Doing permit is NULL or the user is not in its group; T001 exactly when no row in any application has the id; T002 exactly when the first such row is not in state Doing |
| Controllers.PlanPromoteRow | controllers/controllers.js:315-348 | the promoted row is the found row with state Done, owner the acting user, and the promotion entry prepended to its old notes |
| Controllers.NoticeRecipients | controllers/controllers.js:383-404 | an address is notified exactly when some user in the Done group of the named application has it as email; nobody when the application is missing |
| Controllers.SetRnumber | controllers/controllers.js:129-132 | the same application keys; only the named application's running number changes, to the given value; its permits and every other application stay |
| Controllers.TaskStore.InsertTask | controllers/controllers.js:116-126 | the insert appends exactly the given row when the write succeeds and the id is free; otherwise the table is unchanged; the primary key holds afterwards |
| Controllers.TaskStore.UpdateRnumber | controllers/controllers.js:129-137 | the counter update sets only that application's running number, or changes nothing when it reports no row |
| Controllers.TaskStore.UpdateTask | controllers/controllers.js:350-357 | the update rewrites the notes, state and owner of the row with the id and nothing else, or changes nothing |
| Controllers.TaskStore.CreateTask | controllers/controllers.js:15-142 | refusal codes leave the store unchanged; a failed insert gives T003 with nothing written; a failed counter update gives T003 with the row kept and the counter unchanged; success gives S001 with the new id, the row appended and the counter at R+1 (users never change; every task is in one of the five states before and after) |
| Controllers.TaskStore.GetTaskbyState | controllers/controllers.js:144-224 | no permit check; T002 for a state outside the five, decided before the query outcome matters; T003 for a failed query; otherwise S001 with exactly the matching rows; data is present exactly on S001 |
| Controllers.TaskStore.PromoteTask2Done | controllers/controllers.js:226-366 | refusals and a failed update leave every table unchanged and notify nobody; success gives S001, replaces the found row with its promoted version, and names the Done group's members of the task's application as recipients; applications and users never change |
| Middleware.SpecialCharactersOfTheClass | middleware/middleware.js:3 | the special set is exactly the thirty characters of the regular expression's class; `ContainsSpecial` and `CatchSpecialCharacters` test membership in it |
| Middleware.ContainsSpecial | middleware/middleware.js:3-6 | the regular-expression test holds exactly when some character of the string is in the special set |
| Middleware.DropFirst | middleware/middleware.js:6 | `url.slice(1)`: one character shorter (empty for the empty URL), and character i is the URL's character i + 1 |
| Middleware.CatchSpecialCharacters | middleware/middleware.js:1-12 | AS002 exactly when a character after the first position is special; otherwise `next()` and no response |
| Middleware.FirstCharacterIgnored | middleware/middleware.js:4-6 | two URLs that differ only in their first character get the same outcome |
| Middleware.EmptyTailPasses | middleware/middleware.js:6-11 | "/" and "" pass the filter |
| Middleware.SpecialCharacterRefused | middleware/middleware.js:6-10 | any special character after the first position, for instance a query string's "?", gives AS002 |
| Middleware.AlphanumericTailPasses | middleware/middleware.js:3-11 | a URL whose tail is only letters and digits passes |
| Middleware.CreateTaskRoutePasses | middleware/middleware.js:6-11 | the route "/CreateTask" passes |

## Left out

- The MySQL connection, the driver and all logging; the store is three fields of `TaskStore`. Lookups compare strings exactly. MySQL collations are typically case-insensitive (and, for PAD SPACE collations, ignore trailing spaces); that is not modelled.
- bcrypt: the hash comparison is the parameter `Env.passwordMatches`.
- The clock: `Env.date` and `Env.timestamp` stand for the two formatted readings of `new Date().toISOString()`.
- Write and query failures are flags that the caller chooses: `insertOk`, `updateOk`, `queryOk`.
- Inserting a duplicate task id is modelled as a failed insert (T003). The real driver raises an exception that the handler does not catch.
- Other driver exceptions are not modelled. These exceptions end the process through the unhandled-rejection handler in `app.js`.
- The asynchronous interleaving of concurrent requests; each handler runs to completion. The window between the two writes of `CreateTask` is modelled only as the partial-write outcome.
- Mail delivery: the nodemailer transport, the message text and `sendMail` are foreign, fire-and-forget calls. Only the recipient list is modelled, and it does not affect the response.
- The notice's application lookup reads the task row's acronym column under a differently-cased name. The model uses the task's application acronym. When that application is missing, the model names no recipients. The real function then fails after the response was sent.
- JavaScript numbers are modelled as integers: no NaN, no fractions, no loss of precision above 2^53, and no exponent notation for large counters. Arrays as request fields are not distinguished from plain objects.
- `group_list` and the task notes are never NULL in the model. A NULL `group_list` would make `split` throw, and a NULL old note would be rendered as "null".
- The unused `Task_notes` field of the `GetTaskbyState` body.
- `app.js` (Express setup, CORS, environment loading, the AS001 catch-all, process handlers) and `routes/routes.js` (route registration) are not part of this model.
