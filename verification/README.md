# Task list web application: authentication and task ownership

This project models the authentication, session and task-ownership logic of a small Express web application. Users register and log in. Each logged-in user keeps a personal list of tasks. Users live in a document store (Mongoose) and tasks live in a relational table (Sequelize).

The model is a sequential state machine. A `State` holds three things: the users collection, the tasks table, and the requesting client's session. Every route is a pure function, or a method for the dashboard's counting loop. It takes the state and the request and returns the new state together with an `Outcome`: `Proceed`, `Redirect(path)`, `Render(view, error)`, the dashboard counts, the task list, the edit form, or `Send(body)` for the plain-text error pages.

The module layout follows the source files:

- `Base`: the `Option` and `Result` types.
- `JsText`: the JavaScript string semantics the handlers rely on. This covers truthiness of body fields, the `\s` character class, `trim` and `toLowerCase`.
- `EmailFormat`: the registration e-mail check `/^[^\s@]+@[^\s@]+\.[^\s@]+$/`. It is given twice: once as what the anchored expression accepts, and once as a plain description (no whitespace, exactly one `@`, a non-empty local part, and a domain with a `.` strictly inside it). A lemma proves the two agree.
- `Models`: the schemas of `models/User.js` and `models/Task.js`, as stores.
  - The user collection is a sequence in natural order, so `findOne` returns the first match.
  - Saving a user validates the required fields and then enforces the unique indexes on `_id`, `username` and `email`.
  - The task table is a map from an auto-incremented key to rows. Its `VARCHAR(255)` columns follow PostgreSQL: a longer value is refused unless everything past the 255th character is spaces, and such a value is stored cut to 255 characters.
- `Http`: the session, the outcome, the request bodies, the state and the password hasher. It also holds the logout handler, which both drafts write identically, and what the two login handlers conclude from the e-mail lookup.
- `Guards`: `requireLogin` and `preventLoggedInAccess` of `middleware/auth.js`.
- `AppAuth` and `AppTasks`: the routes of `app.js`.
- `RouterAuth`: the routes of `routes/auth.js`.
- `Drafts`: properties that span the two drafts.

Parameters stand in for what the code gets from outside:

- A `Hasher` value holds `hash` and `compare` and stands for the password hashing library.
- `newId` stands for the generated document id.
- `url` stands for `req.originalUrl`.

## The two session shapes

The drafts disagree on where the logged-in identity lives, and the model keeps both shapes instead of choosing one:

- `app.js` writes top-level `session.userId`, `session.username` and `session.email` at login (app.js:140-142). Its task handlers read the owner from `session.userId`.
- `routes/auth.js` writes `session.user = { userId, username, email }` (routes/auth.js:32-36, 62-66).
- `requireLogin`, which `app.js` imports (app.js:15), checks `session.user.userId` (middleware/auth.js:5).

`Http.Session` therefore has both the top-level fields and `user`. Two lemmas show what the mismatch does:

- `Drafts.AppLoginLeavesGuardShut`: after the `app.js` login, `requireLogin` still turns the session away, so every task route sends the user back to /login.
- `Drafts.RouterLoginTripsTaskHandlers`: after the router's login, `requireLogin` admits the session. The task handlers then read the unset `session.userId`, which throws. The result is an error page for the list, a failed add, and no change to any task.

## Modelling decisions

- Mongoose runs a field's setters on query filters. So `findOne({ email })` compares against the trimmed, lower-cased address, and `findOne({ $or: [{ email }, { username }] })` compares against the trimmed username. As a result, the router's extra `email.toLowerCase()` selects the same document (`RouterAuth.LowercasedLookupAgrees`).
- A username made only of whitespace passes the handler's presence check. It then becomes empty under the `trim` setter and fails the `required` validator. `app.js` reports this as "Registration failed.".
- The pre-check already rejects duplicate usernames and e-mails. In a sequential run, a duplicate-key refusal from the store therefore needs either an id collision or a concurrent registration. `Drafts.DuplicateRaceResolvedByIndex` models the second case by running the two phases of `AppAuth.PostRegister` (`Rejection`, then `Commit`) interleaved.
- Sequelize's `instance.update` drops `undefined` values. So an absent `description` or `status` leaves that column as it was when a task is edited. `dueDate || null` is never undefined, so an empty or absent due date becomes `NULL`.
- A value longer than 255 characters for `title`, `status` or `userId` is refused by the database unless every character past the 255th is a space, and the refusal takes the handler's `catch` path. A space-padded value is accepted and stored cut to 255 characters. The title is trimmed first, so it is never cut: it is either within the limit or refused (`Models.TrimmedFitsWithinLimit`). `status` is not trimmed, so `'pending'` followed by 300 spaces is stored as `'pending'` followed by 248 spaces.
- `req.session.userId.toString()` throws when `userId` is unset. Each handler then takes its own `catch` path:
  - the dashboard and the list send an error text;
  - add and edit-submit re-render the form with an error;
  - edit-form, delete and toggle redirect to /tasks.

## Behaviour worth noting

- Only creation checks that the title is non-blank. Editing trims the title and stores it even when it is empty (`AppTasks.PostEditTask`).
- Status has no enumeration. Any string can be stored, and editing can store `""`. The dashboard counts only `'completed'` and `'pending'` separately, so other statuses count towards the total only.
- The router does not distinguish duplicates at save time. It reports every save failure, a duplicate key included, as "Registration failed". `app.js` maps error code 11000 to "Username or Email already exists".
- The router does not check password length or the e-mail format.
- No route checks a role: a logged-in session is the only requirement.

## Model

| member | source | states |
|---|---|---|
| JsText.Trim | app.js:212-222 | the result is an infix of the input with only whitespace removed before and after it, and it neither starts nor ends with whitespace |
| JsText.TrimIdempotent | models/User.js:5 | trimming an already trimmed value changes nothing |
| JsText.TrimEmptyIffAllSpace | app.js:212 | `s.trim() === ''` holds exactly when `s` is whitespace only |
| JsText.Lower | models/User.js:6 | lower-casing keeps the length and maps each character independently |
| JsText.TrimLowerCommute | models/User.js:6 | trimming and lower-casing can be applied in either order |
| EmailFormat.ShapeIffPattern | app.js:78-81 | a string matches the registration e-mail pattern exactly when it has no whitespace, one `@`, a non-empty local part and a domain with a `.` strictly inside |
| Models.NormEmailFixedPoint | models/User.js:6 | a stored e-mail is a fixed point of trim-then-lowercase |
| Models.NormEmailAbsorbsLower | routes/auth.js:56 | lower-casing the query e-mail before the setters run yields the same key |
| Models.RebuildIsIdentity | models/User.js:5-6 | building a document from a stored document's own fields gives that document back: the setters change nothing twice |
| Models.Build | models/User.js:4-8 | the built document has the trimmed username and the trimmed, lower-cased e-mail, and satisfies the setters' fixed-point condition |
| Models.Save | models/User.js:4-13 | save fails validation exactly when a required field is empty; it fails with a duplicate key exactly when a unique index would be violated; otherwise exactly the new document is appended |
| Models.SavePreservesValid | models/User.js:11-13 | a successful save of a normalised document keeps every document valid and the three indexes unique |
| Models.FindFirst | app.js:84-86 | the lookup returns the first document satisfying the filter, and none when no document does |
| Models.ByUsernameOrEmailFinds | app.js:84-88 | the `$or` lookup finds a document exactly when the username or the e-mail is already taken after the setters |
| Models.ByEmailUnique | models/User.js:12 | under the unique e-mail index, the lookup by e-mail lands on a document exactly when that document carries the normalised address |
| Models.ByEmailFirst | app.js:128 | the e-mail lookup returns the first document carrying the normalised address |
| Models.NewTask | models/Task.js:16-19 | an absent status takes the default 'pending'; a given status of any value is kept; the other columns are as given |
| Models.Cut | db.js:11 | an accepted value is kept whole when within 255 characters; otherwise the column keeps its first 255 characters and only spaces are lost |
| Models.CutIdempotent | db.js:11 | a value the column has cut is accepted again and kept unchanged |
| Models.SpacePaddedAccepted | db.js:11 | a value within 255 characters followed by any run of spaces is accepted, and what the column keeps starts with that value |
| Models.TrimmedFitsWithinLimit | models/Task.js:6-9 | a value without trailing whitespace, such as the trimmed title, is accepted exactly when it is within 255 characters, and is then stored whole |
| Models.Stored | models/Task.js:4-28 | the stored row has every varchar column within the limit, each cut from the given value, and the other columns as given |
| Models.StoredWithinLimit | models/Task.js:4-28 | a row whose varchar values are all within 255 characters is stored unchanged |
| Models.Insert | models/Task.js:4-28 | insertion succeeds exactly when every varchar column accepts its value and adds exactly the stored form of that row under a key not in use |
| Models.Update | app.js:272-277 | an update succeeds exactly when every varchar column accepts its value, replaces only the target row with its stored form, and keeps the key set |
| Models.Destroy | app.js:297 | deletion removes only the given key |
| Models.StatusCountsBounded | app.js:171-173 | completed plus pending never exceeds the owner's total |
| Guards.RequireLogin | middleware/auth.js:4-11 | proceeds exactly when `session.user` has a truthy `userId`, leaving the session unchanged; otherwise stores the URL in `redirectTo` and redirects to /login |
| Guards.PreventLoggedInAccess | middleware/auth.js:14-19 | redirects to /dashboard exactly when `session.user` is set, otherwise proceeds; never changes the session |
| Guards.GuardsExclusive | middleware/auth.js:5-15 | no session passes both guards |
| Guards.EmptyUserIdRejectedByBoth | middleware/auth.js:5-16 | a `session.user` with an empty `userId` is turned away by both guards, to opposite pages |
| Models.ByEmailFinds | app.js:128 | the lookup by e-mail comes back empty exactly when no stored document carries the normalised address |
| Http.LookupDecides | app.js:128-137 | under the unique e-mail index, the found document accepts the password exactly when some document under the address does |
| AppAuth.Rejection | app.js:70-92 | the first failing check gives its message, in the handler's order; nothing fails exactly when the fields are present, the password has at least 6 characters, the e-mail matches the pattern and the username and e-mail are unused |
| AppAuth.Commit | app.js:94-111 | the save succeeds exactly when the new document is storable and then adds it and redirects to /login; a duplicate key gives the "already exists" message; a validation failure gives "Registration failed."; failures change nothing |
| AppAuth.PostRegister | app.js:67-112 | each rejection has its message and leaves the state unchanged; success adds exactly one user with the hashed password and does not touch the session; store validity is preserved |
| AppAuth.PostLogin | app.js:118-149 | an unknown e-mail and a wrong password give the same "Invalid credentials" page with nothing changed; success writes the matched user's id, username and e-mail into the top-level session fields and redirects to /dashboard |
| Http.Logout | app.js:151-154 | the session is emptied whatever it held, the stores are untouched, and the client goes to /login; routes/auth.js writes the same handler |
| AppAuth.GetRegister | app.js:63-65 | the registration form is shown to any session |
| AppAuth.GetLogin | app.js:114-116 | the login form is shown to any session |
| AppAuth.Home | app.js:160-163 | the root sends a session with a truthy top-level `userId` to the dashboard and any other to /login |
| AppTasks.CountTasks | app.js:167-173 | the loop's counts equal the number of the owner's tasks and of those with status 'completed' and 'pending' |
| AppTasks.Dashboard | app.js:165-180 | behind the guard, the counts are the owner's, with completed plus pending at most the total; an unset `userId` gives the error text; nothing changes |
| AppTasks.ListTasks | app.js:187-197 | behind the guard, the listed tasks are exactly the session owner's, with their stored contents |
| AppTasks.NewTaskForm | app.js:200-206 | behind the guard, the empty task form |
| AppTasks.BlankTitleIsTrimEmpty | app.js:212 | the handler's blank-title test holds exactly for a missing, empty or whitespace-only title |
| AppTasks.OrNull | app.js:224 | the due-date fallback to null keeps a truthy value and turns an absent or empty one into null |
| AppTasks.AddedTask | app.js:221-227 | the created row has the trimmed title, the given description, a null due date exactly when none was given, status 'pending' unless a truthy one was given, and the session's owner |
| AppTasks.CreateTask | app.js:220-238 | the insert succeeds exactly when the varchar columns accept the row, then adds exactly its stored form under a fresh key; otherwise the form is re-rendered with nothing changed |
| AppTasks.PostAddTask | app.js:209-239 | a blank title adds nothing; otherwise exactly one task with a non-blank trimmed title owned by the session's `userId` is added, exactly when the varchar columns accept it; the table stays valid |
| AppTasks.EditForm | app.js:242-259 | the form is shown exactly for a task the session owns; any other id redirects to /tasks; nothing changes |
| AppTasks.EditedTask | app.js:272-277 | the updated row keeps its owner, takes the trimmed title, takes `description` and `status` when sent and keeps them otherwise, and has a due date exactly when a truthy one was sent |
| AppTasks.PostEditTask | app.js:262-289 | a missing or foreign task is left unchanged; for an owned task with a title the update happens exactly when the varchar columns accept the edited row, and replaces that row alone with its stored form; otherwise the form is re-rendered with the failure message and nothing changes |
| AppTasks.EditedTaskIdempotent | app.js:272-277 | applying the same edit to an already edited row changes nothing more |
| AppTasks.StoredEditIdempotent | app.js:272-277 | the same edit written over the row an accepted edit stored is accepted again and stores the same row |
| AppTasks.AcceptedEditRepeats | app.js:262-289 | an accepted edit submitted again leaves the state and the response as the first submission left them |
| AppTasks.EditTwiceSameAsOnce | app.js:262-289 | submitting the same edit twice gives the same state and response as submitting it once |
| AppTasks.PostDeleteTask | app.js:292-305 | only a task the session owns is removed, and every response redirects to /tasks |
| AppTasks.Flip | app.js:316 | 'pending' becomes 'completed' and every other status becomes 'pending' |
| AppTasks.FlipTwice | app.js:316 | flipping twice restores 'pending' and 'completed' and turns any other status into 'completed' |
| AppTasks.PostToggleStatus | app.js:308-324 | a missing or foreign task is left unchanged; for an owned task only its status changes, from 'pending' to 'completed' and otherwise to 'pending' |
| AppTasks.ToggleTwiceRestores | app.js:316-317 | toggling a 'pending' or 'completed' task twice gives back the starting state |
| RouterAuth.GetRegister | routes/auth.js:12-14 | the form is shown exactly when `session.user` is unset, otherwise a redirect to /dashboard |
| RouterAuth.GetLogin | routes/auth.js:45-47 | the form is shown exactly when `session.user` is unset, otherwise a redirect to /dashboard |
| RouterAuth.PostRegister | routes/auth.js:17-42 | missing fields and a used username or e-mail are rejected with nothing changed; success adds exactly one user with the hashed password and sets `session.user` to its id, username and e-mail |
| RouterAuth.PostLogin | routes/auth.js:50-72 | the lookup uses the lower-cased e-mail; an unknown e-mail and a wrong password give the same page with nothing changed; success sets `session.user` to the matched user |
| RouterAuth.LowercasedLookupAgrees | routes/auth.js:56 | lower-casing the e-mail before the lookup selects the same document as not doing so |
| Drafts.AppLoginLeavesGuardShut | app.js:139-142 | after this draft's login a session without `user` still fails `requireLogin`, so the task routes redirect to /login |
| Drafts.RouterLoginTripsTaskHandlers | routes/auth.js:62-66 | after the router's login the guard admits the session, but the task handlers fail on the unset top-level `userId` and change nothing |
| Drafts.AppRegisterThenLogin | app.js:94-144 | registering and then logging in with the same credentials succeeds and binds the new user's id in the session |
| Drafts.RouterRegisterLogsIn | routes/auth.js:28-38 | registering through the router logs the user in: the guard admits the session and the login form redirects away |
| Drafts.RouterRegisterSaves | routes/auth.js:28-38 | a registration with present fields, unused names and a storable document appends exactly that document and sets `session.user` to it |
| Drafts.RouterLoginFirstMatch | routes/auth.js:56-68 | when the first document under the address accepts the password, the router's login sets `session.user` to it despite the extra lower-casing |
| Drafts.RouterRegisterLogoutLogin | routes/auth.js:28-68 | register, logout and login again restores the same `session.user` |
| Drafts.DuplicateRaceResolvedByIndex | app.js:104-108 | of two registrations that share a username or e-mail and both passed the uniqueness pre-check against the same collection, the second save is refused with the "already exists" message and changes nothing |
| Drafts.ForeignTaskUntouched | app.js:241-314 | the edit form, edit, delete and toggle leave a task owned by another `userId` unchanged, and a logged-in session is sent to /tasks instead of seeing the form |
| Drafts.LogoutEndsSession | routes/auth.js:75-78 | after logout no guard admits the session, the router's login form is shown again and the root sends the client to /login |
| Drafts.FormsGuardedOnlyInRouter | routes/auth.js:12-47 | with `session.user` set, the router's forms redirect to /dashboard while those of app.js are still shown |
| Drafts.RouterPostsIgnoreSession | routes/auth.js:17-50 | the router's POST handlers give the same response whatever the session holds |

## Left out

- Password hashing: salt generation, cost rounds and the digest format are not modelled. `hash` and `compare` are parameters. The end-to-end lemmas assume that `compare(p, hash(p))` holds for the password involved.
- Session cookie: the encryption, signing, 30-minute duration and 5-minute active window (app.js:31-38) are not modelled. They are library behaviour driven by the clock. The session is the decoded payload, and a client always has one.
- Timestamps: `createdAt` (models/User.js:8) and the task timestamps come from the clock and are not modelled.
- Document ids: ids are parameters. A failed task insert does not advance the key sequence in the model.
- Database plumbing: connections and startup ordering (db.js, config/mongo.js, api/index.js, server.js) are not modelled. Neither are failures other than validation, unique indexes and column width, such as a lost connection.
- Express plumbing: body parsing, static files, template rendering, and the middleware that exposes the user to views (app.js:41-51) are not modelled. Outcomes name the view and its error message only. The edit form's re-render does not carry the echoed field values.
- routes/tasks.js is not modelled. It is a broken draft that calls document-store methods on the relational model and checks no login or ownership.
- Request parsing: body fields that are not strings (arrays or objects from the extended parser) are not modelled. A due date is kept as an opaque string, with no date parsing. Task ids are natural numbers, so a non-numeric id path parameter and its database error are not modelled.
- JsText.Lower: only the ASCII capitals are mapped. `toLowerCase` applies the full Unicode case mapping, so the e-mail normalisation is modelled only for ASCII letters.
- AppAuth.Rejection: the password length is counted in characters. JavaScript counts UTF-16 code units, so a password with characters outside the Basic Multilingual Plane is measured differently.
