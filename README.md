# To-do list server: a verified model of its task and user logic

This project models the core of a multi-user to-do web server, `server.improved.js`. Users register or log in. Then they create, list, reprioritise and complete their own tasks. Each task carries a suggested deadline: the task's priority sets a number of days, and those days are added to the creation date.

The model has six modules:

- `Deadline` (deadline.dfy) holds `calculateDeadline`. A date is a whole-day index, so the `setDate` rollover of the source is plain addition on that index.
- `Calendar` (calendar.dfy) gives the same helper on civil (year, month, day) dates, using a month-length table with Gregorian leap years. Adding days one by one, with month and year rollover, lands on the date whose day index is the one `Deadline` computes. Distinct dates have distinct indexes, so that date is the only one.
- `Collection` (collection.dfy) gives the semantics of the MongoDB calls the routes make (`findOne`, `find(...).toArray()`, `deleteOne`) over a collection held as a sequence in insertion order.
- `Repository` (repository.dfy) holds the task and user records, the query filters of each route, and the lemmas about them. Every task query is scoped by the owner, and those of `/delete` and `/update` by the pair (task id, owner). The lemmas cover ownership isolation, idempotence of delete and update, and deadline recomputation from `dateCreated`.
- `Routes` (routes.dfy) has one class, `Server`. Its fields are the `tasks` and `users` collections, the session store (cookie id to `userId`) and a fresh-id counter that stands in for ObjectId generation. There is one method per HTTP route. Each method returns a `Response` (status code plus JSON payload, using the source's own messages) and states the whole new state. `Valid()` is the object invariant that every route preserves: ids are fresh and unique, usernames are unique, and every session user and every task owner is a registered user.
- `Scenarios` (scenarios.dfy) holds clients proved from the route contracts alone. One covers the life cycle register → submit → list → update → delete → logout. One shows that a second user can neither see nor change the first user's task. One shows that a wrong password and an unknown name are refused in the same way.

Two behaviours of the code are worth noting:

- The code accepts any priority string, not only the four the client offers (public/js/main.js:34). An unknown string gives a zero-day offset.
- `/api/session/status` looks the session user up without a missing-user check. The invariant `Valid()` shows that the lookup always succeeds.

## Model

| member | source | states |
|---|---|---|
| Deadline.CalculateDeadline | server.improved.js:44-55 | Urgent, High, Medium and Low give start + 1, 2, 7 and 30 days; any other string gives the start day itself; the result always lies between start and start + 30; no input is rejected |
| Calendar.NextDay | server.improved.js:53 | the day after a valid date is a valid date, rolling over month and year ends, and its day index is one more |
| Calendar.AddDays | server.improved.js:53 | adding n days to a valid civil date gives a valid date whose day index is n more |
| Calendar.CivilDeadline | server.improved.js:44-55 | the civil-date deadline is a valid date whose day index equals the day-index deadline of CalculateDeadline |
| Calendar.DayIndexInjective | server.improved.js:53 | two valid dates with the same day index are the same date, so the civil deadline is unique |
| Calendar.RolloverExamples | server.improved.js:53 | year end (Dec 31 + 1), leap February (Feb 28 2024 + 2), common February (Feb 28 2023 + 2), a 30-day span over February, and an unknown priority leaving the date unchanged |
| Collection.FindFirst | server.improved.js:160-164 | findOne: the position of the first matching document, or None exactly when no document matches |
| Collection.Filter | server.improved.js:116 | find: a document is returned if and only if it is in the collection and matches the filter |
| Collection.DeleteFirst | server.improved.js:145 | deleteOne: nothing changes without a match; otherwise exactly the first match is removed and the others keep their order |
| Repository.OwnedBy | server.improved.js:116-117 | the listing holds every task of the owner and no task of anyone else |
| Repository.DeleteOwned | server.improved.js:141-145 | at most one task goes, and only one that matches both id and owner; every other task stays; nothing changes when nothing matches; with unique ids no match is left |
| Repository.UpdateOwned | server.improved.js:155-172 | None exactly when no task matches (id, owner); otherwise one matching task gets the new priority and the deadline dateCreated + offset, keeps its id, text, dateCreated and owner, and every other task is unchanged |
| Repository.DeleteIsolation | server.improved.js:141-146 | deleting as one owner leaves every other owner's listing unchanged |
| Repository.UpdateIsolation | server.improved.js:155-173 | updating as one owner leaves every other owner's listing unchanged |
| Repository.InsertIsolation | server.improved.js:124-132 | a new task is appended to its owner's listing and appears in no other owner's listing |
| Repository.DeleteIdempotent | server.improved.js:141-146 | with unique ids, deleting the same (id, owner) twice equals deleting it once |
| Repository.UpdateHistoryIndependent | server.improved.js:169 | after any earlier update, a new update gives the same collection as updating the original: the deadline counts from dateCreated, not from the previous deadline or the current time |
| Repository.UpdateIdempotent | server.improved.js:166-172 | repeating an update with the same priority changes nothing more |
| Repository.CredentialsNameUser | server.improved.js:77-83 | with unique usernames, a login match is the one user with that name, and it exists exactly when that user's password is the one given |
| Routes.Server.Register | server.improved.js:59-72 | a taken username gives 400 and changes nothing; otherwise 201, one new user with a fresh id, and the session logged in as that user; the invariant is kept |
| Routes.Server.Login | server.improved.js:74-87 | a user with both that username and that password gives 200 and the session logged in as that user; otherwise 401 and the session unchanged; collections untouched |
| Routes.Server.Logout | server.improved.js:89-97 | the session is removed, 200, nothing else changes |
| Routes.Server.SessionStatus | server.improved.js:99-108 | without a session user, loggedIn false; otherwise loggedIn true with the username of the registered session user |
| Routes.Server.ListTasks | server.improved.js:111-118 | 401 without a session user; otherwise 200 with the tasks whose owner is the session user, all of them and no others, in collection order |
| Routes.Server.Submit | server.improved.js:120-134 | 401 and nothing changed without a session user; otherwise exactly one task appended, with the request's text and priority, dateCreated now, deadline CalculateDeadline(now, priority), the session user as owner and a fresh id; 200 |
| Routes.Server.Delete | server.improved.js:136-147 | 401 and nothing changed without a session user; otherwise 200 whether or not a task matched, and the tasks become DeleteOwned for (id, session user) |
| Routes.Server.Update | server.improved.js:149-174 | 401 without a session user and 404 without a matching (id, session user) task, both changing nothing; otherwise 200 and the tasks become UpdateOwned |

## Left out

- Internal errors (the 500 answers of `/register`, `/login` and `/logout`, and a failing `session.destroy`): these happen only when the database or session store fails, which the model does not include.
- Turning request strings into ObjectIds, and the exception a malformed id raises in `/delete` and `/update`: ids are opaque naturals compared by equality.
- ObjectId generation: a single counter hands out ids for both collections. It is fresh, as an ObjectId is, but the ids are not the driver's values.
- MongoDB connection setup, the exit on a failed connection, Express middleware, static files, JSON body parsing and session persistence in MongoDB: this is framework and library wiring.
- The session cookie: a session is a key of the session store. Logout removes the key; `clearCookie` is not modelled.
- Routes.Server.Login: request bodies are strings, and the contract holds only for string bodies. `express.json()` also accepts objects, so a body such as `{"password": {"$ne": null}}` turns the `findOne` filters of `/register` and `/login` (server.improved.js:62, 77) into operator queries, and `/login` can then match a user without their password. Missing fields (`undefined` in a query or in a stored task) are not modelled either.
- `Date` precision, time zones and daylight saving: dates are whole days. Civil dates start at year 0 (negative years are not modelled).
- Routes.Server.Submit: the source calls `new Date()` twice (creation date and deadline base), which can differ by a few milliseconds or straddle midnight. The model passes one `now` for both.
- Concurrent requests, including the lost update between the read and the write of `/update`: each route is one atomic step.
- The browser client (`public/js/main.js`): it only manipulates the page and calls the routes.
- Plaintext password storage is modelled as it is; hashing is not part of the source.
