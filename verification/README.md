# Student-support backend: request decisions, in Dafny

This project models the decision layer of a student mental-health support
application: an Express/Mongoose REST backend, a Socket.io relay for forum
posts, and the few pure helpers of the React frontend.

Each REST route is a pure function from the document store, the caller's
credentials and the request to a reply (status code plus JSON body or error
message) and the store afterwards. The store holds one finite map per
collection: users, appointments, forum posts, counsellors and analytics
entries. The middleware chain (`requireAuth`, then `requireAdmin` on admin
routes) is composed into every route, so each contract states which status
comes back, what changed in the store and what did not.

The model follows the code as written:

- An appointment update copies the body onto the document (`Object.assign`).
  There is no status state machine. An owner may even move an appointment out
  of `cancelled` (`AppointmentRoutes.AnyStatusChangeAllowed`), or hand it to
  another user by sending a new `userId`.
- Cancel always sets `cancelled`, keeps the record, and succeeds again when
  repeated.
- Listings are not isolated by college. The forum list filters by college
  only when a `college` query is given. Admin listings cover every college.
- Registration stores whatever `role` the client sends, including `"admin"`.
- REST handlers never emit socket events. The relay only forwards
  `newForumPost` messages that clients send.
- An upvote reads the count and writes it back. Requests are modelled one at
  a time.

Modules:
- `Jwt`: token claims, the JWT library's laws, and the `JWT_SECRET` each backend module reads.
- `Common`: optional values, JavaScript truthiness, ASCII case mapping, `startsWith`/`includes`, `split`/`join`, and an order-preserving `Filter`.
- `Http`: status codes, `Reply`, `Outcome`.
- `Models`: the schemas and the store.
- `AuthMiddleware`, `AuthRoutes`, `AppointmentRoutes`, `ForumRoutes`, `CounsellorRoutes`, `UserRoutes`, `AnalyticsRoutes`: one module per backend file.
- `Ranking`: newest-first top-k selection, used for `sort(...).limit(n)`.
- `Realtime`: the socket relay.
- `AppointmentsPage`, `ForumNotifications`, `Sidebar`, `Guards`: the frontend helpers.

Collaborators the model cannot see are passed in as function-valued parameters:
- JWT verification (`Verifier`) and signing. The `Jwt` module plugs in the
  library under the secret each module reads, with the library's laws
  (`Jwt.Sound`) as a premise.
- bcrypt hashing and comparison.
- `isValidEmail`.
- Mongoose's cast of a date string (`DateCaster`), and the browser's
  Date-to-ISO conversion.

Fresh document ids are parameters with a `requires` that they are unused.
`now` is a tick of an abstract monotone clock.

Modelling decisions:
- The schema's `lowercase` setter on `email` is taken to apply to the
  `findOne({ email })` query as well as to the stored value, as Mongoose does
  by default.
- A `save()` that fails schema validation is modelled as status 500. Examples
  are an empty required string or a status or role outside its enum. The
  error-handler file is not part of this model; 500 is Express's answer to an
  error thrown out of a handler.
- `findByIdAndUpdate` on counsellors runs no validators (the Mongoose
  default), so the update is applied unvalidated.

## Model

| member | source | states |
|---|---|---|
| `Models.RoleFromName` | backend/src/models/user.ts:27 | an absent role takes the default "user" |
| `Models.RoleNamesRoundTrip` | backend/src/models/user.ts:4 | the enum accepts exactly "user" and "admin", each mapping to its own role |
| `Models.HashOnSave` | backend/src/models/user.ts:32-37 | the password is replaced by its hash only when modified; every other field is untouched |
| `Models.ComparePassword` | backend/src/models/user.ts:39-41 | the result depends only on the candidate and the stored hash |
| `Models.CastDate` | backend/src/models/Appointment.ts:18 | an empty date string never casts (it becomes null, which `required` rejects); any other string casts as the date parser says |
| `Models.CastOptional` | backend/src/models/Analytics.ts:14-19 | an optional path holds nothing when the field is absent or "" (null); otherwise it holds the cast value, and the cast fails exactly when the type's parser rejects the text |
| `Models.StatusNamesRoundTrip` | backend/src/models/Appointment.ts:19-22 | the status enum accepts exactly the four names, each mapping to its own status |
| `AuthMiddleware.BearerToken` | backend/src/middleware/auth.ts:20 | the token is the space-free text after "Bearer ", ended by the next space or the end of the header |
| `AuthMiddleware.BearerTokenOfWellFormedHeader` | backend/src/middleware/auth.ts:18-20 | "Bearer " followed by a space-free token passes the prefix check and yields exactly that token |
| `AuthMiddleware.RequireAuth` | backend/src/middleware/auth.ts:17-30 | every failure is 401, never 403; success iff the exact "Bearer " prefix, a verifying token and a stored user id; the attached user is that stored user |
| `AuthMiddleware.RequireAdmin` | backend/src/middleware/auth.ts:32-36 | 401 without a user, 403 for a non-admin, and it continues iff the user is an admin |
| `AuthMiddleware.Gate` | backend/src/middleware/auth.ts:17-36 | the chain passes iff authentication succeeds and, on admin routes, the user is an admin; 403 only for an authenticated non-admin |
| `Jwt.AfterDotenv` | backend/src/middleware/auth.ts:4-5 | after `dotenv.config()` the variable keeps the process's value when defined and takes the `.env` value otherwise |
| `Jwt.SignSecretAsWritten` | backend/src/routes/auth.ts:7 | the signing secret is the process's own non-empty value, else "changeme"; it is never empty and ignores `.env` |
| `Jwt.VerifySecret` | backend/src/middleware/auth.ts:15 | the verifying secret is the post-dotenv value when non-empty, else "" |
| `Jwt.SharedSecret` | backend/src/middleware/auth.ts:15 | the corrected single secret: the post-dotenv value when non-empty, else "changeme"; never empty |
| `Jwt.SecretsAgreeAsWritten` | backend/src/routes/auth.ts:7 | the two secrets as written agree iff the process sets a non-empty value, or leaves it undefined while `.env` holds "changeme" |
| `AuthRoutes.SessionFor` | backend/src/routes/auth.ts:20-21 | the token signs only the user id with the fixed "1h" lifetime; the user part is id, email, name and role |
| `AuthRoutes.Register` | backend/src/routes/auth.ts:10-22 | 400 for missing fields, then 400 for an invalid email, then 409 for a taken email, in that order and with the store unchanged; 201 iff all checks pass and the role is in the enum; the stored user has the client's role, the lower-cased email, the hashed password, and the body's name, age, college, phone and gender |
| `AuthRoutes.Login` | backend/src/routes/auth.ts:24-33 | 400 for missing fields; an unknown email and a wrong password give the identical 401; success iff a user with that email accepts the password; the reply names that user |
| `AuthRoutes.RegisterPreservesValidity` | backend/src/routes/auth.ts:15-19 | after registering, stored emails are still lower-case and unique |
| `AuthRoutes.RegisterReplyHidesPassword` | backend/src/routes/auth.ts:21 | the register reply is the same whatever password was sent |
| `AuthRoutes.RegisterThenLogin` | backend/src/routes/auth.ts:18-32 | logging in with the credentials just registered succeeds as the new user |
| `AuthRoutes.RegisterThenAuthenticate` | backend/src/routes/auth.ts:20 | with one secret shared by signer and verifier (`Jwt.SharedSecret`) and a sound JWT library, the registration token authenticates the new user through `requireAuth`, for every environment |
| `AuthRoutes.RegisterThenAuthenticateAsWritten` | backend/src/routes/auth.ts:7-20 | with the secrets as written, the registration token authenticates iff the signing and verifying secrets agree, and is otherwise refused with 401 "Invalid token" |
| `AuthRoutes.SecretOnlyInDotenvRejectsTokens` | backend/src/middleware/auth.ts:15-22 | when `JWT_SECRET` is set only in `.env`, every token issued at registration is refused with 401 "Invalid token" |
| `AppointmentRoutes.Create` | backend/src/routes/appointments.ts:9-25 | 400 without collegeName or scheduledAt, store unchanged; 500 when scheduledAt does not cast to a date; otherwise 201 with the caller as owner whatever the body says, status pending, the cast date, and only the new id added |
| `AppointmentRoutes.OwnedBy` | backend/src/routes/appointments.ts:29 | exactly the appointments whose userId is the given user, unchanged |
| `AppointmentRoutes.OwnedByPartitions` | backend/src/routes/appointments.ts:28-33 | each appointment is listed for its owner and for no other user |
| `AppointmentRoutes.ListMine` | backend/src/routes/appointments.ts:28-33 | an authenticated caller gets exactly their own appointments |
| `AppointmentRoutes.ListAll` | backend/src/routes/appointments.ts:36-41 | only an admin gets the full list; everyone else gets 401 or 403 |
| `AppointmentRoutes.Patched` | backend/src/routes/appointments.ts:57-58 | every field present in the body overwrites the document's (a date as cast), the rest are kept; it fails exactly when the status is outside the enum, the college is empty, or a sent scheduledAt does not cast |
| `AppointmentRoutes.Update` | backend/src/routes/appointments.ts:44-60 | 404 for an absent id before any ownership check; 403 for a caller neither admin nor owner, record unchanged; otherwise the patched record replaces the old one and nothing else changes |
| `AppointmentRoutes.Cancel` | backend/src/routes/appointments.ts:63-78 | same 404/403 rules; otherwise the status becomes cancelled, the record is kept, and only that record changes |
| `AppointmentRoutes.CancelIsRepeatable` | backend/src/routes/appointments.ts:74-77 | a second cancel succeeds again with the same reply and the same store |
| `AppointmentRoutes.AnyStatusChangeAllowed` | backend/src/routes/appointments.ts:57-59 | the owner can set any status from any status; no transition is checked |
| `AppointmentRoutes.AppointmentWritesPreserveValidity` | backend/src/models/Appointment.ts:15-23 | create, update and cancel keep every stored appointment's required fields present |
| `AppointmentRoutes.AdminListCoversEveryOwnList` | backend/src/routes/appointments.ts:28-41 | an admin's full list contains every user's own list, record for record |
| `AppointmentRoutes.CreateThenListMine` | backend/src/routes/appointments.ts:9-33 | a created appointment appears, as created, in its creator's list, which grows by exactly one |
| `Ranking.Newest` | backend/src/routes/forum.ts:32 | picks a document with the latest stamp in the pool |
| `Ranking.TopNewest` | backend/src/routes/forum.ts:32 | returns min(limit, size) distinct ids, newest first, with no omitted id newer than a returned one |
| `ForumRoutes.CreatePost` | backend/src/routes/forum.ts:9-24 | 400 for an empty body, store unchanged; otherwise the author is the caller whatever the anonymity flag, the flag is the truthiness of the input, with no comments and zero upvotes |
| `ForumRoutes.Selected` | backend/src/routes/forum.ts:28-30 | a post is a candidate iff no college query is given or its collegeName equals the query |
| `ForumRoutes.ListPosts` | backend/src/routes/forum.ts:27-34 | at most 100 stored posts of the selected college (or of every college), newest first, and no left-out candidate is newer than a listed one |
| `ForumRoutes.GetPost` | backend/src/routes/forum.ts:37-41 | 404 for an absent id, otherwise the stored post |
| `ForumRoutes.AddComment` | backend/src/routes/forum.ts:44-58 | empty text is 400 even for an absent post; otherwise exactly one comment by the caller is appended at the end, earlier comments and other fields unchanged |
| `ForumRoutes.AppendedCommentValidity` | backend/src/models/ForumPost.ts:20-26 | appending a comment with text keeps a post valid exactly when it was valid |
| `ForumRoutes.CurrentVotes` | backend/src/routes/forum.ts:65 | a missing upvote count counts as 0 |
| `ForumRoutes.Upvote` | backend/src/routes/forum.ts:61-68 | 404 for an absent post; otherwise the count goes up by exactly one and the new count is returned |
| `ForumRoutes.UpvotesAccumulate` | backend/src/routes/forum.ts:65-67 | n successive upvotes raise the count by exactly n |
| `ForumRoutes.DeletePost` | backend/src/routes/forum.ts:71-84 | 404 for an absent post; 403 for a non-author non-admin with the post kept; the author or an admin removes the post with its comments |
| `ForumRoutes.ForbiddenDeleteKeepsPost` | backend/src/routes/forum.ts:78-80 | after a forbidden delete the post is still retrievable unchanged |
| `ForumRoutes.ForumWritesPreserveValidity` | backend/src/models/ForumPost.ts:28-40 | create, comment, upvote and delete keep every stored post's required fields present |
| `CounsellorRoutes.FromBody` | backend/src/models/Counceller.ts:15-28 | a counsellor is built iff collegeName and name are present; rating defaults to 0; optional fields are copied |
| `CounsellorRoutes.Overwrite` | backend/src/routes/counsellors.ts:32 | each of the nine fields: present in the body replaces the stored one, absent keeps it |
| `CounsellorRoutes.Create` | backend/src/routes/counsellors.ts:8-12 | 201 only for an admin with a valid body; the store gains exactly that counsellor |
| `CounsellorRoutes.List` | backend/src/routes/counsellors.ts:15-21 | the counsellors of the queried college, or all of them without a query |
| `CounsellorRoutes.Get` | backend/src/routes/counsellors.ts:24-28 | 404 for an absent id, otherwise the stored counsellor |
| `CounsellorRoutes.Update` | backend/src/routes/counsellors.ts:31-34 | admin only; an absent id answers 200 with null and changes nothing |
| `CounsellorRoutes.Delete` | backend/src/routes/counsellors.ts:37-40 | admin only; always "Deleted", even for an absent id; the id is gone afterwards |
| `CounsellorRoutes.OnlyAdminsWriteCounsellors` | backend/src/routes/counsellors.ts:8-40 | without admin rights, create, update and delete leave the store unchanged |
| `CounsellorRoutes.CreateThenRead` | backend/src/routes/counsellors.ts:8-28 | a created counsellor is returned by GET /:id and listed under its own college |
| `CounsellorRoutes.UpdateAndDeleteThenGet` | backend/src/routes/counsellors.ts:24-40 | after an update GET /:id returns the overwritten counsellor (404 if the id was absent); after a delete it is 404 |
| `UserRoutes.ProfileOf` | backend/src/routes/users.ts:10-19 | the profile carries the user's id, name, email, age, college, phone, gender and role |
| `UserRoutes.Me` | backend/src/routes/users.ts:8-20 | any authenticated caller, admin or not, gets their own profile |
| `UserRoutes.ListUsers` | backend/src/routes/users.ts:23-26 | admin only; one password-free view per stored user |
| `UserRoutes.GateIgnoresPasswords` | backend/src/middleware/auth.ts:23-25 | authentication does not depend on stored password hashes |
| `UserRoutes.RepliesHidePasswords` | backend/src/routes/users.ts:8-26 | neither reply changes when only password hashes differ |
| `AnalyticsRoutes.Log` | backend/src/routes/analytics.ts:10-15 | admin only; 500 with the store unchanged iff the timestamp or a Number field fails its cast; otherwise exactly one entry is stored, holding every field of the body as cast, with timestamp defaulting to now and keywords to [] |
| `AnalyticsRoutes.TakeSnapshot` | backend/src/routes/analytics.ts:18-29 | admin only; the counts are the current numbers of appointments and posts, and exactly one entry is appended |
| `AnalyticsRoutes.CreatedAppointmentCounts` | backend/src/routes/analytics.ts:18-29 | a successful appointment creation raises the next snapshot's appointment count by exactly one and leaves the post count |
| `AnalyticsRoutes.LoggingLeavesSnapshotCounts` | backend/src/routes/analytics.ts:10-29 | logging an entry changes neither snapshot count, and the entry survives the snapshot iff its body cast |
| `AnalyticsRoutes.NewestEntries` | backend/src/routes/analytics.ts:34 | `sort({ timestamp: -1 }).limit(n)`: min(n, size) distinct stored entries, newest first with null timestamps last, and no omitted entry newer than a listed one |
| `AnalyticsRoutes.Recent` | backend/src/routes/analytics.ts:32-35 | admin only; at most 50 entries, newest first with null timestamps last, and no omitted entry newer than a listed one |
| `Realtime.Connect` | backend/src/index.ts:26 | a new connection is in no room; other connections are unchanged |
| `Realtime.JoinCollege` | backend/src/index.ts:29-31 | joining adds the room to the connection's rooms and keeps the others |
| `Realtime.Disconnect` | backend/src/index.ts:40-42 | the connection and its rooms are gone; other connections are unchanged |
| `Realtime.Members` | backend/src/index.ts:36 | exactly the live connections that joined the room |
| `Realtime.RelayForumPost` | backend/src/index.ts:33-38 | with a collegeName, delivery goes to exactly that room's members; without one, or for a null payload, to every connection; the payload is unchanged |
| `Realtime.NoCrossCollegeDelivery` | backend/src/index.ts:29-37 | a connection that joined only college A, among the rooms joined through `joinCollege`, never receives a message for college B |
| `Realtime.JoinedRoomsAccumulate` | backend/src/index.ts:29-31 | after joining two colleges a connection receives the messages of both |
| `Realtime.DisconnectedReceivesNothing` | backend/src/index.ts:40-42 | a disconnected connection receives nothing |
| `Realtime.FreshConnectionGetsOnlyBroadcasts` | backend/src/index.ts:26-38 | before joining, a new connection receives a relay iff it names no college, and its arrival changes no other delivery |
| `Sidebar.IsActive` | Frontend/src/components/MentalHealthSidebar.tsx:60-63 | "/" is active iff the path is exactly "/"; any other url iff the path starts with it |
| `Sidebar.MenuUrlsPrefixFree` | Frontend/src/components/MentalHealthSidebar.tsx:17-54 | no non-root menu url is a prefix of another |
| `Sidebar.AtMostOneActive` | Frontend/src/components/MentalHealthSidebar.tsx:17-63 | for every path at most one menu item is active |
| `Sidebar.PrefixMatchingExamples` | Frontend/src/components/MentalHealthSidebar.tsx:62 | "/appointments/x" activates Appointments and "/forumx" activates Forum, since there is no segment boundary |
| `Sidebar.Render` | Frontend/src/components/MentalHealthSidebar.tsx:65-158 | one link per menu item in order, highlighted by `isActive`; collapsed iff narrow, header, link texts and footer hidden, and the toggle shows the menu icon |
| `Sidebar.ToggleKeepsHighlight` | Frontend/src/components/MentalHealthSidebar.tsx:88-137 | the collapse button changes what is shown but not which link is highlighted (at most one in either state); a second click restores the view |
| `AppointmentsPage.FilterCounsellors` | Frontend/src/pages/Appointments.tsx:90-93 | a counsellor is kept iff its lower-cased name or specialty (absent = "") contains the lower-cased term |
| `AppointmentsPage.SearchKeepsOrder` | Frontend/src/pages/Appointments.tsx:90-93 | the search distributes over concatenation, so order is kept |
| `AppointmentsPage.EmptySearchKeepsAll` | Frontend/src/pages/Appointments.tsx:90-93 | an empty term keeps every counsellor, in order |
| `AppointmentsPage.FirstLetters` | Frontend/src/pages/Appointments.tsx:208-209 | exactly the first character of each non-empty word, in order |
| `AppointmentsPage.Initials` | Frontend/src/pages/Appointments.tsx:206-211 | at most two characters, none lower-case; "?" for a missing or empty name |
| `AppointmentsPage.InitialsOfOneWord` | Frontend/src/pages/Appointments.tsx:206-211 | a one-word name gives its upper-cased first letter |
| `AppointmentsPage.FirstTwoLetters` | Frontend/src/pages/Appointments.tsx:208-210 | two leading non-empty words contribute the first two letters |
| `AppointmentsPage.InitialsOfSeveralWords` | Frontend/src/pages/Appointments.tsx:206-211 | a name of several words gives the upper-cased first letters of the first two |
| `AppointmentsPage.ConfirmBooking` | Frontend/src/pages/Appointments.tsx:119-143 | nothing is sent without a selected counsellor or a date; the payload's college defaults to "MyCollege" and its notes to "Mode: <mode>" |
| `AppointmentsPage.AfterBooking` | Frontend/src/pages/Appointments.tsx:149 | a booked appointment is appended at the end; the earlier entries are kept |
| `AppointmentsPage.MarkCancelled` | Frontend/src/pages/Appointments.tsx:166 | only entries with the id become cancelled; length and all other entries are unchanged |
| `AppointmentsPage.HandleCancel` | Frontend/src/pages/Appointments.tsx:160-171 | the list changes only after a confirmed and successful cancel |
| `AppointmentsPage.StatusLabel` | Frontend/src/pages/Appointments.tsx:345 | a missing status reads "scheduled" |
| `AppointmentsPage.ShowCancelButton` | Frontend/src/pages/Appointments.tsx:346-352 | Cancel is offered iff the displayed status is not "cancelled" |
| `AppointmentsPage.MarkCancelledHidesButton` | Frontend/src/pages/Appointments.tsx:166 | after a local cancel those entries no longer offer Cancel, others are unaffected, and repeating the cancel changes nothing |
| `AppointmentsPage.BookingPassesCreateCheck` | Frontend/src/pages/Appointments.tsx:134-147 | a payload the page sends never gets the backend's 400; it is created when the caller is signed in and the date casts |
| `AppointmentsPage.ConfirmedCancelHidesButton` | Frontend/src/pages/Appointments.tsx:160-171 | after a confirmed, successful cancel no entry with that id offers Cancel; entries with other ids are unchanged |
| `AppointmentsPage.BookThenCancel` | Frontend/src/pages/Appointments.tsx:149-171 | booking then cancelling adds exactly the new entry, marked cancelled and without a Cancel button, with other entries untouched |
| `ForumNotifications.AdminReplies` | Frontend/src/components/ForumNotifications.tsx:30 | a reply is kept iff its author is exactly "Admin" |
| `ForumNotifications.AdminRepliesKeepOrder` | Frontend/src/components/ForumNotifications.tsx:30 | kept replies stay in their relative order |
| `ForumNotifications.KeepAdminReplies` | Frontend/src/components/ForumNotifications.tsx:28-31 | same number and order of posts, each with only admin replies and all other fields unchanged |
| `ForumNotifications.Render` | Frontend/src/components/ForumNotifications.tsx:44-77 | a fetch error shows the error text; the "N active" badge appears iff there is a post, the empty message iff there is none |
| `ForumNotifications.DecimalRoundTrip` | Frontend/src/components/ForumNotifications.tsx:69 | the rendered count is a non-empty string of digits that reads back as the count |
| `ForumNotifications.BadgeCountsPosts` | Frontend/src/components/ForumNotifications.tsx:67-70 | the badge's number reads back as the number of fetched posts; filtering replies never drops a post |
| `Guards.PrivateRoute` | Frontend/src/pages/PrivateRoute.tsx:3-16 | no stored user redirects to /login before any role check; a missing required role redirects to /dashboard; otherwise the children render |
| `Guards.OnSubmit` | Login.tsx:10-26 | success iff the stored email and password equal the entered ones; an admin goes to /appointments, anyone else to /forum |
| `Guards.NothingStoredNeverLogsIn` | Login.tsx:11-25 | with nothing stored, or an empty object, there is no navigation |
| `Guards.LoginThenRoute` | Frontend/src/pages/PrivateRoute.tsx:11-15 | after a successful login, role-free pages render, and admin pages render iff the login went to /appointments |

## Left out

- Mongoose persistence is replaced by maps keyed by natural-number ids. This leaves out ObjectId casting and its cast errors, `populate` (references stay ids, so the model does not show that the admin appointment list, through `.populate("userId")`, returns each owner's whole user document, password hash included), `createdAt`/`updatedAt` beyond creation order, and the natural order of unsorted `find()` results (listings are maps).
- `Models.ComparePassword`, `Models.HashOnSave`: bcrypt is an opaque function parameter. Salting and the cost factor are not modelled.
- JWT signing and verification are opaque; their laws are assumed (`Jwt.Sound`): a token verifies under its own secret and no other, and contains no space. Expiry is not modelled: `Jwt.Sound` lets a token verify at any time, so it and the lemmas premised on it (`AuthRoutes.RegisterThenAuthenticate`, `AuthRoutes.RegisterThenAuthenticateAsWritten`) describe a token used within its one-hour lifetime. The `JWT_EXPIRES_IN` constant of routes/auth.ts is read but never used, so it is not modelled.
- `isValidEmail` is defined in a file that is not part of this model. It is an opaque predicate parameter.
- Concurrency: requests run one at a time. This leaves out the lost update of two concurrent upvotes and the race between the 409 check and the insert.
- `AuthRoutes.Login`: takes the unique index on email as a precondition, since the store guarantees it.
- `AppointmentRoutes.Patched`: does not model clearing a field by sending `null`, or changing `_id` and timestamps through the body.
- Socket.io transport, CORS, server bootstrap, logging, and each socket's automatic private room. Only the connection, join, relay and disconnect hooks are modelled.
- The error-handler middleware is not part of this model. A failed `save()` is reported as a plain 500.
- Dates are opaque instants: Mongoose's cast of a string is a parameter (`DateCaster`, and `NumberCaster` for Number paths), and so is the page's `toISOString`. A body field is modelled as the text the client sent, so an explicit JSON `null` reads as an absent field. The date formats the cast accepts, and `toLocaleString` formatting, are left out.
- Browser `alert`, `confirm` and `localStorage` are inputs. Page rendering, styling and static content are left out.
- `toLowerCase`/`toUpperCase` cover ASCII letters only; there is no Unicode case mapping. Strings are sequences of Unicode scalar values, while JavaScript's `w[0]` and `slice(0, 2)` index UTF-16 code units, so `AppointmentsPage.Initials` of a name starting with an astral character (an emoji) gives that whole character where the page shows a lone surrogate.
- Number fields (`age`, `rating`, counts) are integers; floating point is not modelled. The user's `age` and the counsellor's `rating` arrive already typed, so a non-numeric value, for which the source's `save()` fails the Number cast and answers 500, cannot be expressed.
- `AnalyticsRoutes.Log`: `collegeId` and `distressedKeywords` arrive already as strings, so the String cast failing on an object value is not modelled.

## Findings

| source | as written | input that shows it | evidently intended | confidence | as-written member | corrected member |
|---|---|---|---|---|---|---|
| backend/src/routes/auth.ts:7 | the signing secret is read when routes/auth.ts loads, before any `dotenv.config()` runs (backend/dist/index.js:12 precedes 13 and 19), falling back to "changeme"; the middleware reads it after `dotenv.config()`, falling back to "" (backend/src/middleware/auth.ts:5,15) | `JWT_SECRET=s3cret` only in `.env`: /register and /login sign with "changeme", `requireAuth` verifies with "s3cret", and every protected route answers 401 "Invalid token" | tokens issued by /register and /login pass `requireAuth`, that is one secret read after `dotenv.config()` | high (not executed) | `AuthRoutes.SecretOnlyInDotenvRejectsTokens` | `AuthRoutes.RegisterThenAuthenticate` |
