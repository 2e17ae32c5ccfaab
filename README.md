# Student progress tracker — offline-first case log, badges and leaderboard

This project models the core of a small student-progress tracker for dental
students. It has two parts.

- **The backend** is one Express service. It keeps all data in one JSON document: cases, users and the badge catalog.
  - It logs clinical cases for students: each case credits the student's quota and streak, and awards badges.
  - It records research entries.
  - It lets a teacher validate cases and research.
  - It serves a dashboard: a student sees their own cases, a leaderboard and the catalog; a teacher sees a roster with progress percentages.
- **The client** is a React single-page app that works offline.
  - A case or research entry logged while offline, or whose post fails, is queued in an IndexedDB store.
  - A sync posts every queued entry in order and then empties both queues.

The model is split into these modules:

- `Wrappers`: `Option`, which stands for JavaScript's `undefined`/`null` fields.
- `JsArray`: `Array.prototype.find`/`findIndex` (the first match) and `filter` (keeps order).
- `Entities`: cases, research entries, users (student or teacher), badges, token claims, and the seed data.
- `DerivedState`: what each write does to the stored data, as pure functions, with the lemmas about badges, credit and deletion, and about the tally that ties each student's completed count to the cases they own.
- `Server`: the class `Store`. Each write handler is a method that updates the `cases` and `users` fields in place.
- `Projections`: the read handlers: the login lookup, `GET /cases`, `GET /dashboard`, the stable leaderboard sort and progress rounding.
- `Client`: the class `App` holds the component state and the two offline queues. The class `Remote` is the network.
- `Scenarios`: the offline write path from end to end.

Request plumbing is modelled as follows:

- A verified bearer token is `Option<Identity>`, where `None` is a missing or invalid token (a 401).
- `Date.now()` and `new Date().toISOString()` are parameters (`stamp`, `createdAt`).
- The network is an oracle (`Remote.throws`) that says, post by post, whether `fetch` rejects.

Behaviour worth noting:

- Reconnecting does not start a sync. The `online` listener only sets the shown status. A sync runs when the token changes while the browser is online, or when the Sync button is pressed.
- A sync clears both queues even when some of its posts failed. The entries whose post failed are dropped.
- A badge of a procedure kind is awarded on the student's TOTAL completed count once a case of that kind is logged. It is not awarded on the number of cases of that kind (`DerivedState.ThresholdCountsAllProcedures`).
- `streaks` is incremented on every case, on top of the stored value. It is not a count of distinct days.
- Progress divides by the quota target with no guard against a zero target. The model requires a positive target.
- Badges are a list and are appended; they are not a set.

## Model

| member | source | states |
|---|---|---|
| JsArray.FindIndex | backend/index.js:119 | the result is the first index whose element satisfies the predicate, and it is `None` exactly when no element does (`findIndex` returning -1, `find` returning undefined) |
| JsArray.Filter | backend/index.js:89 | the result has no more elements than the input, and holds exactly the input elements that satisfy the predicate |
| JsArray.FilterMultiplicity | backend/index.js:89 | `filter` keeps every occurrence of a kept value and drops every occurrence of the others (the multiset of the result, value by value) |
| JsArray.FilterIsSubsequence | backend/index.js:162-167 | the filtered list is a subsequence of the input, so filtering keeps the input's order |
| DerivedState.UserIndex | backend/index.js:156 | `users.find(u => u.id === id)`: the first user with that id, or `None` when there is none |
| DerivedState.EarnedBadges | backend/index.js:162-167 | a badge is earned iff it is in the catalog, not already held, and its streak threshold or its procedure's completed threshold is met |
| DerivedState.CreditEffect | backend/index.js:157-169 | about `Credit`, the student record after one more case: one case adds exactly 1 to `completed` and to the streak (a missing streak counts as 0); target, teacher and avatar are unchanged; the new badge ids are appended after the held ones; a badge is new iff it is not held and the new counts reach its threshold |
| DerivedState.EarnedInCatalogOrder | backend/index.js:162-169 | newly earned badges are appended in catalog order |
| DerivedState.HeldAfterCredit | backend/index.js:162-169 | after a case, a badge id is held iff it was held before or is a catalog badge whose threshold the new counts meet (both directions) |
| DerivedState.CreditKeepsBadgesConsistent | backend/index.js:162-169 | if the held badges are distinct catalog ids before a case, they still are after it: a badge is never awarded twice |
| DerivedState.CreditOwnerKeepsConsistent | backend/index.js:156-170 | about `CreditOwner`, the user list after a case: crediting the first user with the caller's id keeps every student's badge list distinct and within the catalog |
| DerivedState.SeedRun | backend/index.js:156-169 | from the seed student, n ≤ 9 cavity or scaling cases give completed n, streak n, and Streak Master exactly from the seventh case on |
| DerivedState.CavityKingExample | backend/index.js:162-169 | the seed student's tenth cavity case earns exactly "Cavity King", with Streak Master already held, giving badges `["streak_master", "cavity_king"]` |
| DerivedState.ThresholdCountsAllProcedures | backend/index.js:165 | replaying nine scaling cases and then one cavity case from the seed student gives badges `["streak_master", "cavity_king"]`: the procedure threshold counts all cases |
| DerivedState.OwnedCaseIndex | backend/index.js:119 | the first case with the given id whose owner is the caller, or `None` (the 404) when there is none |
| DerivedState.RemoveAt | backend/index.js:126 | `splice(i, 1)`: one element shorter, the prefix kept, the tail shifted by one, and the multiset minus exactly that element |
| DerivedState.Uncredit | backend/index.js:129-132 | the completed count drops by one only when it is positive (never below 0); streak, badges and everything else are unchanged |
| DerivedState.WithResearch | backend/index.js:194-195 | the entry is appended to the user's research list (a missing list counts as empty); nothing else in the user changes |
| DerivedState.ValidateCase | backend/index.js:208-210 | only the first case with the id gets `validated` set; every other case and field is unchanged; no match changes nothing |
| DerivedState.ValidateResearchIn | backend/index.js:214-215 | only the first research entry with the id gets `validated` set; the rest of the list is unchanged |
| DerivedState.ValidateResearch | backend/index.js:211-216 | only the first user holding an entry with the id is changed, and only in that entry's flag; no holder changes nothing |
| DerivedState.OwnedCases | backend/index.js:89 | exactly the stored cases whose owner is the given student, each as often as it is stored, in stored order |
| DerivedState.OwnedCasesCount | backend/index.js:99 | `cases.filter(c => c.studentId === s.id).length` is the number of stored cases whose owner is `s.id` |
| DerivedState.CreateKeepsTally | backend/index.js:151-158 | appending a case and crediting its owner keeps every student's completed count equal to the number of cases they own |
| DerivedState.DeleteKeepsTally | backend/index.js:119-132 | removing a case the caller owns and uncrediting the caller keeps the tally; the owned case makes the count positive, so it drops by exactly one |
| DerivedState.ResearchKeepsTally | backend/index.js:194-195 | appending research changes no id and no role, so the tally holds |
| DerivedState.ValidateKeepsTally | backend/index.js:208-216 | validating a case or a research entry changes no owner, id or role, so the tally holds |
| DerivedState.ReplaySnoc | backend/index.js:115-174 | replaying one more event applies that event to the replayed record |
| DerivedState.Replay | backend/index.js:115-174 | any sequence of creations and deletions leaves a student a student with the same target |
| DerivedState.ReplayLifecycle | backend/index.js:115-174 | over any history: the streak equals its start plus the number of creations; completed lies between start + creations - deletions and start + creations, and never goes negative; held badges are never revoked or reordered |
| Server.Store.Init | backend/index.js:25-37 | the seed store: no cases, the seed users and catalog; it is valid: distinct catalog ids, consistent badges, and completed counts equal to owned cases |
| Server.Store.Load | backend/index.js:55 | a document read back from the data file, exactly as stored |
| Server.Store.CreateCase | backend/index.js:143-174 | 401 without a token. Otherwise the case (`case_` + stamp, owned by the caller, not validated) is appended, the caller (when present) is credited with the new badge names returned, and an unknown caller credits nobody; validity (badges and the completed tally) is preserved |
| Server.Store.DeleteCase | backend/index.js:115-141 | 401 without a token; 404 when the caller owns no case with the id; 500 with nothing written when the caller has no quota (a teacher); otherwise that case is removed and the caller uncredited; validity is preserved |
| Server.Store.CreateResearch | backend/index.js:183-199 | 401 without a token; otherwise the entry (`research_` + stamp, not validated) is appended to the caller's list and the cases are untouched |
| Server.Store.Validate | backend/index.js:202-221 | 401 without a token; 403 when the token's role is not teacher, with nothing changed; otherwise the first matching case or research entry is marked validated, and an unknown kind or id changes nothing |
| Projections.Login | backend/index.js:46-71 | 400 iff the email is missing or empty; 401 iff no user has it; otherwise the user at the first position with that email, with the token claims id, role and name |
| Projections.ListCases | backend/index.js:107-113 | 401 iff there is no token; a student's token sees exactly their own cases, each as often as stored, in stored order; a teacher's token sees all of them unchanged |
| Projections.SortByCompleted | backend/index.js:92 | the sort returns a permutation of its input, ordered by non-increasing completed count |
| Projections.SortKeepsTies | backend/index.js:92 | the sort is stable: entries with equal counts keep their input order |
| Projections.LeaderRowsCount | backend/index.js:90-91 | `LeaderRows`, the unsorted rows, has exactly one (name, completed, streaks) row per student |
| Projections.LeaderboardCorrect | backend/index.js:90-92 | about `Leaderboard`, `LeaderRows` sorted by `SortByCompleted`: one entry per student; a permutation of the students' (name, completed, streaks) rows; non-increasing; ties in user-list order |
| Projections.StableSortUnique | backend/index.js:92 | two non-increasing orderings that agree on every tie group are equal, so a stable sort has exactly one possible result |
| Projections.LeaderboardIsTheStableSort | backend/index.js:90-92 | any stable descending ordering of the student rows is the leaderboard |
| Projections.LeaderboardExample | backend/index.js:90-92 | students A (5), B (8) and C (5), with a teacher between them, rank B, A, C |
| Projections.Progress | backend/index.js:100 | `Math.round(completed / target * 100)` in exact arithmetic: the integer nearest to 100·completed/target, with halves rounded up |
| Projections.Supervised | backend/index.js:96 | exactly the users whose id is in the teacher's `students` list, each as often as stored, in user-list order; none when the list is missing |
| Projections.Roster | backend/index.js:97-101 | one row per supervised student, in order, with the student record, the number of cases they own and their rounded progress |
| Projections.GetDashboard | backend/index.js:84-104 | for the first user with the caller's id, by their stored role. A student gets exactly their own cases (each as often as stored, in order), the leaderboard and the catalog. A teacher gets one row per supervised user, in order, with the number of cases they own and their progress |
| Client.Remote.Send | frontend/src/api.js:10-14 | every post is recorded in order; it succeeds iff the oracle does not make it throw |
| Client.App.constructor | frontend/src/App.jsx:6-17 | the initial state: signed out, the dashboard tab, the status from `navigator.onLine`, blank forms, and the queues as storage holds them |
| Client.App.EditCaseForm | frontend/src/App.jsx:281-288 | the case form becomes the edited form; nothing else changes |
| Client.App.EditResearchForm | frontend/src/App.jsx:318-330 | the research form becomes the edited form; nothing else changes |
| Client.App.ConnectivityChanged | frontend/src/App.jsx:20-21 | the online flag and the shown status follow the event; nothing is posted and the queues are unchanged |
| Client.App.AddCase | frontend/src/App.jsx:56-74 | offline: queued with `synced` false, the form reset, "will sync" shown, nothing posted. Online: posted once; on success the form is reset and the dashboard refreshed; on failure the payload (`synced` true) is queued and the form kept |
| Client.App.AddResearch | frontend/src/App.jsx:76-92 | the same three outcomes as a case, against the research queue, and with the plain "Saved offline" message in both offline cases |
| Client.App.SyncOffline | frontend/src/App.jsx:94-112 | posts every queued case and then every queued research entry, in queue order, whatever fails. If anything was queued, both queues end empty, with one dashboard refresh and one confirmation; otherwise nothing else changes |
| Client.App.TokenChanged | frontend/src/App.jsx:19-24 | the empty token does nothing; a token fetches the dashboard, and when the browser is also online it runs the sync |
| Client.App.SignedIn | frontend/src/App.jsx:39-41 | the user and token are stored. A new non-empty token while online posts every queued entry in order and empties the queues; otherwise nothing is posted and the queues are kept |
| Client.App.Logout | frontend/src/App.jsx:121-126 | user, token and dashboard are cleared and the dashboard tab shown; the offline queues are kept |
| Scenarios.OfflineCasesSyncInOrder | frontend/src/App.jsx:56-112 | a student signs in online and goes offline; two cases logged then are posted in logging order, with `synced` false, by the Sync button after reconnecting, and the queue ends empty even if the posts fail |
| Scenarios.ServeTwoCases | backend/index.js:143-174 | two case posts by a student are stored in order, unvalidated and owned by the student, and add exactly 2 to the completed count and to the streak |
| Scenarios.OfflineCasesCredited | frontend/src/App.jsx:94-112 | the posts that sync actually sends, fed in order to the case handler, store the two offline cases in logging order and add exactly 2 to the student's completed count and streak |

## Left out

- JSON file persistence, Express routing, CORS, the health-check route and console logging. The store is in memory, and each handler runs atomically: it reads the document, changes it and writes it back, with no interleaving.
- Concurrency is not modelled: overlapping requests, overlapping syncs, and the listeners added again on each token change (they all set the same status).
- JWT signing, expiry and verification. A token is its verified claims or nothing.
- Server.Store.CreateCase: requires the caller, when present, to be a student. A teacher posting a case makes the handler throw before writing.
- Server.Store.CreateResearch: requires the caller to exist. An unknown caller makes the handler throw.
- Projections.GetDashboard: takes the verified caller id. It requires that the caller exists and that a teacher's roster lists only students, because the handler throws otherwise. It also requires, by choice, a positive target for each of them: with a zero target the source sends `null` progress (`Infinity` or `NaN` serialised), which is not modelled. The 401 for a missing token is the same check as in ListCases.
- Projections.Progress: computes in exact rational arithmetic. It does not model the floating-point error of `completed / target * 100` near a half, and it requires `target > 0` (a zero target gives `Infinity` or `NaN`).
- Request bodies are the form fields plus `synced`. Extra body fields are not modelled. A body field named `id` would replace the server's research id, and one named `studentId`, `createdAt` or `validated` would be overwritten on a case.
- `GET /research` (a read of the caller's research list) is not modelled.
- Integers are unbounded. The counts never come near the limit of a JavaScript number.
- Ids are `case_`/`research_` plus the millisecond clock. Two writes in the same millisecond get the same id. The model follows `find` and `findIndex` and acts on the first one.
- Client rendering, tab switching other than logout, the login form and the login request itself are left out. `SignedIn` is the successful outcome.
- The new-badge alert after an online post, and the client's `validateItem` and `deleteCase` calls, are left out. They only forward to handlers modelled above.
- A dashboard fetch is counted, but its reply is not stored.
- The service worker and the IndexedDB connection plumbing are left out. A store is a sequence in key (insertion) order.
- Client.Remote.Send: whether a post that throws still reached the service is not modelled. `Scenarios.OfflineCasesCredited` connects the client's posts to the case handler explicitly, on a network where every post succeeds.
- Client.App.EditCaseForm and Client.App.EditResearchForm: each `onChange` handler replaces one field of the form; the model takes the whole edited form.
- DerivedState.ReplayLifecycle: bounds the completed count for any history. The exact count, completed = cases owned, is stated for the stored document instead, as part of `Server.Store.Valid`.
