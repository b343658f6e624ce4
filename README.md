# Student portal: application state and handler rules

This is a Dafny model of the rules at the core of a browser-resident student information system (`script.js`). The system keeps three pieces of in-memory state:

- the list of user accounts;
- the list of student records, each with its embedded grade and attendance lists;
- the current session.

Its form and button handlers change that state. Each step checks a precondition, changes one list in place, and leaves everything else alone. The model has these parts:

- `sequences.dfy` (module `Sequences`): removal at a position, including the full semantics of `splice(start, 1)`. A negative start counts from the end, and a start past the end removes nothing.
- `records.dfy` (module `Records`): the records (`User`, `Student`, `Grade`, `Attendance`) and the pure lookups the handlers use. These are `find` for credentials and for a student id, `some` for a taken username or id, and `filter` for deleting a student. The module also has the lemmas showing that usernames and student ids stay pairwise distinct.
- `grading.dfy` (module `Grading`): the average-grade classifier. The spec function `AverageOf` is defined over the recursive tally `Sum`. The loop method `CalculateAverageGrade` runs the source's accumulator loop and is proved equal to it. The letter anchors are integer tenths (A = 959, B = 859, C = 759, D = 659, F = 559). A mean passes exactly when `total >= 745 * count`.
- `access.dfy` (module `Access`): the role check in the tab click handler, the two click listeners each tab button carries, the navigation bar the main view hides from a student, and the per-tab visibility pass.
- `portal.dfy` (module `Portal`): the class `Portal` with the fields `users`, `students` and `currentUser`. It has one method per handler, and each method's `modifies` clause names only the fields it may change. The invariant `Valid()` says usernames and student ids are distinct. Every handler preserves it but none requires it, because the stored data that gets loaded is not checked. The module also has three client methods for the round trips: signup then login, enrolling twice, and deleting a grade twice at the same position.

Inputs the source reads from the document or the clock are parameters: form fields, `Date.now()` ids, ISO timestamps, and the optional profile picture as a data-URI string.

Notes on how the page behaves, which the model follows:
- The alert in the tab click handler says "Students can only access Enrollment" (script.js:603). The handler's role check (script.js:602-605) turns a student away only from the four tabs `grades`, `attendance`, `reports` and `manageUsers`, and only by showing an alert and returning early. Every tab button also carries a second click listener, installed by `initializeMainTabs` (script.js:141-154, called at 119). It has no role check and opens the tab every time. `Access.MayOpen` models the early return of the first listener. `Access.ClickAsWritten` models a click with both listeners, and the "## Findings" section records the difference.
- A student never sees the tab buttons: `showMainApp` hides the whole navigation bar for the `student` role (script.js:480-486). `Access.NavShown` models this. `updateVisibilityByRole` (script.js:670-695) would show a student the enrollment button only, but nothing in script.js calls it. `Access.IsVisible` models that unused function.
- The role is free text from the role selector, compared with `'student'`, and the model treats it the same way.
- `deleteUser` removes with `splice`, and the model gives it the complete `splice` behaviour. That includes negative and too-large positions, which the user list never produces.

## Model

| member | source | states |
|---|---|---|
| `Sequences.RemoveAt` | script.js:571 | one element fewer; the elements before the position stay in place; the elements after it shift down by one; the multiset loses exactly the removed element |
| `Sequences.SpliceOne` | script.js:751 | `splice(start, 1)` removes exactly the element at an in-range position, or the one indexed from the end for a negative start, or the first element for a negative start beyond the length; it leaves the list alone for a start at or past the end; the length drops by one exactly when something is removed |
| `Records.HasUsername` | script.js:195 | `some` over the usernames: true exactly when an account has the username; when none has it, no login with that username succeeds whatever the password |
| `Records.FindCredentials` | script.js:169 | the login lookup gives the FIRST account matching both username and password, and gives none exactly when no account matches |
| `Records.FindCredentialsUnique` | script.js:169 | when usernames are distinct, the account a login finds is the only one with those credentials |
| `Records.FindsNewAccount` | script.js:195-209 | after an account with a new username is appended, a login with its credentials finds that new account, at the end of the list |
| `Records.AppendNewUsername` | script.js:195-209 | appending an account whose username no account has keeps usernames pairwise distinct |
| `Records.HasStudentId` | script.js:227 | the `some` of the enrollment check agrees with the `find` of the grade and attendance handlers: an id is taken exactly when the lookup finds a record for it |
| `Records.FindStudent` | script.js:274 | the id lookup gives the first record with that id, and gives none exactly when no record has it |
| `Records.AppendNewStudentId` | script.js:227-248 | appending a record whose id no record has keeps student ids pairwise distinct |
| `Records.WithoutStudent` | script.js:562 | the filter keeps exactly the records whose id differs, never grows the list, leaves no record with the id, and is the identity when no record has the id |
| `Records.WithoutStudentAppend` | script.js:562 | the filter distributes over concatenation, so the surviving records keep their original order |
| `Records.WithoutStudentIdempotent` | script.js:561-562 | deleting a student id twice is the same as deleting it once |
| `Records.WithoutStudentKeepsDistinct` | script.js:562 | deleting a student keeps the ids of the others pairwise distinct |
| `Records.UpdateKeepsDistinct` | script.js:274-285 | replacing a record by one with the same id, as adding or removing a grade or attendance entry does, keeps ids distinct |
| `Records.SpliceKeepsDistinct` | script.js:751 | removing an account keeps usernames pairwise distinct |
| `Grading.Points` | script.js:14-18 | a recognised letter is a one-character string, and its points lie between the lowest anchor (55.9) and the highest (95.9) |
| `Grading.PointsTable` | script.js:14-18 | exactly the one-letter strings A, B, C, D and F, in either case, are recognised, each at its anchor in tenths |
| `Grading.Sum` | script.js:15-23 | the tally counts at most one per grade; the total lies between 559 and 959 times the count; the count is zero exactly when no letter is recognised |
| `Grading.AverageOf` | script.js:12-27 | "No grades" exactly when no letter is recognised (in particular for the empty list); otherwise the count is at least one, the mean lies between 55.9 and 95.9, and the verdict is Pass exactly when the mean is at least 74.5 |
| `Grading.CalculateAverageGrade` | script.js:12-28 | the early return for an empty list, followed by the accumulator loop, computes exactly `AverageOf` |
| `Grading.SumSkipsUnrecognised` | script.js:17-23 | unrecognised letters add to neither sum nor count: the tally of the recognised grades alone equals the tally of all, and the count equals their number |
| `Grading.SumAppend` | script.js:17-23 | the tally of two lists joined is the sum of their tallies |
| `Grading.SumIgnoresCase` | script.js:18 | lists whose letters agree once upper-cased have the same tally |
| `Grading.AverageIgnoresCase` | script.js:18 | lists whose letters agree once upper-cased have the same average |
| `Grading.AverageOfAB` | script.js:12-27 | A and B average 90.9 and pass |
| `Grading.AverageOfFF` | script.js:12-27 | F and f average 55.9 and fail |
| `Grading.AverageOfAX` | script.js:12-27 | A and an unrecognised X average 95.9: the X counts in neither sum nor count |
| `Access.MayOpen` | script.js:602-605 | the role check never turns away a role other than `student` and never turns anyone away from enrollment; it turns a student away from each of grades, attendance, reports and manageUsers |
| `Access.IsVisible` | script.js:670-686 | in the unused visibility pass, every button shown to a role is one the role check lets it open, and every role other than `student` is shown every button |
| `Access.VisibilityAgreesWithGate` | script.js:670-686 | on enrollment and the four restricted tabs, the visibility pass and the role check agree |
| `Access.NavShown` | script.js:480-486 | the navigation bar is shown exactly to the roles the role check never turns away, so to every role but `student` |
| `Access.ClickAsWritten` | script.js:597-605 | with both click listeners running, `GatedListener` (the role check, script.js:597-622) first and then `MainTabsListener` (the main-tab setup, script.js:146-152, no role check), the tab always opens, and the alert appears exactly when the role check refuses |
| `Access.ClickIntended` | script.js:601-605 | with the role check alone, the tab opens exactly when the check allows it, and the alert appears exactly when it does not open |
| `Access.RestrictedTabStillOpens` | script.js:597-605 | a student who clicks grades gets the alert and the tab opens anyway; with the role check alone it would not open |
| `Portal.Portal.constructor` | script.js:7-9 | the portal starts with no users, no students and no session, and satisfies the invariant |
| `Portal.Portal.Login` | script.js:164-179 | succeeds exactly when some account matches both username and password; the session then becomes the first such account; on failure it reports invalid credentials and keeps the session; the lists never change; with distinct usernames the session is the only matching account |
| `Portal.Portal.Logout` | script.js:489-491 | the session is cleared, and nothing else changes |
| `Portal.Portal.Signup` | script.js:182-215 | a password mismatch is checked first, then a taken username, and either failure leaves the accounts unchanged; otherwise exactly the new account is appended at the end; usernames stay distinct |
| `Portal.Portal.Enroll` | script.js:218-254 | a taken id is refused and leaves the records unchanged; otherwise exactly one record is appended at the end with the given fields and empty grade and attendance lists; ids stay distinct |
| `Portal.Portal.AddGrade` | script.js:267-290 | an unknown id reports that the student was not found and changes nothing; otherwise only the first matching record changes, and its grade list grows by exactly the new entry at the end |
| `Portal.Portal.AddAttendance` | script.js:293-316 | the same as adding a grade, for the attendance list |
| `Portal.Portal.DeleteStudent` | script.js:561-566 | the new record list is the filter of the old one: no record with the id remains and every other record is kept |
| `Portal.Portal.DeleteGrade` | script.js:568-579 | removes something exactly when the student exists and the position is in range, and then removes exactly that entry of the first matching record; otherwise nothing changes |
| `Portal.Portal.DeleteAttendance` | script.js:581-592 | the same as deleting a grade, for the attendance list |
| `Portal.Portal.DeleteUser` | script.js:749-766 | the accounts become `splice(index, 1)` of the old list; the session is cleared exactly when one existed and its username no longer appears among the accounts; usernames stay distinct |
| `Portal.SignupThenLogin` | script.js:164-215 | a successful signup followed by a login with the same credentials opens a session for exactly the account just created, id included |
| `Portal.EnrollTwice` | script.js:227-248 | enrolling a new id and then the same id again: the second call is refused with the duplicate-id outcome, the records end with exactly the one new record appended, and the accounts and the session are unchanged |
| `Portal.DeleteGradeTwice` | script.js:568-572 | deleting a grade twice at the same position removes that entry and the one that followed it, because deletion is by position |

## Left out

- Persistence: the IndexedDB store (`initDB`, `loadData`, `saveUsers`, `saveStudents`, script.js:38-113) is left out. It runs asynchronously against a browser store. The full rewrite after each change is treated as an external call that always completes. In the source, a store that cannot be opened makes the handler throw at its `await`. A write transaction that never completes leaves the handler waiting for good (script.js:99-101). In both cases the in-memory change made before the `await` stays; only the rest of the handler does not run, such as the success notification.
- The session slot in `localStorage` and `checkLoginStatus` (script.js:466-472) are left out. They are a JSON round trip through browser storage.
- `readFileAsDataURL` is left out because it calls the browser's `FileReader`. The profile picture is an optional string parameter of `Enroll`.
- Portal.Portal.Enroll: each call is one step, from the id check to the push. In the source, the handler waits for the file read (script.js:234) between the id check (227) and the push (248). A second submission with the same id during that wait passes the same check, so two records with one id can be pushed; the model's promise that ids stay distinct does not cover that interleaving. A failed file read (script.js:260-261) rejects the promise and ends the handler with no record added; the model has no such outcome.
- Portal.Portal.DeleteUser: the removal and the session check are one step. In the source, the check (script.js:756) runs only after `await saveUsers()` (753). If the store cannot be opened, the handler throws first; if the write never completes, it never resumes. Either way the user is removed from memory but the session is not cleared. Other handlers may also run during that wait.
- All DOM work is left out: tab switching, `showMainApp`, notifications, `alert`/`confirm`, `loadStudentsList`, `renderUsers`, `renderAttendance` with its fixed demo table, and the HTML report strings. The reports only read the state.
- The disabled delete button for the user's own account (script.js:728-733) is a presentation rule. `DeleteUser` is modelled for every position.
- In the tab handler, clicking while logged out reads `.role` of `null` and throws. The model's gate takes the role of a logged-in user. Logged-out users never see the tabs.
- `Date.now()` ids and ISO timestamps are parameters, so the model does not capture that ids are distinct in time.
- Grading.CalculateAverageGrade: returns the mean as an exact total and count in tenths. It does not return the string the source builds with floating-point division and `toFixed(1)`. Pass is decided by exact comparison with 74.5. So the rounding of the floating-point mean near the pass mark is not modelled.
- Grading.PointsTable: upper-casing is modelled for the ASCII letters only. In full Unicode no other character upper-cases to A, B, C, D or F, so the set of recognised letters is the same.
- JavaScript aliasing (`currentUser` and the found student are the same objects that sit in the lists) becomes value semantics. Nothing in the core mutates a user, and a student update writes the changed record back at its position, so nothing observable changes.
- A non-integer grade or attendance position is not modelled; positions are integers. In the source such a position reads `undefined` and the call does nothing.

## Findings

| source | as written | input that shows it | evidently intended | confidence | as-written member | corrected member |
|---|---|---|---|---|---|---|
| script.js:597-605 | the role check alerts and returns from its own listener only; the unconditional listener from `initializeMainTabs` (script.js:141-154) still opens the tab | role `student` clicks the `grades` tab button: the alert appears and `#grades` becomes the active tab | a tab the role check refuses stays closed, as the comment at script.js:601 and the alert at 603 say | medium, not executed (it also needs a student to reach a tab button, which the hidden navigation bar normally prevents) | `Access.ClickAsWritten` | `Access.ClickIntended` |
