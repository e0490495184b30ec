# Government appointments portal — verified model

This project models the rule-bearing core of a government-services appointment
portal: a NestJS backend with a React client. Citizens browse a catalogue of
services, ask a keyword chatbot for help, sign up, and book appointment slots.
Officers list and confirm the bookings of their own department. A timer job
sends reminders for confirmed appointments that are one to two days ahead.

The model is written in Dafny, one module per source file:

- `Appointments` (appointments.dfy) is the slot and booking engine.
  - The working-day grid runs 09:00–17:00 in steps of the service's duration.
  - Weekends have no slots.
  - Only Confirmed bookings remove a slot.
  - The table is a class, `AppointmentBook`, whose methods book and update rows in place.
  - It also holds the citizen and officer listings.
- `Scheduler` (scheduler.dfy) is one run of the reminder job.
  - It selects Confirmed appointments in the window [now + 24 h, now + 48 h].
  - A loop then issues reminder calls in order; a call that throws ends the loop.
  - The run reads the table and writes nothing, so a second run over the same table reminds the same appointments again.
- `AiChat` (ai_chat.dfy) is the keyword responder.
  - The first rule in creation order with a matching keyword answers the query.
  - Matching is a case-insensitive substring test.
  - There are fixed fallback and apology texts.
  - A navigation suggestion is resolved against the service catalogue.
- `RolesGuard` (roles_guard.dfy) is the backend role check.
- `ProtectedRoute` (protected_route.dfy) is the client's route decision.
- `Documents` (documents.dfy) and `Users` (users.dfy) are tables with create, find and update rules.
- `Auth` (auth.dfy) holds credential validation, sign-up and the login token.
  - bcrypt's `hash` and `compare` and the JWT signer are function parameters.
- `SignupForm` (signup_form.dfy) is the client's sign-up validator and its error clearing.
  - The two regular expressions are stated exactly.
- `ServicesPage` (services_page.dfy) is the catalogue screen's filter, category toggle and category list.
- Shared pieces:
  - `Common` holds the enumerations, `Option`, `Result` and the service record.
  - `Seqs` holds filter, stable sort and subsequence.
  - `Text` holds ASCII lower-casing and substring search.
  - `Clock` holds minutes, days, weekdays and "HH:MM".

## How things are represented

- **Time.** An instant is a whole number of minutes since 1970-01-01 00:00 local time.
  - Day = t div 1440 and minute of the day = t mod 1440.
  - Weekday = (day + 4) mod 7, which matches `Date.getDay()`: 0 is Sunday.
- **Slots.** A slot is its "HH:MM" string.
  - The model compares slots as strings, as the code does.
  - An injectivity lemma turns string comparisons into comparisons of minutes.
- **Tables.** A table is a sequence of rows in insertion order.
  - Generated primary keys are serial numbers handed out by the table.
  - Ids of services and departments are strings.
  - The service catalogue is a map from id to service.
- **Failures.** Exceptions become `Result` values: NotFound, BadRequest, Unauthorized or Conflict.
  - A call that can throw is modelled by a boolean parameter or a set of failing ids.
  - Loading the chatbot rules, looking up a service, the reminder query and each reminder call are such calls.
- **Optional updates.** A `!== undefined` update is an `Option<Option<string>>`.
  - `None` means the field was not supplied.
  - `Some(None)` means an explicit null.

## Behaviour of the code the model keeps

- Only Confirmed appointments block a slot (backend/src/appointments/appointments.service.ts:70).
  - A Pending booking does not stop a second booking of the same slot (`NonConfirmedRowKeepsSlots`).
- `createAppointment` accepts any instant whose "HH:MM" is offered that day, past dates included.
- `updateAppointmentStatus` writes any status over any status and checks no department.
- The slot grid steps by the service's duration from 09:00.
  - For a 45-minute service the last slot is 15:45, and 16:15 is not offered (`FortyFiveMinuteGrid`).
- The citizen listing filters by at most one status.
- `findAppointmentsByOfficer` reads a `department_id` that the users entity (backend/src/users/user.entity.ts) does not declare.
  - As written the listing can never succeed. The query at backend/src/appointments/appointments.service.ts:140 selects a column the entity lacks, and the ORM rejects that before the test at :142 runs. Even without that, `!officer.department_id` would always hold.
  - The model gives a user an optional department, as the listing and `signup` assume, so that the listing can succeed.
- `findAppointmentsByOfficer` turns away Admins, although the controller admits them.
- The roles guard allows any request when no roles are required.
  - It denies everyone when the required list is empty (`EmptyRequiredDeniesAll`).
- The chatbot rule with the empty keyword matches every query.

## Model

| member | source | states |
|---|---|---|
| Clock.Hhmm | backend/src/appointments/appointments.service.ts:59 | a slot label is five characters with ':' in the middle |
| Clock.HhmmInjective | backend/src/appointments/appointments.service.ts:75-80 | two minutes of the day with the same "HH:MM" are the same minute, so the string filter removes exactly the taken minutes |
| Clock.Weekday | backend/src/appointments/appointments.service.ts:43 | the weekday is in 0..6 |
| Text.Lower | backend/src/ai-chat/ai-chat.service.ts:19 | the result has the same length and no upper-case ASCII letter; a character changes exactly when it is an upper-case letter, and then it becomes the letter 32 code points on |
| Text.LowerIdempotent | backend/src/ai-chat/ai-chat.service.ts:31 | lower-casing twice is lower-casing once |
| Appointments.SlotLength | backend/src/appointments/appointments.service.ts:40 | the step is positive, and it is the service's own duration unless that is zero, when it is 30 |
| Appointments.StepFits | backend/src/appointments/appointments.service.ts:56-58 | the k-th step still ends by 17:00 exactly when k is inside the grid |
| Appointments.GridShape | backend/src/appointments/appointments.service.ts:38-62 | every grid start is at or after 09:00 and its slot ends by 17:00; the starts ascend; no start 09:00 + k·d whose slot fits is missing |
| Appointments.ThirtyMinuteGrid | backend/src/appointments/appointments.service.ts:38-62 | the default grid has 16 slots, from "09:00" to "16:30" |
| Appointments.FortyFiveMinuteGrid | backend/src/appointments/appointments.service.ts:56-61 | a 45-minute service has 10 slots, the last "15:45"; 16:15 is not a start |
| Appointments.Render | backend/src/appointments/appointments.service.ts:59 | one "HH:MM" label per start, in order, and different minutes never share a label, so a grid of distinct starts has distinct labels |
| Appointments.GridSlots | backend/src/appointments/appointments.service.ts:49-62 | there is one label per grid start |
| Appointments.BookedSlotsIff | backend/src/appointments/appointments.service.ts:65-77 | a minute's label is among the booked labels exactly when a Confirmed appointment of that service starts at that minute of that day |
| Appointments.RenderFilter | backend/src/appointments/appointments.service.ts:75-80 | removing booked labels from the rendered grid is rendering the grid without the taken minutes |
| Appointments.AvailableSlotsAreFreeStarts | backend/src/appointments/appointments.service.ts:65-82 | on a weekday the result is the grid minus the taken starts: strictly ascending and a subsequence of the grid |
| Appointments.FilterKeepsAscending | backend/src/appointments/appointments.service.ts:80 | filtering a strictly ascending list keeps it strictly ascending |
| Appointments.SlotOfferedIff | backend/src/appointments/appointments.service.ts:24-83 | a minute is offered exactly when the day is a weekday, the minute is a grid start and no Confirmed appointment of the service takes it |
| Appointments.WeekendHasNoSlots | backend/src/appointments/appointments.service.ts:43-46 | Saturday and Sunday give the empty list, whatever the bookings |
| Appointments.UnknownServiceNotFound | backend/src/appointments/appointments.service.ts:24-28 | an unknown service is NotFound, whatever the bookings |
| Appointments.NonConfirmedRowKeepsSlots | backend/src/appointments/appointments.service.ts:70 | adding a row that is not Confirmed changes no day's slots |
| Appointments.PendingRowKeepsAllDays | backend/src/appointments/appointments.service.ts:70 | adding a row that is not Confirmed leaves the slots of every day unchanged |
| Appointments.ConfirmedRowBlocksItsSlot | backend/src/appointments/appointments.service.ts:65-80 | a Confirmed appointment's own slot is not offered |
| Appointments.GetAvailableSlots | backend/src/appointments/appointments.service.ts:24-83 | the while loop over the grid followed by the booking filter returns exactly the reference slot list |
| Appointments.GenerateSlots | backend/src/appointments/appointments.service.ts:48-62 | the while loop emits exactly the labels of the grid, in order: every 09:00 + k·d whose slot ends by 17:00 |
| Appointments.FindById | backend/src/appointments/appointments.service.ts:189-191 | a row with that id if there is one, None exactly when no row has it |
| Appointments.IndexOfId | backend/src/appointments/appointments.service.ts:170 | the position of a row with that id, None exactly when there is none |
| Appointments.FindAppointmentsByCitizenId | backend/src/appointments/appointments.service.ts:124-134 | exactly that citizen's rows, of the status when one is given, ascending by date-time, each row as often as in the table |
| Appointments.OfficerDepartment | backend/src/appointments/appointments.service.ts:140-144 | a department exactly when the user exists, is a GovernmentOfficer and has a non-empty department |
| Appointments.FindAppointmentsByOfficer | backend/src/appointments/appointments.service.ts:136-166 | Unauthorized exactly when the officer gate fails; otherwise exactly the department's rows on the given day and of the given status, ascending by date-time, each row as often as in the table |
| Appointments.AdminCannotListDepartment | backend/src/appointments/appointments.service.ts:142-144 | an Admin is turned away |
| Appointments.AppointmentBook.CreateAppointment | backend/src/appointments/appointments.service.ts:86-122 | NotFound for an unknown service; BadRequest exactly when the requested "HH:MM" is not offered that day; otherwise one appended Pending row with the service's department, and no day's slots change |
| Appointments.AppointmentBook.UpdateAppointmentStatus | backend/src/appointments/appointments.service.ts:169-187 | NotFound exactly for an unknown id, with nothing changed; Ok exactly for a known id, and then only that row changes: any new status, and notes only when supplied |
| Scheduler.Selected | backend/src/scheduler/scheduler.service.ts:38-44 | exactly the Confirmed rows with date-time in [now + 1440, now + 2880], in table order |
| Scheduler.FirstFailure | backend/src/scheduler/scheduler.service.ts:49-55 | the position of the first reminder call that throws, with none before it |
| Scheduler.RemindInOrder | backend/src/scheduler/scheduler.service.ts:49-55 | the loop reminds the future appointments in order, up to and including the first failing call, and reports whether one failed |
| Scheduler.HandleAppointmentReminders | backend/src/scheduler/scheduler.service.ts:22-63 | one run equals the reference run: its reminders and its log, with failures caught |
| Scheduler.RemindersAreConfirmedInWindow | backend/src/scheduler/scheduler.service.ts:26-44 | every reminder goes to a Confirmed table row inside the window; a failed query reminds no one |
| Scheduler.FutureCheckRedundant | backend/src/scheduler/scheduler.service.ts:50-51 | the future check never skips a selected appointment |
| Scheduler.AllSelectedRemindedOnce | backend/src/scheduler/scheduler.service.ts:47-58 | with no failing call each selected appointment is reminded exactly once, in query order; with none selected no call is made |
| Scheduler.FailureSkipsTheRest | backend/src/scheduler/scheduler.service.ts:49-62 | a failing call ends the run: only the appointments up to it are reminded, and the error is logged |
| Scheduler.AsWrittenNeverReminds | backend/src/scheduler/scheduler.service.ts:41 | as written, an appointment 36 hours ahead gets no reminder, though the intended run reminds it |
| AiChat.GetResponse | backend/src/ai-chat/ai-chat.service.ts:18-91 | the loop with break and the response fix-up equal the reference answer |
| AiChat.FindFirstMatch | backend/src/ai-chat/ai-chat.service.ts:25-35 | the loop with `break` stops at the first rule whose keywords match, or at the end when none does |
| AiChat.BuildResponse | backend/src/ai-chat/ai-chat.service.ts:37-72 | the response from a matched rule is the reference answer, with the action fields cleared when the service cannot be resolved |
| AiChat.FirstMatchAnswers | backend/src/ai-chat/ai-chat.service.ts:19-35 | the first matching rule in creation order gives the answer |
| AiChat.NoMatchFallsBack | backend/src/ai-chat/ai-chat.service.ts:77-82 | with no match the answer is the fallback text with no action fields |
| AiChat.EmptyKeywordsNeverMatch | backend/src/ai-chat/ai-chat.service.ts:31 | a rule with no keyword list, or an empty one, never matches |
| AiChat.EmptyKeywordMatchesEverything | backend/src/ai-chat/ai-chat.service.ts:31 | a rule holding the empty keyword matches every query |
| AiChat.CaseInsensitive | backend/src/ai-chat/ai-chat.service.ts:19 | queries that are equal up to case get the same answer |
| AiChat.AnswerShape | backend/src/ai-chat/ai-chat.service.ts:37-72 | the text is always kept; other actions are copied; a navigation gains all six detail fields of the service exactly when the service exists and the lookup succeeds, and otherwise loses its type, value and details |
| AiChat.LoadFailureApologises | backend/src/ai-chat/ai-chat.service.ts:84-90 | a failure loading the rules gives the apology text |
| RolesGuard.AnyRoleIs | backend/src/auth/roles.guard.ts:27 | true exactly when the role is in the required list |
| RolesGuard.CanActivate | backend/src/auth/roles.guard.ts:11-28 | no metadata allows; no user or no role denies; otherwise allowed exactly when the role is required |
| RolesGuard.Monotonic | backend/src/auth/roles.guard.ts:27 | adding a required role never turns an allow into a deny |
| RolesGuard.EmptyRequiredDeniesAll | backend/src/auth/roles.guard.ts:27 | an empty required list denies everyone |
| ProtectedRoute.LoadingWins | frontend/src/components/ProtectedRoute.tsx:15-17 | while loading the loading view is shown, whatever the user and roles |
| ProtectedRoute.NoUserGoesToLogin | frontend/src/components/ProtectedRoute.tsx:20-22 | with no user the route redirects to /login |
| ProtectedRoute.WrongRoleGoesToDashboard | frontend/src/components/ProtectedRoute.tsx:25-29 | a role that is not allowed redirects a citizen to the citizen dashboard and any other role to the officer dashboard, never to /login |
| ProtectedRoute.RendersIff | frontend/src/components/ProtectedRoute.tsx:13-32 | the children are rendered exactly when not loading, a user exists and the role is allowed |
| ProtectedRoute.AgreesWithRolesGuard | frontend/src/components/ProtectedRoute.tsx:25-32 | for a signed-in user the route renders exactly when the backend guard would allow that role list |
| Documents.IndexOfId | backend/src/documents/documents.service.ts:41 | the position of a row with that id, None exactly when there is none |
| Documents.DocumentTable.Create | backend/src/documents/documents.service.ts:15-25 | one appended row with a fresh id, the given owner, type, path and appointment, status Uploaded, no comments, stamped now |
| Documents.DocumentTable.FindByUserId | backend/src/documents/documents.service.ts:27-29 | exactly that user's documents, newest upload first, each as often as in the table |
| Documents.DocumentTable.FindByAppointmentId | backend/src/documents/documents.service.ts:31-33 | exactly that appointment's documents, oldest upload first |
| Documents.DocumentTable.UpdateStatus | backend/src/documents/documents.service.ts:40-58 | NotFound exactly for an unknown id, with nothing changed; Ok exactly for a known id, and then only that row changes: the status, the comments only when supplied, and the update time |
| Users.FindByEmail | backend/src/users/users.service.ts:15-17 | a row with that email, None exactly when no row has it |
| Users.FindById | backend/src/users/users.service.ts:19-22 | a row with that id, None exactly when no row has it |
| Users.IndexOfId | backend/src/users/users.service.ts:41 | the position of a row with that id, None exactly when there is none |
| Users.FindByEmailUnique | backend/src/users/users.service.ts:31-34 | where emails are unique, the lookup by email finds the one row with it |
| Users.Merge | backend/src/users/users.service.ts:46-52 | every supplied field is taken, every other is kept, and the id and hash never change |
| Users.MergeAsWrittenErasesHash | backend/src/users/users.service.ts:47-49 | as written, a supplied empty hash erases the stored one |
| Users.MergeEmptyPatch | backend/src/users/users.service.ts:51 | an empty update leaves the row as it was |
| Users.UserTable.Create | backend/src/users/users.service.ts:24-38 | BadRequest for a missing or empty hash or a taken email, with nothing added; otherwise one appended row with the supplied columns and defaults, found by its email afterwards; unique emails stay unique |
| Users.UserTable.Update | backend/src/users/users.service.ts:40-53 | BadRequest exactly for an unknown id; Ok exactly for a known id, and then that row is merged in place and its hash is unchanged |
| Users.FindByEmailAppend | backend/src/users/users.service.ts:36-37 | after appending a user with a new email, the lookup finds that user, and emails stay unique |
| Auth.WithoutHashLosesOnlyTheHash | backend/src/auth/auth.service.ts:25 | dropping the hash loses nothing else |
| Auth.ValidateUser | backend/src/auth/auth.service.ts:18-30 | with a lookup that loads the hash (the corrected half of a finding): None for an unknown email, a missing hash or a wrong password; on a match the row without its hash |
| Auth.LoadedWithoutHash | backend/src/users/user.entity.ts:12 | every row a lookup loads has an empty hash, and nothing else of the row is lost |
| Auth.AsWrittenRejectsEveryLogin | backend/src/auth/auth.service.ts:18-30 | as written, validation fails for every email and password |
| Auth.AsWrittenRejectsAMatchingUser | backend/src/auth/auth.service.ts:21-26 | a stored user whose hash the password matches is accepted by the intended check and turned away as written |
| Auth.Signup | backend/src/auth/auth.service.ts:32-60 | Conflict exactly when the email is taken, with nothing created; Ok exactly when the email is free and the hash is not empty, and then a Citizen row, active, opted in, with no department and hash(password), returned without the hash |
| Auth.LoginAfterValidation | backend/src/auth/auth.service.ts:62-72 | after a successful check the token signs the claims of a stored row with that email and a matching hash |
| SignupForm.SetField | frontend/src/pages/auth/SignupPage.tsx:27 | the edited field takes the value and the others keep theirs |
| SignupForm.CheckRequired | frontend/src/pages/auth/SignupPage.tsx:39-43 | each of the four required fields records its "required" message exactly when it is empty, and no other field records anything |
| SignupForm.CheckEmail | frontend/src/pages/auth/SignupPage.tsx:44-48 | the e-mail records at most one message: "required" when empty, else "invalid" when it does not look like an address |
| SignupForm.CheckPassword | frontend/src/pages/auth/SignupPage.tsx:49-55 | the password records at most one message: required, else too short, else too weak |
| SignupForm.Validate | frontend/src/pages/auth/SignupPage.tsx:38-63 | each field's recorded message is the one its checks give; the result is true exactly when no message was recorded |
| SignupForm.PassesIff | frontend/src/pages/auth/SignupPage.tsx:38-63 | a form passes exactly when the name fields are filled, the e-mail looks like an address, the password has 8 characters or more and all four classes, and the confirmation matches |
| SignupForm.FirstFailingCheckReported | frontend/src/pages/auth/SignupPage.tsx:44-55 | the password shows "too weak" exactly when it has 8 characters or more but fails the complexity pattern, and "too short" exactly when it has 1 to 7; the e-mail shows "invalid" exactly when it is non-empty and fails the address pattern |
| SignupForm.ComplexOnOneLine | frontend/src/pages/auth/SignupPage.tsx:53 | on a single line the complexity pattern means a digit, a lower-case letter, an upper-case letter and one of !@#$%^&* somewhere |
| SignupForm.EmailExamples | frontend/src/pages/auth/SignupPage.tsx:46 | "a@b.c" passes the address pattern; "a@b" and "@b.c" do not |
| SignupForm.ErrorsAfterChange | frontend/src/pages/auth/SignupPage.tsx:29-35 | the edited field's error is cleared, and the confirmation's error too when the password is edited; the others stay |
| SignupForm.HandleChange | frontend/src/pages/auth/SignupPage.tsx:26-36 | the field takes the value, its error is gone, and no error is added |
| SignupForm.PasswordErrorSurvivesAsWritten | frontend/src/pages/auth/SignupPage.tsx:29-35 | as written, editing the password while both password errors show leaves the password error |
| SignupForm.AsWrittenAgreesOtherwise | frontend/src/pages/auth/SignupPage.tsx:26-36 | outside that case the code as written and the intended clearing agree |
| ServicesPage.FilterServices | frontend/src/pages/citizen/ServicesPage.tsx:46-64 | a service is shown exactly when it is fetched, in the selected category if one is selected, and matches the query if it is not empty |
| ServicesPage.NoFilterShowsAll | frontend/src/pages/citizen/ServicesPage.tsx:46-62 | with no category and an empty query the whole list is shown, in order |
| ServicesPage.FilterKeepsOrder | frontend/src/pages/citizen/ServicesPage.tsx:46-62 | the shown list is an order-preserving subsequence of the fetched list |
| ServicesPage.SearchIgnoresCase | frontend/src/pages/citizen/ServicesPage.tsx:55-60 | queries equal up to case show the same services |
| ServicesPage.ToggleCategory | frontend/src/pages/citizen/ServicesPage.tsx:71-73 | clicking the selected category clears the selection; clicking any other category selects it |
| ServicesPage.ToggleTwiceClears | frontend/src/pages/citizen/ServicesPage.tsx:71-73 | from any selection other than the clicked category, one click selects it and a second click clears the selection |
| ServicesPage.Categories | frontend/src/pages/citizen/ServicesPage.tsx:76 | exactly the non-empty categories of the services |
| ServicesPage.Distinct | frontend/src/pages/citizen/ServicesPage.tsx:76 | the same values, each once, in the order of their first occurrence |
| ServicesPage.UniqueCategories | frontend/src/pages/citizen/ServicesPage.tsx:76 | each non-empty category of some service appears exactly once, and nothing else appears |

## Left out

- Time zones, seconds and milliseconds are not modelled. An instant is local minutes, and "HH:MM" drops the seconds as the code does.
- `Date` parsing of the request strings is not modelled. The model takes the instant as an integer.
- UUID and QR generation are not modelled. The confirmation reference is a parameter, and the QR code is the text it encodes.
- E-mail and SMS delivery is not modelled. A reminder is the appointment handed to the notifications service.
- Controllers, DTO validation, modules and configuration are not modelled.
- The ORM's `select: false` on the password hash is modelled only where it decides an outcome, in `validateUser` (see Findings). `update` saves a row whose hash was not loaded, which leaves the stored hash as it was, as `Users.UserTable.Update` does.
- Auth.ValidateUser: describes the intended check, whose lookup loads the hash. As written `findByEmail` never loads the hash column, so validation fails for every input and no login succeeds; `ValidateUserAsWritten` models that.
- Auth.Login: carries no contract of its own. `LoginAfterValidation` states what a login signs.
- Database unique constraints (email, national id, confirmation reference) are not modelled. Only the services' own checks are.
- The `created_at`/`updated_at` columns the ORM fills in are not modelled, apart from the document times the service sets.
- The read-then-write race in `createAppointment` is not modelled, because the model is sequential.
- The scheduler's cron timing is not modelled. One run is modelled, with `now` a parameter.
- The scheduler's second clock read in `isFuture` is not modelled. The future check reads the same `now`.
- Row order of a query without an `order` clause is not modelled, nor is the order of rows with equal sort keys. The model takes table order in both cases.
  - The reminder query is such a query, so `FailureSkipsTheRest` speaks of table order.
- Lower-casing covers ASCII only. Unicode case mapping is not modelled.
- String length counts characters, not UTF-16 code units, so a password with characters outside the BMP is counted differently.
- Negative service durations are not modelled; durations are natural numbers. A negative duration would make the source loop forever.
- Fields the sign-up body may carry beyond the declared DTO are not modelled.
- Rendering, React state plumbing, axios, AuthContext and local storage are not modelled. The three client pieces are modelled as functions of their inputs.
- Documents.DocumentTable.Create: the initial status is `Uploaded`. The document service and entity read `DocumentStatus.Uploaded`, but the enumeration in backend/src/common/enums.ts declares only PendingReview, Approved and Rejected, so as written that status is undefined. The model adds `Uploaded` to the enumeration as the evidently intended initial status.
- ProtectedRoute.Decide: carries no contract of its own. Its behaviour is stated by the five lemmas beside it.

## Findings

| source | as written | input that shows it | evidently intended | confidence | as-written member | corrected member |
|---|---|---|---|---|---|---|
| backend/src/scheduler/scheduler.service.ts:41 | `Between` is used in the query's `where` but never imported (the import at line 6 brings only two other operators), so building the query fails. The `catch` at line 60 logs the failure, and no reminder is ever sent. | one Confirmed appointment 36 hours ahead | that appointment is reminded once | not executed | Scheduler.ReminderRunAsWritten, Scheduler.AsWrittenNeverReminds | Scheduler.HandleAppointmentReminders |
| frontend/src/pages/auth/SignupPage.tsx:29-35 | both `setErrors` calls spread the same stale `errors`, so the second call replaces the first | editing the password while the password and confirmation errors both show | both errors are cleared | not executed | SignupForm.ErrorsAfterChangeAsWritten, SignupForm.PasswordErrorSurvivesAsWritten | SignupForm.ErrorsAfterChange |
| backend/src/auth/auth.service.ts:21 | the hash column is declared `select: false` (backend/src/users/user.entity.ts:12), so the row `findByEmail` returns has no `password_hash`; the test fails and `validateUser` returns null for every email and password, and the local strategy (backend/src/auth/local.strategy.ts:16-18) answers Unauthorized | a stored user whose password matches the stored hash | that user is accepted | not executed | Auth.ValidateUserAsWritten, Auth.AsWrittenRejectsEveryLogin, Auth.AsWrittenRejectsAMatchingUser | Auth.ValidateUser |
| backend/src/users/users.service.ts:47-49 | the hash is struck from the update only when it is truthy, so an empty hash reaches the merge | an update carrying an empty password hash | the stored hash is never changed | not executed | Users.MergeAsWritten, Users.MergeAsWrittenErasesHash | Users.Merge |
