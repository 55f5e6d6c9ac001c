# U-OS payment-to-account pipeline, in Dafny

This project models the core of U-OS, a university operating system built as a NestJS backend
with a React Native app.

- **Cashier desk.** Registering a tuition payment creates the payment row and the student's
  account in one call. The call assigns a matricule, derives an institutional e-mail from the
  name and a temporary password, sends the credentials by e-mail, SMS and WhatsApp, and writes an
  audit entry.
- **Gateway webhook.** A CLEARED payment gets an account at `matricule@university.edu`, or an
  existing account there is reactivated.
- **Notification service.** The three credential messages, the complaint update and the
  profile-change decision e-mail.
- **Admin workflows.** Dashboard counts, the request listing, approving and rejecting
  profile-change requests, assigning complaints and changing their status, and creating staff
  rows.
- **Timetable and academic services.** Event creation and deletion, the department's weekly
  schedule, a student's own schedule with its level heuristic, and course eligibility.
- **Mobile forms.** The validation chains of the cashier registration form and of the complaint
  form, and the complaint priority rule.

## How it is organised

- **The store.** `Store` holds the database as a value, `Tables`, with one sequence per table
  and an id counter standing in for generated keys. The class `Store.Database` holds the same
  tables as fields. Its methods are Prisma's `create`, `update` and `delete` calls, each proved
  to leave exactly `InsertX`/`ReplaceX`/`RemoveEvent` of the old tables. `TablesValid` is the
  schema's invariant: unique keys below the counter, a unique institutional e-mail per user, a
  unique external reference per payment, a payment connected to at most one user, and at most one staff row per user.
- **Service operations.** Each operation is a pure function from the tables to the new tables
  and the answer. That is `Written` for plain writes, and an `Outcome` with the notices or
  deliveries for the paths that send messages. Next to it is an imperative method that performs
  the same writes through `Database` and ends in exactly that state. The lemmas are stated
  about the functions.
- **JavaScript primitives.** `Text` and `JsNumber` state the primitives with their JavaScript
  meaning: `trim` and `\s`, `split(' ')`, `includes`, `slice(-n)`, `padStart`, `length` in
  UTF-16 units, `parseInt` on digit strings, `parseFloat`, and `Number.prototype.toString` for
  the exact decimals `parseFloat` returns (section 6.1.6.1.20 of ECMA-262). `toLowerCase` is
  exact only for the characters whose lower case contains an ASCII letter; other capitals, such
  as `É`, are kept as they are.
- **Amounts and salaries.** They are JavaScript numbers in the request body, produced by
  `parseFloat` in the app, so `1500.5` is a possible amount. JSON has no NaN, so `JSON.stringify`
  sends a NaN as `null`, which the model carries as `None`.
- **Stand-ins.** Clocks, randomness, bcrypt salts and the API reply seen by the mobile forms are
  parameters. A bcrypt digest is a symbolic value recording the password, salt and cost that
  produced it.

Where the code's own comments and screen text promise more than the code does, the model
follows the code:

- **The desk never advances the matricule sequence.** The comments at
  `apps/backend/src/cashier/cashier.service.ts:29` and `:142-143` call the matricule unique and
  sequential, and the desk screen (`apps/mobile/src/screens/CashierScreen.tsx:171`) says the
  system generates a unique one. The cashier path creates name-based addresses, which the
  matricule scan never counts, so consecutive desk registrations are handed the same matricule
  (`Cashier.TwoRegistrationsShareMatricule`).
- **The desk does not create `matricule@university.edu`.** The desk screen says so
  (`CashierScreen.tsx:172`), but the service derives the address from the name
  (`cashier.service.ts:32-42`).
- **A desk payment's clearance notification fails.** The desk connects its account to its own
  payment. When the gateway later reports that payment CLEARED, the webhook finds no account at
  `matricule@university.edu` and creates one connected to the same payment, which breaks the
  unique payment link (`Webhook.DeskPaymentRefused`).

The code also has these properties, which no comment mentions:

- **Cashier writes are not atomic.** The code writes the payment row before the account without
  a transaction, so a failing account insert leaves the payment behind
  (`Cashier.ClashLeavesPaymentBehind`).
- **The suffixed e-mail is never re-checked.** If it is taken as well, the insert fails on the
  unique index.
- **Names are split on one space, not on white space.** The `student`/`user` placeholders
  replace only tokens that are empty before letters are stripped, so a name made of digits gives
  the local part `.` (`Identity.DigitNameEmail`).

## Model

| member | source | states |
|---|---|---|
| Store.UserAdded | apps/backend/src/cashier/cashier.service.ts:72-85 | storing a user whose e-mail and payment link are new, linked to an id already given, keeps every table's keys and unique indexes valid |
| Store.PaymentAdded | apps/backend/src/cashier/cashier.service.ts:58-69 | storing a payment whose reference is new keeps the store valid |
| Store.AuditAdded | apps/backend/src/cashier/cashier.service.ts:110-122 | appending an audit entry keeps the store valid |
| Store.StaffAdded | apps/backend/src/admin/admin.service.ts:115-123 | appending a staff row for a user who has none keeps the store valid, including the one staff row per user |
| Store.StaffByUser | apps/backend/src/admin/admin.service.ts:115-123 | finds an index of the user's staff row, or reports that the user has none |
| Store.EventAdded | apps/backend/src/timetable/timetable.service.ts:18-28 | appending an event keeps the store valid |
| Store.TablesGrow | apps/backend/src/cashier/cashier.service.ts:58-85 | raising the id counter keeps every table valid |
| Store.UserById | apps/backend/src/admin/admin.service.ts:50-53 | finds an index holding the id, or reports that none does |
| Store.UserByEmail | apps/backend/src/cashier/cashier.service.ts:36-38 | finds an index holding the e-mail, or reports that none does |
| Store.UserByPayment | apps/backend/src/payment/payment.service.ts:47-48 | finds an index of a user connected to the payment, or reports that none is |
| Store.PaymentById | apps/backend/src/payment/payment.service.ts:21-23 | finds an index holding the payment id, or reports that none does |
| Store.PaymentByRef | apps/backend/src/cashier/cashier.service.ts:21-23 | finds an index holding the external reference, or reports that none does |
| Store.CampusBySlug | apps/backend/src/cashier/cashier.service.ts:49-51 | `findFirst` by slug: the first campus with that slug, or none |
| Store.RequestById | apps/backend/src/admin/admin.service.ts:42 | finds the index of a request by id, or reports that none has it |
| Store.ComplaintById | apps/backend/src/admin/admin.service.ts:91-94 | finds the index of a complaint by id, or reports that none has it |
| Store.CourseById | apps/backend/src/academic/academic.service.ts:53 | finds the index of a course by id, or reports that none has it |
| Store.EventById | apps/backend/src/timetable/timetable.service.ts:91 | finds the index of an event by id, or reports that none has it |
| Store.FirstEnrollment | apps/backend/src/academic/academic.service.ts:18-20 | `findFirst` by user: the earliest enrollment row of the user, or none |
| Store.UserByEmailIsUnique | apps/backend/src/cashier/cashier.service.ts:36-38 | under the unique index, looking up a stored e-mail finds exactly its row |
| Store.UserByIdIsUnique | apps/backend/src/admin/admin.service.ts:50-53 | under unique keys, looking up a user's id finds that row |
| Store.PaymentByIdIsUnique | apps/backend/src/payment/payment.service.ts:21-23 | under unique keys, looking up a payment's id finds that row |
| Store.RequestByIdIsUnique | apps/backend/src/admin/admin.service.ts:42 | under unique keys, looking up a request's id finds that row |
| Store.ComplaintByIdIsUnique | apps/backend/src/admin/admin.service.ts:91-94 | under unique keys, looking up a complaint's id finds that row |
| Store.EventByIdIsUnique | apps/backend/src/timetable/timetable.service.ts:91 | under unique keys, looking up an event's id finds that row |
| Store.Database.constructor | apps/backend/src/cashier/cashier.service.ts:11-14 | a store holding exactly the given valid tables |
| Store.Database.CreateUser | apps/backend/src/cashier/cashier.service.ts:72-85 | fails on a taken e-mail, or on a payment another user is connected to, and changes nothing; otherwise appends the row under the next id and stays valid |
| Store.Database.UpdateUser | apps/backend/src/admin/admin.service.ts:50-53 | fails when another user holds the new e-mail; otherwise replaces that one row |
| Store.Database.CreatePayment | apps/backend/src/cashier/cashier.service.ts:58-69 | fails on a taken reference and changes nothing; otherwise appends the row under the next id |
| Store.Database.UpdatePayment | apps/backend/src/cashier/cashier.service.ts:99-107 | replaces one payment row, keeping its key and reference |
| Store.Database.CreateAuditEntry | apps/backend/src/cashier/cashier.service.ts:110-122 | appends the entry under the next id |
| Store.Database.UpdateRequest | apps/backend/src/admin/admin.service.ts:56-63 | replaces one request row, keeping its key |
| Store.Database.UpdateComplaint | apps/backend/src/admin/admin.service.ts:91-94 | replaces one complaint row, keeping its key |
| Store.Database.CreateStaffMember | apps/backend/src/admin/admin.service.ts:115-123 | fails on the unique user link with nothing changed when the user already has a staff row; otherwise appends the row under the next id |
| Store.Database.CreateEvent | apps/backend/src/timetable/timetable.service.ts:18-28 | appends the event under the next id |
| Store.Database.DeleteEvent | apps/backend/src/timetable/timetable.service.ts:91 | removes the event row at the index and nothing else |
| Credentials.PasswordFromName | apps/backend/src/cashier/cashier.service.ts:185-191 | the first space-separated word of the trimmed name (or 'Student'), followed by the two random digits |
| Credentials.HexEncode | apps/backend/src/payment/payment.service.ts:38 | two lower-case hexadecimal digits per byte |
| Credentials.HexRoundTrip | apps/backend/src/payment/payment.service.ts:38 | decoding the hexadecimal text gives the bytes back |
| Credentials.RandomHexPassword | apps/backend/src/payment/payment.service.ts:38 | `randomBytes(8).toString('hex')` is 16 lower-case hexadecimal digits that decode to the 8 bytes drawn |
| Identity.YearPrefix | apps/backend/src/cashier/cashier.service.ts:146 | at most two digits, exactly two from year 10 on |
| Identity.YearPrefixIsLastTwoDigits | apps/backend/src/cashier/cashier.service.ts:146 | the prefix is the year's decimal text cut to its last two characters |
| Identity.LocalPart | apps/backend/src/cashier/cashier.service.ts:163 | `split('@')[0]` is an `@`-free prefix of the address |
| Identity.MaxSequenceStep | apps/backend/src/cashier/cashier.service.ts:161-174 | one more address updates the running maximum as the loop body does |
| Identity.MaxSequenceBounds | apps/backend/src/cashier/cashier.service.ts:161-174 | the maximum bounds the sequence number of every counted address of the year |
| Identity.MaxSequenceAttained | apps/backend/src/cashier/cashier.service.ts:161-174 | the maximum is 0 or the sequence number of some counted address |
| Identity.MaxSequenceAppend | apps/backend/src/cashier/cashier.service.ts:161-174 | the maximum over two lists of users is the larger of their maxima |
| Identity.GenerateMatricule | apps/backend/src/cashier/cashier.service.ts:145-178 | the loop computes the year prefix followed by the maximum plus one padded to five digits |
| Identity.SameMaximumSameMatricule | apps/backend/src/cashier/cashier.service.ts:176-177 | the matricule depends on the users only through the year's maximum |
| Identity.FirstOfYear | apps/backend/src/cashier/cashier.service.ts:176-177 | the first matricule of a year ends in 00001 |
| Identity.NextSequenceIsFresh | apps/backend/src/cashier/cashier.service.ts:161-177 | the new matricule differs from every counted matricule of the year, also once the sequence passes 99999 |
| Identity.MatriculeRoundTrip | apps/backend/src/cashier/cashier.service.ts:165-177 | a matricule with sequence 1..99999 is seven digits, counted by the scan, and reads back its year and sequence |
| Identity.MatriculeOverflow | apps/backend/src/cashier/cashier.service.ts:177 | from sequence 100000 on `padStart` does not truncate, and the eight-digit result is no longer counted |
| Identity.NameTokens | apps/backend/src/cashier/cashier.service.ts:199 | the trimmed, lower-cased name split on single spaces, at least one token |
| Identity.BaseLocalPart | apps/backend/src/cashier/cashier.service.ts:200-207 | the letters of the first token, a dot, the letters of the last token |
| Identity.EmailFromName | apps/backend/src/cashier/cashier.service.ts:198-211 | the base local part, the suffix and the institutional domain |
| Identity.NameEmailNeverCounted | apps/backend/src/cashier/cashier.service.ts:165 | a name-based address is never matricule-shaped, so the scan never counts it |
| Identity.NameEmailKeepsMaxSequence | apps/backend/src/cashier/cashier.service.ts:161-174 | adding a name-based address leaves every year's maximum unchanged |
| Identity.SuffixDisambiguates | apps/backend/src/cashier/cashier.service.ts:208 | a non-empty suffix always changes the address |
| Identity.TwoWordNameEmail | apps/backend/src/cashier/cashier.service.ts:194-197 | 'john doe' gives `john.doe@university.edu` |
| Identity.OneWordNameEmail | apps/backend/src/cashier/cashier.service.ts:199-201 | a one-word name repeats its word on both sides of the dot |
| Identity.DigitNameEmail | apps/backend/src/cashier/cashier.service.ts:200-205 | tokens made only of digits are stripped to nothing, so no placeholder is used and the address is `.@university.edu` |
| Identity.BlankNameEmail | apps/backend/src/cashier/cashier.service.ts:200-201 | a blank name falls back to `student.user@university.edu` |
| Identity.PlainNameTokens | apps/backend/src/cashier/cashier.service.ts:199 | a plain lower-case name is split as it is |
| Notifications.Outbox.SendEmail | apps/backend/src/notifications/notifications.service.ts:84-94 | the mock sender records the message and reports success |
| Notifications.Outbox.SendSms | apps/backend/src/notifications/notifications.service.ts:100-109 | the mock sender records the message and reports success |
| Notifications.Outbox.SendWhatsApp | apps/backend/src/notifications/notifications.service.ts:115-128 | the mock sender records the message and reports success |
| Notifications.SendCredentials | apps/backend/src/notifications/notifications.service.ts:19-78 | sends e-mail, SMS and WhatsApp in that order and reports all three sent |
| Notifications.CredentialsMessagesCarryLogin | apps/backend/src/notifications/notifications.service.ts:29-73 | the e-mail goes to the personal address with the welcome subject, SMS and WhatsApp go to the phone |
| Notifications.CredentialsTextsCarryLogin | apps/backend/src/notifications/notifications.service.ts:32-72 | each of the three texts gives the school e-mail, the temporary password and the first-login instruction |
| Notifications.SendComplaintUpdate | apps/backend/src/notifications/notifications.service.ts:133-151 | one e-mail to the complainant with the complaint's subject and status |
| Notifications.ComplaintResponseBlock | apps/backend/src/notifications/notifications.service.ts:142-149 | a non-empty response inserts exactly a Response block into the otherwise fixed body |
| Notifications.SendProfileChangeNotification | apps/backend/src/notifications/notifications.service.ts:156-173 | one e-mail to the requester with the decision in the subject |
| Notifications.DecisionLowered | apps/backend/src/notifications/notifications.service.ts:166 | the decision is lowered to 'approved' or 'rejected' |
| Notifications.ProfileDecisionInBody | apps/backend/src/notifications/notifications.service.ts:165-171 | the body names the decision in lower case |
| Notifications.ProfileReasonBlock | apps/backend/src/notifications/notifications.service.ts:165-171 | a reason line appears exactly when a non-empty reason is given |
| Cashier.CampusSlug | apps/backend/src/cashier/cashier.service.ts:50 | an absent or empty slug falls back to 'town-a'; any other slug is passed through unchanged |
| Cashier.FinalEmail | apps/backend/src/cashier/cashier.service.ts:33-42 | the name-based e-mail, or the one suffixed with the matricule's last three characters when the plain one is taken |
| Cashier.RegisterPayment | apps/backend/src/cashier/cashier.service.ts:19-139 | the staged writes end in exactly the registration's tables, deliveries and answer, for any amount including `null`, and the store stays valid |
| Cashier.EnrolStudent | apps/backend/src/cashier/cashier.service.ts:33-55 | the e-mail and campus steps end as the specification function says |
| Cashier.WriteAccount | apps/backend/src/cashier/cashier.service.ts:58-85 | the payment and account writes end as the specification function says |
| Cashier.AddStudentAccount | apps/backend/src/cashier/cashier.service.ts:72-85 | the account write ends as the specification function says |
| Cashier.NotifyAndAudit | apps/backend/src/cashier/cashier.service.ts:90-138 | the credentials, payment flags and audit entry end as the specification function says |
| Cashier.RejectsDuplicateReference | apps/backend/src/cashier/cashier.service.ts:21-27 | a reference on file is refused with 'Payment reference already exists'; nothing is written or sent |
| Cashier.RejectsUnknownCampus | apps/backend/src/cashier/cashier.service.ts:49-55 | an unknown campus is refused with 'Invalid campus'; nothing is written or sent |
| Cashier.ClashLeavesPaymentBehind | apps/backend/src/cashier/cashier.service.ts:40-85 | when the suffixed e-mail is taken too, the account insert fails but the payment row stays |
| Cashier.AccountWrites | apps/backend/src/cashier/cashier.service.ts:58-122 | with a number for the amount and a free e-mail, exactly one payment, one account and one audit entry are appended; the other tables are unchanged |
| Cashier.AccountRows | apps/backend/src/cashier/cashier.service.ts:58-138 | the stored rows and the answer agree: cleared payment with the amount sent, active student tied to it, hashed password, audit metadata with the amount's `toString`, the three deliveries |
| Cashier.NullAmountRefused | apps/backend/src/cashier/cashier.service.ts:57-69 | a `null` amount fails the payment create; nothing is written or sent |
| Cashier.Received | apps/mobile/src/screens/CashierScreen.tsx:63-70 | the endpoint reads the form's finite amount as sent and NaN as `null`, with the campus the form names |
| Cashier.NonNumericAmountNeverStored | apps/mobile/src/screens/CashierScreen.tsx:49-67 | an amount such as 'abc' passes the form, arrives as `null` and is refused with nothing written or sent |
| Cashier.AuditedWholeAmount | apps/backend/src/cashier/cashier.service.ts:117 | an amount typed as a plain whole number is recorded in the audit entry as typed |
| Cashier.AuditedFractionalAmount | apps/backend/src/cashier/cashier.service.ts:117 | an amount typed with decimals, such as `1500.5`, is recorded with its decimals |
| Cashier.SuccessfulRegistration | apps/backend/src/cashier/cashier.service.ts:19-139 | a success used a fresh reference, the next matricule, a known campus and a free e-mail |
| Cashier.AccountKeepsSequence | apps/backend/src/cashier/cashier.service.ts:161-174 | a successful account write with a name-based e-mail leaves the scan's maximum unchanged |
| Cashier.RegistrationKeepsMaxSequence | apps/backend/src/cashier/cashier.service.ts:30-33 | a desk registration leaves the year's maximum sequence unchanged |
| Cashier.RegistrationKeepsSequence | apps/backend/src/cashier/cashier.service.ts:145-178 | after a desk registration the next matricule is the same as before it |
| Cashier.RegistrationMatricule | apps/backend/src/cashier/cashier.service.ts:30-33 | a successful registration answers with the matricule computed from the users before it |
| Cashier.TwoRegistrationsShareMatricule | apps/backend/src/cashier/cashier.service.ts:30-33 | two successful desk registrations in a row are handed the same matricule |
| Cashier.FirstMatriculeOfYear | apps/backend/src/cashier/cashier.service.ts:161-177 | with no matricule-shaped address of the year on file, the matricule is the year followed by 00001 |
| Cashier.SuffixedEmailDiffers | apps/backend/src/cashier/cashier.service.ts:40-42 | the suffixed address is the one with the matricule's last three characters and differs from the plain one |
| Webhook.NoticeLog.Log | apps/backend/src/payment/payment.service.ts:68-81 | appends one notice to the log |
| Webhook.DispatchCredentials | apps/backend/src/payment/payment.service.ts:68-81 | logs exactly the notices of the dispatch rule |
| Webhook.HandlePaymentCleared | apps/backend/src/payment/payment.service.ts:18-66 | the imperative handler ends in the specification function's tables, answer and notices |
| Webhook.ProvisionStudent | apps/backend/src/payment/payment.service.ts:31-64 | the lookup and then the create-or-reactivate end as specified |
| Webhook.CreateStudentAccount | apps/backend/src/payment/payment.service.ts:35-55 | with the address free, the account row is created (or the create fails and nothing is written or sent) and the credentials go out, as specified |
| Webhook.HandleWebhookRequest | apps/backend/src/payment/payment.controller.ts:12-20 | acknowledges when the handler succeeds or is not called; a handler error fails the request |
| Webhook.RejectsUnclearedPayment | apps/backend/src/payment/payment.service.ts:21-27 | 'Invalid payment state', with nothing written, exactly when no CLEARED payment has the id |
| Webhook.NoMatriculeIsNoOp | apps/backend/src/payment/payment.service.ts:29 | a cleared payment without a matricule changes nothing and sends nothing |
| Webhook.CreatesMissingAccount | apps/backend/src/payment/payment.service.ts:35-55 | without an account at the address or connected to the payment, exactly one active student is appended with a hashed hex password, and the e-mail notice plus the skipped-phone warning are logged |
| Webhook.LinkedPaymentRefused | apps/backend/src/payment/payment.service.ts:42-52 | without an account at the address but with one connected to the payment, the create fails on the unique payment link and nothing is written or logged |
| Webhook.DeskPaymentRefused | apps/backend/src/payment/payment.service.ts:42-52 | the clearance notification of a payment the desk just registered fails on the unique payment link |
| Webhook.ReactivatesAccount | apps/backend/src/payment/payment.service.ts:56-63 | an inactive account is switched on, only its `isActive` changes, and nothing is sent |
| Webhook.ActiveAccountUnchanged | apps/backend/src/payment/payment.service.ts:56-64 | an active account is left as it is |
| Webhook.HandleClearedIdempotent | apps/backend/src/payment/payment.service.ts:18-66 | handling the same cleared payment twice: the second call changes nothing and sends nothing |
| Webhook.ProvisionIdempotent | apps/backend/src/payment/payment.service.ts:31-64 | provisioning the same address again after a success: the second call finds the account active |
| Webhook.DispatchChannels | apps/backend/src/payment/payment.service.ts:68-81 | the e-mail notice always goes out; SMS and WhatsApp go out exactly when a phone is given, otherwise a warning |
| Webhook.WebhookDispatchesOnStatus | apps/backend/src/payment/payment.controller.ts:15-19 | only a CLEARED notification reaches the handler; the others are acknowledged and change nothing |
| Webhook.WebhookReadsIdAndStatusOnly | apps/backend/src/payment/payment.controller.ts:12-20 | payloads that agree on id and status have the same effect |
| Admin.Reject | apps/backend/src/admin/admin.service.ts:67-77 | an unknown id fails; otherwise the request becomes REJECTED with reviewer, time and reason |
| Admin.Assign | apps/backend/src/admin/admin.service.ts:90-95 | an unknown id fails; otherwise the complaint is IN_PROGRESS and assigned to the staff member |
| Admin.SetComplaintStatus | apps/backend/src/admin/admin.service.ts:97-102 | an unknown id fails; otherwise only the status changes |
| Admin.CreateStaff | apps/backend/src/admin/admin.service.ts:111-124 | 'User not found' without a user with that e-mail; the unique user link fails when that user already has a staff row; otherwise one staff row for that user with the salary as sent |
| Admin.ApproveProfileRequest | apps/backend/src/admin/admin.service.ts:40-65 | the writes end in exactly the approval function's tables and answer |
| Admin.WriteApproval | apps/backend/src/admin/admin.service.ts:46-63 | the user write and then the request write end as specified |
| Admin.RejectProfileRequest | apps/backend/src/admin/admin.service.ts:67-77 | the write ends as specified |
| Admin.AssignComplaint | apps/backend/src/admin/admin.service.ts:90-95 | the write ends as specified |
| Admin.UpdateComplaintStatus | apps/backend/src/admin/admin.service.ts:97-102 | the write ends as specified |
| Admin.CreateStaffMember | apps/backend/src/admin/admin.service.ts:111-124 | the lookup and the write end in exactly `CreateStaff`'s tables and answer, including the failure on a user who already has a staff row |
| Admin.StatsCountQualifyingRows | apps/backend/src/admin/admin.service.ts:9-29 | each count is zero exactly when no row qualifies and never exceeds its table |
| Admin.ProfileRequestsListing | apps/backend/src/admin/admin.service.ts:32-38 | for every status asked, each request of that status as often as stored and no other (all when none is asked), newest first |
| Admin.ApproveNeedsPending | apps/backend/src/admin/admin.service.ts:42-43 | an unknown or already reviewed request fails with 'Invalid request' and nothing is written |
| Admin.ApproveAllOrNothing | apps/backend/src/admin/admin.service.ts:41-64 | a failed approval writes neither the user nor the request |
| Admin.ApproveApplies | apps/backend/src/admin/admin.service.ts:46-63 | NAME renames the owner, EMAIL readdresses them, any other type changes nothing; the request is APPROVED and signed; no other row changes |
| Admin.ApproveTakenEmail | apps/backend/src/admin/admin.service.ts:48-53 | an EMAIL request for another user's address fails on the unique index and stays PENDING |
| Admin.ApproveClearsOnePending | apps/backend/src/admin/admin.service.ts:40-65 | a successful approval lowers the pending count by one and leaves the other counts |
| Admin.ApproveOnlyOnce | apps/backend/src/admin/admin.service.ts:43 | approving the same request again fails with 'Invalid request' |
| Admin.RejectAnyStatus | apps/backend/src/admin/admin.service.ts:67-77 | any stored request is rejected whatever its status; only that row changes |
| Admin.RejectAfterApproval | apps/backend/src/admin/admin.service.ts:40-77 | an approved request can still be rejected; the user keeps the approved change |
| Admin.RejectUnknown | apps/backend/src/admin/admin.service.ts:68-69 | rejecting an unknown id fails and changes nothing |
| Admin.AssignTakesComplaint | apps/backend/src/admin/admin.service.ts:90-95 | the complaint goes to the staff member as IN_PROGRESS whatever its status; nothing else changes |
| Admin.StatusWrittenAsGiven | apps/backend/src/admin/admin.service.ts:97-102 | any status text is written as given and only that complaint changes |
| Admin.ComplaintUnknown | apps/backend/src/admin/admin.service.ts:91-101 | an unknown complaint id fails and changes nothing |
| Admin.StaffNeedsUser | apps/backend/src/admin/admin.service.ts:111-124 | a staff row is created exactly when a user holds the e-mail and has no staff row yet; it points at that user and the store stays valid; otherwise 'User not found' or the unique user link fails, with nothing written |
| Admin.StaffOncePerUser | apps/backend/src/admin/admin.service.ts:111-124 | registering the same user as staff a second time fails on the unique user link and writes nothing |
| Timetable.CreateTimetableEvent | apps/backend/src/timetable/timetable.service.ts:9-29 | stores the event built from the input under the next id |
| Timetable.DeleteTimetableEvent | apps/backend/src/timetable/timetable.service.ts:90-92 | the deletion ends as the specification function says |
| Timetable.JoinedRows | apps/backend/src/timetable/timetable.service.ts:41-45 | the join keeps exactly the events whose course exists, each with that course, in order |
| Timetable.DepartmentEventsRows | apps/backend/src/timetable/timetable.service.ts:69-80 | the department's events are the events whose course belongs to it |
| Timetable.FirstDigitRunIsLeftmostLongest | apps/backend/src/timetable/timetable.service.ts:85 | `/\d+/` finds the leftmost, longest digit run, and nothing exactly when the code has no digit |
| Timetable.LevelPrefixIsLeadingDigit | apps/backend/src/timetable/timetable.service.ts:83 | a non-negative level's prefix is its leading digit |
| Timetable.LevelPrefixOfHundreds | apps/backend/src/timetable/timetable.service.ts:82-83 | for levels 100 to 999 the prefix is the hundreds digit |
| Timetable.NegativeLevelKeepsNothing | apps/backend/src/timetable/timetable.service.ts:83-87 | a negative level keeps no course |
| Timetable.KeepsLevelLeadingDigit | apps/backend/src/timetable/timetable.service.ts:84-87 | a code passes exactly when its first digit run starts with the level's leading digit |
| Timetable.MyScheduleRule | apps/backend/src/timetable/timetable.service.ts:53-88 | empty without an enrollment; otherwise exactly the first enrollment's department events that pass the level heuristic, in order |
| Timetable.EarlierOrSameIsTotalPreorder | apps/backend/src/timetable/timetable.service.ts:46-49 | ordering by weekday then start time is a total preorder |
| Timetable.WeeklyScheduleOrder | apps/backend/src/timetable/timetable.service.ts:31-51 | a permutation of the department's events, sorted by weekday then start time, whatever the level |
| Timetable.CreatedEventScheduled | apps/backend/src/timetable/timetable.service.ts:9-51 | a created event of a known course appears in its department's weekly schedule |
| Timetable.DeleteRemovesEvent | apps/backend/src/timetable/timetable.service.ts:90-92 | removes that row, keeps the others in order, and leaves no row with the id |
| Timetable.DeleteUnknownEvent | apps/backend/src/timetable/timetable.service.ts:91 | deleting an unknown id fails and changes nothing |
| Academic.RegisterCourseGuardOrder | apps/backend/src/academic/academic.service.ts:41-64 | course first, then enrollment, then department; a success carries the fixed message |
| Academic.RegisterMatchesEnrolledCourses | apps/backend/src/academic/academic.service.ts:41-64 | registration succeeds exactly when the course is among the enrolled courses; a known course outside them fails as another department's |
| Academic.EnrolledAreAvailable | apps/backend/src/academic/academic.service.ts:17-39 | none without an enrollment; otherwise the courses offered to the first enrollment's department |
| Academic.AvailableIgnoresLevel | apps/backend/src/academic/academic.service.ts:8-15 | exactly the department's courses, whatever the level asked |
| JsNumber.LeadingSpaceIgnored | apps/mobile/src/screens/CashierScreen.tsx:49 | leading white space does not change `parseFloat` |
| JsNumber.ParseWholeNumber | apps/mobile/src/screens/CashierScreen.tsx:49 | a whole number's digits read back as that number, whatever non-numeric text follows |
| JsNumber.ParseFraction | apps/mobile/src/screens/CashierScreen.tsx:49 | digits, a point and fraction digits read as the exact decimal fraction |
| JsNumber.ParseExponent | apps/mobile/src/screens/CashierScreen.tsx:49 | an exponent scales the number by that power of ten |
| JsNumber.NoLiteralIsNaN | apps/mobile/src/screens/CashierScreen.tsx:49 | text with no number at its start parses to NaN |
| JsNumber.MinusNegates | apps/mobile/src/screens/CashierScreen.tsx:49 | a minus sign negates what follows |
| JsNumber.PointAloneIsNaN | apps/mobile/src/screens/CashierScreen.tsx:49 | a point without digits is NaN |
| JsNumber.Significand | apps/backend/src/cashier/cashier.service.ts:117 | the digits of a non-zero magnitude without trailing zeros, and the exponent that gives the magnitude back |
| JsNumber.JsonValue | apps/mobile/src/screens/CashierScreen.tsx:67 | a finite number is sent as itself; NaN and the infinities are sent as `null` |
| JsNumber.WholeNumberToString | apps/backend/src/cashier/cashier.service.ts:117 | a natural number below 10^21 is written in plain decimal digits, with no exponent |
| JsNumber.FractionToString | apps/backend/src/cashier/cashier.service.ts:117 | a number with a whole part of at least 1 and decimals ending in a non-zero digit is written as whole part, point, decimals |
| JsNumber.WholeNumberRoundTrip | apps/backend/src/cashier/cashier.service.ts:117 | `toString` of `parseFloat` gives a plain whole number's text back |
| JsNumber.FractionRoundTrip | apps/backend/src/cashier/cashier.service.ts:117 | `toString` of `parseFloat` gives a decimal's text back |
| JsNumber.NegativeToString | apps/backend/src/cashier/cashier.service.ts:117 | a negative number is written as a minus sign before its magnitude |
| JsNumber.SignificandOfPow10 | apps/backend/src/cashier/cashier.service.ts:117 | a power of ten has significand 1 and that power as its exponent |
| JsNumber.LargeNumberNotation | apps/backend/src/cashier/cashier.service.ts:117 | every power 10^k with k at least 21 is written `1e+k` |
| JsNumber.SmallNumberNotation | apps/backend/src/cashier/cashier.service.ts:117 | every power 10^-k with k at least 7 is written `1e-k` |
| JsNumber.PlainSmallNumber | apps/backend/src/cashier/cashier.service.ts:117 | every power 10^-k with k from 1 to 6 is written in plain decimal, `0.` then k-1 zeros then `1` |
| CashierScreen.ReplyAlert | apps/mobile/src/screens/CashierScreen.tsx:72-82 | the alert is 'Success' exactly for a successful answer; failures show the message or its fallback |
| CashierScreen.CashierForm.HandleRegister | apps/mobile/src/screens/CashierScreen.tsx:31-83 | a failing check only adds its alert and sends nothing; a valid form is sent once, the reply's alert is shown, a success sets the result, and loading ends |
| CashierScreen.CashierForm.HandleReset | apps/mobile/src/screens/CashierScreen.tsx:85-92 | clears the five fields and the result |
| CashierScreen.NotBlankIsTrimmed | apps/mobile/src/screens/CashierScreen.tsx:33 | the blank test agrees with `!s.trim()` |
| CashierScreen.EmailValidMatchesPattern | apps/mobile/src/screens/CashierScreen.tsx:38-39 | the decision at the first '@' agrees with the regular expression on every string |
| CashierScreen.ValidationOrder | apps/mobile/src/screens/CashierScreen.tsx:33-70 | checks in the order name, e-mail, phone, amount, reference; a valid form is sent as typed with the parsed amount and campus 'town-a' |
| CashierScreen.PhoneRule | apps/mobile/src/screens/CashierScreen.tsx:44-47 | a blank phone is refused; a phone without astral characters passes exactly when it is not blank and has at least 9 characters |
| CashierScreen.WholeAmountRule | apps/mobile/src/screens/CashierScreen.tsx:49-52 | a whole amount is accepted exactly when it is at least 1000 |
| CashierScreen.FractionAmountRule | apps/mobile/src/screens/CashierScreen.tsx:49-52 | in exact decimal arithmetic, a decimal amount is accepted exactly when its whole part is at least 1000 (binary64 rounding is left out, see the JsNumber line under "## Left out") |
| CashierScreen.NonNumericAmountAccepted | apps/mobile/src/screens/CashierScreen.tsx:49-52 | a non-numeric amount parses to NaN and is accepted |
| CashierScreen.NegativeAmountRefused | apps/mobile/src/screens/CashierScreen.tsx:49-52 | a negative amount is refused |
| ComplaintScreen.ComplaintForm.HandleSubmit | apps/mobile/src/screens/ComplaintScreen.tsx:28-68 | a failing check shows its alert and keeps the form; a passing form shows the submission alert with its priority and is cleared |
| ComplaintScreen.ValidationOrder | apps/mobile/src/screens/ComplaintScreen.tsx:29-42 | category, then subject, then description (blank or under 20 units); the first failure wins |
| ComplaintScreen.ShortDescriptionRefused | apps/mobile/src/screens/ComplaintScreen.tsx:39-42 | a description of fewer than 20 characters never passes |
| ComplaintScreen.PriorityRule | apps/mobile/src/screens/ComplaintScreen.tsx:45-53 | URGENT for harassment or a keyword, otherwise HIGH for payment or academic, otherwise MEDIUM |
| ComplaintScreen.KeywordAnywhereIsUrgent | apps/mobile/src/screens/ComplaintScreen.tsx:46-50 | a keyword anywhere, in any letter case, makes any complaint urgent |
| ComplaintScreen.LowerKeywordIsUrgent | apps/mobile/src/screens/ComplaintScreen.tsx:46-50 | each listed keyword, typed as listed, makes the complaint urgent |

## Left out

- Logging: the services' logger lines are not modelled. The webhook's mock notices are kept as records of their recipients and credentials.
- The text of messages is kept as templates with the values filled in, and the credentials texts exactly as written; the e-mail rendering is not.
- HTTP and Nest plumbing are not modelled: controllers other than the payment webhook, guards, the `api` client of the mobile app, and the `{ success, data }` envelope of the cashier endpoint.
- Concurrency is not modelled. Each call runs alone on one snapshot, so the race between two matricule scans is not represented.
- Prisma's `$transaction` is modelled only as all-or-nothing for the approval.
- The clock is a single `now` per call. Dates are counts of milliseconds, and ISO date strings passed to `createEvent` are not parsed.
- Ids are natural numbers from a counter, not cuid strings.
- `bcrypt` is a symbolic digest: no hashing and no verification.
- `randomBytes`, `Math.random` and the bcrypt salt are parameters.
- JsNumber: `parseFloat` is exact decimal arithmetic. Binary64 rounding, overflow to Infinity, and hexadecimal or other JavaScript literal forms are not modelled.
- JsNumber.NumberToString: it writes the exact decimal. A number with more than 17 significant digits would be rounded by binary64 before `toString` writes it; that rounding is not modelled.
- Cashier.NullAmountRefused: the Prisma schema is not part of this model. The payment's amount is taken as a required column, so a `null` amount fails at `payment.create`, before `dto.amount.toString()` could throw.
- Admin.CreateStaff: the salary is stored as sent, `null` included; any check the schema makes on it is not modelled.
- Store.UserClash: when a new user breaks both unique indexes, the e-mail is the one reported. Which index Prisma reports first is not modelled.
- Text.ToLower: `toLowerCase` is exact only for characters whose lower case contains an ASCII letter. Other capitals, such as `É` or `Ω`, are kept where JavaScript would lower them. Neither form is ASCII, so the complaint rule's keyword test, whose keywords are ASCII, comes out as in JavaScript.
- Store: foreign keys are not checked. These are the staff id of an assignment, the admin id of a review, the department of a staff row, and the course and room of an event.
- Store: Prisma's enum validation is not modelled, because the schema is not part of this model. A complaint status is any text, and positions and recurrences are text.
- Store: the `include` joins of user, room and campus rows are not modelled; only the course join, which the filters use, is.
- Store: the order of rows that tie on `orderBy` is not fixed, and `findFirst` without `orderBy` is taken as the first row in table order.
- Admin: `getComplaints`, `getStaff`, `updateStaff`, `deleteStaff`, the system-admin queries and the user listings are plain reads or writes of the store and are not modelled.
- CashierScreen: `generateReference` is not modelled, because it builds a reference from the clock and `Math.random`. The rendering and the `loading` state seen while the request is pending are not modelled either.
- ComplaintScreen: `navigation.goBack` on the alert's button is not modelled. The form sends nothing to the backend; it only shows the alert.
- Identity: `new Date().getFullYear()` is the `year` parameter.
