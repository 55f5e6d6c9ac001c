/**
 * The cashier service: registering a payment at the desk creates the payment row and the
 * student's account in one call, sends the credentials and records an audit entry.
 */
module Cashier {
  import opened Wrappers
  import opened Text
  import opened Store
  import opened Notifications
  import opened JsNumber
  import Identity
  import Credentials
  import CashierScreen

  /** The request body. `amount` is the JavaScript number the body carries, or `None` for the
      `null` that `JSON.stringify` writes for NaN and the infinities. */
  datatype RegisterPaymentDto = RegisterPaymentDto(
    studentName: string,
    personalEmail: string,
    phoneNumber: string,
    amount: Option<Number>,
    paymentReference: string,
    campus: Option<string>)

  /** What `registerPayment` returns to the desk. */
  datatype Registration = Registration(
    userId: Id,
    fullName: string,
    institutionalEmail: string,
    matricule: string,
    paymentId: Id,
    reference: string,
    amount: Number,
    notifications: DeliveryFlags,
    temporaryPassword: string)

  const DefaultCampus: string := "town-a"
  const DuplicateReferenceMessage: string := "Payment reference already exists"
  const InvalidCampusMessage: string := "Invalid campus"
  const CreatedViaPayment: string := "CREATED_USER_VIA_PAYMENT"

  /** `dto.campus || 'town-a'`: an absent or empty slug falls back to the default campus. */
  function CampusSlug(campus: Option<string>): (slug: string)
    ensures slug == DefaultCampus <==> campus.None? || campus.value == "" || campus.value == DefaultCampus
    ensures campus.Some? && campus.value != "" ==> slug == campus.value
  {
    if campus.None? || campus.value == "" then DefaultCampus else campus.value
  }

  /** The name-based e-mail, suffixed with the matricule's last three characters when the plain
      one is already taken. The suffixed form is not looked up again. */
  function FinalEmail(users: seq<User>, fullName: string, matricule: string): (email: string)
    ensures UserByEmail(users, Identity.EmailFromName(fullName, "")).None? ==> email == Identity.EmailFromName(fullName, "")
    ensures UserByEmail(users, Identity.EmailFromName(fullName, "")).Some? ==> email == Identity.EmailFromName(fullName, SliceLast(matricule, 3))
  {
    var base := Identity.EmailFromName(fullName, "");
    if UserByEmail(users, base).Some? then Identity.EmailFromName(fullName, SliceLast(matricule, 3)) else base
  }

  /** The payment row's data before the store assigns its id. */
  function NewPayment(dto: RegisterPaymentDto, amount: Number, matricule: string, now: Time): Payment {
    Payment(0, dto.paymentReference, Some(matricule), Some(dto.studentName), Some(dto.personalEmail),
      Some(dto.phoneNumber), amount, Cleared, Some(now), None, false, false, false)
  }

  /** The account row's data before the store assigns its id. */
  function NewStudent(dto: RegisterPaymentDto, campusId: Id, email: string, paymentId: Id,
                      password: Credentials.PasswordHash, now: Time): User {
    User(0, Student, email, dto.studentName, Some(dto.personalEmail), Some(dto.phoneNumber),
      Some(campusId), Some(paymentId), true, password, Some(now))
  }

  /** The audit entry, with the amount as `amount.toString()` writes it. */
  function AuditFor(userId: Id, matricule: string, amount: Number, campus: Campus, paymentId: Id): AuditEntry {
    AuditEntry(0, userId, CreatedViaPayment, "Created user account via payment ref " + NatToString(paymentId),
      AuditMetadata(matricule, NumberToString(amount), campus.slug, paymentId))
  }

  /** The store, the answer and the messages sent after one registration. */
  datatype Outcome = Outcome(tables: Tables, result: Result<Registration, Error>, deliveries: seq<Delivery>)

  /** `registerPayment` in one step. `year` is the current year, `now` the clock, `digits` the
      password's random number and `salt` the one bcrypt draws. */
  function Register(t: Tables, dto: RegisterPaymentDto, year: nat, now: Time,
                    digits: Credentials.TwoDigitNumber, salt: nat): Outcome
  {
    if PaymentByRef(t.payments, dto.paymentReference).Some? then
      Outcome(t, Err(BadRequest(DuplicateReferenceMessage)), [])
    else
      Enrol(t, dto, Identity.NextMatricule(t.users, year), Credentials.PasswordFromName(dto.studentName, digits), now, salt)
  }

  /** A registration with a new reference: the e-mail is chosen, then the campus resolved. */
  function Enrol(t: Tables, dto: RegisterPaymentDto, matricule: string, password: string, now: Time, salt: nat): Outcome {
    var c := CampusBySlug(t.campuses, CampusSlug(dto.campus));
    if c.None? then
      Outcome(t, Err(BadRequest(InvalidCampusMessage)), [])
    else
      OpenAccount(t, dto, t.campuses[c.value], matricule, FinalEmail(t.users, dto.studentName, matricule), password, now, salt)
  }

  /** The writes of a registration whose checks have passed, in the order the service makes
      them. A `null` amount is refused by `payment.create` before anything is written. The writes
      are not one transaction: a clash on the (suffixed) e-mail leaves the payment row in place. */
  function OpenAccount(t: Tables, dto: RegisterPaymentDto, campus: Campus, matricule: string, email: string,
                       password: string, now: Time, salt: nat): Outcome
  {
    if dto.amount.None? then Outcome(t, Err(NullValue("amount")), [])
    else
      var payment := NewPayment(dto, dto.amount.value, matricule, now);
      AddStudent(InsertPayment(t, payment), |t.payments|, dto, campus, matricule, payment.(id := t.nextId),
                 email, password, now, salt)
  }

  /** The account insert, once the payment row at index `k` is written: it fails on a taken
      e-mail (or payment link), and otherwise the credentials go out. */
  function AddStudent(t: Tables, k: nat, dto: RegisterPaymentDto, campus: Campus, matricule: string,
                      payment: Payment, email: string, password: string, now: Time, salt: nat): Outcome
    requires k < |t.payments|
  {
    var student := NewStudent(dto, campus.id, email, payment.id, Credentials.Hash(password, salt), now);
    var clash := UserClash(t.users, student);
    if clash.Some? then Outcome(t, Err(clash.value), [])
    else Notify(InsertUser(t, student), k, dto, campus, matricule, payment, student.(id := t.nextId), password, now)
  }

  /** The payment at index `k` records that the credentials went out on every channel, and the
      audit entry is appended. */
  function Notify(t: Tables, k: nat, dto: RegisterPaymentDto, campus: Campus, matricule: string,
                  payment: Payment, user: User, password: string, now: Time): Outcome
    requires k < |t.payments|
  {
    var flags := DeliveryFlags(true, true, true);
    var notified := payment.(credentialsSentAt := Some(now), emailSent := flags.emailSent,
                             smsSent := flags.smsSent, whatsappSent := flags.whatsappSent);
    Outcome(
      InsertAudit(ReplacePayment(t, k, notified), AuditFor(user.id, matricule, payment.amount, campus, payment.id)),
      Ok(Registration(user.id, user.fullName, user.institutionalEmail, matricule, payment.id,
                      payment.externalRef, payment.amount, flags, password)),
      CredentialsDeliveries(CredentialsParams(dto.studentName, user.institutionalEmail, dto.personalEmail,
                                              dto.phoneNumber, password)))
  }

  /** `registerPayment`, step by step against the store. */
  method RegisterPayment(db: Database, outbox: Outbox, dto: RegisterPaymentDto, year: nat, now: Time,
                         digits: Credentials.TwoDigitNumber, salt: nat) returns (r: Result<Registration, Error>)
    requires db.Valid()
    modifies db, outbox
    ensures db.Valid()
    ensures var o := Register(old(db.Snapshot()), dto, year, now, digits, salt);
      db.Snapshot() == o.tables && r == o.result
      && outbox.sent == old(outbox.sent) + o.deliveries && outbox.warnings == old(outbox.warnings)
  {
    // 1. The reference must be new.
    if PaymentByRef(db.payments, dto.paymentReference).Some? {
      assert outbox.sent == old(outbox.sent) + [];
      return Err(BadRequest(DuplicateReferenceMessage));
    }
    // 2. Matricule.
    var matricule := Identity.GenerateMatricule(db.users, year);
    // 4. Password.
    var temporaryPassword := Credentials.PasswordFromName(dto.studentName, digits);
    ghost var before := db.Snapshot();
    assert matricule == Identity.NextMatricule(before.users, year);
    assert Register(before, dto, year, now, digits, salt) == Enrol(before, dto, matricule, temporaryPassword, now, salt);
    r := EnrolStudent(db, outbox, dto, matricule, temporaryPassword, now, salt);
  }

  /** Steps 3 and 5 of `registerPayment`: the name-based e-mail, with the matricule's last three
      characters appended when the plain one is taken, and the campus. */
  method EnrolStudent(db: Database, outbox: Outbox, dto: RegisterPaymentDto, matricule: string, password: string,
                      now: Time, salt: nat) returns (r: Result<Registration, Error>)
    requires db.Valid() && PaymentByRef(db.payments, dto.paymentReference).None?
    modifies db, outbox
    ensures db.Valid()
    ensures var o := Enrol(old(db.Snapshot()), dto, matricule, password, now, salt);
      db.Snapshot() == o.tables && r == o.result
      && outbox.sent == old(outbox.sent) + o.deliveries && outbox.warnings == old(outbox.warnings)
  {
    var institutionalEmail := Identity.EmailFromName(dto.studentName, "");
    var existingUser := UserByEmail(db.users, institutionalEmail);
    var finalEmail := if existingUser.Some? then Identity.EmailFromName(dto.studentName, SliceLast(matricule, 3)) else institutionalEmail;
    var c := CampusBySlug(db.campuses, CampusSlug(dto.campus));
    if c.None? {
      assert outbox.sent == old(outbox.sent) + [];
      return Err(BadRequest(InvalidCampusMessage));
    }
    EnrolOpensAccount(db.Snapshot(), dto, matricule, password, now, salt);
    r := WriteAccount(db, outbox, dto, db.campuses[c.value], matricule, finalEmail, password, now, salt);
  }

  /** Past the campus check, enrolment is the account write under the final e-mail. */
  lemma EnrolOpensAccount(t: Tables, dto: RegisterPaymentDto, matricule: string, password: string, now: Time, salt: nat)
    requires CampusBySlug(t.campuses, CampusSlug(dto.campus)).Some?
    ensures Enrol(t, dto, matricule, password, now, salt)
         == OpenAccount(t, dto, t.campuses[CampusBySlug(t.campuses, CampusSlug(dto.campus)).value], matricule,
                        FinalEmail(t.users, dto.studentName, matricule), password, now, salt)
  {
  }

  /** Steps 6 and 7 of `registerPayment`: the payment row, then the account row. */
  method WriteAccount(db: Database, outbox: Outbox, dto: RegisterPaymentDto, campus: Campus, matricule: string,
                      email: string, password: string, now: Time, salt: nat) returns (r: Result<Registration, Error>)
    requires db.Valid() && PaymentByRef(db.payments, dto.paymentReference).None?
    modifies db, outbox
    ensures db.Valid()
    ensures var o := OpenAccount(old(db.Snapshot()), dto, campus, matricule, email, password, now, salt);
      db.Snapshot() == o.tables && r == o.result
      && outbox.sent == old(outbox.sent) + o.deliveries && outbox.warnings == old(outbox.warnings)
  {
    if dto.amount.None? {
      assert outbox.sent == old(outbox.sent) + [];
      return Err(NullValue("amount"));
    }
    var k := |db.payments|;
    // 6. Payment row.
    var created := db.CreatePayment(NewPayment(dto, dto.amount.value, matricule, now));
    r := AddStudentAccount(db, outbox, k, dto, campus, matricule, created.value, email, password, now, salt);
  }

  /** Step 7 of `registerPayment`: the account row, tied to the payment at index `k`. */
  method AddStudentAccount(db: Database, outbox: Outbox, k: nat, dto: RegisterPaymentDto, campus: Campus,
                           matricule: string, payment: Payment, email: string, password: string, now: Time,
                           salt: nat) returns (r: Result<Registration, Error>)
    requires db.Valid() && k < |db.payments| && db.payments[k] == payment
    modifies db, outbox
    ensures db.Valid()
    ensures var o := AddStudent(old(db.Snapshot()), k, dto, campus, matricule, payment, email, password, now, salt);
      db.Snapshot() == o.tables && r == o.result
      && outbox.sent == old(outbox.sent) + o.deliveries && outbox.warnings == old(outbox.warnings)
  {
    var hashedPassword := Credentials.Hash(password, salt);
    assert payment.id < db.nextId;
    var userResult := db.CreateUser(NewStudent(dto, campus.id, email, payment.id, hashedPassword, now));
    if userResult.Err? {
      assert outbox.sent == old(outbox.sent) + [];
      return Err(userResult.error);
    }
    r := NotifyAndAudit(db, outbox, k, dto, campus, matricule, payment, userResult.value, password, now);
  }

  /** Steps 8 to 10 of `registerPayment`, once both rows exist: send the credentials, record the
      flags on the payment and append the audit entry. */
  method NotifyAndAudit(db: Database, outbox: Outbox, k: nat, dto: RegisterPaymentDto, campus: Campus,
                        matricule: string, payment: Payment, user: User, password: string, now: Time)
    returns (r: Result<Registration, Error>)
    requires db.Valid() && k < |db.payments| && db.payments[k] == payment
    modifies db, outbox
    ensures db.Valid()
    ensures var o := Notify(old(db.Snapshot()), k, dto, campus, matricule, payment, user, password, now);
      db.Snapshot() == o.tables && r == o.result
      && outbox.sent == old(outbox.sent) + o.deliveries && outbox.warnings == old(outbox.warnings)
  {
    // 8. Credentials.
    var flags := SendCredentials(outbox, CredentialsParams(dto.studentName, user.institutionalEmail, dto.personalEmail, dto.phoneNumber, password));
    // 9. Notification flags on the payment.
    db.UpdatePayment(k, payment.(credentialsSentAt := Some(now), emailSent := flags.emailSent,
                                 smsSent := flags.smsSent, whatsappSent := flags.whatsappSent));
    // 10. Audit entry.
    var _ := db.CreateAuditEntry(AuditFor(user.id, matricule, payment.amount, campus, payment.id));
    r := Ok(Registration(user.id, user.fullName, user.institutionalEmail, matricule, payment.id,
                         payment.externalRef, payment.amount, flags, password));
  }

  // ---------------------------------------------------------------------------------------------
  // Properties of a registration

  /** A reference already on file is refused and nothing is written or sent. */
  lemma {:induction false} RejectsDuplicateReference(t: Tables, dto: RegisterPaymentDto, year: nat, now: Time,
                                  digits: Credentials.TwoDigitNumber, salt: nat)
    requires exists i :: 0 <= i < |t.payments| && t.payments[i].externalRef == dto.paymentReference
    ensures Register(t, dto, year, now, digits, salt) == Outcome(t, Err(BadRequest(DuplicateReferenceMessage)), [])
  {
  }

  /** An unknown campus slug is refused and nothing is written or sent. */
  lemma {:induction false} RejectsUnknownCampus(t: Tables, dto: RegisterPaymentDto, year: nat, now: Time,
                             digits: Credentials.TwoDigitNumber, salt: nat)
    requires forall i :: 0 <= i < |t.payments| ==> t.payments[i].externalRef != dto.paymentReference
    requires forall i :: 0 <= i < |t.campuses| ==> t.campuses[i].slug != CampusSlug(dto.campus)
    ensures Register(t, dto, year, now, digits, salt) == Outcome(t, Err(BadRequest(InvalidCampusMessage)), [])
  {
  }

  /** When the suffixed e-mail is taken too, the account insert fails but the payment row, written
      first and outside any transaction, stays. */
  lemma {:induction false} ClashLeavesPaymentBehind(t: Tables, dto: RegisterPaymentDto, year: nat, now: Time,
                                 digits: Credentials.TwoDigitNumber, salt: nat)
    requires forall i :: 0 <= i < |t.payments| ==> t.payments[i].externalRef != dto.paymentReference
    requires CampusBySlug(t.campuses, CampusSlug(dto.campus)).Some? && dto.amount.Some?
    requires UserByEmail(t.users, FinalEmail(t.users, dto.studentName, Identity.NextMatricule(t.users, year))).Some?
    ensures var o := Register(t, dto, year, now, digits, salt);
      && o.result == Err(UniqueConstraintFailed("institutionalEmail"))
      && o.tables.users == t.users && o.tables.auditLog == t.auditLog && o.deliveries == []
      && |o.tables.payments| == |t.payments| + 1 && o.tables.payments[..|t.payments|] == t.payments
      && o.tables.payments[|t.payments|].externalRef == dto.paymentReference
  {
    assert PaymentByRef(t.payments, dto.paymentReference).None?;
    var o := Register(t, dto, year, now, digits, salt);
    assert o.tables.payments[..|t.payments|] == t.payments;
  }

  /** Writing an account whose e-mail is free appends exactly one payment, one account and one
      audit entry, leaves every other table alone, and reports what it stored. The new payment
      has the next id, to which no account is linked yet. */
  lemma {:induction false} AccountWrites(t: Tables, dto: RegisterPaymentDto, campus: Campus, matricule: string,
                                         email: string, password: string, now: Time, salt: nat)
    requires TablesValid(t) && dto.amount.Some? && UserByEmail(t.users, email).None?
    ensures var o := OpenAccount(t, dto, campus, matricule, email, password, now, salt);
      var t' := o.tables;
      && o.result.Ok?
      && |t'.payments| == |t.payments| + 1 && t'.payments[..|t.payments|] == t.payments
      && |t'.users| == |t.users| + 1 && t'.users[..|t.users|] == t.users
      && |t'.auditLog| == |t.auditLog| + 1 && t'.auditLog[..|t.auditLog|] == t.auditLog
      && t'.campuses == t.campuses && t'.profileRequests == t.profileRequests
      && t'.complaints == t.complaints && t'.staff == t.staff && t'.courses == t.courses
      && t'.enrollments == t.enrollments && t'.events == t.events
  {
    assert UserByPayment(t.users, t.nextId).None?;
    var o := OpenAccount(t, dto, campus, matricule, email, password, now, salt);
    assert o.tables.payments[..|t.payments|] == t.payments;
    assert o.tables.users[..|t.users|] == t.users;
    assert o.tables.auditLog[..|t.auditLog|] == t.auditLog;
  }

  /** The rows an account write stores agree with each other and with the answer: a cleared
      payment with the reference and matricule, an active student tied to that payment with the
      hashed password, an audit entry naming both, and the three credentials messages. */
  lemma {:induction false} AccountRows(t: Tables, dto: RegisterPaymentDto, campus: Campus, matricule: string,
                                       email: string, password: string, now: Time, salt: nat)
    requires TablesValid(t) && dto.amount.Some? && UserByEmail(t.users, email).None?
    ensures var o := OpenAccount(t, dto, campus, matricule, email, password, now, salt);
      var reg := o.result.value;
      var t' := o.tables;
      && o.result.Ok?
      && |t'.payments| > |t.payments| && |t'.users| > |t.users| && |t'.auditLog| > |t.auditLog|
      && var p, u, a := t'.payments[|t.payments|], t'.users[|t.users|], t'.auditLog[|t.auditLog|];
      && p.id == reg.paymentId && p.externalRef == dto.paymentReference == reg.reference
      && p.status == Cleared && p.studentMatricule == Some(matricule) && reg.matricule == matricule
      && p.amount == dto.amount.value == reg.amount && p.credentialsSentAt == Some(now)
      && p.emailSent == reg.notifications.emailSent && p.smsSent == reg.notifications.smsSent
      && p.whatsappSent == reg.notifications.whatsappSent
      && reg.notifications == DeliveryFlags(true, true, true)
      && u.id == reg.userId && u.role == Student && u.isActive && u.campusIdHome == Some(campus.id)
      && u.createdFromPaymentId == Some(p.id) && u.institutionalEmail == email == reg.institutionalEmail
      && u.fullName == dto.studentName == reg.fullName
      && u.password == Credentials.Hash(password, salt) && reg.temporaryPassword == password
      && a.userId == u.id && a.action == CreatedViaPayment && a.metadata.paymentId == p.id
      && a.metadata.matricule == matricule && a.metadata.campus == campus.slug
      && a.metadata.paymentAmount == NumberToString(dto.amount.value)
      && o.deliveries == CredentialsDeliveries(CredentialsParams(dto.studentName, email, dto.personalEmail,
                                                                 dto.phoneNumber, password))
  {
    assert UserByPayment(t.users, t.nextId).None?;
  }

  /** A `null` amount is refused when the payment row is created: nothing is written or sent. */
  lemma {:induction false} NullAmountRefused(t: Tables, dto: RegisterPaymentDto, year: nat, now: Time,
                                             digits: Credentials.TwoDigitNumber, salt: nat)
    requires forall i :: 0 <= i < |t.payments| ==> t.payments[i].externalRef != dto.paymentReference
    requires CampusBySlug(t.campuses, CampusSlug(dto.campus)).Some? && dto.amount.None?
    ensures Register(t, dto, year, now, digits, salt) == Outcome(t, Err(NullValue("amount")), [])
  {
    assert PaymentByRef(t.payments, dto.paymentReference).None?;
  }

  /** The body the desk form sends, as the endpoint reads it after the JSON round trip. */
  function Received(req: CashierScreen.Request): (dto: RegisterPaymentDto)
    ensures dto.amount.Some? <==> req.amount.Finite?
    ensures dto.amount.Some? ==> dto.amount.value == req.amount
    ensures dto.campus == Some(req.campus)
  {
    RegisterPaymentDto(req.studentName, req.personalEmail, req.phoneNumber, JsonValue(req.amount),
                       req.paymentReference, Some(req.campus))
  }

  /** An amount with no number in it, such as 'abc', passes the desk form's check, arrives as
      `null` and is refused by the payment create: nothing is written or sent. */
  lemma {:induction false} NonNumericAmountNeverStored(t: Tables, f: CashierScreen.Form, year: nat, now: Time,
                                                       digits: Credentials.TwoDigitNumber, salt: nat)
    requires CashierScreen.Validate(f).Ok? && ParseFloat(f.amount) == NaN
    requires forall i :: 0 <= i < |t.payments| ==> t.payments[i].externalRef != f.paymentReference
    requires CampusBySlug(t.campuses, CashierScreen.FormCampus).Some?
    ensures Register(t, Received(CashierScreen.Validate(f).value), year, now, digits, salt)
         == Outcome(t, Err(NullValue("amount")), [])
  {
    var dto := Received(CashierScreen.Validate(f).value);
    assert CampusSlug(dto.campus) == CashierScreen.FormCampus;
    NullAmountRefused(t, dto, year, now, digits, salt);
  }

  /** The audit entry records the amount as the desk typed it, for an amount typed as a whole
      number of francs with no leading zero. */
  lemma {:induction false} AuditedWholeAmount(t: Tables, dto: RegisterPaymentDto, campus: Campus, matricule: string,
                                              email: string, password: string, now: Time, salt: nat, typed: nat)
    requires typed < Pow10(21) && TablesValid(t) && dto.amount == Some(ParseFloat(NatToString(typed)))
    requires UserByEmail(t.users, email).None?
    ensures var o := OpenAccount(t, dto, campus, matricule, email, password, now, salt);
      && |o.tables.auditLog| > |t.auditLog|
      && o.tables.auditLog[|t.auditLog|].metadata.paymentAmount == NatToString(typed)
  {
    AccountRows(t, dto, campus, matricule, email, password, now, salt);
    WholeNumberRoundTrip(typed);
  }

  /** The same for an amount typed with a fractional part that ends in a non-zero digit: the
      audit entry keeps the decimals, `"1500.5"` for 1500.5. */
  lemma {:induction false} AuditedFractionalAmount(t: Tables, dto: RegisterPaymentDto, campus: Campus,
                                                   matricule: string, email: string, password: string, now: Time,
                                                   salt: nat, whole: nat, frac: string)
    requires 1 <= whole < Pow10(21) && AllDigits(frac) && frac != [] && frac[|frac| - 1] != '0'
    requires TablesValid(t) && dto.amount == Some(ParseFloat(NatToString(whole) + "." + frac))
    requires UserByEmail(t.users, email).None?
    ensures var o := OpenAccount(t, dto, campus, matricule, email, password, now, salt);
      && |o.tables.auditLog| > |t.auditLog|
      && o.tables.auditLog[|t.auditLog|].metadata.paymentAmount == NatToString(whole) + "." + frac
  {
    AccountRows(t, dto, campus, matricule, email, password, now, salt);
    FractionRoundTrip(whole, frac);
  }

  /** A successful registration used the next matricule, the name-based e-mail rule and a free
      e-mail, and wrote as `AccountWrites` and `AccountRows` describe. */
  lemma {:induction false} SuccessfulRegistration(t: Tables, dto: RegisterPaymentDto, year: nat, now: Time,
                                                 digits: Credentials.TwoDigitNumber, salt: nat)
    requires Register(t, dto, year, now, digits, salt).result.Ok?
    ensures var matricule := Identity.NextMatricule(t.users, year);
      var email := FinalEmail(t.users, dto.studentName, matricule);
      var c := CampusBySlug(t.campuses, CampusSlug(dto.campus));
      && PaymentByRef(t.payments, dto.paymentReference).None?
      && c.Some? && UserByEmail(t.users, email).None? && dto.amount.Some?
      && Register(t, dto, year, now, digits, salt)
         == OpenAccount(t, dto, t.campuses[c.value], matricule, email,
                        Credentials.PasswordFromName(dto.studentName, digits), now, salt)
  {
    var matricule := Identity.NextMatricule(t.users, year);
    var email := FinalEmail(t.users, dto.studentName, matricule);
    var password := Credentials.PasswordFromName(dto.studentName, digits);
    assert PaymentByRef(t.payments, dto.paymentReference).None?;
    assert Register(t, dto, year, now, digits, salt) == Enrol(t, dto, matricule, password, now, salt);
  }

  /** An account with a name-based e-mail leaves the matricule scan's maximum where it was. */
  lemma {:induction false} AccountKeepsSequence(t: Tables, dto: RegisterPaymentDto, campus: Campus, matricule: string,
                                                suffix: string, password: string, now: Time, salt: nat, yy: string)
    requires OpenAccount(t, dto, campus, matricule, Identity.EmailFromName(dto.studentName, suffix),
                         password, now, salt).result.Ok?
    ensures var email := Identity.EmailFromName(dto.studentName, suffix);
      Identity.MaxSequence(OpenAccount(t, dto, campus, matricule, email, password, now, salt).tables.users, yy)
      == Identity.MaxSequence(t.users, yy)
  {
    var email := Identity.EmailFromName(dto.studentName, suffix);
    AccountUsers(t, dto, campus, matricule, email, password, now, salt);
    var u := NewStudent(dto, campus.id, email, t.nextId, Credentials.Hash(password, salt), now).(id := t.nextId + 1);
    Identity.NameEmailKeepsMaxSequence(t.users, u, dto.studentName, suffix, yy);
  }

  /** A successful account write appends exactly the new student to the users. */
  lemma AccountUsers(t: Tables, dto: RegisterPaymentDto, campus: Campus, matricule: string, email: string,
                     password: string, now: Time, salt: nat)
    requires OpenAccount(t, dto, campus, matricule, email, password, now, salt).result.Ok?
    ensures OpenAccount(t, dto, campus, matricule, email, password, now, salt).tables.users
         == t.users + [NewStudent(dto, campus.id, email, t.nextId, Credentials.Hash(password, salt), now).(id := t.nextId + 1)]
  {
  }

  /** A successful registration answers with the next matricule. */
  lemma {:induction false} RegistrationMatricule(t: Tables, dto: RegisterPaymentDto, year: nat, now: Time,
                                                 digits: Credentials.TwoDigitNumber, salt: nat)
    requires Register(t, dto, year, now, digits, salt).result.Ok?
    ensures Register(t, dto, year, now, digits, salt).result.value.matricule == Identity.NextMatricule(t.users, year)
  {
    SuccessfulRegistration(t, dto, year, now, digits, salt);
    var matricule := Identity.NextMatricule(t.users, year);
    AccountAnswer(t, dto, t.campuses[CampusBySlug(t.campuses, CampusSlug(dto.campus)).value], matricule,
                  FinalEmail(t.users, dto.studentName, matricule), Credentials.PasswordFromName(dto.studentName, digits),
                  now, salt);
  }

  /** A successful account write answers with the matricule it was given. */
  lemma AccountAnswer(t: Tables, dto: RegisterPaymentDto, campus: Campus, matricule: string, email: string,
                      password: string, now: Time, salt: nat)
    requires OpenAccount(t, dto, campus, matricule, email, password, now, salt).result.Ok?
    ensures OpenAccount(t, dto, campus, matricule, email, password, now, salt).result.value.matricule == matricule
  {
  }

  /** The account created at the desk has a name-based e-mail, which the matricule scan never
      counts: the maximum sequence of the year is the same after the registration. */
  lemma {:induction false} RegistrationKeepsMaxSequence(t: Tables, dto: RegisterPaymentDto, year: nat, now: Time,
                                                       digits: Credentials.TwoDigitNumber, salt: nat)
    requires Register(t, dto, year, now, digits, salt).result.Ok?
    ensures var yy := Identity.YearPrefix(year);
      Identity.MaxSequence(Register(t, dto, year, now, digits, salt).tables.users, yy)
      == Identity.MaxSequence(t.users, yy)
  {
    SuccessfulRegistration(t, dto, year, now, digits, salt);
    var m := Identity.NextMatricule(t.users, year);
    var campus := t.campuses[CampusBySlug(t.campuses, CampusSlug(dto.campus)).value];
    var password := Credentials.PasswordFromName(dto.studentName, digits);
    var yy := Identity.YearPrefix(year);
    if UserByEmail(t.users, Identity.EmailFromName(dto.studentName, "")).Some? {
      AccountKeepsSequence(t, dto, campus, m, SliceLast(m, 3), password, now, salt, yy);
    } else {
      AccountKeepsSequence(t, dto, campus, m, "", password, now, salt, yy);
    }
  }

  /** So the next registration of the same year is handed the same matricule. */
  lemma {:induction false} RegistrationKeepsSequence(t: Tables, dto: RegisterPaymentDto, year: nat, now: Time,
                                                    digits: Credentials.TwoDigitNumber, salt: nat)
    requires Register(t, dto, year, now, digits, salt).result.Ok?
    ensures Identity.NextMatricule(Register(t, dto, year, now, digits, salt).tables.users, year) == Identity.NextMatricule(t.users, year)
  {
    RegistrationKeepsMaxSequence(t, dto, year, now, digits, salt);
    Identity.SameMaximumSameMatricule(Register(t, dto, year, now, digits, salt).tables.users, t.users, year);
  }

  /** Two desk registrations in a row hand out the same matricule. */
  lemma {:induction false} TwoRegistrationsShareMatricule(t: Tables, first: RegisterPaymentDto, second: RegisterPaymentDto,
                                       year: nat, now: Time, digits: Credentials.TwoDigitNumber, salt: nat,
                                       now2: Time, digits2: Credentials.TwoDigitNumber, salt2: nat)
    requires Register(t, first, year, now, digits, salt).result.Ok?
    requires Register(Register(t, first, year, now, digits, salt).tables, second, year, now2, digits2, salt2).result.Ok?
    ensures Register(Register(t, first, year, now, digits, salt).tables, second, year, now2, digits2, salt2).result.value.matricule
         == Register(t, first, year, now, digits, salt).result.value.matricule
  {
    var t1 := Register(t, first, year, now, digits, salt).tables;
    RegistrationMatricule(t, first, year, now, digits, salt);
    RegistrationMatricule(t1, second, year, now2, digits2, salt2);
    RegistrationKeepsSequence(t, first, year, now, digits, salt);
  }

  /** With no matricule-shaped e-mail of the year on file, every desk registration gets the
      year's first matricule, `YY00001`. */
  lemma {:induction false} FirstMatriculeOfYear(users: seq<User>, year: nat)
    requires forall i :: 0 <= i < |users| ==> !Identity.Counted(users[i].institutionalEmail, Identity.YearPrefix(year))
    ensures Identity.NextMatricule(users, year) == Identity.YearPrefix(year) + "00001"
  {
    var yy := Identity.YearPrefix(year);
    Identity.MaxSequenceAttained(users, yy);
    assert Identity.MaxSequence(users, yy) == 0;
    Identity.FirstOfYear(yy);
  }

  /** The suffix is the last three characters of the matricule; it never collides with the plain
      name-based e-mail. */
  lemma {:induction false} SuffixedEmailDiffers(users: seq<User>, fullName: string, matricule: string)
    requires |matricule| >= 3
    requires UserByEmail(users, Identity.EmailFromName(fullName, "")).Some?
    ensures FinalEmail(users, fullName, matricule) != Identity.EmailFromName(fullName, "")
    ensures FinalEmail(users, fullName, matricule) == Identity.EmailFromName(fullName, matricule[|matricule| - 3..])
  {
    Identity.SuffixDisambiguates(fullName, SliceLast(matricule, 3));
  }
}
