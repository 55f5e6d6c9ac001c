/**
 * The payment gateway's clearance webhook: `PaymentController.handleWebhook` hands a CLEARED
 * payment to `PaymentService.handlePaymentCleared`, which creates the student account named after
 * the payment's matricule, or reactivates it, and logs the credentials it "sends".
 */
module Webhook {
  import opened Wrappers
  import opened Store
  import opened JsNumber
  import Credentials
  import Identity
  import Cashier

  const InvalidPaymentState: string := "Invalid payment state"

  /** The full name a webhook account carries until the student registers one. */
  const PendingName: string := "Pending Name Registration"

  /** The mock notices `dispatchCredentials` writes to the log: their recipients and the
      credentials they carry, not their wording. */
  datatype Notice =
    | EmailNotice(to: string, password: string)
    | SmsNotice(to: string, email: string, password: string)
    | WhatsAppNotice(to: string, email: string, password: string)
    | SkippedPhoneWarning(email: string)

  /** JavaScript truthiness of a `string | null`: present and not empty. */
  predicate Truthy(s: Option<string>) {
    s.Some? && s.value != ""
  }

  /** The address the webhook looks up and creates: the matricule at the institutional domain. */
  function AccountEmail(matricule: string): string {
    matricule + Identity.Domain
  }

  /** `dispatchCredentials`: the e-mail notice, then SMS and WhatsApp when there is a phone, or a
      warning that they were skipped. */
  function Dispatch(email: string, phone: Option<string>, pass: string): seq<Notice> {
    if Truthy(phone) then
      [EmailNotice(email, pass), SmsNotice(phone.value, email, pass), WhatsAppNotice(phone.value, email, pass)]
    else
      [EmailNotice(email, pass), SkippedPhoneWarning(email)]
  }

  /** The account row `handlePaymentCleared` creates, before the store assigns its id: a
      student, active, connected to the payment, with no phone, campus or recovery e-mail. */
  function NewAccount(email: string, paymentId: Id, password: Credentials.PasswordHash): User {
    User(0, Student, email, PendingName, None, None, None, Some(paymentId), true, password, None)
  }

  /** The store, the answer and the notices after one call. */
  datatype Outcome<R> = Outcome(tables: Tables, result: Result<R, Error>, notices: seq<Notice>)

  /** `handlePaymentCleared(paymentId)` in one step; `entropy` is what `randomBytes(8)` returns
      and `salt` what bcrypt draws. */
  function HandleCleared(t: Tables, paymentId: Id, entropy: Credentials.Entropy, salt: nat): Outcome<()> {
    match PaymentById(t.payments, paymentId)
    case None => Outcome(t, Err(Failure(InvalidPaymentState)), [])
    case Some(k) =>
      var payment := t.payments[k];
      if payment.status != Cleared then Outcome(t, Err(Failure(InvalidPaymentState)), [])
      else if !Truthy(payment.studentMatricule) then Outcome(t, Ok(()), [])
      else ProvisionAccount(t, payment.id, AccountEmail(payment.studentMatricule.value), entropy, salt)
  }

  /** Create the account when the address is free, reactivate it when it is inactive, and
      otherwise leave it alone. The create connects the account to the payment, so it fails on
      the unique payment link when another account already holds that payment. */
  function ProvisionAccount(t: Tables, paymentId: Id, email: string, entropy: Credentials.Entropy, salt: nat): Outcome<()> {
    match UserByEmail(t.users, email)
    case None =>
      var password := Credentials.RandomHexPassword(entropy);
      var account := NewAccount(email, paymentId, Credentials.Hash(password, salt));
      var clash := UserClash(t.users, account);
      if clash.Some? then Outcome(t, Err(clash.value), [])
      else Outcome(InsertUser(t, account), Ok(()), Dispatch(email, account.phone, password))
    case Some(j) =>
      if !t.users[j].isActive then Outcome(ReplaceUser(t, j, t.users[j].(isActive := true)), Ok(()), [])
      else Outcome(t, Ok(()), [])
  }

  /** The body of a gateway notification. Only `paymentId` and `status` are read. */
  datatype WebhookPayload = WebhookPayload(
    paymentId: Id,
    externalRef: string,
    amount: Number,
    status: PaymentStatus,
    studentMatricule: Option<string>)

  /** The acknowledgement `{ received: true }`. */
  datatype Ack = Received

  /** `handleWebhook`: only a CLEARED notification is processed; a failure of the handler is not
      caught, so the request fails instead of being acknowledged. */
  function HandleWebhook(t: Tables, payload: WebhookPayload, entropy: Credentials.Entropy, salt: nat): Outcome<Ack> {
    if payload.status == Cleared then
      var o := HandleCleared(t, payload.paymentId, entropy, salt);
      Outcome(o.tables, if o.result.Ok? then Ok(Received) else Err(o.result.error), o.notices)
    else
      Outcome(t, Ok(Received), [])
  }

  // ---------------------------------------------------------------------------------------------
  // Step by step against the store

  /** The application log the mock channels write to. */
  class NoticeLog {
    var notices: seq<Notice>

    constructor ()
      ensures notices == []
    {
      notices := [];
    }

    method Log(n: Notice)
      modifies this
      ensures notices == old(notices) + [n]
    {
      notices := notices + [n];
    }
  }

  method DispatchCredentials(log: NoticeLog, email: string, phone: Option<string>, pass: string)
    modifies log
    ensures log.notices == old(log.notices) + Dispatch(email, phone, pass)
  {
    log.Log(EmailNotice(email, pass));
    if phone.Some? && phone.value != "" {
      log.Log(SmsNotice(phone.value, email, pass));
      log.Log(WhatsAppNotice(phone.value, email, pass));
    } else {
      log.Log(SkippedPhoneWarning(email));
    }
  }

  method HandlePaymentCleared(db: Database, log: NoticeLog, paymentId: Id, entropy: Credentials.Entropy, salt: nat)
    returns (r: Result<(), Error>)
    requires db.Valid()
    modifies db, log
    ensures db.Valid()
    ensures var o := HandleCleared(old(db.Snapshot()), paymentId, entropy, salt);
      db.Snapshot() == o.tables && r == o.result && log.notices == old(log.notices) + o.notices
  {
    var found := PaymentById(db.payments, paymentId);
    if found.None? || db.payments[found.value].status != Cleared {
      assert log.notices == old(log.notices) + [];
      return Err(Failure(InvalidPaymentState));
    }
    var payment := db.payments[found.value];
    if !(payment.studentMatricule.Some? && payment.studentMatricule.value != "") {
      assert log.notices == old(log.notices) + [];
      return Ok(());
    }
    r := ProvisionStudent(db, log, payment.id, AccountEmail(payment.studentMatricule.value), entropy, salt);
  }

  /** Lines 31 to 64 of `handlePaymentCleared`: look the address up, then create or reactivate. */
  method ProvisionStudent(db: Database, log: NoticeLog, paymentId: Id, email: string,
                          entropy: Credentials.Entropy, salt: nat) returns (r: Result<(), Error>)
    requires db.Valid() && PaymentById(db.payments, paymentId).Some?
    modifies db, log
    ensures db.Valid()
    ensures var o := ProvisionAccount(old(db.Snapshot()), paymentId, email, entropy, salt);
      db.Snapshot() == o.tables && r == o.result && log.notices == old(log.notices) + o.notices
  {
    var found := UserByEmail(db.users, email);
    if found.None? {
      r := CreateStudentAccount(db, log, paymentId, email, entropy, salt);
    } else {
      var user := db.users[found.value];
      if !user.isActive {
        var _ := db.UpdateUser(found.value, user.(isActive := true));
      }
      assert log.notices == old(log.notices) + [];
      r := Ok(());
    }
  }

  /** The create branch of `provisionStudent`: a temporary password, the account row, then the
      credentials mail. */
  method CreateStudentAccount(db: Database, log: NoticeLog, paymentId: Id, email: string,
                              entropy: Credentials.Entropy, salt: nat) returns (r: Result<(), Error>)
    requires db.Valid() && PaymentById(db.payments, paymentId).Some? && UserByEmail(db.users, email).None?
    modifies db, log
    ensures db.Valid()
    ensures var o := ProvisionAccount(old(db.Snapshot()), paymentId, email, entropy, salt);
      db.Snapshot() == o.tables && r == o.result && log.notices == old(log.notices) + o.notices
  {
    var tempPassword := Credentials.RandomHexPassword(entropy);
    var hashedPassword := Credentials.Hash(tempPassword, salt);
    assert paymentId < db.nextId;
    var created := db.CreateUser(NewAccount(email, paymentId, hashedPassword));
    if created.Err? {
      assert log.notices == old(log.notices) + [];
      return Err(created.error);
    }
    var user := created.value;
    DispatchCredentials(log, user.institutionalEmail, user.phone, tempPassword);
    r := Ok(());
  }

  method HandleWebhookRequest(db: Database, log: NoticeLog, payload: WebhookPayload,
                              entropy: Credentials.Entropy, salt: nat) returns (r: Result<Ack, Error>)
    requires db.Valid()
    modifies db, log
    ensures db.Valid()
    ensures var o := HandleWebhook(old(db.Snapshot()), payload, entropy, salt);
      db.Snapshot() == o.tables && r == o.result && log.notices == old(log.notices) + o.notices
  {
    if payload.status == Cleared {
      var handled := HandlePaymentCleared(db, log, payload.paymentId, entropy, salt);
      if handled.Err? {
        return Err(handled.error);
      }
    } else {
      assert log.notices == old(log.notices) + [];
    }
    r := Ok(Received);
  }

  // ---------------------------------------------------------------------------------------------
  // Properties

  /** A payment id with no CLEARED row behind it is refused with 'Invalid payment state', and
      nothing is written or logged; a CLEARED payment is never refused that way. */
  lemma {:induction false} RejectsUnclearedPayment(t: Tables, paymentId: Id, entropy: Credentials.Entropy, salt: nat)
    requires TablesValid(t)
    ensures var o := HandleCleared(t, paymentId, entropy, salt);
      && (o.result == Err(Failure(InvalidPaymentState))
          <==> !exists i :: 0 <= i < |t.payments| && t.payments[i].id == paymentId && t.payments[i].status == Cleared)
      && (o.result == Err(Failure(InvalidPaymentState)) ==> o == Outcome(t, Err(Failure(InvalidPaymentState)), []))
  {
    var found := PaymentById(t.payments, paymentId);
    if found.Some? {
      var k := found.value;
      forall i | 0 <= i < |t.payments| && t.payments[i].id == paymentId
        ensures i == k
      {
        assert t.payments[i].id == t.payments[k].id;
      }
      if t.payments[k].status == Cleared {
        assert HandleCleared(t, paymentId, entropy, salt).result != Err(Failure(InvalidPaymentState));
      }
    }
  }

  /** A cleared payment without a matricule (missing or empty) is accepted and does nothing. */
  lemma {:induction false} NoMatriculeIsNoOp(t: Tables, k: nat, entropy: Credentials.Entropy, salt: nat)
    requires TablesValid(t) && k < |t.payments| && t.payments[k].status == Cleared
    requires t.payments[k].studentMatricule.None? || t.payments[k].studentMatricule == Some("")
    ensures HandleCleared(t, t.payments[k].id, entropy, salt) == Outcome(t, Ok(()), [])
  {
    PaymentByIdIsUnique(t.payments, t.nextId, k);
  }

  /** When no account holds `matricule@university.edu`, exactly one is appended: an active
      student named 'Pending Name Registration', tied to the payment, whose password is the hash
      of 16 lower-case hexadecimal digits that encode the random bytes; the credentials notice
      goes by e-mail only, since the new account has no phone. Nothing else changes. */
  lemma {:induction false} CreatesMissingAccount(t: Tables, k: nat, entropy: Credentials.Entropy, salt: nat)
    requires TablesValid(t) && k < |t.payments| && t.payments[k].status == Cleared
    requires Truthy(t.payments[k].studentMatricule)
    requires forall i :: 0 <= i < |t.users| ==>
      t.users[i].institutionalEmail != t.payments[k].studentMatricule.value + "@university.edu"
    requires forall i :: 0 <= i < |t.users| ==> t.users[i].createdFromPaymentId != Some(t.payments[k].id)
    ensures var o := HandleCleared(t, t.payments[k].id, entropy, salt);
      var email := t.payments[k].studentMatricule.value + "@university.edu";
      && o.result == Ok(())
      && |o.tables.users| == |t.users| + 1 && o.tables.users[..|t.users|] == t.users
      && o.tables == t.(users := o.tables.users, nextId := t.nextId + 1)
      && var u := o.tables.users[|t.users|];
      && u.id == t.nextId && u.role == Student && u.isActive && u.fullName == PendingName
      && u.institutionalEmail == email && u.createdFromPaymentId == Some(t.payments[k].id)
      && u.phone.None? && u.password.salt == salt && u.password.cost == Credentials.BcryptCost
      && |u.password.plain| == 16 && (forall i :: 0 <= i < 16 ==> Credentials.IsHexDigit(u.password.plain[i]))
      && Credentials.HexDecode(u.password.plain) == entropy
      && o.notices == [EmailNotice(email, u.password.plain), SkippedPhoneWarning(email)]
  {
    PaymentByIdIsUnique(t.payments, t.nextId, k);
    DomainText();
    var o := HandleCleared(t, t.payments[k].id, entropy, salt);
    assert o.tables.users[..|t.users|] == t.users;
  }

  /** When no account holds `matricule@university.edu` but another account is already connected
      to the payment, as the one the cashier desk created for its own payment is, the create
      breaks the unique payment link: the call fails and nothing is written or logged. */
  lemma {:induction false} LinkedPaymentRefused(t: Tables, k: nat, j: nat, entropy: Credentials.Entropy, salt: nat)
    requires TablesValid(t) && k < |t.payments| && t.payments[k].status == Cleared
    requires Truthy(t.payments[k].studentMatricule)
    requires forall i :: 0 <= i < |t.users| ==>
      t.users[i].institutionalEmail != t.payments[k].studentMatricule.value + "@university.edu"
    requires j < |t.users| && t.users[j].createdFromPaymentId == Some(t.payments[k].id)
    ensures HandleCleared(t, t.payments[k].id, entropy, salt)
         == Outcome(t, Err(UniqueConstraintFailed("createdFromPaymentId")), [])
  {
    PaymentByIdIsUnique(t.payments, t.nextId, k);
    DomainText();
  }

  /** The clearance notification for a payment the cashier desk registered therefore fails: the
      desk already connected its own account to that payment. */
  lemma {:induction false} DeskPaymentRefused(t: Tables, dto: Cashier.RegisterPaymentDto, campus: Campus,
                                              matricule: string, email: string, password: string, now: Time,
                                              salt: nat, entropy: Credentials.Entropy, salt': nat)
    requires TablesValid(t) && dto.amount.Some? && UserByEmail(t.users, email).None?
    requires matricule != "" && email != AccountEmail(matricule) && UserByEmail(t.users, AccountEmail(matricule)).None?
    ensures var o := Cashier.OpenAccount(t, dto, campus, matricule, email, password, now, salt);
      && o.result.Ok?
      && HandleCleared(o.tables, o.result.value.paymentId, entropy, salt')
         == Outcome(o.tables, Err(UniqueConstraintFailed("createdFromPaymentId")), [])
  {
    var o := Cashier.OpenAccount(t, dto, campus, matricule, email, password, now, salt);
    Cashier.AccountWrites(t, dto, campus, matricule, email, password, now, salt);
    Cashier.AccountRows(t, dto, campus, matricule, email, password, now, salt);
    var t' := o.tables;
    var k := |t.payments|;
    assert t'.payments[k].id == t.nextId;
    forall i | 0 <= i < k
      ensures t'.payments[i].id != t.nextId
    {
      assert t'.payments[i] == t.payments[i];
    }
    assert PaymentById(t'.payments, t.nextId) == Some(k);
    forall i | 0 <= i < |t'.users|
      ensures t'.users[i].institutionalEmail != AccountEmail(matricule)
    {
      if i < |t.users| {
        assert t'.users[i] == t.users[i];
      }
    }
    assert UserByEmail(t'.users, AccountEmail(matricule)).None?;
    assert UserByPayment(t'.users, t.nextId).Some?;
  }

  lemma DomainText()
    ensures Identity.Domain == "@university.edu"
  {
  }

  /** An inactive account at that address is switched on, and only its `isActive` changes: no
      account is created and no credentials are sent. */
  lemma {:induction false} ReactivatesAccount(t: Tables, k: nat, j: nat, entropy: Credentials.Entropy, salt: nat)
    requires TablesValid(t) && k < |t.payments| && t.payments[k].status == Cleared
    requires Truthy(t.payments[k].studentMatricule)
    requires j < |t.users| && t.users[j].institutionalEmail == AccountEmail(t.payments[k].studentMatricule.value)
    requires !t.users[j].isActive
    ensures HandleCleared(t, t.payments[k].id, entropy, salt)
         == Outcome(t.(users := t.users[j := t.users[j].(isActive := true)]), Ok(()), [])
  {
    PaymentByIdIsUnique(t.payments, t.nextId, k);
    UserByEmailIsUnique(t.users, t.nextId, j);
  }

  /** An active account at that address is left as it is. */
  lemma {:induction false} ActiveAccountUnchanged(t: Tables, k: nat, j: nat, entropy: Credentials.Entropy, salt: nat)
    requires TablesValid(t) && k < |t.payments| && t.payments[k].status == Cleared
    requires Truthy(t.payments[k].studentMatricule)
    requires j < |t.users| && t.users[j].institutionalEmail == AccountEmail(t.payments[k].studentMatricule.value)
    requires t.users[j].isActive
    ensures HandleCleared(t, t.payments[k].id, entropy, salt) == Outcome(t, Ok(()), [])
  {
    PaymentByIdIsUnique(t.payments, t.nextId, k);
    UserByEmailIsUnique(t.users, t.nextId, j);
  }

  /** A notification handled once and delivered again finds the account active, so the second
      call changes nothing and sends nothing, whatever bytes and salt it draws. */
  lemma {:induction false} HandleClearedIdempotent(t: Tables, paymentId: Id, entropy: Credentials.Entropy, salt: nat,
                                                   entropy': Credentials.Entropy, salt': nat)
    requires HandleCleared(t, paymentId, entropy, salt).result.Ok?
    ensures var t' := HandleCleared(t, paymentId, entropy, salt).tables;
      HandleCleared(t', paymentId, entropy', salt') == Outcome(t', Ok(()), [])
  {
    var k := PaymentById(t.payments, paymentId).value;
    var payment := t.payments[k];
    if Truthy(payment.studentMatricule) {
      var email := AccountEmail(payment.studentMatricule.value);
      ProvisionKeepsPayments(t, payment.id, email, entropy, salt);
      ProvisionIdempotent(t, payment.id, email, entropy, salt, entropy', salt');
    }
  }

  lemma {:induction false} ProvisionKeepsPayments(t: Tables, paymentId: Id, email: string,
                                                  entropy: Credentials.Entropy, salt: nat)
    ensures ProvisionAccount(t, paymentId, email, entropy, salt).tables.payments == t.payments
  {
  }

  /** Provisioning the same address twice after a first call that succeeded: the second call
      finds the account active. */
  lemma {:induction false} ProvisionIdempotent(t: Tables, paymentId: Id, email: string, entropy: Credentials.Entropy,
                                               salt: nat, entropy': Credentials.Entropy, salt': nat)
    requires ProvisionAccount(t, paymentId, email, entropy, salt).result.Ok?
    ensures var t' := ProvisionAccount(t, paymentId, email, entropy, salt).tables;
      ProvisionAccount(t', paymentId, email, entropy', salt') == Outcome(t', Ok(()), [])
  {
    var users' := ProvisionAccount(t, paymentId, email, entropy, salt).tables.users;
    match UserByEmail(t.users, email)
    case None =>
      assert users'[|t.users|].institutionalEmail == email;
      assert forall i :: 0 <= i < |t.users| ==> users'[i] == t.users[i];
      assert UserByEmail(users', email) == Some(|t.users|);
    case Some(j) =>
      assert forall i :: 0 <= i < j ==> users'[i] == t.users[i];
      assert users'[j].institutionalEmail == email;
      assert UserByEmail(users', email) == Some(j);
  }

  /** The e-mail notice always goes out; SMS and WhatsApp go out, to the phone and with both the
      address and the password, exactly when the phone is present and not empty; otherwise the
      skip is logged. */
  lemma {:induction false} DispatchChannels(email: string, phone: Option<string>, pass: string)
    ensures var n := Dispatch(email, phone, pass);
      && |n| >= 2 && n[0] == EmailNotice(email, pass)
      && ((exists i :: 0 <= i < |n| && n[i].SmsNotice?) <==> Truthy(phone))
      && ((exists i :: 0 <= i < |n| && n[i].WhatsAppNotice?) <==> Truthy(phone))
      && (SkippedPhoneWarning(email) in n <==> !Truthy(phone))
      && (forall i :: 0 <= i < |n| && (n[i].SmsNotice? || n[i].WhatsAppNotice?) ==>
            n[i].to == phone.value && n[i].email == email && n[i].password == pass)
  {
    var n := Dispatch(email, phone, pass);
    if Truthy(phone) {
      assert n[1].SmsNotice? && n[2].WhatsAppNotice?;
    }
  }

  /** Only a CLEARED notification reaches the handler; PENDING and FAILED ones are acknowledged
      untouched. A handled one is acknowledged exactly when the handler succeeds, and its error
      is passed on otherwise. */
  lemma {:induction false} WebhookDispatchesOnStatus(t: Tables, payload: WebhookPayload,
                                                     entropy: Credentials.Entropy, salt: nat)
    ensures var o := HandleWebhook(t, payload, entropy, salt);
      var h := HandleCleared(t, payload.paymentId, entropy, salt);
      && (payload.status != Cleared ==> o == Outcome(t, Ok(Received), []))
      && (payload.status == Cleared ==>
            o.tables == h.tables && o.notices == h.notices
            && (o.result == Ok(Received) <==> h.result.Ok?)
            && (h.result.Err? ==> o.result == Err(h.result.error)))
  {
  }

  /** The reference, amount and matricule of the payload play no part. */
  lemma {:induction false} WebhookReadsIdAndStatusOnly(t: Tables, a: WebhookPayload, b: WebhookPayload,
                                                       entropy: Credentials.Entropy, salt: nat)
    requires a.paymentId == b.paymentId && a.status == b.status
    ensures HandleWebhook(t, a, entropy, salt) == HandleWebhook(t, b, entropy, salt)
  {
  }
}
