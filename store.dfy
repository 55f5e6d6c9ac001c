/**
 * The relational store the services talk to through the Prisma client, held in memory: one
 * sequence of rows per table, a counter standing in for generated ids, and the unique indexes
 * the services rely on (user e-mail, the user's originating payment, payment reference, primary
 * keys).
 */
module Store {
  import opened Wrappers
  import opened Collections
  import Credentials
  import opened JsNumber

  /** A generated primary key. */
  type Id = nat

  /** A `DateTime` column, as a count of milliseconds. */
  type Time = nat

  datatype Role = SuperAdmin | CampusAdmin | Cashier | Lecturer | Student | Guest

  datatype PaymentStatus = Pending | Cleared | Failed

  datatype RequestStatus = RequestPending | Approved | Rejected

  datatype User = User(
    id: Id,
    role: Role,
    institutionalEmail: string,
    fullName: string,
    recoveryEmail: Option<string>,
    phone: Option<string>,
    campusIdHome: Option<Id>,
    createdFromPaymentId: Option<Id>,
    isActive: bool,
    password: Credentials.PasswordHash,
    passwordChangedAt: Option<Time>)

  /** `amount` is the JavaScript number the caller sent, in FCFA. */
  datatype Payment = Payment(
    id: Id,
    externalRef: string,
    studentMatricule: Option<string>,
    studentName: Option<string>,
    personalEmail: Option<string>,
    phoneNumber: Option<string>,
    amount: Number,
    status: PaymentStatus,
    clearedAt: Option<Time>,
    credentialsSentAt: Option<Time>,
    emailSent: bool,
    smsSent: bool,
    whatsappSent: bool)

  datatype Campus = Campus(id: Id, slug: string, name: string)

  /** The JSON `metadata` column of an audit entry written by the cashier path. */
  datatype AuditMetadata = AuditMetadata(matricule: string, paymentAmount: string, campus: string, paymentId: Id)

  datatype AuditEntry = AuditEntry(id: Id, userId: Id, action: string, description: string, metadata: AuditMetadata)

  datatype ProfileRequest = ProfileRequest(
    id: Id,
    userId: Id,
    requestType: string,
    newValue: string,
    status: RequestStatus,
    reviewedById: Option<Id>,
    reviewedAt: Option<Time>,
    rejectionReason: Option<string>,
    createdAt: Time)

  /** `status` is kept as the text the API writes, since `updateComplaintStatus` writes any value. */
  datatype Complaint = Complaint(
    id: Id,
    userId: Id,
    category: string,
    subject: string,
    status: string,
    assignedToId: Option<Id>,
    createdAt: Time)

  datatype StaffMember = StaffMember(id: Id, userId: Id, position: string, departmentId: Id, salary: Option<Number>, hireDate: Time)

  datatype Course = Course(id: Id, code: string, title: string, departmentSlug: string)

  datatype Enrollment = Enrollment(id: Id, userId: Id, departmentSlug: string, level: int)

  datatype TimetableEvent = TimetableEvent(
    id: Id,
    courseId: Id,
    roomId: Id,
    weekday: int,
    startTime: Time,
    endTime: Time,
    recurrencePattern: string,
    campusIdForced: Option<Id>)

  /** What a service call can throw. */
  datatype Error =
    | BadRequest(message: string)        // a BadRequestException
    | Failure(message: string)           // a plain Error
    | UniqueConstraintFailed(field: string)
    | RecordNotFound                     // update or delete of a row that does not exist
    | NullValue(field: string)           // `null` given for a required column

  /** The store and the answer after a call that only writes rows. */
  datatype Written<R> = Written(tables: Tables, result: Result<R, Error>)

  /** The whole store as a value. */
  datatype Tables = Tables(
    users: seq<User>,
    payments: seq<Payment>,
    campuses: seq<Campus>,
    auditLog: seq<AuditEntry>,
    profileRequests: seq<ProfileRequest>,
    complaints: seq<Complaint>,
    staff: seq<StaffMember>,
    courses: seq<Course>,
    enrollments: seq<Enrollment>,
    events: seq<TimetableEvent>,
    nextId: Id)

  // ---------------------------------------------------------------------------------------------
  // Unique indexes

  ghost predicate UsersValid(users: seq<User>, next: Id) {
    && (forall i :: 0 <= i < |users| ==> users[i].id < next)
    && (forall i, j :: 0 <= i < j < |users| ==> users[i].id != users[j].id)
    && (forall i, j :: 0 <= i < j < |users| ==> users[i].institutionalEmail != users[j].institutionalEmail)
    && (forall i :: 0 <= i < |users| && users[i].createdFromPaymentId.Some? ==> users[i].createdFromPaymentId.value < next)
    && (forall i, j :: 0 <= i < j < |users| && users[i].createdFromPaymentId.Some? ==>
          users[i].createdFromPaymentId != users[j].createdFromPaymentId)
  }

  ghost predicate PaymentsValid(payments: seq<Payment>, next: Id) {
    && (forall i :: 0 <= i < |payments| ==> payments[i].id < next)
    && (forall i, j :: 0 <= i < j < |payments| ==> payments[i].id != payments[j].id)
    && (forall i, j :: 0 <= i < j < |payments| ==> payments[i].externalRef != payments[j].externalRef)
  }

  ghost predicate AuditValid(log: seq<AuditEntry>, next: Id) {
    && (forall i :: 0 <= i < |log| ==> log[i].id < next)
    && (forall i, j :: 0 <= i < j < |log| ==> log[i].id != log[j].id)
  }

  ghost predicate RequestsValid(requests: seq<ProfileRequest>, next: Id) {
    && (forall i :: 0 <= i < |requests| ==> requests[i].id < next)
    && (forall i, j :: 0 <= i < j < |requests| ==> requests[i].id != requests[j].id)
  }

  ghost predicate ComplaintsValid(complaints: seq<Complaint>, next: Id) {
    && (forall i :: 0 <= i < |complaints| ==> complaints[i].id < next)
    && (forall i, j :: 0 <= i < j < |complaints| ==> complaints[i].id != complaints[j].id)
  }

  /** A user has at most one staff row: `user.staffMember` is a one-to-one relation. */
  ghost predicate StaffValid(staff: seq<StaffMember>, next: Id) {
    && (forall i :: 0 <= i < |staff| ==> staff[i].id < next)
    && (forall i, j :: 0 <= i < j < |staff| ==> staff[i].id != staff[j].id)
    && (forall i, j :: 0 <= i < j < |staff| ==> staff[i].userId != staff[j].userId)
  }

  ghost predicate EventsValid(events: seq<TimetableEvent>, next: Id) {
    && (forall i :: 0 <= i < |events| ==> events[i].id < next)
    && (forall i, j :: 0 <= i < j < |events| ==> events[i].id != events[j].id)
  }

  /** Every written table has distinct keys below the id counter; e-mails, the payment an
      account was created from, the user of a staff row, and payment references are unique. Campuses, courses and enrollments are read-only here. */
  ghost predicate TablesValid(t: Tables) {
    && UsersValid(t.users, t.nextId)
    && PaymentsValid(t.payments, t.nextId)
    && AuditValid(t.auditLog, t.nextId)
    && RequestsValid(t.profileRequests, t.nextId)
    && ComplaintsValid(t.complaints, t.nextId)
    && StaffValid(t.staff, t.nextId)
    && EventsValid(t.events, t.nextId)
  }

  /** Raising the id counter keeps every table valid. */
  lemma {:induction false} TablesGrow(t: Tables, n: Id)
    requires TablesValid(t) && t.nextId <= n
    ensures TablesValid(t.(nextId := n))
  {
  }

  // ---------------------------------------------------------------------------------------------
  // Writes, as changes to the tables

  /** `create` gives the row the next id. */
  function InsertUser(t: Tables, data: User): Tables {
    t.(users := t.users + [data.(id := t.nextId)], nextId := t.nextId + 1)
  }

  function InsertPayment(t: Tables, data: Payment): Tables {
    t.(payments := t.payments + [data.(id := t.nextId)], nextId := t.nextId + 1)
  }

  function InsertAudit(t: Tables, data: AuditEntry): Tables {
    t.(auditLog := t.auditLog + [data.(id := t.nextId)], nextId := t.nextId + 1)
  }

  function InsertStaff(t: Tables, data: StaffMember): Tables {
    t.(staff := t.staff + [data.(id := t.nextId)], nextId := t.nextId + 1)
  }

  function InsertEvent(t: Tables, data: TimetableEvent): Tables {
    t.(events := t.events + [data.(id := t.nextId)], nextId := t.nextId + 1)
  }

  /** `update` replaces the row at index `k`. */
  function ReplaceUser(t: Tables, k: nat, row: User): Tables
    requires k < |t.users|
  {
    t.(users := t.users[k := row])
  }

  function ReplacePayment(t: Tables, k: nat, row: Payment): Tables
    requires k < |t.payments|
  {
    t.(payments := t.payments[k := row])
  }

  function ReplaceRequest(t: Tables, k: nat, row: ProfileRequest): Tables
    requires k < |t.profileRequests|
  {
    t.(profileRequests := t.profileRequests[k := row])
  }

  function ReplaceComplaint(t: Tables, k: nat, row: Complaint): Tables
    requires k < |t.complaints|
  {
    t.(complaints := t.complaints[k := row])
  }

  /** `delete` removes the row at index `k`. */
  function RemoveEvent(t: Tables, k: nat): Tables
    requires k < |t.events|
  {
    t.(events := t.events[..k] + t.events[k + 1..])
  }

  /** The unique index a new user row would break, e-mail first. */
  function UserClash(users: seq<User>, data: User): Option<Error> {
    if UserByEmail(users, data.institutionalEmail).Some? then Some(UniqueConstraintFailed("institutionalEmail"))
    else if data.createdFromPaymentId.Some? && UserByPayment(users, data.createdFromPaymentId.value).Some? then
      Some(UniqueConstraintFailed("createdFromPaymentId"))
    else None
  }

  /** Storing a user keeps the store valid when it breaks no unique index and its payment link
      names a row already given an id. */
  lemma {:induction false} UserAdded(t: Tables, data: User)
    requires TablesValid(t) && UserClash(t.users, data).None?
    requires data.createdFromPaymentId.Some? ==> data.createdFromPaymentId.value < t.nextId
    ensures TablesValid(InsertUser(t, data))
  {
    TablesGrow(t, t.nextId + 1);
  }

  /** Storing a payment keeps the store valid when its reference is new. */
  lemma {:induction false} PaymentAdded(t: Tables, data: Payment)
    requires TablesValid(t)
    requires forall i :: 0 <= i < |t.payments| ==> t.payments[i].externalRef != data.externalRef
    ensures TablesValid(InsertPayment(t, data))
  {
    TablesGrow(t, t.nextId + 1);
  }

  lemma {:induction false} AuditAdded(t: Tables, data: AuditEntry)
    requires TablesValid(t)
    ensures TablesValid(InsertAudit(t, data))
  {
    TablesGrow(t, t.nextId + 1);
  }

  /** Storing a staff row keeps the store valid when its user has no staff row yet. */
  lemma {:induction false} StaffAdded(t: Tables, data: StaffMember)
    requires TablesValid(t) && StaffByUser(t.staff, data.userId).None?
    ensures TablesValid(InsertStaff(t, data))
  {
    TablesGrow(t, t.nextId + 1);
  }

  lemma {:induction false} EventAdded(t: Tables, data: TimetableEvent)
    requires TablesValid(t)
    ensures TablesValid(InsertEvent(t, data))
  {
    TablesGrow(t, t.nextId + 1);
  }

  // ---------------------------------------------------------------------------------------------
  // Lookups (`findUnique` / `findFirst`)

  function UserById(users: seq<User>, id: Id): (r: Option<nat>)
    ensures r.Some? ==> r.value < |users| && users[r.value].id == id
    ensures r.None? <==> forall i :: 0 <= i < |users| ==> users[i].id != id
  {
    FindFirst(users, (u: User) => u.id == id)
  }

  function UserByEmail(users: seq<User>, email: string): (r: Option<nat>)
    ensures r.Some? ==> r.value < |users| && users[r.value].institutionalEmail == email
    ensures r.Some? ==> forall j :: 0 <= j < r.value ==> users[j].institutionalEmail != email
    ensures r.None? <==> forall i :: 0 <= i < |users| ==> users[i].institutionalEmail != email
  {
    FindFirst(users, (u: User) => u.institutionalEmail == email)
  }

  /** `user.findUnique({ where: { createdFromPaymentId } })`. */
  function UserByPayment(users: seq<User>, paymentId: Id): (r: Option<nat>)
    ensures r.Some? ==> r.value < |users| && users[r.value].createdFromPaymentId == Some(paymentId)
    ensures r.None? <==> forall i :: 0 <= i < |users| ==> users[i].createdFromPaymentId != Some(paymentId)
  {
    FindFirst(users, (u: User) => u.createdFromPaymentId == Some(paymentId))
  }

  /** `staffMember.findUnique({ where: { userId } })`. */
  function StaffByUser(staff: seq<StaffMember>, userId: Id): (r: Option<nat>)
    ensures r.Some? ==> r.value < |staff| && staff[r.value].userId == userId
    ensures r.None? <==> forall i :: 0 <= i < |staff| ==> staff[i].userId != userId
  {
    FindFirst(staff, (m: StaffMember) => m.userId == userId)
  }

  function PaymentById(payments: seq<Payment>, id: Id): (r: Option<nat>)
    ensures r.Some? ==> r.value < |payments| && payments[r.value].id == id
    ensures r.None? <==> forall i :: 0 <= i < |payments| ==> payments[i].id != id
  {
    FindFirst(payments, (p: Payment) => p.id == id)
  }

  function PaymentByRef(payments: seq<Payment>, ref: string): (r: Option<nat>)
    ensures r.Some? ==> r.value < |payments| && payments[r.value].externalRef == ref
    ensures r.None? <==> forall i :: 0 <= i < |payments| ==> payments[i].externalRef != ref
  {
    FindFirst(payments, (p: Payment) => p.externalRef == ref)
  }

  /** `campus.findFirst({ where: { slug } })`: the first campus in table order with the slug. */
  function CampusBySlug(campuses: seq<Campus>, slug: string): (r: Option<nat>)
    ensures r.Some? ==> r.value < |campuses| && campuses[r.value].slug == slug
    ensures r.Some? ==> forall j :: 0 <= j < r.value ==> campuses[j].slug != slug
    ensures r.None? <==> forall i :: 0 <= i < |campuses| ==> campuses[i].slug != slug
  {
    FindFirst(campuses, (c: Campus) => c.slug == slug)
  }

  function RequestById(requests: seq<ProfileRequest>, id: Id): (r: Option<nat>)
    ensures r.Some? ==> r.value < |requests| && requests[r.value].id == id
    ensures r.None? <==> forall i :: 0 <= i < |requests| ==> requests[i].id != id
  {
    FindFirst(requests, (q: ProfileRequest) => q.id == id)
  }

  function ComplaintById(complaints: seq<Complaint>, id: Id): (r: Option<nat>)
    ensures r.Some? ==> r.value < |complaints| && complaints[r.value].id == id
    ensures r.None? <==> forall i :: 0 <= i < |complaints| ==> complaints[i].id != id
  {
    FindFirst(complaints, (c: Complaint) => c.id == id)
  }

  function CourseById(courses: seq<Course>, id: Id): (r: Option<nat>)
    ensures r.Some? ==> r.value < |courses| && courses[r.value].id == id
    ensures r.None? <==> forall i :: 0 <= i < |courses| ==> courses[i].id != id
  {
    FindFirst(courses, (c: Course) => c.id == id)
  }

  function EventById(events: seq<TimetableEvent>, id: Id): (r: Option<nat>)
    ensures r.Some? ==> r.value < |events| && events[r.value].id == id
    ensures r.None? <==> forall i :: 0 <= i < |events| ==> events[i].id != id
  {
    FindFirst(events, (e: TimetableEvent) => e.id == id)
  }

  /** `enrollment.findFirst({ where: { userId } })`: the user's earliest enrollment row. */
  function FirstEnrollment(enrollments: seq<Enrollment>, userId: Id): (r: Option<nat>)
    ensures r.Some? ==> r.value < |enrollments| && enrollments[r.value].userId == userId
    ensures r.Some? ==> forall j :: 0 <= j < r.value ==> enrollments[j].userId != userId
    ensures r.None? <==> forall i :: 0 <= i < |enrollments| ==> enrollments[i].userId != userId
  {
    FindFirst(enrollments, (e: Enrollment) => e.userId == userId)
  }

  /** Under the unique index, the e-mail lookup finds exactly the row holding that e-mail. */
  lemma {:induction false} UserByEmailIsUnique(users: seq<User>, next: Id, k: nat)
    requires UsersValid(users, next) && k < |users|
    ensures UserByEmail(users, users[k].institutionalEmail) == Some(k)
  {
    var r := UserByEmail(users, users[k].institutionalEmail);
    assert r.Some? && r.value <= k;
  }

  /** Under unique primary keys, looking a row's id up finds that row. */
  lemma {:induction false} UserByIdIsUnique(users: seq<User>, next: Id, k: nat)
    requires UsersValid(users, next) && k < |users|
    ensures UserById(users, users[k].id) == Some(k)
  {
    var r := UserById(users, users[k].id);
    assert r.Some? && users[r.value].id == users[k].id;
  }

  lemma {:induction false} PaymentByIdIsUnique(payments: seq<Payment>, next: Id, k: nat)
    requires PaymentsValid(payments, next) && k < |payments|
    ensures PaymentById(payments, payments[k].id) == Some(k)
  {
    var r := PaymentById(payments, payments[k].id);
    assert r.Some? && payments[r.value].id == payments[k].id;
  }

  lemma {:induction false} RequestByIdIsUnique(requests: seq<ProfileRequest>, next: Id, k: nat)
    requires RequestsValid(requests, next) && k < |requests|
    ensures RequestById(requests, requests[k].id) == Some(k)
  {
    var r := RequestById(requests, requests[k].id);
    assert r.Some? && requests[r.value].id == requests[k].id;
  }

  lemma {:induction false} ComplaintByIdIsUnique(complaints: seq<Complaint>, next: Id, k: nat)
    requires ComplaintsValid(complaints, next) && k < |complaints|
    ensures ComplaintById(complaints, complaints[k].id) == Some(k)
  {
    var r := ComplaintById(complaints, complaints[k].id);
    assert r.Some? && complaints[r.value].id == complaints[k].id;
  }

  lemma {:induction false} EventByIdIsUnique(events: seq<TimetableEvent>, next: Id, k: nat)
    requires EventsValid(events, next) && k < |events|
    ensures EventById(events, events[k].id) == Some(k)
  {
    var r := EventById(events, events[k].id);
    assert r.Some? && events[r.value].id == events[k].id;
  }

  // ---------------------------------------------------------------------------------------------
  // The store

  class Database {
    var users: seq<User>
    var payments: seq<Payment>
    var campuses: seq<Campus>
    var auditLog: seq<AuditEntry>
    var profileRequests: seq<ProfileRequest>
    var complaints: seq<Complaint>
    var staff: seq<StaffMember>
    var courses: seq<Course>
    var enrollments: seq<Enrollment>
    var events: seq<TimetableEvent>
    var nextId: Id

    function Snapshot(): Tables
      reads this
    {
      Tables(users, payments, campuses, auditLog, profileRequests, complaints, staff, courses,
        enrollments, events, nextId)
    }

    ghost predicate Valid()
      reads this
    {
      TablesValid(Snapshot())
    }

    /** A store holding the given rows. */
    constructor (initial: Tables)
      requires TablesValid(initial)
      ensures Snapshot() == initial && Valid()
    {
      users, payments, campuses, auditLog := initial.users, initial.payments, initial.campuses, initial.auditLog;
      profileRequests, complaints, staff := initial.profileRequests, initial.complaints, initial.staff;
      courses, enrollments, events, nextId := initial.courses, initial.enrollments, initial.events, initial.nextId;
    }

    /** `user.create`: fails on the e-mail or the payment-link unique index, otherwise stores the
        row under a new id. */
    method CreateUser(data: User) returns (r: Result<User, Error>)
      requires Valid()
      requires data.createdFromPaymentId.Some? ==> data.createdFromPaymentId.value < nextId
      modifies this
      ensures Valid()
      ensures UserClash(old(users), data).Some? ==>
        r == Err(UserClash(old(users), data).value) && Snapshot() == old(Snapshot())
      ensures UserClash(old(users), data).None? ==>
        r == Ok(data.(id := old(nextId))) && Snapshot() == InsertUser(old(Snapshot()), data)
    {
      var clash := UserClash(users, data);
      if clash.Some? {
        return Err(clash.value);
      }
      UserAdded(Snapshot(), data);
      r := Ok(data.(id := nextId));
      users, nextId := users + [r.value], nextId + 1;
    }

    /** `user.update` of the row at index `k`, which does not touch its payment link; a changed
        e-mail must stay unique. */
    method UpdateUser(k: nat, row: User) returns (r: Result<User, Error>)
      requires Valid() && k < |users| && row.id == users[k].id
      requires row.createdFromPaymentId == users[k].createdFromPaymentId
      modifies this
      ensures Valid()
      ensures (exists i :: 0 <= i < |old(users)| && i != k && old(users)[i].institutionalEmail == row.institutionalEmail) ==>
        r == Err(UniqueConstraintFailed("institutionalEmail")) && Snapshot() == old(Snapshot())
      ensures (forall i :: 0 <= i < |old(users)| && i != k ==> old(users)[i].institutionalEmail != row.institutionalEmail) ==>
        r == Ok(row) && Snapshot() == ReplaceUser(old(Snapshot()), k, row)
    {
      if exists i :: 0 <= i < |users| && i != k && users[i].institutionalEmail == row.institutionalEmail {
        return Err(UniqueConstraintFailed("institutionalEmail"));
      }
      users := users[k := row];
      r := Ok(row);
    }

    /** `payment.create`: fails on the reference unique index, otherwise stores the row. */
    method CreatePayment(data: Payment) returns (r: Result<Payment, Error>)
      requires Valid()
      modifies this
      ensures Valid()
      ensures PaymentByRef(old(payments), data.externalRef).Some? ==>
        r == Err(UniqueConstraintFailed("externalRef")) && Snapshot() == old(Snapshot())
      ensures PaymentByRef(old(payments), data.externalRef).None? ==>
        r == Ok(data.(id := old(nextId))) && Snapshot() == InsertPayment(old(Snapshot()), data)
    {
      if PaymentByRef(payments, data.externalRef).Some? {
        return Err(UniqueConstraintFailed("externalRef"));
      }
      PaymentAdded(Snapshot(), data);
      r := Ok(data.(id := nextId));
      payments, nextId := payments + [r.value], nextId + 1;
    }

    /** `payment.update` of the row at index `k`, keeping its key and reference. */
    method UpdatePayment(k: nat, row: Payment)
      requires Valid() && k < |payments| && row.id == payments[k].id && row.externalRef == payments[k].externalRef
      modifies this
      ensures Valid()
      ensures Snapshot() == ReplacePayment(old(Snapshot()), k, row)
    {
      payments := payments[k := row];
    }

    method CreateAuditEntry(data: AuditEntry) returns (row: AuditEntry)
      requires Valid()
      modifies this
      ensures Valid()
      ensures row == data.(id := old(nextId)) && Snapshot() == InsertAudit(old(Snapshot()), data)
    {
      AuditAdded(Snapshot(), data);
      row := data.(id := nextId);
      auditLog, nextId := auditLog + [row], nextId + 1;
    }

    method UpdateRequest(k: nat, row: ProfileRequest)
      requires Valid() && k < |profileRequests| && row.id == profileRequests[k].id
      modifies this
      ensures Valid()
      ensures Snapshot() == ReplaceRequest(old(Snapshot()), k, row)
    {
      profileRequests := profileRequests[k := row];
    }

    method UpdateComplaint(k: nat, row: Complaint)
      requires Valid() && k < |complaints| && row.id == complaints[k].id
      modifies this
      ensures Valid()
      ensures Snapshot() == ReplaceComplaint(old(Snapshot()), k, row)
    {
      complaints := complaints[k := row];
    }

    /** `staffMember.create`: fails on the unique user link, otherwise stores the row. */
    method CreateStaffMember(data: StaffMember) returns (r: Result<StaffMember, Error>)
      requires Valid()
      modifies this
      ensures Valid()
      ensures StaffByUser(old(staff), data.userId).Some? ==>
        r == Err(UniqueConstraintFailed("userId")) && Snapshot() == old(Snapshot())
      ensures StaffByUser(old(staff), data.userId).None? ==>
        r == Ok(data.(id := old(nextId))) && Snapshot() == InsertStaff(old(Snapshot()), data)
    {
      if StaffByUser(staff, data.userId).Some? {
        return Err(UniqueConstraintFailed("userId"));
      }
      StaffAdded(Snapshot(), data);
      r := Ok(data.(id := nextId));
      staff, nextId := staff + [r.value], nextId + 1;
    }

    method CreateEvent(data: TimetableEvent) returns (row: TimetableEvent)
      requires Valid()
      modifies this
      ensures Valid()
      ensures row == data.(id := old(nextId)) && Snapshot() == InsertEvent(old(Snapshot()), data)
    {
      EventAdded(Snapshot(), data);
      row := data.(id := nextId);
      events, nextId := events + [row], nextId + 1;
    }

    /** `timetableEvent.delete`: removes the row at index `k`. */
    method DeleteEvent(k: nat)
      requires Valid() && k < |events|
      modifies this
      ensures Valid()
      ensures Snapshot() == RemoveEvent(old(Snapshot()), k)
    {
      events := events[..k] + events[k + 1..];
    }
  }
}
