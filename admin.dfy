/**
 * The administrators' service: reviewing students' profile-change requests, handling
 * complaints, registering staff and the dashboard's counters.
 */
module Admin {
  import opened Wrappers
  import opened Collections
  import opened Store
  import opened JsNumber

  const InvalidRequest: string := "Invalid request"
  const UserNotFound: string := "User not found"

  /** The complaint statuses the service writes or counts. */
  const Open: string := "OPEN"
  const InProgress: string := "IN_PROGRESS"

  // ---------------------------------------------------------------------------------------------
  // Dashboard

  datatype DashboardStats = DashboardStats(totalUsers: nat, pendingRequests: nat, activeComplaints: nat, totalStaff: nat)

  predicate IsPending(r: ProfileRequest) {
    r.status == RequestPending
  }

  /** A complaint still to be dealt with: OPEN or IN_PROGRESS. */
  predicate IsActive(c: Complaint) {
    c.status == Open || c.status == InProgress
  }

  /** `getDashboardStats`: four counts over the store. */
  function Stats(t: Tables): DashboardStats {
    DashboardStats(|t.users|, Count(t.profileRequests, IsPending), Count(t.complaints, IsActive), |t.staff|)
  }

  // ---------------------------------------------------------------------------------------------
  // Profile-change requests

  /** `getProfileRequests(status)`: the requests of that status, or all of them, newest first.
      Requests created at the same instant come in no particular order. */
  function ProfileRequests(t: Tables, status: Option<RequestStatus>): seq<ProfileRequest> {
    SortBy(Filter(t.profileRequests, (r: ProfileRequest) => HasStatus(r, status)), NewerOrSame)
  }

  predicate HasStatus(r: ProfileRequest, status: Option<RequestStatus>) {
    status.None? || r.status == status.value
  }

  predicate NewerOrSame(a: ProfileRequest, b: ProfileRequest) {
    a.createdAt >= b.createdAt
  }

  /** The user row an approved request asks for: a NAME request renames, an EMAIL request
      changes the institutional address, and any other type changes nothing. */
  function ApplyChange(user: User, request: ProfileRequest): User {
    if request.requestType == "NAME" then user.(fullName := request.newValue)
    else if request.requestType == "EMAIL" then user.(institutionalEmail := request.newValue)
    else user
  }

  function Reviewed(request: ProfileRequest, status: RequestStatus, adminId: Id, now: Time): ProfileRequest {
    request.(status := status, reviewedById := Some(adminId), reviewedAt := Some(now))
  }

  /** Some user other than the one at `k` already holds `email`. */
  predicate EmailTakenByOther(users: seq<User>, k: nat, email: string) {
    exists i :: 0 <= i < |users| && i != k && users[i].institutionalEmail == email
  }

  /** `approveProfileRequest(id, adminId)`, one transaction: a write that fails undoes the others. */
  function Approve(t: Tables, id: Id, adminId: Id, now: Time): Written<ProfileRequest> {
    match RequestById(t.profileRequests, id)
    case None => Written(t, Err(Failure(InvalidRequest)))
    case Some(k) =>
      var request := t.profileRequests[k];
      if request.status != RequestPending then Written(t, Err(Failure(InvalidRequest)))
      else
        match UserById(t.users, request.userId)
        case None => Written(t, Err(RecordNotFound))
        case Some(u) => ApproveFor(t, k, u, adminId, now)
  }

  /** The two writes of an approval: the user at `u`, then the request at `k`. */
  function ApproveFor(t: Tables, k: nat, u: nat, adminId: Id, now: Time): Written<ProfileRequest>
    requires k < |t.profileRequests| && u < |t.users|
  {
    var request := t.profileRequests[k];
    var user := ApplyChange(t.users[u], request);
    if EmailTakenByOther(t.users, u, user.institutionalEmail) then
      Written(t, Err(UniqueConstraintFailed("institutionalEmail")))
    else
      var approved := Reviewed(request, Approved, adminId, now);
      Written(ReplaceRequest(ReplaceUser(t, u, user), k, approved), Ok(approved))
  }

  /** `rejectProfileRequest(id, adminId, reason)`: whatever the request's status. */
  function Reject(t: Tables, id: Id, adminId: Id, reason: string, now: Time): Written<ProfileRequest> {
    match RequestById(t.profileRequests, id)
    case None => Written(t, Err(RecordNotFound))
    case Some(k) =>
      var rejected := Reviewed(t.profileRequests[k], Rejected, adminId, now).(rejectionReason := Some(reason));
      Written(ReplaceRequest(t, k, rejected), Ok(rejected))
  }

  // ---------------------------------------------------------------------------------------------
  // Complaints and staff

  /** `assignComplaint(id, staffId)`: the complaint goes to the staff member and is in progress. */
  function Assign(t: Tables, id: Id, staffId: Id): Written<Complaint> {
    match ComplaintById(t.complaints, id)
    case None => Written(t, Err(RecordNotFound))
    case Some(k) =>
      var row := t.complaints[k].(assignedToId := Some(staffId), status := InProgress);
      Written(ReplaceComplaint(t, k, row), Ok(row))
  }

  /** `updateComplaintStatus(id, status)`: the given status is written as it is. */
  function SetComplaintStatus(t: Tables, id: Id, status: string): Written<Complaint> {
    match ComplaintById(t.complaints, id)
    case None => Written(t, Err(RecordNotFound))
    case Some(k) =>
      var updated := t.complaints[k].(status := status);
      Written(ReplaceComplaint(t, k, updated), Ok(updated))
  }

  /** `createStaff(email, position, departmentId, salary)`: a staff row for the user holding
      that institutional e-mail, hired now; a user who already has one breaks the unique link. */
  function CreateStaff(t: Tables, email: string, position: string, departmentId: Id, salary: Option<Number>, now: Time): Written<StaffMember> {
    match UserByEmail(t.users, email)
    case None => Written(t, Err(Failure(UserNotFound)))
    case Some(u) =>
      var member := StaffMember(0, t.users[u].id, position, departmentId, salary, now);
      if StaffByUser(t.staff, member.userId).Some? then Written(t, Err(UniqueConstraintFailed("userId")))
      else Written(InsertStaff(t, member), Ok(member.(id := t.nextId)))
  }

  // ---------------------------------------------------------------------------------------------
  // Step by step against the store

  method ApproveProfileRequest(db: Database, id: Id, adminId: Id, now: Time) returns (r: Result<ProfileRequest, Error>)
    requires db.Valid()
    modifies db
    ensures db.Valid()
    ensures var o := Approve(old(db.Snapshot()), id, adminId, now); db.Snapshot() == o.tables && r == o.result
  {
    var found := RequestById(db.profileRequests, id);
    if found.None? || db.profileRequests[found.value].status != RequestPending {
      return Err(Failure(InvalidRequest));
    }
    var request := db.profileRequests[found.value];
    var owner := UserById(db.users, request.userId);
    if owner.None? {
      return Err(RecordNotFound);
    }
    r := WriteApproval(db, found.value, owner.value, adminId, now);
  }

  method WriteApproval(db: Database, k: nat, u: nat, adminId: Id, now: Time) returns (r: Result<ProfileRequest, Error>)
    requires db.Valid() && k < |db.profileRequests| && u < |db.users|
    modifies db
    ensures db.Valid()
    ensures var o := ApproveFor(old(db.Snapshot()), k, u, adminId, now); db.Snapshot() == o.tables && r == o.result
  {
    var request := db.profileRequests[k];
    var updated := db.UpdateUser(u, ApplyChange(db.users[u], request));
    if updated.Err? {
      return Err(updated.error);
    }
    var approved := Reviewed(request, Approved, adminId, now);
    db.UpdateRequest(k, approved);
    r := Ok(approved);
  }

  method RejectProfileRequest(db: Database, id: Id, adminId: Id, reason: string, now: Time)
    returns (r: Result<ProfileRequest, Error>)
    requires db.Valid()
    modifies db
    ensures db.Valid()
    ensures var o := Reject(old(db.Snapshot()), id, adminId, reason, now); db.Snapshot() == o.tables && r == o.result
  {
    var found := RequestById(db.profileRequests, id);
    if found.None? {
      return Err(RecordNotFound);
    }
    var rejected := Reviewed(db.profileRequests[found.value], Rejected, adminId, now).(rejectionReason := Some(reason));
    db.UpdateRequest(found.value, rejected);
    r := Ok(rejected);
  }

  method AssignComplaint(db: Database, id: Id, staffId: Id) returns (r: Result<Complaint, Error>)
    requires db.Valid()
    modifies db
    ensures db.Valid()
    ensures var o := Assign(old(db.Snapshot()), id, staffId); db.Snapshot() == o.tables && r == o.result
  {
    var found := ComplaintById(db.complaints, id);
    if found.None? {
      return Err(RecordNotFound);
    }
    var row := db.complaints[found.value].(assignedToId := Some(staffId), status := InProgress);
    db.UpdateComplaint(found.value, row);
    r := Ok(row);
  }

  method UpdateComplaintStatus(db: Database, id: Id, status: string) returns (r: Result<Complaint, Error>)
    requires db.Valid()
    modifies db
    ensures db.Valid()
    ensures var o := SetComplaintStatus(old(db.Snapshot()), id, status); db.Snapshot() == o.tables && r == o.result
  {
    var found := ComplaintById(db.complaints, id);
    if found.None? {
      return Err(RecordNotFound);
    }
    var updated := db.complaints[found.value].(status := status);
    db.UpdateComplaint(found.value, updated);
    r := Ok(updated);
  }

  method CreateStaffMember(db: Database, email: string, position: string, departmentId: Id, salary: Option<Number>, now: Time)
    returns (r: Result<StaffMember, Error>)
    requires db.Valid()
    modifies db
    ensures db.Valid()
    ensures var o := CreateStaff(old(db.Snapshot()), email, position, departmentId, salary, now);
      db.Snapshot() == o.tables && r == o.result
  {
    var found := UserByEmail(db.users, email);
    if found.None? {
      return Err(Failure(UserNotFound));
    }
    r := db.CreateStaffMember(StaffMember(0, db.users[found.value].id, position, departmentId, salary, now));
  }

  // ---------------------------------------------------------------------------------------------
  // Properties

  /** The dashboard counts exactly the PENDING requests and the OPEN or IN_PROGRESS complaints:
      each count is zero precisely when no row qualifies, and never exceeds its table. */
  lemma {:induction false} StatsCountQualifyingRows(t: Tables)
    ensures var s := Stats(t);
      && s.totalUsers == |t.users| && s.totalStaff == |t.staff|
      && s.pendingRequests <= |t.profileRequests| && s.activeComplaints <= |t.complaints|
      && (s.pendingRequests == 0 <==> forall i :: 0 <= i < |t.profileRequests| ==> !IsPending(t.profileRequests[i]))
      && (s.activeComplaints == 0 <==> forall i :: 0 <= i < |t.complaints| ==> !IsActive(t.complaints[i]))
  {
    CountZero(t.profileRequests, IsPending);
    CountZero(t.complaints, IsActive);
  }

  lemma NewerOrSameIsTotalPreorder()
    ensures TotalPreorder(NewerOrSame)
  {
  }

  /** The listing holds exactly the requests of the asked status (every request when none is
      asked), each as often as in the table, newest first. */
  lemma {:induction false} ProfileRequestsListing(t: Tables, status: Option<RequestStatus>)
    ensures var r := ProfileRequests(t, status);
      && (forall x :: x in r <==> x in t.profileRequests && HasStatus(x, status))
      && (forall x :: multiset(r)[x] == if HasStatus(x, status) then multiset(t.profileRequests)[x] else 0)
      && (status.None? ==> multiset(r) == multiset(t.profileRequests))
      && (forall i :: 0 <= i < |r| ==> HasStatus(r[i], status))
      && (forall i, j :: 0 <= i < j < |r| ==> r[i].createdAt >= r[j].createdAt)
  {
    var p := (x: ProfileRequest) => HasStatus(x, status);
    var matching := Filter(t.profileRequests, p);
    var r := ProfileRequests(t, status);
    assert multiset(r) == multiset(matching);
    FilterMultiset(t.profileRequests, p);
    forall x
      ensures x in r <==> x in matching
    {
      assert x in r <==> x in multiset(r);
      assert x in matching <==> x in multiset(matching);
    }
    if status.None? {
      FilterAll(t.profileRequests, p);
    }
    NewerOrSameIsTotalPreorder();
    SortBySorted(matching, NewerOrSame);
    forall i | 0 <= i < |r|
      ensures HasStatus(r[i], status)
    {
      assert r[i] in r;
    }
  }

  /** Only a PENDING request can be approved: an unknown id, or a request already approved or
      rejected, fails with 'Invalid request' and nothing is written. */
  lemma {:induction false} ApproveNeedsPending(t: Tables, id: Id, adminId: Id, now: Time)
    requires !exists k :: 0 <= k < |t.profileRequests| && t.profileRequests[k].id == id && IsPending(t.profileRequests[k])
    ensures Approve(t, id, adminId, now) == Written(t, Err(Failure(InvalidRequest)))
  {
  }

  /** The approval runs in one transaction: when it fails, neither the user nor the request
      has been written. */
  lemma {:induction false} ApproveAllOrNothing(t: Tables, id: Id, adminId: Id, now: Time)
    ensures Approve(t, id, adminId, now).result.Err? ==> Approve(t, id, adminId, now).tables == t
  {
  }

  /** Approving the pending request at `k`, owned by the user at `u`: a NAME request renames
      that user, an EMAIL request readdresses them, other types leave them as they are; no other
      user changes, the request is APPROVED and signed by the reviewer, and the store stays valid. */
  lemma {:induction false} ApproveApplies(t: Tables, k: nat, u: nat, adminId: Id, now: Time)
    requires TablesValid(t) && k < |t.profileRequests| && IsPending(t.profileRequests[k])
    requires u < |t.users| && t.users[u].id == t.profileRequests[k].userId
    requires t.profileRequests[k].requestType == "EMAIL" ==>
      forall i :: 0 <= i < |t.users| && i != u ==> t.users[i].institutionalEmail != t.profileRequests[k].newValue
    ensures var request := t.profileRequests[k];
      var o := Approve(t, request.id, adminId, now);
      && o.result == Ok(request.(status := Approved, reviewedById := Some(adminId), reviewedAt := Some(now)))
      && o.tables == t.(users := o.tables.users, profileRequests := t.profileRequests[k := o.result.value])
      && |o.tables.users| == |t.users|
      && (forall i :: 0 <= i < |t.users| && i != u ==> o.tables.users[i] == t.users[i])
      && (request.requestType == "NAME" ==> o.tables.users[u] == t.users[u].(fullName := request.newValue))
      && (request.requestType == "EMAIL" ==> o.tables.users[u] == t.users[u].(institutionalEmail := request.newValue))
      && (request.requestType != "NAME" && request.requestType != "EMAIL" ==> o.tables.users[u] == t.users[u])
      && TablesValid(o.tables)
  {
    var request := t.profileRequests[k];
    RequestByIdIsUnique(t.profileRequests, t.nextId, k);
    UserByIdIsUnique(t.users, t.nextId, u);
    var user := ApplyChange(t.users[u], request);
    if request.requestType != "EMAIL" {
      assert user.institutionalEmail == t.users[u].institutionalEmail;
    }
    assert !EmailTakenByOther(t.users, u, user.institutionalEmail);
  }

  /** An EMAIL request for an address another user holds fails on the unique index, and the
      request stays PENDING. */
  lemma {:induction false} ApproveTakenEmail(t: Tables, k: nat, u: nat, j: nat, adminId: Id, now: Time)
    requires TablesValid(t) && k < |t.profileRequests| && IsPending(t.profileRequests[k])
    requires u < |t.users| && t.users[u].id == t.profileRequests[k].userId
    requires t.profileRequests[k].requestType == "EMAIL"
    requires j < |t.users| && j != u && t.users[j].institutionalEmail == t.profileRequests[k].newValue
    ensures Approve(t, t.profileRequests[k].id, adminId, now) == Written(t, Err(UniqueConstraintFailed("institutionalEmail")))
  {
    RequestByIdIsUnique(t.profileRequests, t.nextId, k);
    UserByIdIsUnique(t.users, t.nextId, u);
    assert EmailTakenByOther(t.users, u, t.profileRequests[k].newValue);
  }

  /** An approval takes one request out of the pending count and leaves the other counters. */
  lemma {:induction false} ApproveClearsOnePending(t: Tables, id: Id, adminId: Id, now: Time)
    requires Approve(t, id, adminId, now).result.Ok?
    ensures var s, s' := Stats(t), Stats(Approve(t, id, adminId, now).tables);
      s'.pendingRequests + 1 == s.pendingRequests
      && s'.totalUsers == s.totalUsers && s'.activeComplaints == s.activeComplaints && s'.totalStaff == s.totalStaff
  {
    var k := RequestById(t.profileRequests, id).value;
    var o := Approve(t, id, adminId, now);
    CountUpdate(t.profileRequests, k, o.result.value, IsPending);
  }

  /** A request is approved at most once: approving it again fails with 'Invalid request'. */
  lemma {:induction false} ApproveOnlyOnce(t: Tables, id: Id, adminId: Id, now: Time, adminId': Id, now': Time)
    requires TablesValid(t) && Approve(t, id, adminId, now).result.Ok?
    ensures var t' := Approve(t, id, adminId, now).tables;
      Approve(t', id, adminId', now') == Written(t', Err(Failure(InvalidRequest)))
  {
    var k := RequestById(t.profileRequests, id).value;
    var t' := Approve(t, id, adminId, now).tables;
    assert t'.profileRequests[k].id == id && !IsPending(t'.profileRequests[k]);
    assert t'.profileRequests == t.profileRequests[k := t'.profileRequests[k]];
    RequestByIdIsUnique(t.profileRequests, t.nextId, k);
    assert forall i :: 0 <= i < |t'.profileRequests| && i != k ==> t'.profileRequests[i].id != id;
  }

  /** Rejection does not look at the status: any existing request becomes REJECTED with the
      reviewer and the reason, nothing else changes, and the pending count drops only when the
      request was pending. */
  lemma {:induction false} RejectAnyStatus(t: Tables, k: nat, adminId: Id, reason: string, now: Time)
    requires TablesValid(t) && k < |t.profileRequests|
    ensures var request := t.profileRequests[k];
      var rejected := request.(status := Rejected, reviewedById := Some(adminId), reviewedAt := Some(now),
                               rejectionReason := Some(reason));
      var o := Reject(t, request.id, adminId, reason, now);
      && o == Written(t.(profileRequests := t.profileRequests[k := rejected]), Ok(rejected))
      && Stats(o.tables).pendingRequests == Stats(t).pendingRequests - (if IsPending(request) then 1 else 0)
  {
    RequestByIdIsUnique(t.profileRequests, t.nextId, k);
    var o := Reject(t, t.profileRequests[k].id, adminId, reason, now);
    CountUpdate(t.profileRequests, k, o.result.value, IsPending);
  }

  /** So an approved request can still be rejected afterwards; the user keeps the approved change. */
  lemma {:induction false} RejectAfterApproval(t: Tables, id: Id, adminId: Id, now: Time, reason: string, now': Time)
    requires TablesValid(t) && Approve(t, id, adminId, now).result.Ok?
    ensures var t' := Approve(t, id, adminId, now).tables;
      var o := Reject(t', id, adminId, reason, now');
      o.result.Ok? && o.result.value.status == Rejected && o.tables.users == t'.users
  {
    var k := RequestById(t.profileRequests, id).value;
    var t' := Approve(t, id, adminId, now).tables;
    assert t'.profileRequests[k].id == id;
  }

  lemma {:induction false} RejectUnknown(t: Tables, id: Id, adminId: Id, reason: string, now: Time)
    requires forall k :: 0 <= k < |t.profileRequests| ==> t.profileRequests[k].id != id
    ensures Reject(t, id, adminId, reason, now) == Written(t, Err(RecordNotFound))
  {
  }

  /** Assigning hands the complaint to the staff member and marks it IN_PROGRESS, whatever its
      status was; nothing else changes, and a complaint that was not active becomes one. */
  lemma {:induction false} AssignTakesComplaint(t: Tables, k: nat, staffId: Id)
    requires TablesValid(t) && k < |t.complaints|
    ensures var c := t.complaints[k];
      var row := c.(assignedToId := Some(staffId), status := InProgress);
      var o := Assign(t, c.id, staffId);
      && o == Written(t.(complaints := t.complaints[k := row]), Ok(row))
      && IsActive(row)
      && Stats(o.tables).activeComplaints == Stats(t).activeComplaints + (if IsActive(c) then 0 else 1)
  {
    ComplaintByIdIsUnique(t.complaints, t.nextId, k);
    var c := t.complaints[k];
    CountUpdate(t.complaints, k, c.(assignedToId := Some(staffId), status := InProgress), IsActive);
  }

  /** The status is written as given, even one outside the enumeration the clients use; only
      the status of that complaint changes. */
  lemma {:induction false} StatusWrittenAsGiven(t: Tables, k: nat, status: string)
    requires TablesValid(t) && k < |t.complaints|
    ensures var c := t.complaints[k];
      var o := SetComplaintStatus(t, c.id, status);
      && o == Written(t.(complaints := t.complaints[k := c.(status := status)]), Ok(c.(status := status)))
      && Stats(o.tables).activeComplaints
         == Stats(t).activeComplaints - (if IsActive(c) then 1 else 0) + (if status == Open || status == InProgress then 1 else 0)
  {
    ComplaintByIdIsUnique(t.complaints, t.nextId, k);
    var c := t.complaints[k];
    CountUpdate(t.complaints, k, c.(status := status), IsActive);
  }

  lemma {:induction false} ComplaintUnknown(t: Tables, id: Id, staffId: Id, status: string)
    requires forall k :: 0 <= k < |t.complaints| ==> t.complaints[k].id != id
    ensures Assign(t, id, staffId) == Written(t, Err(RecordNotFound))
    ensures SetComplaintStatus(t, id, status) == Written(t, Err(RecordNotFound))
  {
  }

  /** A staff row is created exactly when some user holds the e-mail and has no staff row yet,
      and it points at that user. Otherwise 'User not found', or the unique user link fails, and
      nothing is written. */
  lemma {:induction false} StaffNeedsUser(t: Tables, email: string, position: string, departmentId: Id, salary: Option<Number>, now: Time)
    requires TablesValid(t)
    ensures var o := CreateStaff(t, email, position, departmentId, salary, now);
      && (o.result.Ok? <==> exists u :: 0 <= u < |t.users| && t.users[u].institutionalEmail == email
                                      && forall i :: 0 <= i < |t.staff| ==> t.staff[i].userId != t.users[u].id)
      && ((forall i :: 0 <= i < |t.users| ==> t.users[i].institutionalEmail != email) ==>
            o == Written(t, Err(Failure(UserNotFound))))
      && (forall u, i :: 0 <= u < |t.users| && t.users[u].institutionalEmail == email && 0 <= i < |t.staff|
                         && t.staff[i].userId == t.users[u].id ==>
            o == Written(t, Err(UniqueConstraintFailed("userId"))))
      && (o.result.Ok? ==>
            && (exists u :: 0 <= u < |t.users| && t.users[u].institutionalEmail == email && o.result.value.userId == t.users[u].id)
            && o.result.value == StaffMember(t.nextId, o.result.value.userId, position, departmentId, salary, now)
            && o.tables == t.(staff := t.staff + [o.result.value], nextId := t.nextId + 1)
            && TablesValid(o.tables)
            && Stats(o.tables).totalStaff == Stats(t).totalStaff + 1)
  {
    var o := CreateStaff(t, email, position, departmentId, salary, now);
    match UserByEmail(t.users, email)
    case None =>
    case Some(u) =>
      UserByEmailIsUnique(t.users, t.nextId, u);
      if o.result.Ok? {
        StaffAdded(t, StaffMember(0, t.users[u].id, position, departmentId, salary, now));
      }
  }

  /** Registering the same user as staff a second time fails on the unique user link and
      writes nothing. */
  lemma {:induction false} StaffOncePerUser(t: Tables, email: string, position: string, departmentId: Id,
                                            salary: Option<Number>, now: Time, position': string,
                                            departmentId': Id, salary': Option<Number>, later: Time)
    requires TablesValid(t) && CreateStaff(t, email, position, departmentId, salary, now).result.Ok?
    ensures var o := CreateStaff(t, email, position, departmentId, salary, now);
      CreateStaff(o.tables, email, position', departmentId', salary', later) == Written(o.tables, Err(UniqueConstraintFailed("userId")))
  {
    var o := CreateStaff(t, email, position, departmentId, salary, now);
    var u := UserByEmail(t.users, email).value;
    assert o.tables.users == t.users;
    assert o.tables.staff[|t.staff|].userId == t.users[u].id;
  }
}
