/**
 * The timetable service: a department's weekly schedule, a student's own schedule picked by
 * the level heuristic, and the creation and deletion of events.
 */
module Timetable {
  import opened Wrappers
  import opened Collections
  import opened Text
  import opened Store

  /** An event with the course it is joined to (`include: { course: true }`). */
  datatype Scheduled = Scheduled(event: TimetableEvent, course: Course)

  /** The course an event belongs to, when the course table has it. */
  function CourseOf(courses: seq<Course>, e: TimetableEvent): Option<Course> {
    match CourseById(courses, e.courseId)
    case None => None
    case Some(c) => Some(courses[c])
  }

  /** Every event joined to its course, in table order. */
  function Joined(courses: seq<Course>, events: seq<TimetableEvent>): seq<Scheduled> {
    if events == [] then []
    else
      (match CourseOf(courses, events[0])
       case None => []
       case Some(c) => [Scheduled(events[0], c)])
      + Joined(courses, events[1..])
  }

  predicate InDepartment(s: Scheduled, slug: string) {
    s.course.departmentSlug == slug
  }

  /** `timetableEvent.findMany({ where: { course: { departmentSlug } } })`. */
  function DepartmentEvents(t: Tables, slug: string): seq<Scheduled> {
    Filter(Joined(t.courses, t.events), (s: Scheduled) => InDepartment(s, slug))
  }

  // ---------------------------------------------------------------------------------------------
  // The level heuristic

  /** `code.match(/\d+/)`: the first run of digits, taken whole. */
  function FirstDigitRun(code: string): Option<string> {
    match FindFirst(code, IsAsciiDigit)
    case None => None
    case Some(i) => Some(code[i..i + DigitRunLength(code[i..])])
  }

  /** `enrollment.level.toString().charAt(0)`. */
  function LevelPrefix(level: int): string {
    CharAt0(IntToString(level))
  }

  /** The filter of `getMySchedule`: the code has a digit run and the first one starts with the
      prefix. */
  predicate KeepsLevel(code: string, prefix: string) {
    match FirstDigitRun(code)
    case None => false
    case Some(run) => StartsWith(run, prefix)
  }

  /** The most significant decimal digit. */
  function LeadingDigit(n: nat): (d: nat)
    ensures d < 10
  {
    if n < 10 then n else LeadingDigit(n / 10)
  }

  // ---------------------------------------------------------------------------------------------
  // Queries

  /** `getMySchedule(userId)`: nothing without an enrollment; otherwise the events of the first
      enrollment's department whose course code passes the level heuristic. */
  function MySchedule(t: Tables, userId: Id): seq<Scheduled> {
    match FirstEnrollment(t.enrollments, userId)
    case None => []
    case Some(k) =>
      var prefix := LevelPrefix(t.enrollments[k].level);
      Filter(DepartmentEvents(t, t.enrollments[k].departmentSlug), (s: Scheduled) => KeepsLevel(s.course.code, prefix))
  }

  /** Weekday first, then start time. */
  predicate EarlierOrSame(a: Scheduled, b: Scheduled) {
    a.event.weekday < b.event.weekday || (a.event.weekday == b.event.weekday && a.event.startTime <= b.event.startTime)
  }

  /** `getWeeklySchedule(level, departmentSlug)`: the department's events by weekday and start
      time; `level` is not used. Events at the same weekday and time come in no particular order. */
  function WeeklySchedule(t: Tables, level: int, slug: string): seq<Scheduled> {
    SortBy(DepartmentEvents(t, slug), EarlierOrSame)
  }

  // ---------------------------------------------------------------------------------------------
  // Writes

  /** The body of `createEvent`, with the ISO date-times already read as instants. */
  datatype EventInput = EventInput(
    courseId: Id,
    roomId: Id,
    weekday: int,
    startTime: Time,
    endTime: Time,
    recurrence: string,
    campusId: Option<Id>)

  function NewEvent(input: EventInput): TimetableEvent {
    TimetableEvent(0, input.courseId, input.roomId, input.weekday, input.startTime, input.endTime,
      input.recurrence, input.campusId)
  }

  /** `deleteEvent(id)`: the deleted row, or an error when there is none. */
  function DeleteEvent(t: Tables, id: Id): Written<TimetableEvent> {
    match EventById(t.events, id)
    case None => Written(t, Err(RecordNotFound))
    case Some(k) => Written(RemoveEvent(t, k), Ok(t.events[k]))
  }

  method CreateTimetableEvent(db: Database, input: EventInput) returns (row: TimetableEvent)
    requires db.Valid()
    modifies db
    ensures db.Valid()
    ensures row == NewEvent(input).(id := old(db.nextId)) && db.Snapshot() == InsertEvent(old(db.Snapshot()), NewEvent(input))
  {
    row := db.CreateEvent(NewEvent(input));
  }

  method DeleteTimetableEvent(db: Database, id: Id) returns (r: Result<TimetableEvent, Error>)
    requires db.Valid()
    modifies db
    ensures db.Valid()
    ensures var o := DeleteEvent(old(db.Snapshot()), id); db.Snapshot() == o.tables && r == o.result
  {
    var found := EventById(db.events, id);
    if found.None? {
      return Err(RecordNotFound);
    }
    r := Ok(db.events[found.value]);
    db.DeleteEvent(found.value);
  }

  // ---------------------------------------------------------------------------------------------
  // Properties

  /** The join keeps exactly the events whose course exists, each with that course, in order. */
  lemma {:induction false} JoinedRows(courses: seq<Course>, events: seq<TimetableEvent>)
    ensures forall x :: x in Joined(courses, events) <==> x.event in events && CourseOf(courses, x.event) == Some(x.course)
  {
    if events != [] {
      JoinedRows(courses, events[1..]);
      assert events == [events[0]] + events[1..];
    }
  }

  /** A department's events are the events whose course belongs to that department. */
  lemma {:induction false} DepartmentEventsRows(t: Tables, slug: string)
    ensures forall x :: x in DepartmentEvents(t, slug) <==>
      x.event in t.events && CourseOf(t.courses, x.event) == Some(x.course) && x.course.departmentSlug == slug
  {
    JoinedRows(t.courses, t.events);
  }

  /** `/\d+/` finds the leftmost digit and takes the longest run from there; it finds nothing
      exactly when the code has no digit. */
  lemma {:induction false} FirstDigitRunIsLeftmostLongest(code: string)
    ensures FirstDigitRun(code).None? <==> forall j :: 0 <= j < |code| ==> !IsAsciiDigit(code[j])
    ensures FirstDigitRun(code).Some? ==>
      var run := FirstDigitRun(code).value;
      exists i :: OccursAt(code, run, i)
        && run != [] && AllDigits(run)
        && (forall j :: 0 <= j < i ==> !IsAsciiDigit(code[j]))
        && (i + |run| < |code| ==> !IsAsciiDigit(code[i + |run|]))
  {
    match FindFirst(code, IsAsciiDigit)
    case None =>
    case Some(i) =>
      var n := DigitRunLength(code[i..]);
      assert n >= 1;
      assert code[i..i + n] == code[i..][..n];
      assert OccursAt(code, code[i..i + n], i);
      if i + n < |code| {
        assert code[i + n] == code[i..][n];
      }
  }

  /** The prefix of a non-negative level is its leading digit. */
  lemma {:induction false} LevelPrefixIsLeadingDigit(level: nat)
    ensures LevelPrefix(level) == [DigitChar(LeadingDigit(level))]
  {
    NatToStringStartsWithLeadingDigit(level);
  }

  lemma {:induction false} NatToStringStartsWithLeadingDigit(n: nat)
    ensures NatToString(n)[0] == DigitChar(LeadingDigit(n))
  {
    if n >= 10 {
      NatToStringStartsWithLeadingDigit(n / 10);
    }
  }

  /** For the usual levels 100 to 999 the prefix is the hundreds digit: level 300 keeps the
      codes whose first number starts with 3. */
  lemma {:induction false} LevelPrefixOfHundreds(level: nat)
    requires 100 <= level <= 999
    ensures LevelPrefix(level) == [DigitChar(level / 100)]
  {
    LevelPrefixIsLeadingDigit(level);
    assert LeadingDigit(level) == LeadingDigit(level / 10) == LeadingDigit(level / 100) == level / 100;
  }

  /** A negative level has prefix '-', which no digit run starts with: nothing is kept. */
  lemma {:induction false} NegativeLevelKeepsNothing(level: int, code: string)
    requires level < 0
    ensures !KeepsLevel(code, LevelPrefix(level))
  {
    var prefix := LevelPrefix(level);
    assert prefix == "-";
    match FirstDigitRun(code)
    case None =>
    case Some(run) =>
      FirstDigitRunIsLeftmostLongest(code);
      assert IsAsciiDigit(run[0]);
  }

  /** A code passes the heuristic exactly when its first digit run starts with the level's
      leading digit. */
  lemma {:induction false} KeepsLevelLeadingDigit(code: string, level: nat)
    ensures KeepsLevel(code, LevelPrefix(level)) <==>
      FirstDigitRun(code).Some? && FirstDigitRun(code).value[0] == DigitChar(LeadingDigit(level))
  {
    LevelPrefixIsLeadingDigit(level);
    FirstDigitRunIsLeftmostLongest(code);
  }

  /** Without an enrollment the schedule is empty. With one, it holds exactly the events of the
      first enrollment's department whose course code passes the level heuristic, in table order. */
  lemma {:induction false} MyScheduleRule(t: Tables, userId: Id)
    ensures FirstEnrollment(t.enrollments, userId).None? ==> MySchedule(t, userId) == []
    ensures FirstEnrollment(t.enrollments, userId).Some? ==>
      var e := t.enrollments[FirstEnrollment(t.enrollments, userId).value];
      var dept := DepartmentEvents(t, e.departmentSlug);
      && (forall x :: x in MySchedule(t, userId) <==>
            x.event in t.events && CourseOf(t.courses, x.event) == Some(x.course)
            && x.course.departmentSlug == e.departmentSlug && KeepsLevel(x.course.code, LevelPrefix(e.level)))
      && IsSubsequence(MySchedule(t, userId), dept)
  {
    match FirstEnrollment(t.enrollments, userId)
    case None =>
    case Some(k) =>
      var e := t.enrollments[k];
      DepartmentEventsRows(t, e.departmentSlug);
      FilterIsSubsequence(DepartmentEvents(t, e.departmentSlug),
        (s: Scheduled) => KeepsLevel(s.course.code, LevelPrefix(e.level)));
  }

  lemma EarlierOrSameIsTotalPreorder()
    ensures TotalPreorder(EarlierOrSame)
  {
  }

  /** The weekly schedule holds each of the department's events once, ordered by weekday and
      then start time, and does not depend on the level asked for. */
  lemma {:induction false} WeeklyScheduleOrder(t: Tables, level: int, slug: string, other: int)
    ensures var r := WeeklySchedule(t, level, slug);
      && multiset(r) == multiset(DepartmentEvents(t, slug))
      && (forall x :: x in r <==>
            x.event in t.events && CourseOf(t.courses, x.event) == Some(x.course) && x.course.departmentSlug == slug)
      && (forall i, j :: 0 <= i < j < |r| ==>
            r[i].event.weekday < r[j].event.weekday
            || (r[i].event.weekday == r[j].event.weekday && r[i].event.startTime <= r[j].event.startTime))
      && r == WeeklySchedule(t, other, slug)
  {
    var r := WeeklySchedule(t, level, slug);
    var dept := DepartmentEvents(t, slug);
    DepartmentEventsRows(t, slug);
    forall x
      ensures x in r <==> x in dept
    {
      assert x in r <==> x in multiset(r);
      assert x in dept <==> x in multiset(dept);
    }
    EarlierOrSameIsTotalPreorder();
    SortBySorted(dept, EarlierOrSame);
  }

  /** A created event appears in its department's weekly schedule, joined to its course. */
  lemma {:induction false} CreatedEventScheduled(t: Tables, input: EventInput, level: int)
    requires CourseOf(t.courses, NewEvent(input)).Some?
    ensures var t' := InsertEvent(t, NewEvent(input));
      var row := NewEvent(input).(id := t.nextId);
      var course := CourseOf(t.courses, row).value;
      Scheduled(row, course) in WeeklySchedule(t', level, course.departmentSlug)
  {
    var t' := InsertEvent(t, NewEvent(input));
    var row := NewEvent(input).(id := t.nextId);
    var course := CourseOf(t.courses, row).value;
    assert row in t'.events;
    WeeklyScheduleOrder(t', level, course.departmentSlug, level);
  }

  /** Deleting an event removes that row, keeps every other row in order, and leaves no row
      with its id. */
  lemma {:induction false} DeleteRemovesEvent(t: Tables, k: nat)
    requires TablesValid(t) && k < |t.events|
    ensures var id := t.events[k].id;
      var o := DeleteEvent(t, id);
      && o.result == Ok(t.events[k])
      && o.tables == t.(events := t.events[..k] + t.events[k + 1..])
      && (forall i :: 0 <= i < |o.tables.events| ==> o.tables.events[i].id != id)
      && (forall e :: e in t.events && e.id != id ==> e in o.tables.events)
  {
    EventByIdIsUnique(t.events, t.nextId, k);
    var rest := t.events[..k] + t.events[k + 1..];
    RemoveAt(t.events, k);
    forall e | e in t.events && e.id != t.events[k].id
      ensures e in rest
    {
      var i :| 0 <= i < |t.events| && t.events[i] == e;
      if i > k {
        assert rest[i - 1] == e;
      } else {
        assert rest[i] == e;
      }
    }
  }

  /** Deleting an id no event has fails, and nothing changes. */
  lemma {:induction false} DeleteUnknownEvent(t: Tables, id: Id)
    requires forall i :: 0 <= i < |t.events| ==> t.events[i].id != id
    ensures DeleteEvent(t, id) == Written(t, Err(RecordNotFound))
  {
  }
}
