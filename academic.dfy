/**
 * The academic service: the courses a department offers, the courses a student is taken to be
 * enrolled in, and the eligibility checks of a course registration. Nothing here writes.
 */
module Academic {
  import opened Wrappers
  import opened Collections
  import opened Store

  const CourseNotFound: string := "Course not found"
  const NotEnrolled: string := "Student not enrolled in any department"
  const OtherDepartment: string := "Course belongs to different department"
  const Registered: string := "Course registered successfully (Mock logic pending schema update)"

  predicate OfDepartment(c: Course, slug: string) {
    c.departmentSlug == slug
  }

  /** `getAvailableCourses(departmentSlug, level)`: the department's courses; `level` is not used. */
  function AvailableCourses(t: Tables, slug: string, level: int): seq<Course> {
    Filter(t.courses, (c: Course) => OfDepartment(c, slug))
  }

  /** `getEnrolledCourses(userId)`: nothing without an enrollment, otherwise every course of the
      first enrollment's department. */
  function EnrolledCourses(t: Tables, userId: Id): seq<Course> {
    match FirstEnrollment(t.enrollments, userId)
    case None => []
    case Some(k) => Filter(t.courses, (c: Course) => OfDepartment(c, t.enrollments[k].departmentSlug))
  }

  /** `registerCourse(userId, courseId)`: the course must exist, the user must be enrolled, and
      the first enrollment must be in the course's department; the first failing check decides. */
  function RegisterCourse(t: Tables, userId: Id, courseId: Id): Result<string, Error> {
    match CourseById(t.courses, courseId)
    case None => Err(BadRequest(CourseNotFound))
    case Some(c) =>
      match FirstEnrollment(t.enrollments, userId)
      case None => Err(BadRequest(NotEnrolled))
      case Some(k) =>
        if t.enrollments[k].departmentSlug != t.courses[c].departmentSlug then Err(BadRequest(OtherDepartment))
        else Ok(Registered)
  }

  /** Primary keys of the course table. */
  ghost predicate CourseIdsUnique(courses: seq<Course>) {
    forall i, j :: 0 <= i < j < |courses| ==> courses[i].id != courses[j].id
  }

  // ---------------------------------------------------------------------------------------------
  // Properties

  /** The checks run in the order course, enrollment, department: an unknown course fails
      whatever the enrollments; a known course for a user without enrollment fails as not
      enrolled; and a success always carries the fixed message. */
  lemma {:induction false} RegisterCourseGuardOrder(t: Tables, userId: Id, courseId: Id)
    ensures (forall i :: 0 <= i < |t.courses| ==> t.courses[i].id != courseId) ==>
      RegisterCourse(t, userId, courseId) == Err(BadRequest(CourseNotFound))
    ensures ((exists i :: 0 <= i < |t.courses| && t.courses[i].id == courseId)
         && (forall j :: 0 <= j < |t.enrollments| ==> t.enrollments[j].userId != userId)) ==>
      RegisterCourse(t, userId, courseId) == Err(BadRequest(NotEnrolled))
    ensures RegisterCourse(t, userId, courseId).Ok? ==> RegisterCourse(t, userId, courseId) == Ok(Registered)
  {
  }

  /** A registration is accepted exactly when the course is one of the student's enrolled
      courses; a known course outside that list fails as belonging to another department. */
  lemma {:induction false} RegisterMatchesEnrolledCourses(t: Tables, userId: Id, courseId: Id)
    requires CourseIdsUnique(t.courses)
    ensures RegisterCourse(t, userId, courseId).Ok? <==>
      exists c :: c in EnrolledCourses(t, userId) && c.id == courseId
    ensures ((exists i :: 0 <= i < |t.courses| && t.courses[i].id == courseId)
         && FirstEnrollment(t.enrollments, userId).Some?
         && !(exists c :: c in EnrolledCourses(t, userId) && c.id == courseId)) ==>
      RegisterCourse(t, userId, courseId) == Err(BadRequest(OtherDepartment))
  {
    match CourseById(t.courses, courseId)
    case None =>
    case Some(ci) =>
      match FirstEnrollment(t.enrollments, userId)
      case None =>
      case Some(k) =>
        var slug := t.enrollments[k].departmentSlug;
        if t.courses[ci].departmentSlug == slug {
          assert t.courses[ci] in EnrolledCourses(t, userId);
        }
  }

  /** A student's enrolled courses are the courses offered to the first enrollment's department,
      at any level; without an enrollment there are none. */
  lemma {:induction false} EnrolledAreAvailable(t: Tables, userId: Id, level: int)
    ensures FirstEnrollment(t.enrollments, userId).None? ==> EnrolledCourses(t, userId) == []
    ensures FirstEnrollment(t.enrollments, userId).Some? ==>
      var e := t.enrollments[FirstEnrollment(t.enrollments, userId).value];
      && EnrolledCourses(t, userId) == AvailableCourses(t, e.departmentSlug, level)
      && (forall c :: c in EnrolledCourses(t, userId) <==> c in t.courses && c.departmentSlug == e.departmentSlug)
      && IsSubsequence(EnrolledCourses(t, userId), t.courses)
  {
    match FirstEnrollment(t.enrollments, userId)
    case None =>
    case Some(k) =>
      FilterIsSubsequence(t.courses, (c: Course) => OfDepartment(c, t.enrollments[k].departmentSlug));
  }

  /** The level asked for makes no difference to the courses offered. */
  lemma {:induction false} AvailableIgnoresLevel(t: Tables, slug: string, level: int, other: int)
    ensures AvailableCourses(t, slug, level) == AvailableCourses(t, slug, other)
    ensures forall c :: c in AvailableCourses(t, slug, level) <==> c in t.courses && c.departmentSlug == slug
  {
  }
}
