/**
 * backend/app/routers/enrollments.py: enrolling, listing, progress, leaving
 * a course, and the roster of a course, over the enrollment table.
 */
module Enrollments {
  import opened Common
  import opened AuthUtils
  import opened Database

  /** At most one enrollment per (student, course). The table declares no such constraint. */
  ghost predicate OnePerPair(es: seq<Enrollment>) {
    forall i, j :: 0 <= i < j < |es| ==> !(es[i].studentId == es[j].studentId && es[i].courseId == es[j].courseId)
  }

  /**
   * `enroll_in_course`: a missing course is a 404, an unpublished one a 400,
   * an existing enrollment a 400, in that order; otherwise one enrollment
   * with progress 0, created at `now`, is added.
   */
  method EnrollInCourse(db: Db, current: User, courseId: Id, newId: Id, now: int) returns (r: Result<Enrollment, HttpError>)
    modifies db`enrollments
    ensures OnePerPair(old(db.enrollments)) ==> OnePerPair(db.enrollments)
    ensures GetCourse(db.courses, courseId).None? ==> r == Err(HttpError(404, "Course not found"))
    ensures GetCourse(db.courses, courseId).Some? && !db.courses[GetCourse(db.courses, courseId).value].isPublished ==>
      r == Err(HttpError(400, "Course is not published"))
    ensures (&& GetCourse(db.courses, courseId).Some?
             && db.courses[GetCourse(db.courses, courseId).value].isPublished
             && FindEnrollment(old(db.enrollments), current.id, courseId).Some?) ==>
      r == Err(HttpError(400, "Already enrolled in this course"))
    ensures r.Err? ==> db.enrollments == old(db.enrollments)
    ensures r.Ok? ==>
      && r.value == Enrollment(newId, current.id, courseId, 0.0, now)
      && db.enrollments == old(db.enrollments) + [r.value]
  {
    var course := GetCourse(db.courses, courseId);
    if course.None? {
      return Err(HttpError(404, "Course not found"));
    }
    if !db.courses[course.value].isPublished {
      return Err(HttpError(400, "Course is not published"));
    }
    var existing := FindEnrollment(db.enrollments, current.id, courseId);
    if existing.Some? {
      return Err(HttpError(400, "Already enrolled in this course"));
    }
    var e := Enrollment(newId, current.id, courseId, 0.0, now);
    if OnePerPair(db.enrollments) {
      EnrollKeepsOnePerPair(db.enrollments, e);
    }
    db.enrollments := db.enrollments + [e];
    r := Ok(e);
  }

  /** Adding a pair that is not yet enrolled keeps one enrollment per pair. */
  lemma EnrollKeepsOnePerPair(es: seq<Enrollment>, e: Enrollment)
    requires OnePerPair(es) && FindEnrollment(es, e.studentId, e.courseId).None?
    ensures OnePerPair(es + [e])
  {
    var t := es + [e];
    forall i, j | 0 <= i < j < |t| ensures !(t[i].studentId == t[j].studentId && t[i].courseId == t[j].courseId) {
      if j == |es| {
        assert t[i] == es[i];
      }
    }
  }

  /** A row of `get_my_enrollments`: the enrollment, its course and the course's instructor, if any. */
  datatype EnrolledCourse = EnrolledCourse(enrollment: Enrollment, course: Course, instructor: Option<User>)

  /** The user row with this primary key, if any. */
  function UserRow(users: seq<User>, id: Id): (r: Option<User>)
    ensures r.Some? ==> r.value in users && r.value.id == id
  {
    match GetUser(users, id)
    case Some(i) => Some(users[i])
    case None => None
  }

  /** `select(Enrollment, Course).join(Course).where(Enrollment.student_id == studentId)`, row by row. */
  function MyView(courses: seq<Course>, users: seq<User>, studentId: Id): Enrollment -> Option<EnrolledCourse> {
    (e: Enrollment) =>
      if e.studentId != studentId then None
      else match GetCourse(courses, e.courseId)
        case None => None
        case Some(i) => Some(EnrolledCourse(e, courses[i], UserRow(users, courses[i].instructorId)))
  }

  /** `get_my_enrollments`: the loop appends one entry per joined row. */
  method GetMyEnrollments(db: Db, current: User) returns (r: seq<EnrolledCourse>)
    ensures r == Collect(db.enrollments, MyView(db.courses, db.users, current.id))
  {
    var rows := db.enrollments;
    var view := MyView(db.courses, db.users, current.id);
    r := [];
    for i := 0 to |rows|
      invariant r == Collect(rows[..i], view)
    {
      CollectSnoc(rows, i, view);
      match view(rows[i]) {
        case Some(v) => r := r + [v];
        case None =>
      }
    }
    assert rows[..|rows|] == rows;
  }

  /**
   * The listing holds only the caller's enrollments, each with its own
   * course, and every enrollment of the caller whose course exists.
   */
  lemma MyEnrollmentsSpec(es: seq<Enrollment>, courses: seq<Course>, users: seq<User>, studentId: Id)
    ensures var r := Collect(es, MyView(courses, users, studentId));
      && (forall k :: 0 <= k < |r| ==>
          && r[k].enrollment.studentId == studentId && r[k].enrollment in es
          && r[k].course in courses && r[k].course.id == r[k].enrollment.courseId)
      && (forall i :: 0 <= i < |es| && es[i].studentId == studentId && GetCourse(courses, es[i].courseId).Some? ==>
          exists k :: 0 <= k < |r| && r[k].enrollment == es[i])
  {
    var view := MyView(courses, users, studentId);
    var r := Collect(es, view);
    CollectSound(es, view);
    CollectComplete(es, view);
    forall i | 0 <= i < |es| && es[i].studentId == studentId && GetCourse(courses, es[i].courseId).Some?
      ensures exists k :: 0 <= k < |r| && r[k].enrollment == es[i]
    {
      assert view(es[i]).Some?;
      var k :| 0 <= k < |r| && r[k] == view(es[i]).value;
    }
  }

  /**
   * `update_course_progress`: 404 without an enrollment; otherwise a given
   * value is written as it is (no range check) and an absent one changes
   * nothing. The reply carries the progress now stored.
   */
  method UpdateCourseProgress(db: Db, current: User, courseId: Id, progress: Option<real>) returns (r: Result<real, HttpError>)
    modifies db`enrollments
    ensures OnePerPair(old(db.enrollments)) ==> OnePerPair(db.enrollments)
    ensures match FindEnrollment(old(db.enrollments), current.id, courseId)
      case None => r == Err(HttpError(404, "Enrollment not found")) && db.enrollments == old(db.enrollments)
      case Some(i) =>
        match progress
        case None => r == Ok(old(db.enrollments)[i].progress) && db.enrollments == old(db.enrollments)
        case Some(p) => r == Ok(p) && db.enrollments == old(db.enrollments)[i := old(db.enrollments)[i].(progress := p)]
  {
    var found := FindEnrollment(db.enrollments, current.id, courseId);
    if found.None? {
      return Err(HttpError(404, "Enrollment not found"));
    }
    var i := found.value;
    if progress.Some? {
      if OnePerPair(db.enrollments) {
        SetProgressKeepsPairs(db.enrollments, i, progress.value);
      }
      db.enrollments := db.enrollments[i := db.enrollments[i].(progress := progress.value)];
    }
    r := Ok(db.enrollments[i].progress);
  }

  /** Writing a progress value changes no (student, course) pair. */
  lemma SetProgressKeepsPairs(es: seq<Enrollment>, i: nat, p: real)
    requires i < |es| && OnePerPair(es)
    ensures OnePerPair(es[i := es[i].(progress := p)])
  {
    var t := es[i := es[i].(progress := p)];
    forall a, b | 0 <= a < b < |t| ensures !(t[a].studentId == t[b].studentId && t[a].courseId == t[b].courseId) {
      assert t[a].studentId == es[a].studentId && t[a].courseId == es[a].courseId;
      assert t[b].studentId == es[b].studentId && t[b].courseId == es[b].courseId;
    }
  }

  /** `unenroll_from_course`: 404 without an enrollment; otherwise exactly that row is deleted. */
  method UnenrollFromCourse(db: Db, current: User, courseId: Id) returns (r: Result<(), HttpError>)
    modifies db`enrollments
    ensures OnePerPair(old(db.enrollments)) ==> OnePerPair(db.enrollments)
    ensures match FindEnrollment(old(db.enrollments), current.id, courseId)
      case None => r == Err(HttpError(404, "Enrollment not found")) && db.enrollments == old(db.enrollments)
      case Some(i) => r == Ok(()) && db.enrollments == RemoveAt(old(db.enrollments), i)
  {
    var found := FindEnrollment(db.enrollments, current.id, courseId);
    if found.None? {
      return Err(HttpError(404, "Enrollment not found"));
    }
    if OnePerPair(db.enrollments) {
      UnenrollRemovesPair(db.enrollments, found.value);
    }
    db.enrollments := RemoveAt(db.enrollments, found.value);
    r := Ok(());
  }

  /** With one enrollment per pair, deleting a pair's row leaves that pair unenrolled and the rest as it was. */
  lemma UnenrollRemovesPair(es: seq<Enrollment>, i: nat)
    requires i < |es| && OnePerPair(es)
    ensures OnePerPair(RemoveAt(es, i))
    ensures FindEnrollment(RemoveAt(es, i), es[i].studentId, es[i].courseId).None?
  {
    var t := RemoveAt(es, i);
    forall a, b | 0 <= a < b < |t| ensures !(t[a].studentId == t[b].studentId && t[a].courseId == t[b].courseId) {
      var a' := if a < i then a else a + 1;
      var b' := if b < i then b else b + 1;
      assert t[a] == es[a'] && t[b] == es[b'] && a' < b';
    }
    forall k | 0 <= k < |t| ensures !(t[k].studentId == es[i].studentId && t[k].courseId == es[i].courseId) {
      if k < i {
        assert t[k] == es[k];
      } else {
        assert t[k] == es[k + 1];
      }
    }
  }

  /** A row of `get_course_students`: the enrollment and its student. */
  datatype EnrolledStudent = EnrolledStudent(enrollment: Enrollment, student: User)

  /** `select(Enrollment, User).join(User, ...).where(Enrollment.course_id == courseId)`, row by row. */
  function StudentView(users: seq<User>, courseId: Id): Enrollment -> Option<EnrolledStudent> {
    (e: Enrollment) =>
      if e.courseId != courseId then None
      else match UserRow(users, e.studentId)
        case None => None
        case Some(u) => Some(EnrolledStudent(e, u))
  }

  /**
   * `get_course_students`: 404 for a missing course, then 403 unless the
   * caller owns the course or is an admin; otherwise the joined roster.
   */
  method GetCourseStudents(db: Db, current: User, courseId: Id) returns (r: Result<seq<EnrolledStudent>, HttpError>)
    ensures GetCourse(db.courses, courseId).None? ==> r == Err(HttpError(404, "Course not found"))
    ensures GetCourse(db.courses, courseId).Some? && !OwnerOrAdmin(db.courses[GetCourse(db.courses, courseId).value], current) ==>
      r == Err(HttpError(403, "Not authorized to view course enrollments"))
    ensures r.Ok? <==> GetCourse(db.courses, courseId).Some? && OwnerOrAdmin(db.courses[GetCourse(db.courses, courseId).value], current)
    ensures r.Ok? ==> r.value == Collect(db.enrollments, StudentView(db.users, courseId))
  {
    var course := GetCourse(db.courses, courseId);
    if course.None? {
      return Err(HttpError(404, "Course not found"));
    }
    if !OwnerOrAdmin(db.courses[course.value], current) {
      return Err(HttpError(403, "Not authorized to view course enrollments"));
    }
    var rows := db.enrollments;
    var view := StudentView(db.users, courseId);
    var students := [];
    for i := 0 to |rows|
      invariant students == Collect(rows[..i], view)
    {
      CollectSnoc(rows, i, view);
      match view(rows[i]) {
        case Some(v) => students := students + [v];
        case None =>
      }
    }
    assert rows[..|rows|] == rows;
    r := Ok(students);
  }

  /** The roster holds only enrollments in the course, each with its own student, and all whose student exists. */
  lemma CourseStudentsSpec(es: seq<Enrollment>, users: seq<User>, courseId: Id)
    ensures var r := Collect(es, StudentView(users, courseId));
      && (forall k :: 0 <= k < |r| ==>
          && r[k].enrollment.courseId == courseId && r[k].enrollment in es
          && r[k].student in users && r[k].student.id == r[k].enrollment.studentId)
      && (forall i :: 0 <= i < |es| && es[i].courseId == courseId && GetUser(users, es[i].studentId).Some? ==>
          exists k :: 0 <= k < |r| && r[k].enrollment == es[i])
  {
    var view := StudentView(users, courseId);
    var r := Collect(es, view);
    CollectSound(es, view);
    CollectComplete(es, view);
    forall i | 0 <= i < |es| && es[i].courseId == courseId && GetUser(users, es[i].studentId).Some?
      ensures exists k :: 0 <= k < |r| && r[k].enrollment == es[i]
    {
      assert view(es[i]).Some?;
      var k :| 0 <= k < |r| && r[k] == view(es[i]).value;
    }
  }
}
