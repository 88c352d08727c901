/**
 * backend/app/routers/instructor.py: the integer statistics of the
 * instructor dashboard and of one course's analytics, and the upgrade
 * request.
 */
module Instructor {
  import opened Common
  import opened AuthUtils
  import opened Database
  import opened AuthDependencies

  /** The integer figures of the dashboard overview. */
  datatype Overview = Overview(totalCourses: nat, publishedCourses: nat, totalStudents: nat, totalLessons: nat)

  /** The course an enrollment or lesson row joins to belongs to `instructorId`. */
  predicate TaughtBy(courses: seq<Course>, courseId: Id, instructorId: Id) {
    match GetCourse(courses, courseId)
    case Some(i) => courses[i].instructorId == instructorId
    case None => false
  }

  /** The enrollments in the instructor's courses (the join in the dashboard's student count). */
  function StudentsOf(courses: seq<Course>, enrollments: seq<Enrollment>, me: Id): nat {
    Count(enrollments, (e: Enrollment) => TaughtBy(courses, e.courseId, me))
  }

  /** The lessons of the instructor's courses. */
  function LessonsOf(courses: seq<Course>, lessons: seq<Lesson>, me: Id): nat {
    Count(lessons, (l: Lesson) => TaughtBy(courses, l.courseId, me))
  }

  /** One entry of the dashboard's `recent_enrollments`. */
  datatype RecentEnrollment = RecentEnrollment(studentEmail: string, courseTitle: string, enrolledAt: int, progress: real)

  /** The dashboard reply: the integer overview and the recent enrollments. */
  datatype Dashboard = Dashboard(overview: Overview, recentEnrollments: seq<RecentEnrollment>)

  /**
   * `select(Enrollment, Course, User).join(Course).join(User, ...)
   * .where(Course.instructor_id == me)`, row by row: an enrollment in one
   * of `me`'s courses whose student exists gives the student's email, the
   * course's title, and its own timestamp and progress.
   */
  function RecentView(courses: seq<Course>, users: seq<User>, me: Id): Enrollment -> Option<RecentEnrollment> {
    (e: Enrollment) =>
      match GetCourse(courses, e.courseId)
      case None => None
      case Some(i) =>
        if courses[i].instructorId != me then None
        else match GetUser(users, e.studentId)
          case None => None
          case Some(u) => Some(RecentEnrollment(users[u].email, courses[i].title, e.createdAt, e.progress))
  }

  /** `order_by(Enrollment.created_at.desc())` as an ascending key. */
  function LatestFirst(r: RecentEnrollment): int {
    -r.enrolledAt
  }

  /** `.order_by(Enrollment.created_at.desc()).limit(5)` over the joined rows. */
  function Latest5(rows: seq<RecentEnrollment>): seq<RecentEnrollment> {
    var sorted := SortBy(rows, LatestFirst);
    if |sorted| <= 5 then sorted else sorted[..5]
  }

  /** In rows sorted newest first, no row after the first `n` is newer than the `n`-th. */
  lemma NoNewerAfterPrefix(s: seq<RecentEnrollment>, n: nat)
    requires SortedBy(s, LatestFirst) && 0 < n <= |s|
    ensures forall x :: x in multiset(s) - multiset(s[..n]) ==> x.enrolledAt <= s[n - 1].enrolledAt
  {
    assert s == s[..n] + s[n..];
    assert multiset(s) == multiset(s[..n]) + multiset(s[n..]);
    forall x | x in multiset(s) - multiset(s[..n]) ensures x.enrolledAt <= s[n - 1].enrolledAt {
      assert x in s[n..];
      var k :| n <= k < |s| && s[k] == x;
      assert LatestFirst(s[n - 1]) <= LatestFirst(s[k]);
    }
  }

  /**
   * The recent list is the five latest rows of the join: as many as there
   * are rows up to five, drawn from the rows, newest first, and no row left
   * out is newer than the last one listed.
   */
  lemma Latest5Spec(rows: seq<RecentEnrollment>)
    ensures var r := Latest5(rows);
      && |r| == (if |rows| <= 5 then |rows| else 5)
      && multiset(r) <= multiset(rows)
      && (forall i, j :: 0 <= i < j < |r| ==> r[i].enrolledAt >= r[j].enrolledAt)
      && (forall x :: x in multiset(rows) - multiset(r) ==> |r| == 5 && x.enrolledAt <= r[4].enrolledAt)
  {
    var s := SortBy(rows, LatestFirst);
    var r := Latest5(rows);
    assert r == s[..|r|];
    forall i, j | 0 <= i < j < |r| ensures r[i].enrolledAt >= r[j].enrolledAt {
      assert LatestFirst(s[i]) <= LatestFirst(s[j]);
    }
    if |s| > 5 {
      assert multiset(r) <= multiset(rows) by {
        assert s == r + s[5..];
      }
      NoNewerAfterPrefix(s, 5);
    }
  }

  /** `row` is the joined row of some enrollment in one of `me`'s courses. */
  ghost predicate FromTaughtEnrollment(courses: seq<Course>, es: seq<Enrollment>, me: Id, row: RecentEnrollment) {
    exists i :: 0 <= i < |es| && TaughtBy(courses, es[i].courseId, me) && row.enrolledAt == es[i].createdAt && row.progress == es[i].progress
  }

  /** Every joined row comes from an enrollment in one of `me`'s courses, with its timestamp and progress. */
  lemma RecentRowsSound(courses: seq<Course>, users: seq<User>, es: seq<Enrollment>, me: Id)
    ensures var rows := Collect(es, RecentView(courses, users, me));
      forall k :: 0 <= k < |rows| ==> FromTaughtEnrollment(courses, es, me, rows[k])
  {
    var view := RecentView(courses, users, me);
    var rows := Collect(es, view);
    CollectSound(es, view);
    forall k | 0 <= k < |rows| ensures FromTaughtEnrollment(courses, es, me, rows[k]) {
      var i :| 0 <= i < |es| && view(es[i]) == Some(rows[k]);
      assert TaughtBy(courses, es[i].courseId, me);
    }
  }

  /**
   * There are never more joined rows than `total_students` counts, and
   * exactly as many when every enrolled student exists; so the recent list
   * is never longer than `total_students`.
   */
  lemma RecentWithinStudents(courses: seq<Course>, users: seq<User>, es: seq<Enrollment>, me: Id)
    ensures var rows := Collect(es, RecentView(courses, users, me));
      && |rows| <= StudentsOf(courses, es, me)
      && |Latest5(rows)| <= StudentsOf(courses, es, me)
      && ((forall i :: 0 <= i < |es| ==> es[i].studentId in UserIds(users)) ==> |rows| == StudentsOf(courses, es, me))
  {
    var view := RecentView(courses, users, me);
    var p := (e: Enrollment) => TaughtBy(courses, e.courseId, me);
    assert forall i :: 0 <= i < |es| ==> (view(es[i]).Some? ==> p(es[i]));
    if forall i :: 0 <= i < |es| ==> es[i].studentId in UserIds(users) {
      assert forall i :: 0 <= i < |es| ==> (p(es[i]) ==> view(es[i]).Some?);
    }
    CollectWithinCount(es, view, p);
    Latest5Spec(Collect(es, view));
  }

  /**
   * `get_instructor_dashboard`, for instructors and admins: the counts of
   * the overview and the five latest enrollments in the caller's courses.
   */
  method GetInstructorDashboard(db: Db, current: User) returns (r: Result<Dashboard, HttpError>)
    ensures r.Err? <==> RoleChecker(INSTRUCTOR, current).Err?
    ensures r.Err? ==> r.error == RoleChecker(INSTRUCTOR, current).error
    ensures r.Ok? ==>
      && r.value.overview.totalCourses == Count(db.courses, (c: Course) => c.instructorId == current.id)
      && r.value.overview.publishedCourses == Count(db.courses, (c: Course) => c.instructorId == current.id && c.isPublished)
      && r.value.overview.totalStudents == StudentsOf(db.courses, db.enrollments, current.id)
      && r.value.overview.totalLessons == LessonsOf(db.courses, db.lessons, current.id)
      && r.value.recentEnrollments == Latest5(Collect(db.enrollments, RecentView(db.courses, db.users, current.id)))
      && |r.value.recentEnrollments| <= r.value.overview.totalStudents
  {
    var role := RoleChecker(INSTRUCTOR, current);
    if role.Err? {
      return Err(role.error);
    }
    var me := current.id;
    var courses := db.courses;
    var overview := Overview(
      Count(courses, (c: Course) => c.instructorId == me),
      Count(courses, (c: Course) => c.instructorId == me && c.isPublished),
      StudentsOf(courses, db.enrollments, me),
      LessonsOf(courses, db.lessons, me));
    RecentWithinStudents(courses, db.users, db.enrollments, me);
    var recent := Latest5(Collect(db.enrollments, RecentView(courses, db.users, me)));
    r := Ok(Dashboard(overview, recent));
  }

  /** Published courses are among the instructor's courses. */
  lemma PublishedWithinTotal(courses: seq<Course>, me: Id)
    ensures Count(courses, (c: Course) => c.instructorId == me && c.isPublished)
         <= Count(courses, (c: Course) => c.instructorId == me)
  {
    CountMono(courses, (c: Course) => c.instructorId == me && c.isPublished, (c: Course) => c.instructorId == me);
  }

  /** An instructor who teaches no course has no students and no lessons on the dashboard. */
  lemma NoCoursesNothingCounted(courses: seq<Course>, enrollments: seq<Enrollment>, lessons: seq<Lesson>, me: Id)
    requires forall k :: 0 <= k < |courses| ==> courses[k].instructorId != me
    ensures StudentsOf(courses, enrollments, me) == 0
    ensures LessonsOf(courses, lessons, me) == 0
  {
    CountZero(enrollments, (e: Enrollment) => TaughtBy(courses, e.courseId, me));
    CountZero(lessons, (l: Lesson) => TaughtBy(courses, l.courseId, me));
  }

  /** The integer figures of one course's analytics; `stars[s - 1]` counts the reviews rated `s`. */
  datatype Analytics = Analytics(
    totalEnrollments: nat,
    completedEnrollments: nat,
    totalReviews: nat,
    stars: seq<nat>,
    lessonsCount: nat)

  /** The course's enrollments: `select(Enrollment).where(Enrollment.course_id == course_id)`. */
  function CourseEnrollments(enrollments: seq<Enrollment>, courseId: Id): seq<Enrollment> {
    Filter(enrollments, (e: Enrollment) => e.courseId == courseId)
  }

  /** The course's reviews. */
  function CourseReviews(reviews: seq<Review>, courseId: Id): seq<Review> {
    Filter(reviews, (v: Review) => v.courseId == courseId)
  }

  /** The enrollments whose progress has reached 100. */
  function Completed(es: seq<Enrollment>): nat {
    Count(es, (e: Enrollment) => e.progress >= 100.0)
  }

  /** The number of the course's lessons. */
  function CourseLessonCount(lessons: seq<Lesson>, courseId: Id): nat {
    Count(lessons, (l: Lesson) => l.courseId == courseId)
  }

  /** The reviews rated exactly `s`. */
  function Stars(reviews: seq<Review>, s: int): nat {
    Count(reviews, (r: Review) => r.rating == s)
  }

  /**
   * `get_course_analytics`: instructors and admins only; 404 for a missing
   * course; 403 unless the caller owns it or is an admin; otherwise the
   * counts over the course's enrollments, reviews and lessons.
   */
  method GetCourseAnalytics(db: Db, current: User, courseId: Id) returns (r: Result<Analytics, HttpError>)
    ensures RoleChecker(INSTRUCTOR, current).Err? ==> r == Err(RoleChecker(INSTRUCTOR, current).error)
    ensures (RoleChecker(INSTRUCTOR, current).Ok? && GetCourse(db.courses, courseId).None?) ==>
      r == Err(HttpError(404, "Course not found"))
    ensures (&& RoleChecker(INSTRUCTOR, current).Ok? && GetCourse(db.courses, courseId).Some?
             && !OwnerOrAdmin(db.courses[GetCourse(db.courses, courseId).value], current)) ==>
      r == Err(HttpError(403, "Not authorized to view analytics for this course"))
    ensures r.Ok? <==>
      && RoleChecker(INSTRUCTOR, current).Ok? && GetCourse(db.courses, courseId).Some?
      && OwnerOrAdmin(db.courses[GetCourse(db.courses, courseId).value], current)
    ensures r.Ok? ==>
      var es := CourseEnrollments(db.enrollments, courseId);
      var rs := CourseReviews(db.reviews, courseId);
      && r.value.totalEnrollments == |es|
      && r.value.completedEnrollments == Completed(es)
      && r.value.totalReviews == |rs|
      && |r.value.stars| == 5
      && (forall s :: 1 <= s <= 5 ==> r.value.stars[s - 1] == Stars(rs, s))
      && r.value.lessonsCount == CourseLessonCount(db.lessons, courseId)
  {
    var role := RoleChecker(INSTRUCTOR, current);
    if role.Err? {
      return Err(role.error);
    }
    var found := GetCourse(db.courses, courseId);
    if found.None? {
      return Err(HttpError(404, "Course not found"));
    }
    if !OwnerOrAdmin(db.courses[found.value], current) {
      return Err(HttpError(403, "Not authorized to view analytics for this course"));
    }
    var es := CourseEnrollments(db.enrollments, courseId);
    var completed := if |es| > 0 then Completed(es) else 0;
    var rs := CourseReviews(db.reviews, courseId);
    var stars := [Stars(rs, 1), Stars(rs, 2), Stars(rs, 3), Stars(rs, 4), Stars(rs, 5)];
    r := Ok(Analytics(|es|, completed, |rs|, stars, CourseLessonCount(db.lessons, courseId)));
  }

  /**
   * Completed enrollments are among all enrollments, and each star bucket
   * among all reviews; with no enrollments the completed count is 0.
   */
  lemma AnalyticsBounds(es: seq<Enrollment>, rs: seq<Review>, s: int)
    ensures Completed(es) <= |es|
    ensures |es| == 0 ==> Completed(es) == 0
    ensures Stars(rs, s) <= |rs|
  {
  }

  /** With every rating in 1..5, as the review schema requires, the five buckets add up to the number of reviews. */
  lemma {:induction false} DistributionSums(rs: seq<Review>)
    requires forall k :: 0 <= k < |rs| ==> 1 <= rs[k].rating <= 5
    ensures Stars(rs, 1) + Stars(rs, 2) + Stars(rs, 3) + Stars(rs, 4) + Stars(rs, 5) == |rs|
  {
    if |rs| > 0 {
      var init := rs[..|rs| - 1];
      DistributionSums(init);
      CountLast(rs, (r: Review) => r.rating == 1);
      CountLast(rs, (r: Review) => r.rating == 2);
      CountLast(rs, (r: Review) => r.rating == 3);
      CountLast(rs, (r: Review) => r.rating == 4);
      CountLast(rs, (r: Review) => r.rating == 5);
    }
  }

  /** `request_instructor_upgrade`: only a STUDENT may ask; the request changes nothing and is "pending". */
  function RequestInstructorUpgrade(current: User): (r: Result<string, HttpError>)
    ensures r.Ok? <==> current.role == STUDENT
    ensures r.Ok? ==> r.value == "pending"
    ensures r.Err? ==> r.error == HttpError(400, "Only students can request instructor upgrade")
  {
    if current.role != STUDENT then Err(HttpError(400, "Only students can request instructor upgrade"))
    else Ok("pending")
  }

  /** Exactly the users the instructor endpoints turn away may ask for the upgrade. */
  lemma UpgradeExactlyBelowInstructor(u: User)
    ensures RequestInstructorUpgrade(u).Ok? <==> RoleChecker(INSTRUCTOR, u).Err?
  {
  }
}
