/**
 * backend/app/routers/courses.py: the filtered, paginated course listing,
 * course creation, partial update and deletion, and the lessons of a course.
 */
module Courses {
  import opened Common
  import opened Text
  import opened AuthUtils
  import opened Database
  import opened AuthDependencies

  /** The query parameters of `get_courses`. */
  datatype CourseQuery = CourseQuery(
    skip: int,
    limit: int,
    search: Option<string>,
    categoryId: Option<Id>,
    instructorId: Option<Id>,
    publishedOnly: bool)

  /** A request the query or body validation rejects before the handler runs. */
  const ValidationError: HttpError := HttpError(422, "Unprocessable Entity")

  /** `skip >= 0` and `1 <= limit <= 100`. */
  predicate ValidQuery(q: CourseQuery) {
    0 <= q.skip && 1 <= q.limit <= 100
  }

  /** The `where` clauses: each filter applies only when its parameter is set (and, for strings, non-empty). */
  predicate Matches(q: CourseQuery, c: Course) {
    && (!q.publishedOnly || c.isPublished)
    && (Truthy(q.search) ==> Contains(c.title, q.search.value))
    && (Truthy(q.categoryId) ==> c.categoryId == q.categoryId)
    && (Truthy(q.instructorId) ==> c.instructorId == q.instructorId.value)
  }

  /** `.offset(skip).limit(limit)` */
  function Page<T>(rows: seq<T>, skip: nat, limit: nat): (r: seq<T>)
    ensures |r| <= limit
    ensures |r| == if skip >= |rows| then 0 else if skip + limit <= |rows| then limit else |rows| - skip
    ensures forall k :: 0 <= k < |r| ==> r[k] == rows[skip + k]
  {
    if skip >= |rows| then [] else rows[skip..if skip + limit <= |rows| then skip + limit else |rows|]
  }

  /** A `CourseRead` reply: the row and its two counts. */
  datatype CourseRead = CourseRead(course: Course, lessonsCount: nat, enrollmentsCount: nat)

  /** The reply for one listed course, with lessons and enrollments counted by course id. */
  function ReadOf(lessons: seq<Lesson>, enrollments: seq<Enrollment>, c: Course): CourseRead {
    CourseRead(c, Count(lessons, (l: Lesson) => l.courseId == c.id), Count(enrollments, (e: Enrollment) => e.courseId == c.id))
  }

  /**
   * `get_courses`: filter, then skip and limit, then one reply per course,
   * built by an append loop.
   */
  method GetCourses(db: Db, q: CourseQuery) returns (r: Result<seq<CourseRead>, HttpError>)
    ensures r.Err? <==> !ValidQuery(q)
    ensures r.Err? ==> r.error == ValidationError
    ensures r.Ok? ==>
      var page := Page(Filter(db.courses, (c: Course) => Matches(q, c)), q.skip, q.limit);
      && |r.value| == |page|
      && forall k :: 0 <= k < |page| ==> r.value[k] == ReadOf(db.lessons, db.enrollments, page[k])
  {
    if !ValidQuery(q) {
      return Err(ValidationError);
    }
    var page := Page(Filter(db.courses, (c: Course) => Matches(q, c)), q.skip, q.limit);
    var replies := [];
    for i := 0 to |page|
      invariant |replies| == i
      invariant forall k :: 0 <= k < i ==> replies[k] == ReadOf(db.lessons, db.enrollments, page[k])
    {
      replies := replies + [ReadOf(db.lessons, db.enrollments, page[i])];
    }
    r := Ok(replies);
  }

  /**
   * What the listing promises: at most `limit` courses, all from the table,
   * all passing every active filter, taken in order after skipping the
   * first `skip` matches; and a count is zero exactly when nothing refers
   * to the course.
   */
  lemma GetCoursesSpec(courses: seq<Course>, lessons: seq<Lesson>, enrollments: seq<Enrollment>, q: CourseQuery)
    requires ValidQuery(q)
    ensures var matching := Filter(courses, (c: Course) => Matches(q, c));
      var page := Page(matching, q.skip, q.limit);
      && |page| <= q.limit
      && (forall k :: 0 <= k < |page| ==> page[k] in courses && Matches(q, page[k]) && page[k] == matching[q.skip + k])
      && (forall k :: 0 <= k < |page| ==>
          && (ReadOf(lessons, enrollments, page[k]).lessonsCount == 0 <==>
              forall j :: 0 <= j < |lessons| ==> lessons[j].courseId != page[k].id)
          && (ReadOf(lessons, enrollments, page[k]).enrollmentsCount == 0 <==>
              forall j :: 0 <= j < |enrollments| ==> enrollments[j].courseId != page[k].id))
  {
    var matching := Filter(courses, (c: Course) => Matches(q, c));
    var page := Page(matching, q.skip, q.limit);
    forall k | 0 <= k < |page| ensures page[k] in courses && Matches(q, page[k]) && page[k] == matching[q.skip + k] {
      assert page[k] == matching[q.skip + k];
    }
    forall k | 0 <= k < |page|
      ensures (ReadOf(lessons, enrollments, page[k]).lessonsCount == 0 <==>
              forall j :: 0 <= j < |lessons| ==> lessons[j].courseId != page[k].id)
      ensures (ReadOf(lessons, enrollments, page[k]).enrollmentsCount == 0 <==>
              forall j :: 0 <= j < |enrollments| ==> enrollments[j].courseId != page[k].id)
    {
      ReadOfZero(lessons, enrollments, page[k]);
    }
  }

  /** A reply's count is zero exactly when no row refers to its course. */
  lemma ReadOfZero(lessons: seq<Lesson>, enrollments: seq<Enrollment>, c: Course)
    ensures ReadOf(lessons, enrollments, c).lessonsCount == 0 <==>
      forall j :: 0 <= j < |lessons| ==> lessons[j].courseId != c.id
    ensures ReadOf(lessons, enrollments, c).enrollmentsCount == 0 <==>
      forall j :: 0 <= j < |enrollments| ==> enrollments[j].courseId != c.id
  {
    CountZero(lessons, (l: Lesson) => l.courseId == c.id);
    CountZero(enrollments, (e: Enrollment) => e.courseId == c.id);
  }

  /** The body of `create_course`. */
  datatype CourseCreate = CourseCreate(
    title: string,
    description: string,
    image: Option<string>,
    price: Option<real>,
    isPublished: bool,
    categoryId: Option<Id>)

  /**
   * The foreign key on `course.category_id` refuses the commit: the id is
   * given and names no category. The handlers' guard tests the id's
   * truthiness, so the only refused id that gets past it is "".
   */
  function CategoryRefused(categories: seq<Category>, categoryId: Option<Id>): (r: bool)
    ensures r <==> categoryId.Some? && forall j :: 0 <= j < |categories| ==> categories[j].id != categoryId.value
    ensures r && !Truthy(categoryId) ==> categoryId == Some("")
    ensures Truthy(categoryId) && GetCategory(categories, categoryId.value).None? ==> r
  {
    categoryId.Some? && GetCategory(categories, categoryId.value).None?
  }

  /**
   * `create_course`: instructors and admins only; a negative price fails
   * validation; a non-empty category id must name a category, else 400.
   * An empty category id passes that guard and the foreign key fails the
   * commit, which FastAPI answers with 500. The new row belongs to the
   * caller and is reported with both counts 0.
   */
  method CreateCourse(db: Db, current: User, data: CourseCreate, newId: Id) returns (r: Result<CourseRead, HttpError>)
    modifies db`courses
    ensures RoleChecker(INSTRUCTOR, current).Err? ==> r == Err(RoleChecker(INSTRUCTOR, current).error)
    ensures (RoleChecker(INSTRUCTOR, current).Ok? && data.price.Some? && data.price.value < 0.0) ==> r == Err(ValidationError)
    ensures (&& RoleChecker(INSTRUCTOR, current).Ok? && !(data.price.Some? && data.price.value < 0.0)
             && Truthy(data.categoryId) && GetCategory(db.categories, data.categoryId.value).None?) ==>
      r == Err(HttpError(400, "Category not found"))
    ensures (&& RoleChecker(INSTRUCTOR, current).Ok? && !(data.price.Some? && data.price.value < 0.0)
             && !Truthy(data.categoryId) && CategoryRefused(db.categories, data.categoryId)) ==>
      r == Err(HttpError(500, "Internal Server Error"))
    ensures r.Ok? <==>
      && RoleChecker(INSTRUCTOR, current).Ok? && !(data.price.Some? && data.price.value < 0.0)
      && !CategoryRefused(db.categories, data.categoryId)
    ensures r.Err? ==> db.courses == old(db.courses)
    ensures r.Ok? ==>
      var c := Course(newId, data.title, data.description, data.image, data.price, data.isPublished, current.id, data.categoryId);
      && r.value == CourseRead(c, 0, 0)
      && db.courses == old(db.courses) + [c]
  {
    var role := RoleChecker(INSTRUCTOR, current);
    if role.Err? {
      return Err(role.error);
    }
    if data.price.Some? && data.price.value < 0.0 {
      return Err(ValidationError);
    }
    if Truthy(data.categoryId) && GetCategory(db.categories, data.categoryId.value).None? {
      return Err(HttpError(400, "Category not found"));
    }
    if CategoryRefused(db.categories, data.categoryId) {
      return Err(HttpError(500, "Internal Server Error"));
    }
    var c := Course(newId, data.title, data.description, data.image, data.price, data.isPublished, current.id, data.categoryId);
    db.courses := db.courses + [c];
    r := Ok(CourseRead(c, 0, 0));
  }

  /** The zero counts `create_course` reports are the counts the listing computes for a fresh id. */
  lemma CreatedCountsAgree(lessons: seq<Lesson>, enrollments: seq<Enrollment>, c: Course)
    requires forall j :: 0 <= j < |lessons| ==> lessons[j].courseId != c.id
    requires forall j :: 0 <= j < |enrollments| ==> enrollments[j].courseId != c.id
    ensures ReadOf(lessons, enrollments, c) == CourseRead(c, 0, 0)
  {
    CountZero(lessons, (l: Lesson) => l.courseId == c.id);
    CountZero(enrollments, (e: Enrollment) => e.courseId == c.id);
  }

  /** One supplied field of a `CourseUpdate`, as `model_dump(exclude_unset=True)` yields it. */
  datatype CourseField =
    | Title(title: string)
    | Description(description: string)
    | Image(image: Option<string>)
    | Price(price: Option<real>)
    | IsPublished(isPublished: bool)
    | CategoryId(categoryId: Option<Id>)

  datatype FieldName = TITLE | DESCRIPTION | IMAGE | PRICE | IS_PUBLISHED | CATEGORY_ID

  function NameOf(f: CourseField): FieldName {
    match f
    case Title(_) => TITLE
    case Description(_) => DESCRIPTION
    case Image(_) => IMAGE
    case Price(_) => PRICE
    case IsPublished(_) => IS_PUBLISHED
    case CategoryId(_) => CATEGORY_ID
  }

  /** The current value of one updatable field of a course. */
  function FieldOf(c: Course, n: FieldName): (f: CourseField)
    ensures NameOf(f) == n
  {
    match n
    case TITLE => Title(c.title)
    case DESCRIPTION => Description(c.description)
    case IMAGE => Image(c.image)
    case PRICE => Price(c.price)
    case IS_PUBLISHED => IsPublished(c.isPublished)
    case CATEGORY_ID => CategoryId(c.categoryId)
  }

  /** `setattr(course, field, value)`: the named field takes the value, every other field keeps its own. */
  function SetField(c: Course, f: CourseField): (r: Course)
    ensures FieldOf(r, NameOf(f)) == f
    ensures forall n :: n != NameOf(f) ==> FieldOf(r, n) == FieldOf(c, n)
    ensures r.id == c.id && r.instructorId == c.instructorId
  {
    match f
    case Title(v) => c.(title := v)
    case Description(v) => c.(description := v)
    case Image(v) => c.(image := v)
    case Price(v) => c.(price := v)
    case IsPublished(v) => c.(isPublished := v)
    case CategoryId(v) => c.(categoryId := v)
  }

  /** The `setattr` loop over the supplied fields, in order. */
  function ApplyPatch(c: Course, fs: seq<CourseField>): Course {
    if |fs| == 0 then c else SetField(ApplyPatch(c, fs[..|fs| - 1]), fs[|fs| - 1])
  }

  /** The fields of a dictionary: each name at most once. */
  predicate DistinctNames(fs: seq<CourseField>) {
    forall i, j :: 0 <= i < j < |fs| ==> NameOf(fs[i]) != NameOf(fs[j])
  }

  /** A field not supplied keeps its value; `id` and `instructor_id` are never supplied. */
  lemma {:induction false} PatchKeepsUnsupplied(c: Course, fs: seq<CourseField>)
    ensures ApplyPatch(c, fs).id == c.id && ApplyPatch(c, fs).instructorId == c.instructorId
    ensures forall n :: (forall k :: 0 <= k < |fs| ==> NameOf(fs[k]) != n) ==> FieldOf(ApplyPatch(c, fs), n) == FieldOf(c, n)
  {
    if |fs| > 0 {
      var init := fs[..|fs| - 1];
      PatchKeepsUnsupplied(c, init);
      forall n | (forall k :: 0 <= k < |fs| ==> NameOf(fs[k]) != n)
        ensures FieldOf(ApplyPatch(c, fs), n) == FieldOf(c, n)
      {
        assert forall k :: 0 <= k < |init| ==> init[k] == fs[k];
        assert NameOf(fs[|fs| - 1]) != n;
      }
    }
  }

  /** Every supplied field takes the supplied value. */
  lemma {:induction false} PatchSetsSupplied(c: Course, fs: seq<CourseField>)
    requires DistinctNames(fs)
    ensures forall k :: 0 <= k < |fs| ==> FieldOf(ApplyPatch(c, fs), NameOf(fs[k])) == fs[k]
  {
    if |fs| > 0 {
      var init := fs[..|fs| - 1];
      assert DistinctNames(init) by {
        forall i, j | 0 <= i < j < |init| ensures NameOf(init[i]) != NameOf(init[j]) {
          assert init[i] == fs[i] && init[j] == fs[j];
        }
      }
      PatchSetsSupplied(c, init);
      forall k | 0 <= k < |fs| ensures FieldOf(ApplyPatch(c, fs), NameOf(fs[k])) == fs[k] {
        if k < |fs| - 1 {
          assert init[k] == fs[k];
          assert NameOf(fs[k]) != NameOf(fs[|fs| - 1]);
        }
      }
    }
  }

  /** The `category_id` attribute of the update body: the supplied value, or `None` when it was not supplied. */
  function SuppliedCategory(fs: seq<CourseField>): (r: Option<Id>)
    ensures r.Some? ==> CategoryId(r) in fs
    ensures (forall k :: 0 <= k < |fs| ==> !fs[k].CategoryId?) ==> r.None?
    ensures (exists k :: 0 <= k < |fs| && fs[k].CategoryId?) ==> forall c: Course :: ApplyPatch(c, fs).categoryId == r
    ensures DistinctNames(fs) && r.None? ==> forall k :: 0 <= k < |fs| && fs[k].CategoryId? ==> fs[k].categoryId.None?
  {
    if |fs| == 0 then None
    else
      var init := fs[..|fs| - 1];
      assert forall k :: 0 <= k < |init| ==> init[k] == fs[k];
      if fs[|fs| - 1].CategoryId? then fs[|fs| - 1].categoryId
      else
        assert DistinctNames(fs) ==> DistinctNames(init);
        assert (exists k :: 0 <= k < |fs| && fs[k].CategoryId?) ==> exists k :: 0 <= k < |init| && init[k].CategoryId?;
        SuppliedCategory(init)
  }

  /**
   * `update_course`: 404 for a missing course, then 403 unless the caller
   * owns it or is an admin, then 400 for a non-empty category id naming no
   * category; an empty category id passes that guard and the foreign key
   * fails the commit with 500, changing nothing; otherwise the supplied
   * fields are written one by one. The reply reports both counts as 0.
   */
  method UpdateCourse(db: Db, current: User, courseId: Id, patch: seq<CourseField>) returns (r: Result<CourseRead, HttpError>)
    modifies db`courses
    ensures GetCourse(old(db.courses), courseId).None? ==> r == Err(HttpError(404, "Course not found"))
    ensures (GetCourse(old(db.courses), courseId).Some? && !OwnerOrAdmin(old(db.courses)[GetCourse(old(db.courses), courseId).value], current)) ==>
      r == Err(HttpError(403, "Not authorized to update this course"))
    ensures (&& GetCourse(old(db.courses), courseId).Some? && OwnerOrAdmin(old(db.courses)[GetCourse(old(db.courses), courseId).value], current)
             && Truthy(SuppliedCategory(patch)) && GetCategory(db.categories, SuppliedCategory(patch).value).None?) ==>
      r == Err(HttpError(400, "Category not found"))
    ensures (&& GetCourse(old(db.courses), courseId).Some? && OwnerOrAdmin(old(db.courses)[GetCourse(old(db.courses), courseId).value], current)
             && !Truthy(SuppliedCategory(patch)) && CategoryRefused(db.categories, SuppliedCategory(patch))) ==>
      r == Err(HttpError(500, "Internal Server Error"))
    ensures r.Err? ==> db.courses == old(db.courses)
    ensures r.Ok? ==>
      var i := GetCourse(old(db.courses), courseId).value;
      && OwnerOrAdmin(old(db.courses)[i], current)
      && !CategoryRefused(db.categories, SuppliedCategory(patch))
      && db.courses == old(db.courses)[i := ApplyPatch(old(db.courses)[i], patch)]
      && r.value == CourseRead(ApplyPatch(old(db.courses)[i], patch), 0, 0)
  {
    var found := GetCourse(db.courses, courseId);
    if found.None? {
      return Err(HttpError(404, "Course not found"));
    }
    var i := found.value;
    if !OwnerOrAdmin(db.courses[i], current) {
      return Err(HttpError(403, "Not authorized to update this course"));
    }
    var category := SuppliedCategory(patch);
    if Truthy(category) && GetCategory(db.categories, category.value).None? {
      return Err(HttpError(400, "Category not found"));
    }
    if CategoryRefused(db.categories, category) {
      return Err(HttpError(500, "Internal Server Error"));
    }
    var c := db.courses[i];
    for k := 0 to |patch|
      invariant c == ApplyPatch(db.courses[i], patch[..k])
    {
      assert patch[..k + 1][..k] == patch[..k];
      c := SetField(c, patch[k]);
    }
    assert patch[..|patch|] == patch;
    db.courses := db.courses[i := c];
    r := Ok(CourseRead(c, 0, 0));
  }

  /**
   * Some enrollment or review points at the course. `Course.enrollments` and
   * `Course.reviews` have no delete cascade, so deleting the course makes the
   * ORM set their `course_id` to NULL, which the non-null column refuses.
   */
  predicate Referenced(enrollments: seq<Enrollment>, reviews: seq<Review>, courseId: Id) {
    || (exists k :: 0 <= k < |enrollments| && enrollments[k].courseId == courseId)
    || (exists k :: 0 <= k < |reviews| && reviews[k].courseId == courseId)
  }

  /**
   * `delete_course`: 404, then 403 as for update; a course that still has
   * enrollments or reviews fails at the commit, an unhandled integrity error
   * that FastAPI answers with 500, and nothing is deleted; otherwise the
   * course row is deleted and, by the relationship's cascade, its lessons
   * with it.
   */
  method DeleteCourse(db: Db, current: User, courseId: Id) returns (r: Result<(), HttpError>)
    modifies db`courses, db`lessons
    ensures GetCourse(old(db.courses), courseId).None? ==> r == Err(HttpError(404, "Course not found"))
    ensures (GetCourse(old(db.courses), courseId).Some? && !OwnerOrAdmin(old(db.courses)[GetCourse(old(db.courses), courseId).value], current)) ==>
      r == Err(HttpError(403, "Not authorized to delete this course"))
    ensures (GetCourse(old(db.courses), courseId).Some? && OwnerOrAdmin(old(db.courses)[GetCourse(old(db.courses), courseId).value], current)
             && Referenced(db.enrollments, db.reviews, courseId)) ==>
      r == Err(HttpError(500, "Internal Server Error"))
    ensures r.Err? ==> db.courses == old(db.courses) && db.lessons == old(db.lessons)
    ensures r.Ok? ==>
      var i := GetCourse(old(db.courses), courseId).value;
      && OwnerOrAdmin(old(db.courses)[i], current)
      && !Referenced(db.enrollments, db.reviews, courseId)
      && db.courses == RemoveAt(old(db.courses), i)
      && db.lessons == Filter(old(db.lessons), (l: Lesson) => l.courseId != courseId)
  {
    var found := GetCourse(db.courses, courseId);
    if found.None? {
      return Err(HttpError(404, "Course not found"));
    }
    if !OwnerOrAdmin(db.courses[found.value], current) {
      return Err(HttpError(403, "Not authorized to delete this course"));
    }
    if Referenced(db.enrollments, db.reviews, courseId) {
      return Err(HttpError(500, "Internal Server Error"));
    }
    db.courses := RemoveAt(db.courses, found.value);
    db.lessons := Filter(db.lessons, (l: Lesson) => l.courseId != courseId);
    r := Ok(());
  }

  /** A lesson's `order`, the key of `order_by(Lesson.order)`. */
  function OrderOf(l: Lesson): int {
    l.order
  }

  /**
   * `get_course_lessons`: 404 for a missing course; the owner, an admin or
   * an enrolled user may read, anyone else gets 403; the reply is every
   * lesson of the course, by ascending `order`.
   */
  method GetCourseLessons(db: Db, current: User, courseId: Id) returns (r: Result<seq<Lesson>, HttpError>)
    ensures GetCourse(db.courses, courseId).None? ==> r == Err(HttpError(404, "Course not found"))
    ensures GetCourse(db.courses, courseId).Some? ==>
      var c := db.courses[GetCourse(db.courses, courseId).value];
      && (r.Ok? <==> OwnerOrAdmin(c, current) || FindEnrollment(db.enrollments, current.id, courseId).Some?)
      && (r.Err? ==> r.error == HttpError(403, "You must be enrolled in this course to view lessons"))
    ensures r.Ok? ==>
      && SortedBy(r.value, OrderOf)
      && multiset(r.value) == multiset(Filter(db.lessons, (l: Lesson) => l.courseId == courseId))
      && forall k :: 0 <= k < |r.value| ==> r.value[k].courseId == courseId && r.value[k] in db.lessons
  {
    var found := GetCourse(db.courses, courseId);
    if found.None? {
      return Err(HttpError(404, "Course not found"));
    }
    var hasAccess := false;
    if OwnerOrAdmin(db.courses[found.value], current) {
      hasAccess := true;
    } else {
      var enrollment := FindEnrollment(db.enrollments, current.id, courseId);
      if enrollment.Some? {
        hasAccess := true;
      }
    }
    if !hasAccess {
      return Err(HttpError(403, "You must be enrolled in this course to view lessons"));
    }
    var mine := Filter(db.lessons, (l: Lesson) => l.courseId == courseId);
    var sorted := SortBy(mine, OrderOf);
    forall k | 0 <= k < |sorted| ensures sorted[k].courseId == courseId && sorted[k] in db.lessons {
      assert sorted[k] in multiset(mine);
    }
    r := Ok(sorted);
  }

  /** The body of `create_lesson`. */
  datatype LessonCreate = LessonCreate(title: string, content: string, videoUrl: Option<string>, order: int)

  /**
   * `create_lesson`: an `order` below 1 fails validation; then 404 for a
   * missing course and 403 unless the caller owns it or is an admin;
   * otherwise one lesson is added to the course.
   */
  method CreateLesson(db: Db, current: User, courseId: Id, data: LessonCreate, newId: Id) returns (r: Result<Lesson, HttpError>)
    modifies db`lessons
    ensures data.order < 1 ==> r == Err(ValidationError)
    ensures (data.order >= 1 && GetCourse(db.courses, courseId).None?) ==> r == Err(HttpError(404, "Course not found"))
    ensures (&& data.order >= 1 && GetCourse(db.courses, courseId).Some?
             && !OwnerOrAdmin(db.courses[GetCourse(db.courses, courseId).value], current)) ==>
      r == Err(HttpError(403, "Not authorized to add lessons to this course"))
    ensures r.Err? ==> db.lessons == old(db.lessons)
    ensures r.Ok? ==>
      && OwnerOrAdmin(db.courses[GetCourse(db.courses, courseId).value], current)
      && r.value == Lesson(newId, courseId, data.title, data.content, data.videoUrl, data.order)
      && db.lessons == old(db.lessons) + [r.value]
  {
    if data.order < 1 {
      return Err(ValidationError);
    }
    var found := GetCourse(db.courses, courseId);
    if found.None? {
      return Err(HttpError(404, "Course not found"));
    }
    if !OwnerOrAdmin(db.courses[found.value], current) {
      return Err(HttpError(403, "Not authorized to add lessons to this course"));
    }
    var lesson := Lesson(newId, courseId, data.title, data.content, data.videoUrl, data.order);
    db.lessons := db.lessons + [lesson];
    r := Ok(lesson);
  }
}
