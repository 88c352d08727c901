/**
 * The tables of the backend (the SQLModel classes), kept in memory as
 * sequences of rows in insertion order. `.first()` on a query is the first
 * matching row in that order.
 */
module Database {
  import opened Common
  import opened AuthUtils

  datatype User = User(id: Id, email: string, passwordHash: PasswordHash, role: Role)

  datatype Profile = Profile(id: Id, userId: Id, name: string, bio: Option<string>, avatar: Option<string>)

  datatype RefreshToken = RefreshToken(
    id: Id,
    hashedToken: Digest,
    userId: Id,
    isRevoked: bool,
    expiresAt: int,
    replacedById: Option<Id>)

  datatype Category = Category(id: Id, name: string)

  datatype Course = Course(
    id: Id,
    title: string,
    description: string,
    image: Option<string>,
    price: Option<real>,
    isPublished: bool,
    instructorId: Id,
    categoryId: Option<Id>)

  datatype Lesson = Lesson(id: Id, courseId: Id, title: string, content: string, videoUrl: Option<string>, order: int)

  /** `createdAt` is the `created_at` timestamp the row gets when it is inserted. */
  datatype Enrollment = Enrollment(id: Id, studentId: Id, courseId: Id, progress: real, createdAt: int)

  datatype Review = Review(id: Id, studentId: Id, courseId: Id, rating: int, comment: string)

  /** The index of the first row satisfying `p`, as `.first()` returns it. */
  function First<T>(rows: seq<T>, p: T -> bool): (r: Option<nat>)
    ensures r.Some? ==> r.value < |rows| && p(rows[r.value])
    ensures r.Some? ==> forall j :: 0 <= j < r.value ==> !p(rows[j])
    ensures r.None? ==> forall j :: 0 <= j < |rows| ==> !p(rows[j])
  {
    if |rows| == 0 then None
    else if p(rows[0]) then Some(0)
    else match First(rows[1..], p)
      case None => None
      case Some(k) => Some(k + 1)
  }

  function UserIds(users: seq<User>): set<Id> {
    set u | u in users :: u.id
  }

  function TokenIds(tokens: seq<RefreshToken>): set<Id> {
    set t | t in tokens :: t.id
  }

  function Digests(tokens: seq<RefreshToken>): set<Digest> {
    set t | t in tokens :: t.hashedToken
  }

  /** `hashed_token` is declared unique. */
  ghost predicate UniqueDigests(tokens: seq<RefreshToken>) {
    forall i, j :: 0 <= i < j < |tokens| ==> tokens[i].hashedToken != tokens[j].hashedToken
  }

  /** `email` is declared unique, and so is the primary key. */
  ghost predicate UniqueUsers(users: seq<User>) {
    forall i, j :: 0 <= i < j < |users| ==> users[i].id != users[j].id && users[i].email != users[j].email
  }

  /** The row of the user with primary key `id`: `session.get(User, id)`. */
  function GetUser(users: seq<User>, id: Id): (r: Option<nat>)
    ensures r.Some? ==> r.value < |users| && users[r.value].id == id
    ensures r.None? <==> id !in UserIds(users)
  {
    var r := First(users, (u: User) => u.id == id);
    if r.None? then
      assert forall u :: u in users ==> u.id != id by {
        forall u | u in users ensures u.id != id {
          var k :| 0 <= k < |users| && users[k] == u;
        }
      }
      r
    else r
  }

  /** The row with primary key `id`: `session.get(Course, id)`. */
  function GetCourse(courses: seq<Course>, id: Id): (r: Option<nat>)
    ensures r.Some? ==> r.value < |courses| && courses[r.value].id == id
    ensures r.None? ==> forall j :: 0 <= j < |courses| ==> courses[j].id != id
  {
    First(courses, (c: Course) => c.id == id)
  }

  /** The row with primary key `id`: `session.get(Category, id)`. */
  function GetCategory(categories: seq<Category>, id: Id): (r: Option<nat>)
    ensures r.Some? ==> r.value < |categories| && categories[r.value].id == id
    ensures r.None? ==> forall j :: 0 <= j < |categories| ==> categories[j].id != id
  {
    First(categories, (c: Category) => c.id == id)
  }

  /** The enrollment of `studentId` in `courseId`, as the handlers look it up with `.first()`. */
  function FindEnrollment(enrollments: seq<Enrollment>, studentId: Id, courseId: Id): (r: Option<nat>)
    ensures r.Some? ==> r.value < |enrollments|
    ensures r.Some? ==> enrollments[r.value].studentId == studentId && enrollments[r.value].courseId == courseId
    ensures r.None? <==> forall j :: 0 <= j < |enrollments| ==>
      !(enrollments[j].studentId == studentId && enrollments[j].courseId == courseId)
  {
    First(enrollments, (e: Enrollment) => e.studentId == studentId && e.courseId == courseId)
  }

  /** The check several handlers make before touching a course: the caller owns it or is an admin. */
  predicate OwnerOrAdmin(course: Course, user: User) {
    course.instructorId == user.id || user.role == ADMIN
  }

  /** The rows satisfying `p`, in table order: a `select ... where` query. */
  function Filter<T>(rows: seq<T>, p: T -> bool): (r: seq<T>)
    ensures |r| <= |rows|
    ensures forall k :: 0 <= k < |r| ==> p(r[k]) && r[k] in rows
    ensures forall i :: 0 <= i < |rows| && p(rows[i]) ==> rows[i] in r
  {
    if |rows| == 0 then []
    else
      var init := Filter(rows[..|rows| - 1], p);
      var last := rows[|rows| - 1];
      assert forall x :: x in rows[..|rows| - 1] ==> x in rows;
      assert forall i :: 0 <= i < |rows| - 1 ==> rows[i] == rows[..|rows| - 1][i];
      if p(last) then init + [last] else init
  }

  /** `select(func.count(...)).where(p)`: the number of rows satisfying `p`. */
  function Count<T>(rows: seq<T>, p: T -> bool): nat {
    |Filter(rows, p)|
  }

  /** A count is zero exactly when no row qualifies. */
  lemma CountZero<T>(rows: seq<T>, p: T -> bool)
    ensures Count(rows, p) == 0 <==> forall i :: 0 <= i < |rows| ==> !p(rows[i])
  {
    if Count(rows, p) == 0 {
      assert Filter(rows, p) == [];
    } else {
      var x := Filter(rows, p)[0];
      assert p(x) && x in rows;
    }
  }

  /** Counting the rows one at a time from the end. */
  lemma CountLast<T>(rows: seq<T>, p: T -> bool)
    requires |rows| > 0
    ensures Count(rows, p) == Count(rows[..|rows| - 1], p) + if p(rows[|rows| - 1]) then 1 else 0
  {
  }

  /** A weaker condition counts at least as many rows. */
  lemma {:induction false} CountMono<T>(rows: seq<T>, p: T -> bool, q: T -> bool)
    requires forall x :: p(x) ==> q(x)
    ensures Count(rows, p) <= Count(rows, q)
  {
    if |rows| > 0 {
      CountMono(rows[..|rows| - 1], p, q);
      CountLast(rows, p);
      CountLast(rows, q);
    }
  }

  /**
   * The rows for which `view` yields a value, mapped, in table order: a
   * join that drops rows without a partner, built by an append loop.
   */
  function Collect<T, U>(rows: seq<T>, view: T -> Option<U>): seq<U> {
    if |rows| == 0 then []
    else
      Collect(rows[..|rows| - 1], view)
        + match view(rows[|rows| - 1]) case Some(u) => [u] case None => []
  }

  /** One more row of the loop: the prefix's entries, then this row's, if it has a view. */
  lemma CollectSnoc<T, U>(rows: seq<T>, i: nat, view: T -> Option<U>)
    requires i < |rows|
    ensures Collect(rows[..i + 1], view) == Collect(rows[..i], view) + match view(rows[i]) case Some(u) => [u] case None => []
  {
    assert rows[..i + 1][..i] == rows[..i];
  }

  /** Every collected entry is the view of some row. */
  lemma {:induction false} CollectSound<T, U>(rows: seq<T>, view: T -> Option<U>)
    ensures forall k :: 0 <= k < |Collect(rows, view)| ==>
      exists i :: 0 <= i < |rows| && view(rows[i]) == Some(Collect(rows, view)[k])
  {
    if |rows| > 0 {
      var init := rows[..|rows| - 1];
      CollectSound(init, view);
      var r := Collect(rows, view);
      var front := Collect(init, view);
      assert r[..|front|] == front;
      forall k | 0 <= k < |r| ensures exists i :: 0 <= i < |rows| && view(rows[i]) == Some(r[k]) {
        if k < |front| {
          assert r[k] == front[k];
          var i :| 0 <= i < |init| && view(init[i]) == Some(front[k]);
          assert rows[i] == init[i];
        } else {
          var last := |rows| - 1;
          assert view(rows[last]) == Some(r[k]);
        }
      }
    } else {
      assert Collect(rows, view) == [];
    }
  }

  /** Every row with a view is collected. */
  lemma {:induction false} CollectComplete<T, U>(rows: seq<T>, view: T -> Option<U>)
    ensures forall i :: 0 <= i < |rows| && view(rows[i]).Some? ==> view(rows[i]).value in Collect(rows, view)
  {
    if |rows| > 0 {
      var init := rows[..|rows| - 1];
      CollectComplete(init, view);
      forall i | 0 <= i < |rows| && view(rows[i]).Some? ensures view(rows[i]).value in Collect(rows, view) {
        if i < |rows| - 1 {
          assert rows[i] == init[i];
        }
      }
    }
  }

  /**
   * A join never yields more rows than the condition it joins on keeps,
   * and exactly as many when every kept row finds its partner.
   */
  lemma {:induction false} CollectWithinCount<T, U>(rows: seq<T>, view: T -> Option<U>, p: T -> bool)
    requires forall i :: 0 <= i < |rows| ==> (view(rows[i]).Some? ==> p(rows[i]))
    ensures |Collect(rows, view)| <= Count(rows, p)
    ensures (forall i :: 0 <= i < |rows| ==> (p(rows[i]) ==> view(rows[i]).Some?)) ==> |Collect(rows, view)| == Count(rows, p)
  {
    if |rows| > 0 {
      var init := rows[..|rows| - 1];
      assert forall i :: 0 <= i < |init| ==> init[i] == rows[i];
      CollectWithinCount(init, view, p);
      CountLast(rows, p);
    }
  }

  /** `rows` by ascending `key`: what `order_by` returns. */
  predicate SortedBy<T>(rows: seq<T>, key: T -> int) {
    forall i, j :: 0 <= i < j < |rows| ==> key(rows[i]) <= key(rows[j])
  }

  /** Insert one row into rows sorted by `key`, before the first row with a larger or equal key. */
  function InsertBy<T>(x: T, rows: seq<T>, key: T -> int): (r: seq<T>)
    requires SortedBy(rows, key)
    ensures SortedBy(r, key)
    ensures multiset(r) == multiset(rows) + multiset{x}
    ensures |r| == |rows| + 1 && r[0] == if |rows| == 0 || key(x) <= key(rows[0]) then x else rows[0]
  {
    if |rows| == 0 || key(x) <= key(rows[0]) then
      [x] + rows
    else
      var rest := InsertBy(x, rows[1..], key);
      assert forall j :: 0 <= j < |rest| ==> key(rest[0]) <= key(rest[j]);
      ConsSortedBy(rows[0], rest, key);
      assert rows == [rows[0]] + rows[1..];
      [rows[0]] + rest
  }

  lemma ConsSortedBy<T>(x: T, rows: seq<T>, key: T -> int)
    requires SortedBy(rows, key) && forall j :: 0 <= j < |rows| ==> key(x) <= key(rows[j])
    ensures SortedBy([x] + rows, key)
  {
    var t := [x] + rows;
    forall i, j | 0 <= i < j < |t| ensures key(t[i]) <= key(t[j]) {
      assert t[j] == rows[j - 1];
      if i > 0 {
        assert t[i] == rows[i - 1];
      }
    }
  }

  /** `order_by(key)`: the same rows, by ascending `key`; rows with equal keys may come in any order. */
  function SortBy<T>(rows: seq<T>, key: T -> int): (r: seq<T>)
    ensures SortedBy(r, key)
    ensures multiset(r) == multiset(rows) && |r| == |rows|
  {
    if |rows| == 0 then []
    else
      assert rows == [rows[0]] + rows[1..];
      InsertBy(rows[0], SortBy(rows[1..], key), key)
  }

  /** `rows` without its `i`-th row: `session.delete` of that row. */
  function RemoveAt<T>(rows: seq<T>, i: nat): (r: seq<T>)
    requires i < |rows|
    ensures |r| == |rows| - 1
    ensures forall k :: 0 <= k < i ==> r[k] == rows[k]
    ensures forall k :: i <= k < |r| ==> r[k] == rows[k + 1]
  {
    rows[..i] + rows[i + 1..]
  }

  /** The session: every table the handlers read or write. */
  class Db {
    var users: seq<User>
    var profiles: seq<Profile>
    var refreshTokens: seq<RefreshToken>
    var categories: seq<Category>
    var courses: seq<Course>
    var lessons: seq<Lesson>
    var enrollments: seq<Enrollment>
    var reviews: seq<Review>

    /** The uniqueness constraints the schema declares on the auth tables. */
    ghost predicate Valid()
      reads this
    {
      UniqueUsers(users) && UniqueDigests(refreshTokens)
    }

    constructor ()
      ensures Valid()
      ensures users == [] && profiles == [] && refreshTokens == [] && categories == []
      ensures courses == [] && lessons == [] && enrollments == [] && reviews == []
    {
      users, profiles, refreshTokens, categories := [], [], [], [];
      courses, lessons, enrollments, reviews := [], [], [], [];
    }
  }
}
