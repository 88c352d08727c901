/**
 * backend/app/routers/categories.py: reading one category, and the
 * admin-only create, rename and delete over the category table.
 */
module Categories {
  import opened Common
  import opened AuthUtils
  import opened Database
  import opened AuthDependencies

  /** Category names are pairwise distinct. */
  ghost predicate UniqueNames(cs: seq<Category>) {
    forall i, j :: 0 <= i < j < |cs| ==> cs[i].name != cs[j].name
  }

  /** `select(Category).where(Category.name == name).first()` */
  function FindByName(cs: seq<Category>, name: string): (r: Option<nat>)
    ensures r.Some? ==> r.value < |cs| && cs[r.value].name == name
    ensures r.None? <==> forall j :: 0 <= j < |cs| ==> cs[j].name != name
  {
    First(cs, (c: Category) => c.name == name)
  }

  /** `get_category`: the row with that id, or 404. */
  function FetchCategory(cs: seq<Category>, id: Id): (r: Result<Category, HttpError>)
    ensures r.Ok? ==> r.value in cs && r.value.id == id
    ensures r.Err? <==> forall j :: 0 <= j < |cs| ==> cs[j].id != id
    ensures r.Err? ==> r.error == HttpError(404, "Category not found")
  {
    match GetCategory(cs, id)
    case None => Err(HttpError(404, "Category not found"))
    case Some(i) => Ok(cs[i])
  }

  /** `create_category`: admin only; a name in use is a 400; otherwise one row is added. */
  method CreateCategory(db: Db, current: User, name: string, newId: Id) returns (r: Result<Category, HttpError>)
    modifies db`categories
    ensures UniqueNames(old(db.categories)) ==> UniqueNames(db.categories)
    ensures RoleChecker(ADMIN, current).Err? ==> r == Err(RoleChecker(ADMIN, current).error)
    ensures (current.role == ADMIN && FindByName(old(db.categories), name).Some?) ==>
      r == Err(HttpError(400, "Category name already exists"))
    ensures r.Ok? <==> current.role == ADMIN && FindByName(old(db.categories), name).None?
    ensures r.Err? ==> db.categories == old(db.categories)
    ensures r.Ok? ==> r.value == Category(newId, name) && db.categories == old(db.categories) + [r.value]
  {
    var role := RoleChecker(ADMIN, current);
    if role.Err? {
      return Err(role.error);
    }
    if FindByName(db.categories, name).Some? {
      return Err(HttpError(400, "Category name already exists"));
    }
    var c := Category(newId, name);
    if UniqueNames(db.categories) {
      AddKeepsUniqueNames(db.categories, c);
    }
    db.categories := db.categories + [c];
    r := Ok(c);
  }

  /** Adding a name not yet in use keeps names unique. */
  lemma AddKeepsUniqueNames(cs: seq<Category>, c: Category)
    requires UniqueNames(cs) && FindByName(cs, c.name).None?
    ensures UniqueNames(cs + [c])
  {
    var t := cs + [c];
    forall i, j | 0 <= i < j < |t| ensures t[i].name != t[j].name {
      assert t[i] == cs[i];
    }
  }

  /** The rename `update_category` performs: the supplied name, if any, replaces the row's. */
  function Rename(cs: seq<Category>, i: nat, name: Option<string>): seq<Category>
    requires i < |cs|
  {
    match name
    case None => cs
    case Some(n) => cs[i := cs[i].(name := n)]
  }

  /**
   * The duplicate-name guard of `update_category` as written: it looks for
   * a clash only when the new name is truthy, so an empty name is never
   * checked.
   */
  function RenameCheckAsWritten(cs: seq<Category>, i: nat, name: Option<string>): Option<HttpError>
    requires i < |cs|
  {
    if Truthy(name) && name.value != cs[i].name && FindByName(cs, name.value).Some? then
      Some(HttpError(400, "Category name already exists"))
    else None
  }

  /** The guard as evidently intended: any supplied name that differs from the current one is checked. */
  function RenameCheck(cs: seq<Category>, i: nat, name: Option<string>): Option<HttpError>
    requires i < |cs|
  {
    if name.Some? && name.value != cs[i].name && FindByName(cs, name.value).Some? then
      Some(HttpError(400, "Category name already exists"))
    else None
  }

  /**
   * As written, renaming a category to the empty name passes the guard
   * while another category already has that name: the renamed table has a
   * duplicate, which the column's unique constraint then turns into a failed
   * commit instead of the 400.
   */
  lemma EmptyNameSlipsThrough()
    ensures var cs := [Category("c1", ""), Category("c2", "Math")];
      && UniqueNames(cs)
      && RenameCheckAsWritten(cs, 1, Some("")).None?
      && RenameCheck(cs, 1, Some("")) == Some(HttpError(400, "Category name already exists"))
      && !UniqueNames(Rename(cs, 1, Some("")))
  {
    var cs := [Category("c1", ""), Category("c2", "Math")];
    assert FindByName(cs, "") == Some(0);
    assert Rename(cs, 1, Some(""))[0].name == Rename(cs, 1, Some(""))[1].name;
  }

  /** The two guards differ only on the empty name. */
  lemma RenameChecksAgreeOffEmpty(cs: seq<Category>, i: nat, name: Option<string>)
    requires i < |cs| && name != Some("")
    ensures RenameCheck(cs, i, name) == RenameCheckAsWritten(cs, i, name)
  {
  }

  /** With the intended guard, a rename that passes keeps names unique. */
  lemma RenameKeepsUniqueNames(cs: seq<Category>, i: nat, name: Option<string>)
    requires i < |cs| && UniqueNames(cs) && RenameCheck(cs, i, name).None?
    ensures UniqueNames(Rename(cs, i, name))
  {
    if name.Some? {
      var t := Rename(cs, i, name);
      forall a, b | 0 <= a < b < |t| ensures t[a].name != t[b].name {
        if a == i || b == i {
          var other := if a == i then b else a;
          assert t[other] == cs[other];
          if name.value != cs[i].name {
            assert FindByName(cs, name.value).None?;
          }
        }
      }
    }
  }

  /** Another row than `i` already has the name `n`: the unique column refuses the rename. */
  predicate NameTakenElsewhere(cs: seq<Category>, i: nat, n: string) {
    exists j :: 0 <= j < |cs| && j != i && cs[j].name == n
  }

  /**
   * With unique names, the intended guard fires exactly when the unique
   * constraint would refuse the rename: it is the constraint checked up front.
   */
  lemma RenameCheckIsConstraint(cs: seq<Category>, i: nat, name: Option<string>)
    requires i < |cs| && UniqueNames(cs)
    ensures RenameCheck(cs, i, name).Some? <==> name.Some? && NameTakenElsewhere(cs, i, name.value)
  {
    if name.Some? && NameTakenElsewhere(cs, i, name.value) {
      var j :| 0 <= j < |cs| && j != i && cs[j].name == name.value;
      assert cs[i].name != cs[j].name;
    }
  }

  /**
   * `update_category` as written: admin only; 404 for a missing category;
   * 400 when a different, truthy supplied name is taken. A taken empty name
   * passes that guard, and the commit then fails on the unique column, an
   * unhandled integrity error that FastAPI answers with 500. Otherwise only
   * the supplied name is written.
   */
  method UpdateCategory(db: Db, current: User, categoryId: Id, name: Option<string>) returns (r: Result<Category, HttpError>)
    modifies db`categories
    ensures UniqueNames(old(db.categories)) ==> UniqueNames(db.categories)
    ensures RoleChecker(ADMIN, current).Err? ==> r == Err(RoleChecker(ADMIN, current).error)
    ensures (current.role == ADMIN && GetCategory(old(db.categories), categoryId).None?) ==>
      r == Err(HttpError(404, "Category not found"))
    ensures r.Err? ==> db.categories == old(db.categories)
    ensures (current.role == ADMIN && GetCategory(old(db.categories), categoryId).Some?) ==>
      var i := GetCategory(old(db.categories), categoryId).value;
      match RenameCheckAsWritten(old(db.categories), i, name)
      case Some(e) => r == Err(e)
      case None =>
        if name.Some? && NameTakenElsewhere(old(db.categories), i, name.value) then
          r == Err(HttpError(500, "Internal Server Error"))
        else db.categories == Rename(old(db.categories), i, name) && r == Ok(db.categories[i])
  {
    var role := RoleChecker(ADMIN, current);
    if role.Err? {
      return Err(role.error);
    }
    var found := GetCategory(db.categories, categoryId);
    if found.None? {
      return Err(HttpError(404, "Category not found"));
    }
    var i := found.value;
    var check := RenameCheckAsWritten(db.categories, i, name);
    if check.Some? {
      return Err(check.value);
    }
    if name.Some? && NameTakenElsewhere(db.categories, i, name.value) {
      return Err(HttpError(500, "Internal Server Error"));
    }
    if UniqueNames(db.categories) {
      RenameCheckIsConstraint(db.categories, i, name);
      RenameKeepsUniqueNames(db.categories, i, name);
    }
    db.categories := Rename(db.categories, i, name);
    r := Ok(db.categories[i]);
  }

  /** Every course's non-empty category id names a category. */
  ghost predicate CategoriesResolve(courses: seq<Course>, cs: seq<Category>) {
    forall k :: 0 <= k < |courses| && Truthy(courses[k].categoryId) ==> GetCategory(cs, courses[k].categoryId.value).Some?
  }

  /** The delete guard: some course refers to the category. */
  function UsedBy(courses: seq<Course>, categoryId: Id): (r: Option<nat>)
    ensures r.Some? ==> r.value < |courses| && courses[r.value].categoryId == Some(categoryId)
    ensures r.None? <==> forall k :: 0 <= k < |courses| ==> courses[k].categoryId != Some(categoryId)
  {
    First(courses, (c: Course) => c.categoryId == Some(categoryId))
  }

  /**
   * `delete_category`: admin only; 404 for a missing category; 400 while a
   * course refers to it; otherwise exactly that row is deleted.
   */
  method DeleteCategory(db: Db, current: User, categoryId: Id) returns (r: Result<(), HttpError>)
    modifies db`categories
    ensures UniqueNames(old(db.categories)) ==> UniqueNames(db.categories)
    ensures CategoriesResolve(db.courses, old(db.categories)) ==> CategoriesResolve(db.courses, db.categories)
    ensures RoleChecker(ADMIN, current).Err? ==> r == Err(RoleChecker(ADMIN, current).error)
    ensures (current.role == ADMIN && GetCategory(old(db.categories), categoryId).None?) ==>
      r == Err(HttpError(404, "Category not found"))
    ensures (current.role == ADMIN && GetCategory(old(db.categories), categoryId).Some? && UsedBy(db.courses, categoryId).Some?) ==>
      r == Err(HttpError(400, "Cannot delete category that is being used by courses"))
    ensures r.Ok? <==> current.role == ADMIN && GetCategory(old(db.categories), categoryId).Some? && UsedBy(db.courses, categoryId).None?
    ensures r.Err? ==> db.categories == old(db.categories)
    ensures r.Ok? ==> db.categories == RemoveAt(old(db.categories), GetCategory(old(db.categories), categoryId).value)
  {
    var role := RoleChecker(ADMIN, current);
    if role.Err? {
      return Err(role.error);
    }
    var found := GetCategory(db.categories, categoryId);
    if found.None? {
      return Err(HttpError(404, "Category not found"));
    }
    if UsedBy(db.courses, categoryId).Some? {
      return Err(HttpError(400, "Cannot delete category that is being used by courses"));
    }
    DeleteKeepsInvariants(db.courses, db.categories, found.value);
    db.categories := RemoveAt(db.categories, found.value);
    r := Ok(());
  }

  /**
   * Deleting a category no course refers to keeps names unique and keeps
   * every course's category resolvable.
   */
  lemma DeleteKeepsInvariants(courses: seq<Course>, cs: seq<Category>, i: nat)
    requires i < |cs| && UsedBy(courses, cs[i].id).None?
    ensures UniqueNames(cs) ==> UniqueNames(RemoveAt(cs, i))
    ensures CategoriesResolve(courses, cs) ==> CategoriesResolve(courses, RemoveAt(cs, i))
  {
    var t := RemoveAt(cs, i);
    if UniqueNames(cs) {
      forall a, b | 0 <= a < b < |t| ensures t[a].name != t[b].name {
        var a' := if a < i then a else a + 1;
        var b' := if b < i then b else b + 1;
        assert t[a] == cs[a'] && t[b] == cs[b'] && a' < b';
      }
    }
    if CategoriesResolve(courses, cs) {
      forall k | 0 <= k < |courses| && Truthy(courses[k].categoryId)
        ensures GetCategory(t, courses[k].categoryId.value).Some?
      {
        var id := courses[k].categoryId.value;
        var j := GetCategory(cs, id).value;
        assert id != cs[i].id;
        var j' := if j < i then j else j - 1;
        assert t[j'] == cs[j];
      }
    }
  }
}
