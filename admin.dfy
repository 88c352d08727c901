/** backend/app/routers/admin.py: promoting a user to the INSTRUCTOR role. */
module Admin {
  import opened Common
  import opened AuthUtils
  import opened Database
  import opened AuthDependencies

  /** The user table after `user_id`'s row (at index `i`) is given the INSTRUCTOR role. */
  function Promote(users: seq<User>, i: nat): (r: seq<User>)
    requires i < |users|
    ensures |r| == |users|
    ensures r[i] == users[i].(role := INSTRUCTOR)
    ensures forall k :: 0 <= k < |users| && k != i ==> r[k] == users[k]
  {
    users[i := users[i].(role := INSTRUCTOR)]
  }

  /**
   * `promote_to_instructor`: admins only (403); 404 "User not found" for an
   * unknown id; otherwise that user's role becomes INSTRUCTOR and the reply
   * names the user's email.
   */
  method PromoteToInstructor(db: Db, current: User, userId: Id) returns (r: Result<string, HttpError>)
    modifies db`users
    ensures RoleChecker(ADMIN, current).Err? ==> r == Err(RoleChecker(ADMIN, current).error) && db.users == old(db.users)
    ensures (RoleChecker(ADMIN, current).Ok? && GetUser(old(db.users), userId).None?) ==>
      r == Err(HttpError(404, "User not found")) && db.users == old(db.users)
    ensures r.Ok? <==> RoleChecker(ADMIN, current).Ok? && GetUser(old(db.users), userId).Some?
    ensures r.Ok? ==>
      var i := GetUser(old(db.users), userId).value;
      && db.users == Promote(old(db.users), i)
      && r.value == "User " + old(db.users)[i].email + " promoted to INSTRUCTOR"
    ensures UniqueUsers(old(db.users)) ==> UniqueUsers(db.users)
  {
    var role := RoleChecker(ADMIN, current);
    if role.Err? {
      return Err(role.error);
    }
    var found := GetUser(db.users, userId);
    if found.None? {
      return Err(HttpError(404, "User not found"));
    }
    var i := found.value;
    var email := db.users[i].email;
    if UniqueUsers(db.users) {
      PromoteKeepsUsers(db.users, i);
    }
    db.users := Promote(db.users, i);
    r := Ok("User " + email + " promoted to INSTRUCTOR");
  }

  /**
   * Promotion keeps ids and emails unique, keeps the user findable by id,
   * and after it the user passes the instructor check.
   */
  lemma PromoteKeepsUsers(users: seq<User>, i: nat)
    requires i < |users| && UniqueUsers(users)
    ensures UniqueUsers(Promote(users, i))
    ensures GetUser(Promote(users, i), users[i].id) == Some(i)
    ensures RoleChecker(INSTRUCTOR, Promote(users, i)[i]).Ok?
  {
    var r := Promote(users, i);
    assert forall k :: 0 <= k < |r| ==> r[k].id == users[k].id && r[k].email == users[k].email;
    assert users[i].id in UserIds(r) by { assert r[i] in r; }
  }
}
