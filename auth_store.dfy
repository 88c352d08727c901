/**
 * frontend/src/stores/authStore.ts: the client's auth state and its six
 * actions, each replacing some fields of the store.
 */
module AuthStore {
  import opened Common

  datatype User = User(id: string, email: string, role: Role, createdAt: string, updatedAt: string)

  datatype Profile = Profile(name: string, bio: Option<string>, avatar: Option<string>)

  /**
   * `Partial<Profile>`: a key that is absent is None. For `bio` and `avatar` a
   * key present with the value `undefined` is `Some(None)`, which the spread
   * copies like any other value.
   */
  datatype ProfilePatch = ProfilePatch(name: Option<string>, bio: Option<Option<string>>, avatar: Option<Option<string>>)

  /** `{ ...profile, ...patch }` */
  function Merge(p: Profile, patch: ProfilePatch): Profile {
    Profile(
      if patch.name.Some? then patch.name.value else p.name,
      if patch.bio.Some? then patch.bio.value else p.bio,
      if patch.avatar.Some? then patch.avatar.value else p.avatar)
  }

  /** The merge takes every supplied field from the patch and keeps every other field. */
  lemma MergeFields(p: Profile, patch: ProfilePatch)
    ensures var m := Merge(p, patch);
      && (patch.name.Some? ==> m.name == patch.name.value) && (patch.name.None? ==> m.name == p.name)
      && (patch.bio.Some? ==> m.bio == patch.bio.value) && (patch.bio.None? ==> m.bio == p.bio)
      && (patch.avatar.Some? ==> m.avatar == patch.avatar.value) && (patch.avatar.None? ==> m.avatar == p.avatar)
  {
  }

  /** An empty patch changes nothing, and applying the same patch twice is applying it once. */
  lemma MergeIdentityIdempotent(p: Profile, patch: ProfilePatch)
    ensures Merge(p, ProfilePatch(None, None, None)) == p
    ensures Merge(Merge(p, patch), patch) == Merge(p, patch)
  {
  }

  /** What `persist` writes to storage. */
  datatype Persisted = Persisted(user: Option<User>, profile: Option<Profile>, isAuthenticated: bool)

  /**
   * The store. `isAuthenticated` mirrors `user != null`: every action keeps
   * that, since each one writes both or neither.
   */
  class Store {
    var user: Option<User>
    var profile: Option<Profile>
    var isAuthenticated: bool
    var isLoading: bool

    ghost predicate Valid()
      reads this
    {
      isAuthenticated <==> user.Some?
    }

    /** The initial state. */
    constructor ()
      ensures Valid()
      ensures user.None? && profile.None? && !isAuthenticated && isLoading
    {
      user, profile, isAuthenticated, isLoading := None, None, false, true;
    }

    method SetUser(u: Option<User>)
      modifies this`user, this`isAuthenticated
      ensures Valid()
      ensures user == u && isAuthenticated == u.Some?
    {
      user := u;
      isAuthenticated := u.Some?;
    }

    method SetProfile(p: Option<Profile>)
      requires Valid()
      modifies this`profile
      ensures Valid()
      ensures profile == p
    {
      profile := p;
    }

    method SetLoading(loading: bool)
      requires Valid()
      modifies this`isLoading
      ensures Valid()
      ensures isLoading == loading
    {
      isLoading := loading;
    }

    /** `login(user, profile)`: a missing profile is stored as null. */
    method Login(u: User, p: Option<Profile>)
      modifies this
      ensures Valid()
      ensures user == Some(u) && profile == p && isAuthenticated && !isLoading
    {
      user, profile, isAuthenticated, isLoading := Some(u), p, true, false;
    }

    method Logout()
      modifies this
      ensures Valid()
      ensures user.None? && profile.None? && !isAuthenticated && !isLoading
    {
      user, profile, isAuthenticated, isLoading := None, None, false, false;
    }

    /** `updateProfile(patch)`: merge into an existing profile; a null profile stays null. */
    method UpdateProfile(patch: ProfilePatch)
      requires Valid()
      modifies this`profile
      ensures Valid()
      ensures profile == if old(profile).Some? then Some(Merge(old(profile).value, patch)) else None
    {
      if profile.Some? {
        profile := Some(Merge(profile.value, patch));
      } else {
        profile := None;
      }
    }

    /** `partialize`: `isLoading` is never persisted. */
    function Partialize(): (p: Persisted)
      reads this
      ensures Valid() ==> (p.isAuthenticated <==> p.user.Some?)
    {
      Persisted(user, profile, isAuthenticated)
    }
  }
}
