/** The user store: the list of accounts kept in `users.json`, with the
    bootstrap administrator, creation with a unique username, credential
    checks, role and grant updates, password changes and deletion. */
module Users {
  import opened Wrappers
  import opened Types
  import Seqs

  const BOOTSTRAP_ADMIN := "admin"
  const BOOTSTRAP_PASSWORD := "admin123"

  datatype UserError = UsernameTaken | UserNotFound | WrongPassword

  /** `users.find(u => u.username === username)`, as a position. */
  function FindByUsername(users: seq<User>, username: string): (r: Option<nat>)
    ensures r.Some? ==> r.value < |users| && users[r.value].username == username
    ensures r.Some? ==> forall j :: 0 <= j < r.value ==> users[j].username != username
    ensures r.None? <==> forall u :: u in users ==> u.username != username
  {
    Seqs.FirstIndex(users, (u: User) => u.username == username)
  }

  /** `users.find(u => u.id === id)`, as a position. */
  function FindById(users: seq<User>, id: string): (r: Option<nat>)
    ensures r.Some? ==> r.value < |users| && users[r.value].id == id
    ensures r.Some? ==> forall j :: 0 <= j < r.value ==> users[j].id != id
    ensures r.None? <==> forall u :: u in users ==> u.id != id
  {
    Seqs.FirstIndex(users, (u: User) => u.id == id)
  }

  predicate UniqueUsernames(users: seq<User>) {
    forall i, j :: 0 <= i < j < |users| ==> users[i].username != users[j].username
  }

  /** `updateUser` on one record: a supplied list replaces the stored one,
      deduplicated in first-occurrence order; an omitted one is kept. */
  function Updated(u: User, roles: Option<seq<Role>>, services: Option<seq<string>>): (v: User)
    ensures v.id == u.id && v.username == u.username
    ensures v.passwordHash == u.passwordHash && v.createdAt == u.createdAt
    ensures roles.None? ==> v.roles == u.roles
    ensures roles.Some? ==> Seqs.NoDuplicates(v.roles) && forall x :: x in v.roles <==> x in roles.value
    ensures services.None? ==> v.services == u.services
    ensures services.Some? ==> Seqs.NoDuplicates(v.services) && forall x :: x in v.services <==> x in services.value
  {
    var newRoles :=
      if roles.Some? then
        Seqs.DedupNoDuplicates(roles.value); Seqs.DedupSameElements(roles.value); Seqs.Dedup(roles.value)
      else u.roles;
    var newServices :=
      if services.Some? then
        Seqs.DedupNoDuplicates(services.value); Seqs.DedupSameElements(services.value); Seqs.Dedup(services.value)
      else u.services;
    u.(roles := newRoles, services := newServices)
  }

  /** A supplied list replaces rather than merges: the result does not
      depend on what was stored, and a duplicate-free list is stored as is. */
  lemma UpdateReplaces(u1: User, u2: User, roles: seq<Role>, services: seq<string>)
    ensures Updated(u1, Some(roles), Some(services)).roles == Updated(u2, Some(roles), Some(services)).roles
    ensures Updated(u1, Some(roles), Some(services)).services == Updated(u2, Some(roles), Some(services)).services
    ensures Seqs.NoDuplicates(roles) ==> Updated(u1, Some(roles), None).roles == roles
    ensures Seqs.NoDuplicates(services) ==> Updated(u1, None, Some(services)).services == services
  {
    if Seqs.NoDuplicates(roles) { Seqs.DedupKeepsDistinct(roles); }
    if Seqs.NoDuplicates(services) { Seqs.DedupKeepsDistinct(services); }
  }

  /** Appending a user whose name is free keeps names unique. */
  lemma AppendKeepsUnique(users: seq<User>, u: User)
    requires UniqueUsernames(users) && FindByUsername(users, u.username).None?
    ensures UniqueUsernames(users + [u])
  {
    assert forall i :: 0 <= i < |users| ==> users[i] in users;
  }

  /** Rewriting one record without renaming it keeps names unique. */
  lemma ReplaceKeepsUnique(users: seq<User>, i: nat, v: User)
    requires UniqueUsernames(users) && i < |users| && v.username == users[i].username
    ensures UniqueUsernames(users[i := v])
  {
  }

  /** Removing a record keeps names unique. */
  lemma RemoveKeepsUnique(users: seq<User>, i: nat)
    requires UniqueUsernames(users) && i < |users|
    ensures UniqueUsernames(Seqs.RemoveAt(users, i))
  {
    var r := Seqs.RemoveAt(users, i);
    forall a, b | 0 <= a < b < |r| ensures r[a].username != r[b].username {
      var a' := if a < i then a else a + 1;
      var b' := if b < i then b else b + 1;
      assert r[a] == users[a'] && r[b] == users[b'];
    }
  }

  /** With unique names, looking a user's name up finds that very user. */
  lemma LookupUnique(users: seq<User>, i: nat)
    requires UniqueUsernames(users) && i < |users|
    ensures FindByUsername(users, users[i].username) == Some(i)
  {
  }

  class UserStore {
    var users: seq<User>
    /** The contents of `users.json` as last written. */
    ghost var persisted: seq<User>

    ghost predicate Valid()
      reads this
    {
      persisted == users
    }

    constructor ()
      ensures Valid() && users == []
    {
      users := [];
      persisted := [];
    }

    /** `init`: load the file and, if no user is named `admin`, create
        `admin`/`admin123` with role `admin`. */
    method Init(loaded: seq<User>, hasher: Hasher, newId: string, now: string)
      modifies this`users, this`persisted
      ensures Valid()
      ensures FindByUsername(loaded, BOOTSTRAP_ADMIN).Some? ==> users == loaded
      ensures FindByUsername(loaded, BOOTSTRAP_ADMIN).None? ==>
                users == loaded + [User(newId, BOOTSTRAP_ADMIN, hasher.hash(BOOTSTRAP_PASSWORD), [ADMIN_ROLE], [], now)]
      ensures FindByUsername(users, BOOTSTRAP_ADMIN).Some?
      ensures UniqueUsernames(loaded) ==> UniqueUsernames(users)
    {
      users := loaded;
      persisted := loaded;
      if FindByUsername(users, BOOTSTRAP_ADMIN).None? {
        var _ := CreateUser(BOOTSTRAP_ADMIN, BOOTSTRAP_PASSWORD, Some([ADMIN_ROLE]), Some([]), hasher, newId, now);
      }
    }

    /** `createUserFromHash`: refuse a taken username, otherwise append
        one record (roles default to `user`, grants to none). */
    method CreateUserFromHash(username: string, passwordHash: string, roles: Option<seq<Role>>,
                              services: Option<seq<string>>, newId: string, now: string)
      returns (r: Result<User, UserError>)
      requires Valid()
      modifies this`users, this`persisted
      ensures Valid()
      ensures FindByUsername(old(users), username).Some? ==> r == Err(UsernameTaken) && users == old(users)
      ensures FindByUsername(old(users), username).None? ==>
                && r == Ok(User(newId, username, passwordHash, roles.GetOr([USER_ROLE]), services.GetOr([]), now))
                && users == old(users) + [r.value]
      ensures UniqueUsernames(old(users)) ==> UniqueUsernames(users)
    {
      if FindByUsername(users, username).Some? {
        return Err(UsernameTaken);
      }
      var user := User(newId, username, passwordHash, roles.GetOr([USER_ROLE]), services.GetOr([]), now);
      if UniqueUsernames(users) {
        AppendKeepsUnique(users, user);
      }
      users := users + [user];
      persisted := users;
      return Ok(user);
    }

    /** `createUser`: hash the password, then create from the hash. The new
        account can log in with the password it was created with. */
    method CreateUser(username: string, password: string, roles: Option<seq<Role>>,
                      services: Option<seq<string>>, hasher: Hasher, newId: string, now: string)
      returns (r: Result<User, UserError>)
      requires Valid()
      modifies this`users, this`persisted
      ensures Valid()
      ensures FindByUsername(old(users), username).Some? ==> r == Err(UsernameTaken) && users == old(users)
      ensures FindByUsername(old(users), username).None? ==>
                && r == Ok(User(newId, username, hasher.hash(password), roles.GetOr([USER_ROLE]), services.GetOr([]), now))
                && users == old(users) + [r.value]
      ensures UniqueUsernames(old(users)) ==> UniqueUsernames(users)
      ensures r.Ok? && SoundHasher(hasher) ==> ValidateCredentials(username, password, hasher) == Some(r.value)
    {
      r := CreateUserFromHash(username, hasher.hash(password), roles, services, newId, now);
      if r.Ok? {
        assert users[|users| - 1] == r.value;
      }
    }

    /** `validateCredentials`: the first user with that name, if the
        password matches its stored hash. */
    function ValidateCredentials(username: string, password: string, hasher: Hasher): (r: Option<User>)
      reads this
      ensures r.Some? ==> r.value in users && r.value.username == username
      ensures r.Some? ==> hasher.matches(password, r.value.passwordHash)
      ensures r.None? <==>
                (forall u :: u in users ==> u.username != username)
                || !hasher.matches(password, users[FindByUsername(users, username).value].passwordHash)
    {
      match FindByUsername(users, username)
      case None => None
      case Some(i) => if hasher.matches(password, users[i].passwordHash) then Some(users[i]) else None
    }

    /** `getById`. */
    function GetById(id: string): (r: Option<User>)
      reads this
      ensures r.Some? ==> r.value in users && r.value.id == id
      ensures r.None? <==> forall u :: u in users ==> u.id != id
    {
      match FindById(users, id)
      case None => None
      case Some(i) => Some(users[i])
    }

    /** `getByUsername`. */
    function GetByUsername(username: string): (r: Option<User>)
      reads this
      ensures r.Some? ==> r.value in users && r.value.username == username
      ensures r.None? <==> forall u :: u in users ==> u.username != username
    {
      match FindByUsername(users, username)
      case None => None
      case Some(i) => Some(users[i])
    }

    /** `list`: every record, password hashes included. */
    function List(): (r: seq<User>)
      reads this
      ensures r == users
    {
      users
    }

    /** `updateUser`: replace the supplied lists of the first user with
        that id; every other record is untouched. */
    method UpdateUser(userId: string, roles: Option<seq<Role>>, services: Option<seq<string>>)
      returns (r: Result<User, UserError>)
      requires Valid()
      modifies this`users, this`persisted
      ensures Valid()
      ensures FindById(old(users), userId).None? ==> r == Err(UserNotFound) && users == old(users)
      ensures FindById(old(users), userId).Some? ==>
                var i := FindById(old(users), userId).value;
                && r == Ok(Updated(old(users)[i], roles, services))
                && users == old(users)[i := r.value]
      ensures UniqueUsernames(old(users)) ==> UniqueUsernames(users)
    {
      var found := FindById(users, userId);
      if found.None? {
        return Err(UserNotFound);
      }
      var i := found.value;
      var target := Updated(users[i], roles, services);
      if UniqueUsernames(users) {
        ReplaceKeepsUnique(users, i, target);
      }
      users := users[i := target];
      persisted := users;
      return Ok(target);
    }

    /** `updateByUsername`: find the user by name, then update by its id. */
    method UpdateByUsername(username: string, roles: Option<seq<Role>>, services: Option<seq<string>>)
      returns (r: Result<User, UserError>)
      requires Valid()
      modifies this`users, this`persisted
      ensures Valid()
      ensures FindByUsername(old(users), username).None? ==> r == Err(UserNotFound) && users == old(users)
      ensures FindByUsername(old(users), username).Some? ==>
                var i := FindById(old(users), old(users)[FindByUsername(old(users), username).value].id).value;
                && r == Ok(Updated(old(users)[i], roles, services))
                && users == old(users)[i := r.value]
      ensures UniqueUsernames(old(users)) ==> UniqueUsernames(users)
    {
      var found := FindByUsername(users, username);
      if found.None? {
        return Err(UserNotFound);
      }
      r := UpdateUser(users[found.value].id, roles, services);
    }

    /** `updatePassword`: store the hash of the new password. */
    method UpdatePassword(userId: string, newPassword: string, hasher: Hasher)
      returns (r: Result<User, UserError>)
      requires Valid()
      modifies this`users, this`persisted
      ensures Valid()
      ensures FindById(old(users), userId).None? ==> r == Err(UserNotFound) && users == old(users)
      ensures FindById(old(users), userId).Some? ==>
                var i := FindById(old(users), userId).value;
                && r == Ok(old(users)[i].(passwordHash := hasher.hash(newPassword)))
                && users == old(users)[i := r.value]
      ensures UniqueUsernames(old(users)) ==> UniqueUsernames(users)
    {
      var found := FindById(users, userId);
      if found.None? {
        return Err(UserNotFound);
      }
      var i := found.value;
      var target := users[i].(passwordHash := hasher.hash(newPassword));
      if UniqueUsernames(users) {
        ReplaceKeepsUnique(users, i, target);
      }
      users := users[i := target];
      persisted := users;
      return Ok(target);
    }

    /** `changePassword`: the old password must match the stored hash;
        then only that user's hash changes, and the new password logs in. */
    method ChangePassword(userId: string, oldPassword: string, newPassword: string, hasher: Hasher)
      returns (r: Result<User, UserError>)
      requires Valid()
      modifies this`users, this`persisted
      ensures Valid()
      ensures FindById(old(users), userId).None? ==> r == Err(UserNotFound) && users == old(users)
      ensures FindById(old(users), userId).Some? ==>
                var i := FindById(old(users), userId).value;
                if !hasher.matches(oldPassword, old(users)[i].passwordHash) then
                  r == Err(WrongPassword) && users == old(users)
                else
                  && r == Ok(old(users)[i].(passwordHash := hasher.hash(newPassword)))
                  && users == old(users)[i := r.value]
      ensures UniqueUsernames(old(users)) ==> UniqueUsernames(users)
      ensures r.Ok? && SoundHasher(hasher) && UniqueUsernames(old(users)) ==>
                ValidateCredentials(r.value.username, newPassword, hasher) == Some(r.value)
    {
      var found := FindById(users, userId);
      if found.None? {
        return Err(UserNotFound);
      }
      var i := found.value;
      if !hasher.matches(oldPassword, users[i].passwordHash) {
        return Err(WrongPassword);
      }
      var target := users[i].(passwordHash := hasher.hash(newPassword));
      if UniqueUsernames(users) {
        ReplaceKeepsUnique(users, i, target);
      }
      users := users[i := target];
      persisted := users;
      if UniqueUsernames(users) {
        LookupUnique(users, i);
      }
      return Ok(target);
    }

    /** `deleteUser`: remove the first user with that id, keeping the
        others in order. */
    method DeleteUser(userId: string) returns (r: Result<(), UserError>)
      requires Valid()
      modifies this`users, this`persisted
      ensures Valid()
      ensures FindById(old(users), userId).None? ==> r == Err(UserNotFound) && users == old(users)
      ensures FindById(old(users), userId).Some? ==>
                r == Ok(()) && users == Seqs.RemoveAt(old(users), FindById(old(users), userId).value)
      ensures UniqueUsernames(old(users)) ==> UniqueUsernames(users)
    {
      var found := FindById(users, userId);
      if found.None? {
        return Err(UserNotFound);
      }
      if UniqueUsernames(users) {
        RemoveKeepsUnique(users, found.value);
      }
      users := Seqs.RemoveAt(users, found.value);
      persisted := users;
      return Ok(());
    }
  }
}
