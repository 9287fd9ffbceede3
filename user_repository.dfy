/** `UserRepositoryImpl`: registration (check, hash, insert), login (look
    up, compare hashes), lookup by id, and the session id in the preferences. */
module UserRepo {
  import opened Wrappers
  import opened Domain
  import opened Entities
  import opened Store
  import opened Hashing
  import opened Preferences

  const UsernameExists := "Username already exists"
  const UserNotFound := "User not found"
  const InvalidPassword := "Invalid password"

  /** The `User` built from a row: everything but the hash, so the row is
      the user plus its hash (and the generated id). */
  function ToUser(e: UserEntity): (u: User)
    ensures NewUserEntity(u.username, u.displayName, e.passwordHash, u.createdAt) == e.(id := 0)
    ensures u.id == e.id
  {
    User(e.id, e.username, e.displayName, e.createdAt)
  }

  /** `register(username, displayName, password)` with the clock reading
      `now`, as a function of the tables before the call. */
  function RegisterSpec(t: Tables, h: Hasher, username: string, displayName: string,
                        password: string, now: int): (out: (Result<User>, Tables))
    requires TablesValid(t)
    ensures TablesValid(out.1)
    ensures UsernameTaken(t.users, username) ==> out == (Fail(UsernameExists), t)
    ensures !UsernameTaken(t.users, username) ==>
      var id := t.nextUserId;
      && id !in t.users
      && out.0 == Success(User(id, username, displayName, now))
      && out.1.users == t.users[id := UserEntity(id, username, displayName, HashPassword(h, password), now)]
      && out.1.todos == t.todos
      && out.1.nextUserId > id && out.1.nextTodoId == t.nextTodoId
  {
    if UsernameTaken(t.users, username) then (Fail(UsernameExists), t)
    else
      var entity := NewUserEntity(username, displayName, HashPassword(h, password), now);
      var (inserted, t') := InsertUserSpec(t, entity);
      match inserted
      case Success(id) => (Success(User(id, username, displayName, entity.createdAt)), t')
      case Failure(m) => (Failure(m), t')
  }

  /** `login(username, password)` against the users table. */
  ghost function LoginOutcome(users: map<int, UserEntity>, h: Hasher, username: string, password: string): (r: Result<User>)
    requires forall k :: k in users ==> users[k].id == k
    ensures r == Fail(UserNotFound) <==> !UsernameTaken(users, username)
    ensures r == Fail(InvalidPassword)
        <==> UsernameTaken(users, username) && UserNamed(users, username).value.passwordHash != HashPassword(h, password)
    ensures r.Success? ==> r.value == ToUser(UserNamed(users, username).value)
    ensures UsernameTaken(users, username) && UserNamed(users, username).value.passwordHash == HashPassword(h, password)
        ==> r == Success(ToUser(UserNamed(users, username).value))
  {
    match UserNamed(users, username)
    case None => Fail(UserNotFound)
    case Some(e) =>
      if e.passwordHash != HashPassword(h, password) then Fail(InvalidPassword)
      else Success(ToUser(e))
  }

  /** After a successful registration, logging in with the same username
      and password succeeds and returns the registered user, same id. */
  lemma LoginAfterRegister(t: Tables, h: Hasher, username: string, displayName: string, password: string, now: int)
    requires TablesValid(t)
    requires RegisterSpec(t, h, username, displayName, password, now).0.Success?
    ensures var (r, t') := RegisterSpec(t, h, username, displayName, password, now);
      LoginOutcome(t'.users, h, username, password) == r
  {
    var t' := RegisterSpec(t, h, username, displayName, password, now).1;
    UserNamedIs(t'.users, t.nextUserId);
  }

  /** After that login, another password is accepted exactly when its
      digest equals the registered password's digest. */
  lemma LoginChecksDigest(t: Tables, h: Hasher, username: string, displayName: string,
                          password: string, attempt: string, now: int)
    requires TablesValid(t)
    requires RegisterSpec(t, h, username, displayName, password, now).0.Success?
    ensures var t' := RegisterSpec(t, h, username, displayName, password, now).1;
      (LoginOutcome(t'.users, h, username, attempt).Success?
       <==> h.sha256(h.toBytes(attempt)) == h.sha256(h.toBytes(password)))
  {
    var t' := RegisterSpec(t, h, username, displayName, password, now).1;
    UserNamedIs(t'.users, t.nextUserId);
    SameHashIffSameDigest(h, attempt, password);
  }

  /** Registering a username a second time fails and changes nothing. */
  lemma RegisterTwiceConflicts(t: Tables, h: Hasher, username: string, displayName: string, password: string,
                               now: int, displayName2: string, password2: string, now2: int)
    requires TablesValid(t)
    requires RegisterSpec(t, h, username, displayName, password, now).0.Success?
    ensures var t' := RegisterSpec(t, h, username, displayName, password, now).1;
      RegisterSpec(t', h, username, displayName2, password2, now2) == (Fail(UsernameExists), t')
  {
    var t' := RegisterSpec(t, h, username, displayName, password, now).1;
    assert t'.users[t.nextUserId].username == username;
  }

  class UserRepository {
    const db: Database
    const prefs: UserPreferences
    const hasher: Hasher

    ghost predicate Valid()
      reads this, db, prefs
    {
      db.Valid() && prefs.Valid()
    }

    constructor (db: Database, prefs: UserPreferences, hasher: Hasher)
      requires db.Valid() && prefs.Valid()
      ensures this.db == db && this.prefs == prefs && this.hasher == hasher && Valid()
    {
      this.db := db;
      this.prefs := prefs;
      this.hasher := hasher;
    }

    /** `register`: the existence check, then the insert of the hashed row. */
    method Register(username: string, displayName: string, password: string, now: int) returns (r: Result<User>)
      requires Valid()
      modifies db
      ensures Valid()
      ensures (r, db.Snapshot()) == RegisterSpec(old(db.Snapshot()), hasher, username, displayName, password, now)
    {
      var existing := db.GetUserByUsername(username);
      if existing.Some? {
        return Fail(UsernameExists);
      }
      var passwordHash := HashPassword(hasher, password);
      var entity := NewUserEntity(username, displayName, passwordHash, now);
      var inserted := db.InsertUser(entity);
      match inserted
      case Success(userId) =>
        r := Success(User(userId, username, displayName, entity.createdAt));
      case Failure(m) =>
        r := Failure(m);
    }

    /** `login`: reads only. */
    method Login(username: string, password: string) returns (r: Result<User>)
      requires Valid()
      ensures r == LoginOutcome(db.users, hasher, username, password)
    {
      var userEntity := db.GetUserByUsername(username);
      if userEntity.None? {
        return Fail(UserNotFound);
      }
      var passwordHash := HashPassword(hasher, password);
      if userEntity.value.passwordHash != passwordHash {
        return Fail(InvalidPassword);
      }
      r := Success(ToUser(userEntity.value));
    }

    /** `getUserById`. */
    method GetUserById(userId: int) returns (r: Option<User>)
      requires Valid()
      ensures r.Some? <==> userId in db.users
      ensures r.Some? ==> r.value == ToUser(db.users[userId]) && r.value.id == userId
    {
      var e := db.GetUserById(userId);
      r := if e.Some? then Some(ToUser(e.value)) else None;
    }

    /** `saveCurrentUserId`. */
    method SaveCurrentUserId(userId: int)
      requires Valid()
      modifies prefs
      ensures Valid() && prefs.UserId() == Some(userId) && prefs.Language() == old(prefs.Language())
    {
      prefs.SaveUserId(userId);
    }

    /** `clearCurrentUserId`. */
    method ClearCurrentUserId()
      requires Valid()
      modifies prefs
      ensures Valid() && prefs.UserId() == None && prefs.Language() == old(prefs.Language())
    {
      prefs.ClearUserId();
    }
  }
}
