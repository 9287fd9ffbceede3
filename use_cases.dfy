/** The four validating use cases: `RegisterUserUseCase`, `LoginUserUseCase`,
    `AddTodoUseCase` and `UpdateTodoUseCase`.  Each Kotlin class holds only
    its injected repository, so each becomes a method taking that repository;
    the chain of guards in front of the repository call is a pure function. */
module UseCases {
  import opened Wrappers
  import opened Text
  import opened Hashing
  import opened Domain
  import opened Entities
  import opened Store
  import opened TodoRepo
  import opened UserRepo

  const UsernameTooShort := "Username must be at least 3 characters"
  const UsernameNotAlphanumeric := "Username must be alphanumeric"
  const DisplayNameEmpty := "Display name cannot be empty"
  const PasswordTooShort := "Password must be at least 6 characters"
  const PasswordsDiffer := "Passwords do not match"
  const UsernameEmpty := "Username cannot be empty"
  const PasswordEmpty := "Password cannot be empty"
  const TitleEmpty := "Todo title cannot be empty"

  /** The five registration checks in their order; the first that fails
      names the error, and None means all five pass. */
  function RegisterValidation(username: string, displayName: string, password: string,
                              confirmPassword: string): (r: Option<string>)
    ensures r == Some(UsernameTooShort) <==> IsBlank(username) || |username| < 3
    ensures r == Some(UsernameNotAlphanumeric)
        <==> !IsBlank(username) && |username| >= 3 && !MatchesUsernamePattern(username)
    ensures r == Some(DisplayNameEmpty)
        <==> !IsBlank(username) && |username| >= 3 && MatchesUsernamePattern(username) && IsBlank(displayName)
    ensures r == Some(PasswordTooShort)
        <==> !IsBlank(username) && |username| >= 3 && MatchesUsernamePattern(username) && !IsBlank(displayName)
             && |password| < 6
    ensures r == Some(PasswordsDiffer)
        <==> !IsBlank(username) && |username| >= 3 && MatchesUsernamePattern(username) && !IsBlank(displayName)
             && |password| >= 6 && password != confirmPassword
    ensures r.None?
        <==> |username| >= 3 && MatchesUsernamePattern(username) && !IsBlank(displayName)
             && |password| >= 6 && password == confirmPassword
  {
    PatternExcludesBlank(username);
    if IsBlank(username) || |username| < 3 then Some(UsernameTooShort)
    else if !MatchesUsernamePattern(username) then Some(UsernameNotAlphanumeric)
    else if IsBlank(displayName) then Some(DisplayNameEmpty)
    else if |password| < 6 then Some(PasswordTooShort)
    else if password != confirmPassword then Some(PasswordsDiffer)
    else None
  }

  /** The two login checks: the username's is reported first. */
  function LoginValidation(username: string, password: string): (r: Option<string>)
    ensures r == Some(UsernameEmpty) <==> IsBlank(username)
    ensures r == Some(PasswordEmpty) <==> !IsBlank(username) && IsBlank(password)
    ensures r.None? <==> !IsBlank(username) && !IsBlank(password)
  {
    if IsBlank(username) then Some(UsernameEmpty)
    else if IsBlank(password) then Some(PasswordEmpty)
    else None
  }

  /** `RegisterUserUseCase(username, displayName, password, confirmPassword)`:
      a failed check leaves the tables alone; otherwise the repository's
      `register`, which is not given `confirmPassword`. */
  function RegisterUserOutcome(t: Tables, h: Hasher, username: string, displayName: string,
                               password: string, confirmPassword: string, now: int): (out: (Result<User>, Tables))
    requires TablesValid(t)
    ensures TablesValid(out.1)
    ensures RegisterValidation(username, displayName, password, confirmPassword).Some? ==>
      out == (Fail(RegisterValidation(username, displayName, password, confirmPassword).value), t)
    ensures RegisterValidation(username, displayName, password, confirmPassword).None? ==>
      out == RegisterSpec(t, h, username, displayName, password, now)
    ensures out.0.Success? ==>
      && RegisterValidation(username, displayName, password, confirmPassword).None?
      && !UsernameTaken(t.users, username)
      && out.0.value == User(t.nextUserId, username, displayName, now)
      && out.1.users == t.users[t.nextUserId := UserEntity(t.nextUserId, username, displayName, HashPassword(h, password), now)]
      && out.1.todos == t.todos
  {
    match RegisterValidation(username, displayName, password, confirmPassword)
    case Some(message) => (Fail(message), t)
    case None => RegisterSpec(t, h, username, displayName, password, now)
  }

  /** `LoginUserUseCase(username, password)`: reads only. */
  ghost function LoginUserOutcome(users: map<int, UserEntity>, h: Hasher, username: string, password: string): (r: Result<User>)
    requires forall k :: k in users ==> users[k].id == k
    ensures LoginValidation(username, password).Some? ==> r == Fail(LoginValidation(username, password).value)
    ensures LoginValidation(username, password).None? ==> r == LoginOutcome(users, h, username, password)
    ensures r.Success? ==>
      && !IsBlank(password) && UsernameTaken(users, username)
      && UserNamed(users, username).value.passwordHash == HashPassword(h, password)
      && r.value == ToUser(UserNamed(users, username).value)
  {
    match LoginValidation(username, password)
    case Some(message) => Fail(message)
    case None => LoginOutcome(users, h, username, password)
  }

  /** A registration that passes the checks stores a username that the
      login checks accept, and logging in with the same password succeeds
      and returns the registered user, unless that password is blank. */
  lemma RegisteredUserCanLogIn(t: Tables, h: Hasher, username: string, displayName: string,
                               password: string, now: int)
    requires TablesValid(t)
    requires RegisterUserOutcome(t, h, username, displayName, password, password, now).0.Success?
    requires !IsBlank(password)
    ensures var (r, t') := RegisterUserOutcome(t, h, username, displayName, password, password, now);
      LoginUserOutcome(t'.users, h, username, password) == r
  {
    PatternExcludesBlank(username);
    LoginAfterRegister(t, h, username, displayName, password, now);
  }

  /** Six spaces pass every registration check: only the password's length
      is checked there, while login rejects a blank password. */
  lemma SixSpacesPassRegistration(username: string, displayName: string)
    requires |username| >= 3 && MatchesUsernamePattern(username) && !IsBlank(displayName)
    ensures RegisterValidation(username, displayName, Spaces(6), Spaces(6)).None?
    ensures LoginValidation(username, Spaces(6)) == Some(PasswordEmpty)
  {
    PatternExcludesBlank(username);
  }

  /** An account registered with a blank password is locked out of its own
      password: a login can succeed only with a different, non-blank
      password whose digest equals the registered one's. */
  lemma BlankPasswordLocksOut(t: Tables, h: Hasher, username: string, displayName: string,
                              password: string, now: int, attempt: string)
    requires TablesValid(t)
    requires RegisterUserOutcome(t, h, username, displayName, password, password, now).0.Success?
    requires IsBlank(password)
    ensures var t' := RegisterUserOutcome(t, h, username, displayName, password, password, now).1;
      LoginUserOutcome(t'.users, h, username, password) == Fail(PasswordEmpty)
      && (LoginUserOutcome(t'.users, h, username, attempt).Success? ==>
            attempt != password && h.sha256(h.toBytes(attempt)) == h.sha256(h.toBytes(password)))
  {
    PatternExcludesBlank(username);
    var t' := RegisterUserOutcome(t, h, username, displayName, password, password, now).1;
    UserNamedIs(t'.users, t.nextUserId);
    SameHashIffSameDigest(h, attempt, password);
  }

  /** `AddTodoUseCase(todo)`: a blank title is refused before the
      repository is touched; otherwise the todo is inserted as given, and a
      constraint failure comes back as the failure. */
  function AddTodoOutcome(t: Tables, todo: Todo): (out: (Result<int>, Tables))
    requires TablesValid(t)
    ensures TablesValid(out.1)
    ensures IsBlank(todo.title) ==> out == (Fail(TitleEmpty), t)
    ensures !IsBlank(todo.title) ==> out == InsertTodoSpec(t, ToEntity(todo))
    ensures out.0.Success? ==>
      !IsBlank(todo.title) && out.0.value in out.1.todos && out.0.value !in t.todos
      && ToDomainModel(out.1.todos[out.0.value]) == Some(todo.(id := out.0.value))
  {
    if IsBlank(todo.title) then (Fail(TitleEmpty), t)
    else
      InsertThenReadIfInserted(t, todo);
      InsertTodoSpec(t, ToEntity(todo))
  }

  /** Helper for `AddTodoOutcome`: `InsertThenRead` when the insert succeeds. */
  lemma InsertThenReadIfInserted(t: Tables, todo: Todo)
    requires TablesValid(t)
    ensures var (r, t') := InsertTodoSpec(t, ToEntity(todo));
      r.Success? ==> r.value in t'.todos && ToDomainModel(t'.todos[r.value]) == Some(todo.(id := r.value))
  {
    if InsertTodoSpec(t, ToEntity(todo)).0.Success? {
      InsertThenRead(t, todo);
    }
  }

  /** `UpdateTodoUseCase(todo)` with the clock reading `now`: a blank title
      writes nothing; otherwise the todo with `updatedAt` replaced by `now`
      is written over the row with its id, if there is one. */
  function UpdateTodoOutcome(t: Tables, todo: Todo, now: int): (out: (Result<()>, Tables))
    requires TablesValid(t)
    ensures TablesValid(out.1)
    ensures IsBlank(todo.title) ==> out == (Fail(TitleEmpty), t)
    ensures !IsBlank(todo.title) ==> out == UpdateTodoSpec(t, ToEntity(todo.(updatedAt := now)))
    ensures out.0.Failure? ==> out.1 == t
    ensures !IsBlank(todo.title) && todo.id !in t.todos ==> out == (Success(()), t)
    ensures !IsBlank(todo.title) && todo.id in t.todos && todo.userId !in t.users ==> out == (Fail(ForeignKeyFailed), t)
    ensures !IsBlank(todo.title) && todo.id in t.todos && todo.userId in t.users ==>
      && out.0.Success?
      && out.1.users == t.users
      && out.1.todos == t.todos[todo.id := ToEntity(todo.(updatedAt := now))]
      && ToDomainModel(out.1.todos[todo.id]) == Some(todo.(updatedAt := now))
  {
    if IsBlank(todo.title) then (Fail(TitleEmpty), t)
    else
      RoundTrip(todo.(updatedAt := now));
      UpdateTodoSpec(t, ToEntity(todo.(updatedAt := now)))
  }

  /** `RegisterUserUseCase`. */
  method RegisterUser(repo: UserRepository, username: string, displayName: string,
                      password: string, confirmPassword: string, now: int) returns (r: Result<User>)
    requires repo.Valid()
    modifies repo.db
    ensures repo.Valid()
    ensures (r, repo.db.Snapshot())
         == RegisterUserOutcome(old(repo.db.Snapshot()), repo.hasher, username, displayName, password, confirmPassword, now)
  {
    if IsBlank(username) || |username| < 3 {
      return Fail(UsernameTooShort);
    }
    if !MatchesUsernamePattern(username) {
      return Fail(UsernameNotAlphanumeric);
    }
    if IsBlank(displayName) {
      return Fail(DisplayNameEmpty);
    }
    if |password| < 6 {
      return Fail(PasswordTooShort);
    }
    if password != confirmPassword {
      return Fail(PasswordsDiffer);
    }
    r := repo.Register(username, displayName, password, now);
  }

  /** `LoginUserUseCase`: writes nothing. */
  method LoginUser(repo: UserRepository, username: string, password: string) returns (r: Result<User>)
    requires repo.Valid()
    ensures r == LoginUserOutcome(repo.db.users, repo.hasher, username, password)
  {
    if IsBlank(username) {
      return Fail(UsernameEmpty);
    }
    if IsBlank(password) {
      return Fail(PasswordEmpty);
    }
    r := repo.Login(username, password);
  }

  /** `AddTodoUseCase`. */
  method AddTodo(repo: TodoRepository, todo: Todo) returns (r: Result<int>)
    requires repo.Valid()
    modifies repo.db
    ensures repo.Valid()
    ensures (r, repo.db.Snapshot()) == AddTodoOutcome(old(repo.db.Snapshot()), todo)
  {
    if IsBlank(todo.title) {
      return Fail(TitleEmpty);
    }
    r := repo.InsertTodo(todo);
  }

  /** `UpdateTodoUseCase`, with the clock reading `now`. */
  method UpdateTodo(repo: TodoRepository, todo: Todo, now: int) returns (r: Result<()>)
    requires repo.Valid()
    modifies repo.db
    ensures repo.Valid()
    ensures (r, repo.db.Snapshot()) == UpdateTodoOutcome(old(repo.db.Snapshot()), todo, now)
  {
    if IsBlank(todo.title) {
      return Fail(TitleEmpty);
    }
    var updatedTodo := todo.(updatedAt := now);
    r := repo.UpdateTodo(updatedTodo);
  }
}
