/** `RegisterViewModel` over `RegisterState`: four field handlers and
    `onRegister`.  As on the login screen, the ghost `shown` records every
    value the state flow takes. */
module RegisterScreen {
  import opened Wrappers
  import opened Text
  import opened Domain
  import opened Entities
  import opened Hashing
  import opened Store
  import opened UserRepo
  import opened UseCases
  import opened LoginScreen

  datatype RegisterState = RegisterState(
    username: string,
    displayName: string,
    password: string,
    confirmPassword: string,
    isLoading: bool,
    error: Option<string>)

  /** `RegisterState()`: empty fields, so pressing register at once
      reports the username check first. */
  function DefaultRegisterState(): (s: RegisterState)
    ensures !s.isLoading && s.error == None
    ensures s.username == "" && s.displayName == "" && s.password == "" && s.confirmPassword == ""
    ensures RegisterValidation(s.username, s.displayName, s.password, s.confirmPassword) == Some(UsernameTooShort)
  {
    RegisterState("", "", "", "", false, None)
  }

  const RegistrationFailed := "Registration failed"

  /** The state after the use case has answered, from the loading state. */
  function RegisterSettled(loading: RegisterState, r: Result<User>): (s: RegisterState)
    ensures !s.isLoading
    ensures s.(isLoading := loading.isLoading, error := loading.error) == loading
    ensures r.Success? ==> s.error == loading.error
    ensures r.Failure? ==> s.error == Some(MessageOr(r.message, RegistrationFailed))
  {
    match r
    case Success(_) => loading.(isLoading := false)
    case Failure(message) => loading.(isLoading := false, error := Some(MessageOr(message, RegistrationFailed)))
  }

  /** A registration from the screen that succeeds with a non-blank
      password can then log in from the login screen with the same
      username and password; the login screen shows no error. */
  lemma RegisterThenLogin(t: Tables, h: Hasher, s: RegisterState, now: int)
    requires TablesValid(t)
    requires RegisterUserOutcome(t, h, s.username, s.displayName, s.password, s.confirmPassword, now).0.Success?
    requires !IsBlank(s.password)
    ensures var (r, t') := RegisterUserOutcome(t, h, s.username, s.displayName, s.password, s.confirmPassword, now);
      var loginResult := LoginUserOutcome(t'.users, h, s.username, s.password);
      && loginResult == r
      && LoginSettled(LoginState(s.username, s.password, true, None), loginResult).error.None?
  {
    RegisteredUserCanLogIn(t, h, s.username, s.displayName, s.password, now);
  }

  class RegisterViewModel {
    var state: RegisterState
    ghost var shown: seq<RegisterState>
    const userRepo: UserRepository

    ghost predicate Valid()
      reads this, userRepo, userRepo.db, userRepo.prefs
    {
      && userRepo.Valid()
      && |shown| > 0 && shown[|shown| - 1] == state
      && !state.isLoading
    }

    constructor (userRepo: UserRepository)
      requires userRepo.Valid()
      ensures this.userRepo == userRepo && Valid()
      ensures state == DefaultRegisterState() && shown == [state]
    {
      this.userRepo := userRepo;
      state := DefaultRegisterState();
      shown := [DefaultRegisterState()];
    }

    method OnUsernameChange(username: string)
      requires Valid()
      modifies this
      ensures Valid()
      ensures state == old(state).(username := username, error := None) && shown == old(shown) + [state]
    {
      state := state.(username := username, error := None);
      shown := shown + [state];
    }

    method OnDisplayNameChange(displayName: string)
      requires Valid()
      modifies this
      ensures Valid()
      ensures state == old(state).(displayName := displayName, error := None) && shown == old(shown) + [state]
    {
      state := state.(displayName := displayName, error := None);
      shown := shown + [state];
    }

    method OnPasswordChange(password: string)
      requires Valid()
      modifies this
      ensures Valid()
      ensures state == old(state).(password := password, error := None) && shown == old(shown) + [state]
    {
      state := state.(password := password, error := None);
      shown := shown + [state];
    }

    method OnConfirmPasswordChange(confirmPassword: string)
      requires Valid()
      modifies this
      ensures Valid()
      ensures state == old(state).(confirmPassword := confirmPassword, error := None) && shown == old(shown) + [state]
    {
      state := state.(confirmPassword := confirmPassword, error := None);
      shown := shown + [state];
    }

    /** `onRegister`, with the clock reading of the new row's `createdAt`:
        loading on, the use case on all four fields, then loading off with
        the message on failure.  No session id is saved.  `succeeded`
        stands for the call of `onSuccess`. */
    method OnRegister(now: int) returns (succeeded: bool)
      requires Valid()
      modifies this, userRepo.db
      ensures Valid()
      ensures var loading := old(state).(isLoading := true, error := None);
        var (r, t') := RegisterUserOutcome(old(userRepo.db.Snapshot()), userRepo.hasher, old(state).username,
                                           old(state).displayName, old(state).password, old(state).confirmPassword, now);
        && userRepo.db.Snapshot() == t'
        && shown == old(shown) + [loading, RegisterSettled(loading, r)]
        && state == RegisterSettled(loading, r)
        && succeeded == r.Success?
    {
      state := state.(isLoading := true, error := None);
      shown := shown + [state];
      var result := RegisterUser(userRepo, state.username, state.displayName, state.password, state.confirmPassword, now);
      match result
      case Success(_) =>
        state := state.(isLoading := false);
        shown := shown + [state];
        succeeded := true;
      case Failure(message) =>
        state := state.(isLoading := false, error := Some(MessageOr(message, RegistrationFailed)));
        shown := shown + [state];
        succeeded := false;
    }
  }
}
