/** `LoginViewModel` over `LoginState`: two field handlers and `onLogin`.
    The ghost `shown` records every value the state flow takes, so the
    intermediate loading state of `onLogin` is visible to the contract. */
module LoginScreen {
  import opened Wrappers
  import opened Text
  import opened Domain
  import opened Entities
  import opened Hashing
  import opened Store
  import opened UserRepo
  import opened Preferences
  import opened UseCases

  datatype LoginState = LoginState(username: string, password: string, isLoading: bool, error: Option<string>)

  /** `LoginState()`: empty fields, so pressing login at once reports the
      empty username. */
  function DefaultLoginState(): (s: LoginState)
    ensures !s.isLoading && s.error == None && s.username == "" && s.password == ""
    ensures LoginValidation(s.username, s.password) == Some(UsernameEmpty)
  {
    LoginState("", "", false, None)
  }

  const LoginFailed := "Login failed"

  /** `exception.message ?: fallback`: the message when there is one. */
  function MessageOr(message: Option<string>, fallback: string): (text: string)
    ensures message == Some(text) || (message == None && text == fallback)
  {
    match message
    case Some(text) => text
    case None => fallback
  }

  /** The state after the use case has answered, from the loading state:
      loading ends, and an error is shown exactly when the login failed. */
  function LoginSettled(loading: LoginState, r: Result<User>): (s: LoginState)
    ensures !s.isLoading && s.username == loading.username && s.password == loading.password
    ensures r.Success? ==> s.error == loading.error
    ensures r.Failure? ==> s.error == Some(MessageOr(r.message, LoginFailed))
  {
    match r
    case Success(_) => loading.(isLoading := false)
    case Failure(message) => loading.(isLoading := false, error := Some(MessageOr(message, LoginFailed)))
  }

  /** Pressing login on the fields as they are: the error shown afterwards
      is none exactly when the login succeeded, and a blank field is
      reported before any lookup. */
  lemma LoginErrorShownIffFailed(s: LoginState, users: map<int, UserEntity>, h: Hasher)
    requires forall k :: k in users ==> users[k].id == k
    ensures var loading := s.(isLoading := true, error := None);
      var r := LoginUserOutcome(users, h, s.username, s.password);
      && (LoginSettled(loading, r).error.None? <==> r.Success?)
      && (IsBlank(s.username) ==> LoginSettled(loading, r).error == Some(UsernameEmpty))
      && (!IsBlank(s.username) && IsBlank(s.password) ==> LoginSettled(loading, r).error == Some(PasswordEmpty))
  {
  }

  class LoginViewModel {
    var state: LoginState
    ghost var shown: seq<LoginState>
    const userRepo: UserRepository

    ghost predicate Valid()
      reads this, userRepo, userRepo.db, userRepo.prefs
    {
      && userRepo.Valid()
      && |shown| > 0 && shown[|shown| - 1] == state
      && !state.isLoading
    }

    constructor (userRepo: UserRepository)
      requires userRepo.Valid()
      ensures this.userRepo == userRepo && Valid()
      ensures state == DefaultLoginState() && shown == [state]
    {
      this.userRepo := userRepo;
      state := DefaultLoginState();
      shown := [DefaultLoginState()];
    }

    /** `onUsernameChange`: sets the field and clears the error. */
    method OnUsernameChange(username: string)
      requires Valid()
      modifies this
      ensures Valid()
      ensures state == old(state).(username := username, error := None) && shown == old(shown) + [state]
    {
      state := state.(username := username, error := None);
      shown := shown + [state];
    }

    /** `onPasswordChange`: sets the field and clears the error. */
    method OnPasswordChange(password: string)
      requires Valid()
      modifies this
      ensures Valid()
      ensures state == old(state).(password := password, error := None) && shown == old(shown) + [state]
    {
      state := state.(password := password, error := None);
      shown := shown + [state];
    }

    /** `onLogin`: loading on, the use case on the current fields, then on
        success the session's user id is saved before loading ends, and on
        failure the message is shown and nothing is saved.  `succeeded`
        stands for the call of `onSuccess`. */
    method OnLogin() returns (succeeded: bool)
      requires Valid()
      modifies this, userRepo.prefs
      ensures Valid()
      ensures var loading := old(state).(isLoading := true, error := None);
        var r := LoginUserOutcome(userRepo.db.users, userRepo.hasher, old(state).username, old(state).password);
        && shown == old(shown) + [loading, LoginSettled(loading, r)]
        && state == LoginSettled(loading, r)
        && succeeded == r.Success?
        && (r.Success? ==> userRepo.prefs.UserId() == Some(r.value.id)
                           && userRepo.prefs.Language() == old(userRepo.prefs.Language()))
        && (r.Failure? ==> userRepo.prefs.data == old(userRepo.prefs.data))
    {
      state := state.(isLoading := true, error := None);
      shown := shown + [state];
      var result := LoginUser(userRepo, state.username, state.password);
      match result
      case Success(user) =>
        userRepo.SaveCurrentUserId(user.id);
        state := state.(isLoading := false);
        shown := shown + [state];
        succeeded := true;
      case Failure(message) =>
        state := state.(isLoading := false, error := Some(MessageOr(message, LoginFailed)));
        shown := shown + [state];
        succeeded := false;
    }
  }
}
