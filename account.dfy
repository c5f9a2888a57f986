/**
 * The account view-model: sign-up in three chained remote steps (create
 * the auth user, set its display name, save a user record), the shown user
 * name, the password-reset request and logout. The signed-in user and the
 * "users" collection are state; how each remote step ends is a parameter.
 */
module Account {
  import opened Common

  datatype CreateAccountState = Idle | Loading | Success | Error(message: string)

  const ACCOUNT_CREATION_FAILED := "Account creation failed"
  const PROFILE_UPDATE_FAILED := "Profile update failed"
  const SAVE_FAILED := "Failed to save user data"
  const DEFAULT_USER_NAME := "User"

  /** How a remote task completes: successfully, or with an exception whose message may be null. */
  datatype TaskResult = Successful | Unsuccessful(message: Option<string>)

  /** The document written to "users/{uid}". */
  datatype UserRecord = UserRecord(name: string, email: string)

  /**
   * The states createAccount passes through after the call: Loading, then
   * the outcome of the first step that fails, or Success once the record is
   * saved. With no current user after sign-up nothing follows Loading.
   */
  function CreationStates(signUp: TaskResult, user: Option<AuthUser>, profile: TaskResult, save: TaskResult): seq<CreateAccountState> {
    [Loading] +
    if signUp.Unsuccessful? then [Error(signUp.message.GetOr(ACCOUNT_CREATION_FAILED))]
    else if user.None? then []
    else if profile.Unsuccessful? then [Error(profile.message.GetOr(PROFILE_UPDATE_FAILED))]
    else if save.Unsuccessful? then [Error(save.message.GetOr(SAVE_FAILED))]
    else [CreateAccountState.Success]
  }

  /** The record is saved only after sign-up and the profile update both succeed. */
  predicate Saves(signUp: TaskResult, user: Option<AuthUser>, profile: TaskResult, save: TaskResult) {
    signUp.Successful? && user.Some? && profile.Successful? && save.Successful?
  }

  /**
   * Loading comes first; Success is reached exactly when all three steps
   * succeed in order; each failing step reports its own message or its own
   * fallback; a missing user leaves the state at Loading.
   */
  lemma CreationStatesSpec(signUp: TaskResult, user: Option<AuthUser>, profile: TaskResult, save: TaskResult)
    ensures var states := CreationStates(signUp, user, profile, save);
            && states[0] == Loading
            && (states[|states| - 1] == CreateAccountState.Success <==> Saves(signUp, user, profile, save))
            && (signUp.Unsuccessful? ==> states[|states| - 1] == Error(signUp.message.GetOr(ACCOUNT_CREATION_FAILED)))
            && (signUp.Successful? && user.None? ==> states == [Loading])
            && (signUp.Successful? && user.Some? && profile.Unsuccessful? ==>
                  states[|states| - 1] == Error(profile.message.GetOr(PROFILE_UPDATE_FAILED)))
            && (signUp.Successful? && user.Some? && profile.Successful? && save.Unsuccessful? ==>
                  states[|states| - 1] == Error(save.message.GetOr(SAVE_FAILED)))
            && |states| <= 2
  {
  }

  /** The failure of an earlier step hides the later ones: they never run. */
  lemma EarlierFailureWins(signUp: TaskResult, user: Option<AuthUser>, profile: TaskResult, save: TaskResult,
                           profile': TaskResult, save': TaskResult)
    requires signUp.Unsuccessful? || user.None?
    ensures CreationStates(signUp, user, profile, save) == CreationStates(signUp, user, profile', save')
  {
  }

  /** fetchUserName: the display name, else the email, else "User". */
  function UserNameOf(user: Option<AuthUser>): (name: string)
    ensures user.Some? && user.value.displayName.Some? ==> name == user.value.displayName.value
    ensures user.Some? && user.value.displayName.None? && user.value.email.Some? ==> name == user.value.email.value
    ensures user.None? || (user.value.displayName.None? && user.value.email.None?) ==> name == DEFAULT_USER_NAME
  {
    match user
    case None => DEFAULT_USER_NAME
    case Some(u) => u.displayName.GetOr(u.email.GetOr(DEFAULT_USER_NAME))
  }

  /** changePassword: whether a reset email is requested at all. */
  predicate CanRequestReset(user: Option<AuthUser>) {
    user.Some? && user.value.email.Some?
  }

  class AccountViewModel {
    var accountCreationState: CreateAccountState
    var userName: string
    /** The values emitted on passwordResetEvent, oldest first. */
    var passwordResetEvents: seq<bool>
    /** auth.currentUser. */
    var currentUser: Option<AuthUser>
    /** The "users" collection: uid -> saved record. */
    var users: map<string, UserRecord>
    /** Every value accountCreationState has taken, oldest first. */
    ghost var states: seq<CreateAccountState>

    /** Construction runs fetchUserName. */
    constructor (currentUser: Option<AuthUser>, users: map<string, UserRecord>)
      ensures accountCreationState == Idle && states == [Idle]
      ensures userName == UserNameOf(currentUser)
      ensures passwordResetEvents == []
      ensures this.currentUser == currentUser && this.users == users
    {
      accountCreationState := Idle;
      states := [Idle];
      passwordResetEvents := [];
      this.currentUser := currentUser;
      this.users := users;
      userName := UserNameOf(currentUser);
    }

    /**
     * createAccount(name, email, password). `signUp` is how user creation
     * ends, `user` the current user it leaves, `profile` how setting the
     * display name ends and `save` how writing "users/{uid}" ends.
     */
    method CreateAccount(name: string, email: string, password: string,
                         signUp: TaskResult, user: Option<AuthUser>, profile: TaskResult, save: TaskResult)
      modifies this
      ensures states == old(states) + CreationStates(signUp, user, profile, save)
      ensures accountCreationState == states[|states| - 1]
      ensures currentUser == if signUp.Successful? then user else old(currentUser)
      ensures users == if Saves(signUp, user, profile, save) then old(users)[user.value.uid := UserRecord(name, email)] else old(users)
      ensures userName == old(userName) && passwordResetEvents == old(passwordResetEvents)
    {
      accountCreationState := Loading;
      states := states + [Loading];
      match signUp {
        case Unsuccessful(message) =>
          accountCreationState := Error(message.GetOr(ACCOUNT_CREATION_FAILED));
          states := states + [accountCreationState];
        case Successful =>
          currentUser := user;
          if user.Some? {
            match profile {
              case Unsuccessful(message) =>
                accountCreationState := Error(message.GetOr(PROFILE_UPDATE_FAILED));
                states := states + [accountCreationState];
              case Successful =>
                SaveUserData(user.value.uid, name, email, save);
            }
          }
      }
    }

    /** saveUserDataToFirestore(userId, name, email). */
    method SaveUserData(userId: string, name: string, email: string, save: TaskResult)
      modifies this
      ensures accountCreationState == if save.Successful? then CreateAccountState.Success else Error(save.message.GetOr(SAVE_FAILED))
      ensures states == old(states) + [accountCreationState]
      ensures users == if save.Successful? then old(users)[userId := UserRecord(name, email)] else old(users)
      ensures currentUser == old(currentUser) && userName == old(userName)
      ensures passwordResetEvents == old(passwordResetEvents)
    {
      match save {
        case Successful =>
          users := users[userId := UserRecord(name, email)];
          accountCreationState := CreateAccountState.Success;
        case Unsuccessful(message) =>
          accountCreationState := Error(message.GetOr(SAVE_FAILED));
      }
      states := states + [accountCreationState];
    }

    /** fetchUserName. */
    method FetchUserName()
      modifies this`userName
      ensures userName == UserNameOf(currentUser)
    {
      userName := UserNameOf(currentUser);
    }

    /** changePassword: emits whether the reset email went out, but only for a user with an email. */
    method ChangePassword(sent: bool)
      modifies this`passwordResetEvents
      ensures passwordResetEvents == old(passwordResetEvents) + (if CanRequestReset(currentUser) then [sent] else [])
    {
      if currentUser.Some? && currentUser.value.email.Some? {
        passwordResetEvents := passwordResetEvents + [sent];
      }
    }

    /** logout(onLogout): sign out, then run the callback. */
    method Logout() returns (onLogout: bool)
      modifies this`currentUser
      ensures currentUser.None? && onLogout
    {
      currentUser := None;
      onLogout := true;
    }
  }
}
