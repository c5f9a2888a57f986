/**
 * The login screen's view-model: a four-state machine driven by the login
 * button. The repository's answer is a parameter; what the view-model does,
 * in order, is recorded as a trace of events.
 */
module Login {
  import Common

  datatype LoginState = Idle | Loading | Success | Error(message: string)

  const EMPTY_FIELDS := "Email and password must not be empty"
  const LOGIN_FAILED := "Login failed"

  /** How repository.login ends: a successful result, or a failure (or exception) with an optional message. */
  datatype LoginAnswer = Succeeded | Failed(message: Common.Option<string>)

  /** What the view-model does, in order. */
  datatype Event = SetState(state: LoginState) | RepositoryLogin(email: string, password: string) | Navigate

  /** The events of one onLoginClick. */
  function LoginEvents(email: string, password: string, answer: LoginAnswer): seq<Event> {
    if Common.IsBlank(email) || Common.IsBlank(password) then [SetState(Error(EMPTY_FIELDS))]
    else
      [SetState(Loading), RepositoryLogin(email, password)] +
      match answer
      case Succeeded => [Navigate, SetState(Success)]
      case Failed(message) => [SetState(Error(message.GetOr(LOGIN_FAILED)))]
  }

  /** The state an event sequence leaves behind. */
  function LastState(events: seq<Event>, initial: LoginState): LoginState
    decreases |events|
  {
    if events == [] then initial
    else if events[|events| - 1].SetState? then events[|events| - 1].state
    else LastState(events[..|events| - 1], initial)
  }

  /**
   * A blank field ends in the empty-fields error without calling the
   * repository or showing Loading; otherwise Loading comes first, then the
   * call, then either navigation followed by Success, or an error carrying
   * the failure's message or "Login failed".
   */
  lemma LoginEventsSpec(email: string, password: string, answer: LoginAnswer, initial: LoginState)
    ensures var ev := LoginEvents(email, password, answer);
            && (Common.IsBlank(email) || Common.IsBlank(password) ==>
                  && LastState(ev, initial) == Error(EMPTY_FIELDS)
                  && SetState(Loading) !in ev
                  && (forall i :: 0 <= i < |ev| ==> !ev[i].RepositoryLogin?))
            && (!Common.IsBlank(email) && !Common.IsBlank(password) ==>
                  && ev[0] == SetState(Loading) && ev[1] == RepositoryLogin(email, password))
            && (Navigate in ev <==> !Common.IsBlank(email) && !Common.IsBlank(password) && answer.Succeeded?)
            && (LastState(ev, initial) == Success <==> Navigate in ev)
            && (Navigate in ev ==> ev[|ev| - 2] == Navigate && ev[|ev| - 1] == SetState(Success))
            && (!Common.IsBlank(email) && !Common.IsBlank(password) && answer.Failed? ==>
                  LastState(ev, initial) == Error(answer.message.GetOr(LOGIN_FAILED)))
  {
    var ev := LoginEvents(email, password, answer);
    if !Common.IsBlank(email) && !Common.IsBlank(password) && answer.Failed? {
      assert Navigate !in ev by {
        assert ev == [SetState(Loading), RepositoryLogin(email, password), SetState(Error(answer.message.GetOr(LOGIN_FAILED)))];
      }
    }
  }

  class LoginViewModel {
    var loginState: LoginState
    /** Everything the view-model has done, oldest first. */
    ghost var events: seq<Event>

    constructor ()
      ensures loginState == Idle && events == []
    {
      loginState := Idle;
      events := [];
    }

    /** onLoginClick(email, password, onSuccessNavigate); returns whether it navigated. */
    method OnLoginClick(email: string, password: string, answer: LoginAnswer) returns (navigated: bool)
      modifies this
      ensures events == old(events) + LoginEvents(email, password, answer)
      ensures loginState == LastState(LoginEvents(email, password, answer), old(loginState))
      ensures navigated <==> Navigate in LoginEvents(email, password, answer)
    {
      navigated := false;
      if Common.IsBlank(email) || Common.IsBlank(password) {
        loginState := Error(EMPTY_FIELDS);
        events := events + [SetState(loginState)];
        return;
      }
      loginState := Loading;
      events := events + [SetState(Loading), RepositoryLogin(email, password)];
      match answer {
        case Succeeded =>
          navigated := true;
          loginState := Success;
          events := events + [Navigate, SetState(Success)];
        case Failed(message) =>
          loginState := Error(message.GetOr(LOGIN_FAILED));
          events := events + [SetState(loginState)];
      }
      LoginEventsSpec(email, password, answer, old(loginState));
    }

    /** onGoogleSignInClick: does nothing. */
    method OnGoogleSignInClick()
      ensures loginState == old(loginState) && events == old(events)
    {
    }
  }
}
