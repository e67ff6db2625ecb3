/** The login view: its redirect guard, its submit handler, and its error-message extraction. */
module LoginView {
  import opened Wrappers
  import opened Wire
  import opened ClientApi
  import opened Session

  const LoginFailed := "Не удалось выполнить вход."

  /**
   * The message shown for a failed login: a non-empty string body verbatim,
   * else the first `non_field_errors` entry, else a non-empty `detail`, else
   * the fixed text. `None` stands for an error without response data.
   */
  function LoginErrorMessage(data: Option<Body>): (m: string)
    ensures data.None? || data == Some(Text("")) ==> m == LoginFailed
    ensures data.Some? && data.value.Text? && data.value.text != "" ==> m == data.value.text
    ensures data.Some? && data.value.Object? && HasEntries(data.value.lists, NonFieldErrors)
            ==> m == data.value.lists[NonFieldErrors][0]
    ensures data.Some? && data.value.Object? && !HasEntries(data.value.lists, NonFieldErrors)
            ==> m == if Truthy(data.value.detail) then data.value.detail.value else LoginFailed
    ensures m == "" ==> data.Some? && data.value.Object? && HasEntries(data.value.lists, NonFieldErrors)
  {
    match data
    case None => LoginFailed
    case Some(Text(s)) => if s == "" then LoginFailed else s
    case Some(Object(lists, detail)) =>
      if HasEntries(lists, NonFieldErrors) then lists[NonFieldErrors][0]
      else if Truthy(detail) then detail.value
      else LoginFailed
  }

  /** Field errors other than `non_field_errors` never reach the login message. */
  lemma LoginIgnoresFieldErrors(lists: map<string, seq<string>>, detail: Option<string>, f: string, es: seq<string>)
    requires f != NonFieldErrors
    ensures LoginErrorMessage(Some(Object(lists[f := es], detail))) == LoginErrorMessage(Some(Object(lists, detail)))
  {
    assert (NonFieldErrors in lists[f := es]) == (NonFieldErrors in lists);
  }

  class LoginForm {
    /** Whether the owner passed a `setAuth` callback. */
    const setAuth: bool
    var username: string
    var password: string
    var loading: bool
    var error: string

    constructor (setAuth: bool)
      ensures this.setAuth == setAuth
      ensures username == "" && password == "" && !loading && error == ""
    {
      this.setAuth := setAuth;
      username, password := "", "";
      loading, error := false, "";
    }

    /** The inputs' change handlers. */
    method Fill(username: string, password: string)
      modifies this`username, this`password
      ensures this.username == username && this.password == password
    {
      this.username, this.password := username, password;
    }

    /** The guard effect: a session with a member is sent home. */
    method Guard(b: Browser)
      modifies b`location
      ensures b.location == if HasMember(b.session) then "/" else old(b.location)
    {
      b.Follow(AuthViewRedirect(b.session));
    }

    /**
     * `handleSubmit` under a given server outcome. Success writes both
     * storage keys, sets the session as one pair and goes home; failure
     * leaves storage, session and route alone and shows the extracted message.
     */
    method Submit(b: Browser, outcome: Result<Auth, Option<Body>>)
      modifies this`loading, this`error, b`storage, b`session, b`location, b`requests
      ensures b.requests == old(b.requests) + [LoginRequest(username, password)]
      ensures !loading
      ensures outcome.Success? ==>
                && b.storage == old(b.storage)[TokenKey := outcome.value.token][MemberKey := b.serialize(outcome.value.member)]
                && b.session == (if setAuth then Some(outcome.value) else old(b.session))
                && b.location == "/"
                && error == ""
      ensures outcome.Failure? ==>
                && b.storage == old(b.storage) && b.session == old(b.session) && b.location == old(b.location)
                && error == LoginErrorMessage(outcome.error)
    {
      error := "";
      loading := true;
      b.Send(LoginRequest(username, password));
      match outcome {
        case Success(data) =>
          b.EstablishSession(data, setAuth);
        case Failure(details) =>
          error := LoginErrorMessage(details);
      }
      loading := false;
    }
  }
}
