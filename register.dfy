/** The registration view: its redirect guard, its submit handler, and its error-message extraction. */
module RegisterView {
  import opened Wrappers
  import opened Wire
  import opened ClientApi
  import opened Session

  const RegisterFailed := "Не удалось выполнить регистрацию."

  /**
   * The message shown for a failed registration: a non-empty string body
   * verbatim, else the first `non_field_errors` entry, else the first
   * `username` entry, else the fixed text. `detail` is never read.
   */
  function RegisterErrorMessage(data: Option<Body>): (m: string)
    ensures data.None? || data == Some(Text("")) ==> m == RegisterFailed
    ensures data.Some? && data.value.Text? && data.value.text != "" ==> m == data.value.text
    ensures data.Some? && data.value.Object? && HasEntries(data.value.lists, NonFieldErrors)
            ==> m == data.value.lists[NonFieldErrors][0]
    ensures data.Some? && data.value.Object? && !HasEntries(data.value.lists, NonFieldErrors)
            ==> m == if HasEntries(data.value.lists, UsernameField) then data.value.lists[UsernameField][0]
                     else RegisterFailed
    ensures m == "" ==> data.Some? && data.value.Object?
  {
    match data
    case None => RegisterFailed
    case Some(Text(s)) => if s == "" then RegisterFailed else s
    case Some(Object(lists, _)) =>
      if HasEntries(lists, NonFieldErrors) then lists[NonFieldErrors][0]
      else if HasEntries(lists, UsernameField) then lists[UsernameField][0]
      else RegisterFailed
  }

  /** The `detail` of an error object never changes the registration message. */
  lemma RegisterIgnoresDetail(lists: map<string, seq<string>>, d1: Option<string>, d2: Option<string>)
    ensures RegisterErrorMessage(Some(Object(lists, d1))) == RegisterErrorMessage(Some(Object(lists, d2)))
  {
  }

  class RegisterForm {
    /** Whether the owner passed a `setAuth` callback. */
    const setAuth: bool
    var username: string
    var password: string
    var loading: bool
    var error: string

    constructor (setAuth: bool)
      ensures this.setAuth == setAuth
      ensures username == "" && password == "" && !loading && error == ""
    {
      this.setAuth := setAuth;
      username, password := "", "";
      loading, error := false, "";
    }

    /** The inputs' change handlers. */
    method Fill(username: string, password: string)
      modifies this`username, this`password
      ensures this.username == username && this.password == password
    {
      this.username, this.password := username, password;
    }

    /** The guard effect: a session with a member is sent home. */
    method Guard(b: Browser)
      modifies b`location
      ensures b.location == if HasMember(b.session) then "/" else old(b.location)
    {
      b.Follow(AuthViewRedirect(b.session));
    }

    /**
     * `handleSubmit` under a given server outcome: on success the same
     * session write as login; on failure nothing but the message changes.
     */
    method Submit(b: Browser, outcome: Result<Auth, Option<Body>>)
      modifies this`loading, this`error, b`storage, b`session, b`location, b`requests
      ensures b.requests == old(b.requests) + [RegisterRequest(username, password)]
      ensures !loading
      ensures outcome.Success? ==>
                && b.storage == old(b.storage)[TokenKey := outcome.value.token][MemberKey := b.serialize(outcome.value.member)]
                && b.session == (if setAuth then Some(outcome.value) else old(b.session))
                && b.location == "/"
                && error == ""
      ensures outcome.Failure? ==>
                && b.storage == old(b.storage) && b.session == old(b.session) && b.location == old(b.location)
                && error == RegisterErrorMessage(outcome.error)
    {
      error := "";
      loading := true;
      b.Send(RegisterRequest(username, password));
      match outcome {
        case Success(data) =>
          b.EstablishSession(data, setAuth);
        case Failure(details) =>
          error := RegisterErrorMessage(details);
      }
      loading := false;
    }
  }
}
