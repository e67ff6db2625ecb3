/**
 * The browser-side session: local storage, the `auth` value the forms read
 * and (when given `setAuth`) replace, the current route, and the log of
 * requests sent. Also the two view guards and the session write that login
 * and register share.
 */
module Session {
  import opened Wrappers
  import opened Wire
  import opened ClientApi

  /**
   * `{token, member}`: the success body of register and login, and the
   * session, which is present as one pair or absent, never half-set.
   */
  datatype Auth = Auth(token: string, member: Fields)

  predicate HasMember(session: Option<Auth>) {
    session.Some?
  }

  /** The guard of the login and register views: a member session goes home. */
  function AuthViewRedirect(session: Option<Auth>): (r: Option<string>)
    ensures r.Some? <==> HasMember(session)
    ensures r.Some? ==> r.value == "/"
  {
    if HasMember(session) then Some("/") else None
  }

  /** The guard of the profile view: no member session goes to the login view. */
  function ProtectedViewRedirect(session: Option<Auth>): (r: Option<string>)
    ensures r.Some? <==> !HasMember(session)
    ensures r.Some? ==> r.value == "/login"
  {
    if HasMember(session) then None else Some("/login")
  }

  /** Exactly one kind of view is left for every session: no session is kept on both. */
  lemma GatesComplementary(session: Option<Auth>)
    ensures AuthViewRedirect(session).Some? != ProtectedViewRedirect(session).Some?
  {
  }

  class Browser {
    /** `JSON.stringify` of a member object. */
    const serialize: Fields -> string
    var storage: Storage
    var session: Option<Auth>
    var location: string
    var requests: seq<Request>

    constructor (serialize: Fields -> string, storage: Storage, session: Option<Auth>, location: string)
      ensures this.serialize == serialize && this.storage == storage && this.session == session
      ensures this.location == location && requests == []
    {
      this.serialize := serialize;
      this.storage := storage;
      this.session := session;
      this.location := location;
      requests := [];
    }

    /** Follows a guard's redirect, if there is one. */
    method Follow(redirect: Option<string>)
      modifies this`location
      ensures location == redirect.GetOr(old(location))
    {
      if redirect.Some? {
        location := redirect.value;
      }
    }

    method Send(r: Request)
      modifies this`requests
      ensures requests == old(requests) + [r]
    {
      requests := requests + [r];
    }

    /**
     * The success branch of login and register: both storage keys written,
     * the session replaced by the pair when `setAuth` was given, then home.
     */
    method EstablishSession(data: Auth, setAuth: bool)
      modifies this`storage, this`session, this`location
      ensures storage == old(storage)[TokenKey := data.token][MemberKey := serialize(data.member)]
      ensures session == if setAuth then Some(data) else old(session)
      ensures location == "/"
    {
      storage := storage[TokenKey := data.token];
      storage := storage[MemberKey := serialize(data.member)];
      if setAuth {
        session := Some(data);
      }
      location := "/";
    }
  }

  /** After a session write, every member-facing request carries the new token. */
  lemma EstablishedTokenIsSent(storage: Storage, token: string, memberJson: string)
    requires token != ""
    ensures AuthHeader(storage[TokenKey := token][MemberKey := memberJson])
         == map[AuthorizationHeader := "Token " + token]
  {
    var s := storage[TokenKey := token][MemberKey := memberJson];
    assert TokenKey in s && s[TokenKey] == token;
  }
}
