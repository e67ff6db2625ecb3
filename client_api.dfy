/**
 * The client's API wrappers for accounts: each builds one request. The three
 * member-facing calls attach the stored token; register and login send only
 * the credentials.
 */
module ClientApi {
  import opened Wire

  type Storage = map<string, string>

  const TokenKey := "authToken"
  const MemberKey := "authMember"
  const AuthorizationHeader := "Authorization"

  datatype Verb = Get | Post | Put

  datatype Payload = NoPayload | Credentials(username: string, password: string) | Json(fields: Fields)

  datatype Request = Request(verb: Verb, path: string, headers: map<string, string>, payload: Payload)

  /** `getAuthHeader`: no header for an absent or empty token, else `Authorization: Token <token>`. */
  function AuthHeader(storage: Storage): (h: map<string, string>)
    ensures |h| <= 1
    ensures h == map[] <==> TokenKey !in storage || storage[TokenKey] == ""
    ensures h != map[] ==> h == map[AuthorizationHeader := "Token " + storage[TokenKey]]
  {
    if TokenKey !in storage || storage[TokenKey] == "" then map[]
    else map[AuthorizationHeader := "Token " + storage[TokenKey]]
  }

  /** `register`: POST of the credentials to the register endpoint, with no token whatever is stored. */
  function RegisterRequest(username: string, password: string): (r: Request)
    ensures r.verb == Post && r.path == "/api/auth/register/"
    ensures r.headers == map[] && r.payload == Credentials(username, password)
  {
    Request(Post, "/api/auth/register/", map[], Credentials(username, password))
  }

  /** `login`: POST of the credentials to the login endpoint, with no token whatever is stored. */
  function LoginRequest(username: string, password: string): (r: Request)
    ensures r.verb == Post && r.path == "/api/auth/login/"
    ensures r.headers == map[] && r.payload == Credentials(username, password)
  {
    Request(Post, "/api/auth/login/", map[], Credentials(username, password))
  }

  /** `getCurrentMember`: GET of the current member, carrying the stored token's header. */
  function CurrentMemberRequest(storage: Storage): (r: Request)
    ensures r.verb == Get && r.path == "/api/auth/me/" && r.payload == NoPayload
    ensures AuthorizationHeader in r.headers <==> TokenKey in storage && storage[TokenKey] != ""
    ensures AuthorizationHeader in r.headers ==> r.headers == map[AuthorizationHeader := "Token " + storage[TokenKey]]
    ensures AuthorizationHeader !in r.headers ==> r.headers == map[]
  {
    Request(Get, "/api/auth/me/", AuthHeader(storage), NoPayload)
  }

  /** `getProfile`: GET of the profile, carrying the stored token's header. */
  function ProfileRequest(storage: Storage): (r: Request)
    ensures r.verb == Get && r.path == "/api/profile/" && r.payload == NoPayload
    ensures AuthorizationHeader in r.headers <==> TokenKey in storage && storage[TokenKey] != ""
    ensures AuthorizationHeader in r.headers ==> r.headers == map[AuthorizationHeader := "Token " + storage[TokenKey]]
    ensures AuthorizationHeader !in r.headers ==> r.headers == map[]
  {
    Request(Get, "/api/profile/", AuthHeader(storage), NoPayload)
  }

  /** `updateProfile`: PUT of the payload as given, carrying the stored token's header. */
  function UpdateProfileRequest(storage: Storage, payload: Fields): (r: Request)
    ensures r.verb == Put && r.path == "/api/profile/" && r.payload == Json(payload)
    ensures AuthorizationHeader in r.headers <==> TokenKey in storage && storage[TokenKey] != ""
    ensures AuthorizationHeader in r.headers ==> r.headers == map[AuthorizationHeader := "Token " + storage[TokenKey]]
    ensures AuthorizationHeader !in r.headers ==> r.headers == map[]
  {
    Request(Put, "/api/profile/", AuthHeader(storage), Json(payload))
  }

  /** Requests built from storages that agree on the token carry the same header. */
  lemma HeaderDependsOnlyOnToken(s1: Storage, s2: Storage)
    requires (TokenKey in s1) == (TokenKey in s2)
    requires TokenKey in s1 ==> s1[TokenKey] == s2[TokenKey]
    ensures AuthHeader(s1) == AuthHeader(s2)
  {
  }
}
