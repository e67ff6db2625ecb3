/**
 * What the client makes of what the server sends: the stored token as a
 * header the authenticator accepts, the validation bodies as the messages
 * each form shows, a listed message's author label, and the profile merge of
 * the server's member data.
 */
module EndToEnd {
  import opened Wrappers
  import opened Wire
  import opened Bytes
  import TokenAuth
  import opened Accounts
  import opened ClientApi
  import LoginView
  import RegisterView
  import ProfileView
  import Chat

  /** `MemberSerializer` data as the JSON object the client holds. */
  function MemberJson(d: MemberData): (f: Fields)
    ensures f.Keys == {"id", UsernameField, "created_at"}
    ensures f[UsernameField] == Str(d.username)
  {
    map["id" := Int(d.id), UsernameField := Str(d.username), "created_at" := Int(d.createdAt)]
  }

  /** `ChatMessageSerializer` data as the item the chat page holds. */
  function ItemOf(d: MessageData): (item: Chat.Item)
    ensures item.memberUsername == Some(d.memberUsername) && item.content == d.content
    ensures item.id == Int(d.id) && item.createdAt == Int(d.createdAt)
  {
    Chat.Item(Int(d.id), d.content, Int(d.createdAt), Some(d.memberUsername), None)
  }

  /**
   * The header the client builds from a stored token free of whitespace and
   * within ASCII, sent as its bytes, authenticates on the server as that
   * token's member, or fails with "Invalid token." for an unknown token.
   */
  lemma {:induction false} StoredTokenAuthenticates(storage: Storage, tokens: Tokens)
    requires TokenKey in storage && storage[TokenKey] != ""
    requires IsAscii(storage[TokenKey])
    requires forall i :: 0 <= i < |storage[TokenKey]| ==> !IsAsciiSpace(storage[TokenKey][i] as int)
    ensures AuthorizationHeader in AuthHeader(storage)
    ensures IsAscii(AuthHeader(storage)[AuthorizationHeader])
    ensures var t := storage[TokenKey];
            TokenAuth.Authenticate(AsciiBytes(AuthHeader(storage)[AuthorizationHeader]), tokens)
            == if t in tokens then TokenAuth.Authenticated(tokens[t], t) else TokenAuth.Failed(TokenAuth.InvalidToken)
  {
    var t := storage[TokenKey];
    var value := AuthHeader(storage)[AuthorizationHeader];
    assert value == "Token " + t;
    AsciiBytesAppend("Token ", t);
    assert AsciiBytes("Token ") == [0x54, 0x6F, 0x6B, 0x65, 0x6E, 0x20];
    TokenAuth.TokenHeaderAuthenticates(t, tokens);
  }

  /**
   * Registering a taken username shows the unique validator's "member with
   * this username already exists." on the form, never `validate_username`'s text.
   */
  lemma DuplicateRegistrationMessage(ms: Members, username: string, password: string)
    requires username != "" && |username| <= MaxUsernameLength && Taken(ms, username, None)
    ensures ValidateRegister(ms, username, password).Some?
    ensures RegisterView.RegisterErrorMessage(ValidateRegister(ms, username, password)) == UniqueUsernameMessage
  {
  }

  /** Every rejected registration shows a non-empty text taken from the server's body or the fixed one. */
  lemma RegistrationMessageNonEmpty(ms: Members, username: string, password: string)
    requires ValidateRegister(ms, username, password).Some?
    ensures RegisterView.RegisterErrorMessage(ValidateRegister(ms, username, password)) != ""
  {
    var b := ValidateRegister(ms, username, password).value;
    if HasEntries(b.lists, UsernameField) {
      assert b.lists[UsernameField] == UsernameErrors(ms, username);
    }
  }

  /**
   * A rejected login with both fields filled shows the server's own message,
   * and an unknown username and a wrong password show the same one.
   */
  lemma FailedLoginMessage(ms: Members, username: string, password: string, hash: string -> string)
    requires UniqueUsernames(ms) && username != "" && password != ""
    requires ValidateLogin(ms, username, password, hash).Failure?
    ensures LoginView.LoginErrorMessage(Some(ValidateLogin(ms, username, password, hash).error)) == InvalidCredentials
  {
  }

  /**
   * A login with a blank field is answered with field errors only, which the
   * login form does not read: it shows its own fixed text.
   */
  lemma BlankLoginMessage(ms: Members, username: string, password: string, hash: string -> string)
    requires UniqueUsernames(ms) && (username == "" || password == "")
    ensures LoginView.LoginErrorMessage(Some(ValidateLogin(ms, username, password, hash).error)) == LoginView.LoginFailed
  {
  }

  /** A rejected rename shows the server's username error on the profile form. */
  lemma RejectedRenameMessage(ms: Members, requester: nat, username: Option<string>)
    requires ValidateUsernameUpdate(ms, requester, username).Some?
    ensures ProfileView.ProfileErrorMessage(ValidateUsernameUpdate(ms, requester, username))
         == if Truthy(username) then UsernameExists else UsernameRequired
  {
  }

  /** A listed message is labelled with its author's current username, never the fallback. */
  lemma ListedMessageLabel(ms: Members, m: ChatMessage)
    requires m.author in ms && ms[m.author].username != ""
    ensures Chat.AuthorLabel(ItemOf(SerializeMessage(ms, m))) == ms[m.author].username
  {
  }

  /**
   * After an accepted rename the member the profile form merges from the
   * server's answer is exactly the server's new member data: the old fields
   * are all overridden, the id and creation time kept.
   */
  lemma RenamedMemberJson(ms: Members, requester: nat, username: string)
    requires requester in ms
    ensures ProfileView.MergeMember(MemberJson(ToData(ms, requester)),
                                    MemberJson(ToData(Rename(ms, requester, username), requester)))
         == MemberJson(MemberData(requester, username, ms[requester].createdAt))
  {
    var a := MemberJson(ToData(ms, requester));
    var b := MemberJson(ToData(Rename(ms, requester, username), requester));
    assert a.Keys == b.Keys;
  }
}
