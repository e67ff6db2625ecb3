/**
 * The server's views over its three tables: `RegisterView.post`,
 * `LoginView.post`, `ProfileView._update_username` and the message list and
 * create endpoints. Requests reaching a view marked IsAuthenticated carry
 * the id of the member the token authenticator returned.
 */
module Backend {
  import opened Wrappers
  import opened Wire
  import opened Accounts

  /** `{token, member}`, the body of a successful register or login. */
  datatype AuthData = AuthData(token: string, member: MemberData)

  datatype Response<T> = Ok(status: nat, data: T) | Rejected(status: nat, body: Body)

  class Server {
    /** `make_password`, abstracted. */
    const hash: string -> string
    var members: Members
    var tokens: Tokens
    var messages: seq<ChatMessage>
    var nextMemberId: nat
    var nextMessageId: nat

    ghost predicate Valid()
      reads this
    {
      && UniqueUsernames(members)
      && (forall id | id in members :: id < nextMemberId && members[id].username != "")
      && OneTokenPerMember(tokens)
      && (forall k | k in tokens :: tokens[k] in members)
      && (forall i | 0 <= i < |messages| :: messages[i].author in members && messages[i].id < nextMessageId)
      && (forall i, j | 0 <= i < j < |messages| :: messages[i].id < messages[j].id)
    }

    constructor (hash: string -> string)
      ensures Valid() && this.hash == hash
      ensures members == map[] && tokens == map[] && messages == []
    {
      this.hash := hash;
      members, tokens, messages := map[], map[], [];
      nextMemberId, nextMessageId := 1, 1;
    }

    /**
     * `RegisterView.post`: 400 with the field errors, or a new member with
     * the hashed password, its new token, and 201 {token, member}.
     */
    method Register(username: string, password: string, freshKey: string, now: int)
      returns (resp: Response<AuthData>)
      requires Valid() && freshKey !in tokens
      modifies this
      ensures Valid()
      ensures messages == old(messages) && nextMessageId == old(nextMessageId)
      ensures ValidateRegister(old(members), username, password).Some? ==>
                && resp == Rejected(400, ValidateRegister(old(members), username, password).value)
                && members == old(members) && tokens == old(tokens) && nextMemberId == old(nextMemberId)
      ensures ValidateRegister(old(members), username, password).None? ==>
                var id := old(nextMemberId);
                && id !in old(members)
                && members == AddMember(old(members), id, username, password, hash, now)
                && tokens == old(tokens)[freshKey := id]
                && resp == Ok(201, AuthData(freshKey, MemberData(id, username, now)))
    {
      var errors := ValidateRegister(members, username, password);
      if errors.Some? {
        return Rejected(400, errors.value);
      }
      var id := nextMemberId;
      AddMemberKeepsUnique(members, id, username, password, hash, now);
      members := AddMember(members, id, username, password, hash, now);
      nextMemberId := nextMemberId + 1;
      assert !HasToken(tokens, id);
      var (key, ts) := GetOrCreateToken(tokens, id, freshKey);
      tokens := ts;
      resp := Ok(201, AuthData(key, ToData(members, id)));
    }

    /**
     * `LoginView.post`: 400 with the field errors or {"non_field_errors":
     * [message]}, or the matching member's token (reused, or created) and
     * 200 {token, member}.
     */
    method Login(username: string, password: string, freshKey: string)
      returns (resp: Response<AuthData>)
      requires Valid() && freshKey !in tokens
      modifies this`tokens
      ensures Valid()
      ensures ValidateLogin(members, username, password, hash).Failure? ==>
                && resp == Rejected(400, ValidateLogin(members, username, password, hash).error)
                && tokens == old(tokens)
      ensures ValidateLogin(members, username, password, hash).Success? ==>
                var id := ValidateLogin(members, username, password, hash).value;
                var (key, ts) := GetOrCreateToken(old(tokens), id, freshKey);
                && tokens == ts
                && resp == Ok(200, AuthData(key, ToData(members, id)))
    {
      match ValidateLogin(members, username, password, hash)
      case Failure(body) =>
        resp := Rejected(400, body);
      case Success(id) =>
        var (key, ts) := GetOrCreateToken(tokens, id, freshKey);
        tokens := ts;
        resp := Ok(200, AuthData(key, ToData(members, id)));
    }

    /**
     * `ProfileView._update_username`: 400 with a username error and no change,
     * or only the requester's username replaced and 200 with the member.
     */
    method UpdateUsername(requester: nat, username: Option<string>)
      returns (resp: Response<MemberData>)
      requires Valid() && requester in members
      modifies this`members
      ensures Valid()
      ensures ValidateUsernameUpdate(old(members), requester, username).Some? ==>
                && resp == Rejected(400, ValidateUsernameUpdate(old(members), requester, username).value)
                && members == old(members)
      ensures ValidateUsernameUpdate(old(members), requester, username).None? ==>
                && members == Rename(old(members), requester, username.value)
                && resp == Ok(200, MemberData(requester, username.value, old(members)[requester].createdAt))
    {
      var errors := ValidateUsernameUpdate(members, requester, username);
      if errors.Some? {
        return Rejected(400, errors.value);
      }
      RenameKeepsUnique(members, requester, username.value);
      members := Rename(members, requester, username.value);
      resp := Ok(200, ToData(members, requester));
    }

    /** `perform_create`: appends a message authored by the requester; 201 with it serialized. */
    method CreateMessage(requester: nat, content: string, now: int)
      returns (resp: Response<MessageData>)
      requires Valid() && requester in members
      modifies this`messages, this`nextMessageId
      ensures Valid()
      ensures messages == old(messages) + [NewMessage(old(nextMessageId), requester, content, now)]
      ensures resp == Ok(201, SerializeMessage(members, NewMessage(old(nextMessageId), requester, content, now)))
    {
      var m := NewMessage(nextMessageId, requester, content, now);
      messages := messages + [m];
      nextMessageId := nextMessageId + 1;
      resp := Ok(201, SerializeMessage(members, m));
    }

    /** The list endpoint: all messages in creation-time order, 200. */
    method ListMessages() returns (resp: Response<seq<MessageData>>)
      requires Valid()
      ensures resp.Ok? && resp.status == 200
      ensures |resp.data| == |messages|
      ensures forall i :: 0 < i < |resp.data| ==> resp.data[i - 1].createdAt <= resp.data[i].createdAt
      ensures forall i :: 0 <= i < |messages| ==> SerializeMessage(members, messages[i]) in resp.data
    {
      resp := Ok(200, ListView(members, messages));
    }
  }
}
