/**
 * The server's account, token and message rules as functions over tables:
 * `MemberRegisterSerializer`, `LoginSerializer.validate`, the token
 * get-or-create of the register and login views, the username-update checks,
 * and the message list's ordering.
 */
module Accounts {
  import opened Wrappers
  import opened Wire

  /** A stored member; its id is its key in the member table. `password` holds a hash. */
  datatype Member = Member(username: string, password: string, createdAt: int)

  type Members = map<nat, Member>

  /** Token table: token key to the id of the member it belongs to. */
  type Tokens = map<string, nat>

  /** A stored chat message; `author` is a member id. */
  datatype ChatMessage = ChatMessage(id: nat, author: nat, content: string, createdAt: int)

  /** `MemberSerializer` output: id, username, created_at. The password never leaves the server. */
  datatype MemberData = MemberData(id: nat, username: string, createdAt: int)

  /** `ChatMessageSerializer` output. */
  datatype MessageData = MessageData(id: nat, member: nat, memberUsername: string, content: string, createdAt: int)

  const MaxUsernameLength := 150
  const MinPasswordLength := 4

  const BlankMessage := "This field may not be blank."
  const TooLongMessage := "Ensure this field has no more than 150 characters."
  const TooShortMessage := "Ensure this field has at least 4 characters."
  const UsernameExists := "A member with this username already exists."
  const BothRequired := "Both username and password are required."
  const InvalidCredentials := "Invalid username or password."
  const UsernameRequired := "This field is required."

  /** `unique=True` on `Member.username`. */
  ghost predicate UniqueUsernames(ms: Members) {
    forall i, j :: i in ms && j in ms && ms[i].username == ms[j].username ==> i == j
  }

  /** Some member other than `except` already holds `username`. */
  predicate Taken(ms: Members, username: string, except: Option<nat>) {
    exists id | id in ms :: Some(id) != except && ms[id].username == username
  }

  /** `Member.__str__`: a member is shown as its username, nothing else. */
  function MemberStr(m: Member): (r: string)
    ensures r == m.username
  {
    m.username
  }

  /** In a table with unique usernames, distinct members render as distinct strings. */
  lemma MemberStrInjective(ms: Members, i: nat, j: nat)
    requires UniqueUsernames(ms) && i in ms && j in ms && i != j
    ensures MemberStr(ms[i]) != MemberStr(ms[j])
  {
  }

  function ToData(ms: Members, id: nat): (d: MemberData)
    requires id in ms
    ensures d.id == id && d.username == ms[id].username && d.createdAt == ms[id].createdAt
  {
    MemberData(id, ms[id].username, ms[id].createdAt)
  }

  // ---------------------------------------------------------------- register

  /**
   * The message of the unique validator the serializer derives from
   * `unique=True`: "<model name> with this <field name> already exists.".
   */
  const UniqueUsernameMessage := "member with this username already exists."

  /**
   * The `username` field's own checks: a blank value stops at once; otherwise
   * every validator runs and their errors are collected, the unique validator
   * first, then the 150-character limit.
   */
  function UsernameFieldErrors(ms: Members, username: string): (es: seq<string>)
    ensures username == "" ==> es == [BlankMessage]
    ensures username != "" ==> && (UniqueUsernameMessage in es <==> Taken(ms, username, None))
                               && (TooLongMessage in es <==> |username| > MaxUsernameLength)
                               && |es| <= 2
    ensures es == [] <==> username != "" && |username| <= MaxUsernameLength && !Taken(ms, username, None)
  {
    if username == "" then [BlankMessage]
    else
      (if Taken(ms, username, None) then [UniqueUsernameMessage] else [])
      + (if |username| > MaxUsernameLength then [TooLongMessage] else [])
  }

  /** `validate_username`: the serializer's own uniqueness check. */
  function ValidateUsernameHook(ms: Members, username: string): (es: seq<string>)
    ensures es == [] <==> !Taken(ms, username, None)
    ensures es != [] ==> es == [UsernameExists]
  {
    if Taken(ms, username, None) then [UsernameExists] else []
  }

  /**
   * All errors for `username`: the field's checks, and `validate_username`
   * only once those passed. The hook's own message is therefore never
   * reported: a taken name has already failed the unique validator.
   */
  function UsernameErrors(ms: Members, username: string): (es: seq<string>)
    ensures es == [] <==> username != "" && |username| <= MaxUsernameLength && !Taken(ms, username, None)
    ensures es == UsernameFieldErrors(ms, username)
    ensures UsernameExists !in es
  {
    var fe := UsernameFieldErrors(ms, username);
    if fe != [] then fe else ValidateUsernameHook(ms, username)
  }

  /** Field errors for `password`: blank, or shorter than 4 characters. */
  function PasswordErrors(password: string): (es: seq<string>)
    ensures es == [] <==> |password| >= MinPasswordLength
    ensures |es| <= 1
  {
    if password == "" then [BlankMessage]
    else if |password| < MinPasswordLength then [TooShortMessage]
    else []
  }

  function FieldList(name: string, es: seq<string>): map<string, seq<string>> {
    if es == [] then map[] else map[name := es]
  }

  /**
   * `MemberRegisterSerializer.is_valid`: None when the data is valid, else the
   * 400 body listing each failing field.
   */
  function ValidateRegister(ms: Members, username: string, password: string): (r: Option<Body>)
    ensures r.None? <==> username != "" && |username| <= MaxUsernameLength
                         && !Taken(ms, username, None) && |password| >= MinPasswordLength
    ensures r.Some? ==> r.value.Object? && r.value.detail.None? && NonFieldErrors !in r.value.lists
    ensures r.Some? && Taken(ms, username, None) && username != "" && |username| <= MaxUsernameLength
            ==> HasEntries(r.value.lists, UsernameField) && r.value.lists[UsernameField][0] == UniqueUsernameMessage
  {
    var ue := UsernameErrors(ms, username);
    var pe := PasswordErrors(password);
    if ue == [] && pe == [] then None
    else Some(Object(FieldList(UsernameField, ue) + FieldList(PasswordField, pe), None))
  }

  /**
   * `MemberRegisterSerializer.create`: the new member stores the hash of the
   * raw password, under a fresh id.
   */
  function AddMember(ms: Members, id: nat, username: string, password: string,
                     hash: string -> string, now: int): (ms': Members)
    requires id !in ms
    ensures ms'.Keys == ms.Keys + {id}
    ensures ms'[id] == Member(username, hash(password), now)
    ensures forall j | j in ms :: ms'[j] == ms[j]
  {
    ms[id := Member(username, hash(password), now)]
  }

  /** Registering a username nobody holds keeps usernames unique. */
  lemma AddMemberKeepsUnique(ms: Members, id: nat, username: string, password: string,
                             hash: string -> string, now: int)
    requires UniqueUsernames(ms) && id !in ms && !Taken(ms, username, None)
    ensures UniqueUsernames(AddMember(ms, id, username, password, hash, now))
  {
    var ms' := AddMember(ms, id, username, password, hash, now);
    forall i, j | i in ms' && j in ms' && ms'[i].username == ms'[j].username
      ensures i == j
    {
      if i != id && j != id {
        assert ms[i].username == ms[j].username;
      }
    }
  }

  // ------------------------------------------------------------------- login

  /** `Member.objects.get(username=...)`: the member holding a username, if any. */
  function FindByUsername(ms: Members, username: string): (r: Option<nat>)
    requires UniqueUsernames(ms)
    ensures r.Some? ==> r.value in ms && ms[r.value].username == username
    ensures r.None? <==> !Taken(ms, username, None)
  {
    if exists id | id in ms :: ms[id].username == username then
      var id :| id in ms && ms[id].username == username;
      Some(id)
    else None
  }

  /**
   * `check_password`, over the abstract hash: a stored value made by
   * `make_password` from the same raw password always matches.
   */
  function PasswordMatches(hash: string -> string, raw: string, stored: string): (ok: bool)
    ensures stored == hash(raw) ==> ok
    ensures ok ==> stored == hash(raw)
  {
    hash(raw) == stored
  }

  /**
   * `LoginSerializer.validate`: the id of the member whose username and
   * password match, or the error message. An unknown username and a wrong
   * password give the same message.
   */
  function CheckCredentials(ms: Members, username: string, password: string,
                            hash: string -> string): (r: Result<nat, string>)
    requires UniqueUsernames(ms)
    ensures r.Success? <==> username != "" && password != ""
                            && exists id | id in ms :: ms[id].username == username
                                                      && PasswordMatches(hash, password, ms[id].password)
    ensures r.Success? ==> r.value in ms && ms[r.value].username == username
    ensures r.Failure? ==> r.error == (if username == "" || password == "" then BothRequired else InvalidCredentials)
  {
    if username == "" || password == "" then Failure(BothRequired)
    else
      match FindByUsername(ms, username)
      case None => Failure(InvalidCredentials)
      case Some(id) =>
        if !PasswordMatches(hash, password, ms[id].password) then Failure(InvalidCredentials)
        else Success(id)
  }

  /**
   * `LoginSerializer.is_valid`: each blank field is a field error and stops
   * validation there; otherwise `validate` decides, and its rejection is the
   * one `non_field_errors` entry. Since blank fields never reach `validate`,
   * its "both required" message is never reported.
   */
  function ValidateLogin(ms: Members, username: string, password: string,
                         hash: string -> string): (r: Result<nat, Body>)
    requires UniqueUsernames(ms)
    ensures r.Success? <==> username != "" && password != ""
                            && exists id | id in ms :: ms[id].username == username
                                                      && PasswordMatches(hash, password, ms[id].password)
    ensures r.Success? ==> r.value in ms && ms[r.value].username == username
    ensures r.Failure? ==> r.error.Object? && r.error.detail.None?
    ensures username == "" || password == "" ==>
              && r.Failure? && NonFieldErrors !in r.error.lists
              && (UsernameField in r.error.lists <==> username == "")
              && (PasswordField in r.error.lists <==> password == "")
              && forall f | f in r.error.lists :: r.error.lists[f] == [BlankMessage]
    ensures username != "" && password != "" && r.Failure? ==>
              r.error.lists == map[NonFieldErrors := [InvalidCredentials]]
  {
    if username == "" || password == "" then
      Failure(Object(FieldList(UsernameField, if username == "" then [BlankMessage] else [])
                     + FieldList(PasswordField, if password == "" then [BlankMessage] else []), None))
    else
      match CheckCredentials(ms, username, password, hash)
      case Failure(message) => Failure(Object(map[NonFieldErrors := [message]], None))
      case Success(id) => Success(id)
  }

  /** A freshly registered member can log in with the same username and password. */
  lemma RegisterThenLogin(ms: Members, id: nat, username: string, password: string,
                          hash: string -> string, now: int)
    requires UniqueUsernames(ms) && id !in ms
    requires ValidateRegister(ms, username, password).None?
    ensures UniqueUsernames(AddMember(ms, id, username, password, hash, now))
    ensures ValidateLogin(AddMember(ms, id, username, password, hash, now), username, password, hash) == Success(id)
  {
    AddMemberKeepsUnique(ms, id, username, password, hash, now);
    var ms' := AddMember(ms, id, username, password, hash, now);
    assert ms'[id].username == username && PasswordMatches(hash, password, ms'[id].password);
  }

  // ------------------------------------------------------------------ tokens

  /** At most one token per member, as get-or-create keyed by member keeps it. */
  ghost predicate OneTokenPerMember(ts: Tokens) {
    forall k1, k2 :: k1 in ts && k2 in ts && ts[k1] == ts[k2] ==> k1 == k2
  }

  predicate HasToken(ts: Tokens, member: nat) {
    exists k | k in ts :: ts[k] == member
  }

  /**
   * `MemberToken.objects.get_or_create(member=...)`: the member's existing key
   * and the unchanged table, or the fresh key added to the table.
   */
  function GetOrCreateToken(ts: Tokens, member: nat, freshKey: string): (r: (string, Tokens))
    requires OneTokenPerMember(ts) && freshKey !in ts
    ensures r.0 in r.1 && r.1[r.0] == member
    ensures OneTokenPerMember(r.1)
    ensures HasToken(ts, member) ==> r.1 == ts
    ensures !HasToken(ts, member) ==> r == (freshKey, ts[freshKey := member])
  {
    if HasToken(ts, member) then
      var k :| k in ts && ts[k] == member;
      (k, ts)
    else
      var ts' := ts[freshKey := member];
      assert forall k | k in ts' && k != freshKey :: ts'[k] == ts[k] && ts[k] != member;
      (freshKey, ts')
  }

  /** Logging in again returns the same key and leaves the table as it was. */
  lemma GetOrCreateIdempotent(ts: Tokens, member: nat, fresh1: string, fresh2: string)
    requires OneTokenPerMember(ts) && fresh1 !in ts
    requires fresh2 !in GetOrCreateToken(ts, member, fresh1).1
    ensures GetOrCreateToken(GetOrCreateToken(ts, member, fresh1).1, member, fresh2)
         == GetOrCreateToken(ts, member, fresh1)
  {
    var (k, ts') := GetOrCreateToken(ts, member, fresh1);
    assert HasToken(ts', member) by { assert k in ts' && ts'[k] == member; }
  }

  // ---------------------------------------------------------------- profile

  /**
   * `ProfileView._update_username`'s checks: the 400 body, or None when the
   * requester may take the username. The requester's own id is excluded.
   */
  function ValidateUsernameUpdate(ms: Members, requester: nat, username: Option<string>): (r: Option<Body>)
    ensures r.None? <==> Truthy(username) && !Taken(ms, username.value, Some(requester))
    ensures r.Some? ==> r.value.Object? && UsernameField in r.value.lists && |r.value.lists[UsernameField]| == 1
    ensures r.Some? ==> r.value.lists[UsernameField][0]
                        == if Truthy(username) then UsernameExists else UsernameRequired
  {
    if !Truthy(username) then Some(Object(map[UsernameField := [UsernameRequired]], None))
    else if Taken(ms, username.value, Some(requester)) then Some(Object(map[UsernameField := [UsernameExists]], None))
    else None
  }

  /** Resubmitting one's own current username is accepted. */
  lemma OwnUsernameAccepted(ms: Members, requester: nat)
    requires UniqueUsernames(ms) && requester in ms && ms[requester].username != ""
    ensures ValidateUsernameUpdate(ms, requester, Some(ms[requester].username)).None?
  {
  }

  /** The accepted update changes only the requester's username. */
  function Rename(ms: Members, requester: nat, username: string): (ms': Members)
    requires requester in ms
    ensures ms'.Keys == ms.Keys
    ensures ms'[requester] == ms[requester].(username := username)
    ensures forall j | j in ms && j != requester :: ms'[j] == ms[j]
  {
    ms[requester := ms[requester].(username := username)]
  }

  /** An accepted rename keeps usernames unique. */
  lemma RenameKeepsUnique(ms: Members, requester: nat, username: string)
    requires UniqueUsernames(ms) && requester in ms && !Taken(ms, username, Some(requester))
    ensures UniqueUsernames(Rename(ms, requester, username))
  {
    var ms' := Rename(ms, requester, username);
    forall i, j | i in ms' && j in ms' && ms'[i].username == ms'[j].username
      ensures i == j
    {
      if i != requester && j != requester {
        assert ms[i].username == ms[j].username;
      }
    }
  }

  // ---------------------------------------------------------------- messages

  /** `ChatMessageSerializer`: `member_username` is the author's current username. */
  function SerializeMessage(ms: Members, m: ChatMessage): (d: MessageData)
    requires m.author in ms
    ensures d.member == m.author && d.memberUsername == ms[m.author].username
    ensures d.id == m.id && d.content == m.content && d.createdAt == m.createdAt
  {
    MessageData(m.id, m.author, ms[m.author].username, m.content, m.createdAt)
  }

  /** `perform_create`: the author is the requester, whatever the client sent; only content is taken. */
  function NewMessage(id: nat, requester: nat, content: string, now: int): (m: ChatMessage)
    ensures m.author == requester && m.content == content && m.id == id && m.createdAt == now
  {
    ChatMessage(id, requester, content, now)
  }

  /** Each message was created no later than the next one. */
  predicate SortedByCreatedAt(s: seq<ChatMessage>) {
    forall i :: 0 < i < |s| ==> s[i - 1].createdAt <= s[i].createdAt
  }

  /** Sorted by neighbours means sorted pairwise. */
  lemma {:induction false} SortedPairwise(s: seq<ChatMessage>, i: nat, j: nat)
    requires SortedByCreatedAt(s) && i <= j < |s|
    ensures s[i].createdAt <= s[j].createdAt
    decreases j - i
  {
    if i < j {
      SortedPairwise(s, i, j - 1);
    }
  }

  /** A message no later than the head of a sorted log can go in front of it. */
  lemma ConsSorted(m: ChatMessage, s: seq<ChatMessage>)
    requires SortedByCreatedAt(s) && (s == [] || m.createdAt <= s[0].createdAt)
    ensures SortedByCreatedAt([m] + s)
    ensures multiset([m] + s) == multiset{m} + multiset(s)
  {
    var r := [m] + s;
    forall i | 0 < i < |r| ensures r[i - 1].createdAt <= r[i].createdAt {
      if i > 1 {
        assert r[i - 1] == s[i - 2] && r[i] == s[i - 1];
      }
    }
  }

  function InsertByCreatedAt(m: ChatMessage, s: seq<ChatMessage>): (r: seq<ChatMessage>)
    requires SortedByCreatedAt(s)
    ensures SortedByCreatedAt(r)
    ensures multiset(r) == multiset(s) + multiset{m}
    ensures |r| == |s| + 1
    ensures r[0] == m || (|s| > 0 && r[0] == s[0])
  {
    if s == [] || m.createdAt <= s[0].createdAt then
      ConsSorted(m, s);
      [m] + s
    else
      assert SortedByCreatedAt(s[1..]);
      var rest := InsertByCreatedAt(m, s[1..]);
      ConsSorted(s[0], rest);
      assert multiset(s) == multiset{s[0]} + multiset(s[1..]) by {
        assert s == [s[0]] + s[1..];
      }
      [s[0]] + rest
  }

  /** `order_by("created_at")`: the same messages, in non-decreasing creation time. */
  function OrderByCreatedAt(s: seq<ChatMessage>): (r: seq<ChatMessage>)
    ensures SortedByCreatedAt(r)
    ensures multiset(r) == multiset(s)
    ensures |r| == |s|
  {
    if s == [] then []
    else
      var sorted := OrderByCreatedAt(s[1..]);
      assert multiset(s) == multiset{s[0]} + multiset(s[1..]) by {
        assert s == [s[0]] + s[1..];
      }
      InsertByCreatedAt(s[0], sorted)
  }

  /**
   * The list endpoint's payload: every stored message, serialized, in
   * creation-time order, each labelled with its author's username.
   */
  function ListView(ms: Members, log: seq<ChatMessage>): (r: seq<MessageData>)
    requires forall i :: 0 <= i < |log| ==> log[i].author in ms
    ensures |r| == |log|
    ensures forall i :: 0 < i < |r| ==> r[i - 1].createdAt <= r[i].createdAt
    ensures forall i :: 0 <= i < |r| ==> r[i].member in ms && r[i].memberUsername == ms[r[i].member].username
    ensures forall i :: 0 <= i < |log| ==> SerializeMessage(ms, log[i]) in r
    ensures forall j :: 0 <= j < |r| ==> r[j] in SerializeAll(ms, log)
  {
    var sorted := OrderByCreatedAt(log);
    SerializedLog(ms, log, sorted);
    SerializeAll(ms, sorted)
  }

  /** The listing is in creation order for every pair of positions, not only for neighbours. */
  lemma ListedInOrder(ms: Members, log: seq<ChatMessage>, i: nat, j: nat)
    requires forall k :: 0 <= k < |log| ==> log[k].author in ms
    requires i <= j < |log|
    ensures ListView(ms, log)[i].createdAt <= ListView(ms, log)[j].createdAt
  {
    var sorted := OrderByCreatedAt(log);
    SortedPairwise(sorted, i, j);
    SerializedLog(ms, log, sorted);
    assert ListView(ms, log) == SerializeAll(ms, sorted);
  }

  /** Serializes a log entry by entry. */
  function SerializeAll(ms: Members, s: seq<ChatMessage>): (r: seq<MessageData>)
    requires forall j :: 0 <= j < |s| ==> s[j].author in ms
    ensures |r| == |s| && forall j :: 0 <= j < |s| ==> r[j] == SerializeMessage(ms, s[j])
  {
    seq(|s|, j requires 0 <= j < |s| => SerializeMessage(ms, s[j]))
  }

  /** The serialization of a sorted permutation of a log has the listing's properties. */
  lemma SerializedLog(ms: Members, log: seq<ChatMessage>, sorted: seq<ChatMessage>)
    requires forall i :: 0 <= i < |log| ==> log[i].author in ms
    requires SortedByCreatedAt(sorted) && multiset(sorted) == multiset(log) && |sorted| == |log|
    ensures forall j :: 0 <= j < |sorted| ==> sorted[j].author in ms
    ensures var r := SerializeAll(ms, sorted);
            && |r| == |log|
            && (forall i :: 0 < i < |r| ==> r[i - 1].createdAt <= r[i].createdAt)
            && (forall i :: 0 <= i < |r| ==> r[i].member in ms && r[i].memberUsername == ms[r[i].member].username)
            && (forall i :: 0 <= i < |log| ==> SerializeMessage(ms, log[i]) in r)
            && (forall j :: 0 <= j < |r| ==> r[j] in SerializeAll(ms, log))
  {
    PermutedLog(ms, log, sorted);
    var r := SerializeAll(ms, sorted);
    forall i | 0 <= i < |log| ensures SerializeMessage(ms, log[i]) in r {
      var k :| 0 <= k < |sorted| && sorted[k] == log[i];
      assert r[k] == SerializeMessage(ms, log[i]);
    }
    var all := SerializeAll(ms, log);
    forall j | 0 <= j < |r| ensures r[j] in all {
      var i :| 0 <= i < |log| && log[i] == sorted[j];
      assert r[j] == all[i];
    }
  }

  /** A permutation of a log holds the same messages, so their authors are known too. */
  lemma PermutedLog(ms: Members, log: seq<ChatMessage>, sorted: seq<ChatMessage>)
    requires forall i :: 0 <= i < |log| ==> log[i].author in ms
    requires multiset(sorted) == multiset(log)
    ensures forall j :: 0 <= j < |sorted| ==> sorted[j] in log && sorted[j].author in ms
    ensures forall i :: 0 <= i < |log| ==> log[i] in sorted
  {
    forall j | 0 <= j < |sorted| ensures sorted[j] in log && sorted[j].author in ms {
      assert sorted[j] in multiset(log);
      var i :| 0 <= i < |log| && log[i] == sorted[j];
    }
    forall i | 0 <= i < |log| ensures log[i] in sorted {
      assert log[i] in multiset(sorted);
    }
  }

  /** A log already in creation order is listed as it is. */
  lemma {:induction false} OrderedLogUnchanged(s: seq<ChatMessage>)
    requires SortedByCreatedAt(s)
    ensures OrderByCreatedAt(s) == s
  {
    if s != [] {
      OrderedLogUnchanged(s[1..]);
      assert OrderByCreatedAt(s[1..]) == s[1..];
    }
  }
}
