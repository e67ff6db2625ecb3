/**
 * The chat page's synchronizer: the message list, its load-on-start and
 * 7-second poll, the send form, and the liveness flag that turns results
 * arriving after teardown into no-ops. Timer ticks and network results are
 * events given to the methods.
 */
module Chat {
  import opened Wrappers
  import opened Wire
  import opened Text
  import opened Session

  const LoadFailed := "Не удалось загрузить сообщения чата."
  const SendFailed := "Не удалось отправить сообщение."
  const AnonymousAuthor := "Участник"

  /** The nested `member` object a message may carry. */
  datatype MemberRef = MemberRef(username: Option<string>)

  /** A message as the client holds it: whatever fields the server sent. */
  datatype Item = Item(id: Value, content: string, createdAt: Value,
                       memberUsername: Option<string>, member: Option<MemberRef>)

  /** The body of a successful `getMessages()`: a JSON array, or anything else. */
  datatype Payload = List(items: seq<Item>) | NotAList

  /** `Array.isArray(data) ? data : []`. */
  function Coerce(p: Payload): (items: seq<Item>)
    ensures p.List? ==> items == p.items
    ensures p.NotAList? ==> items == []
  {
    match p
    case List(items) => items
    case NotAList => []
  }

  /** `member_username || member.username || 'Участник'`: never empty. */
  function AuthorLabel(m: Item): (name: string)
    ensures name != ""
    ensures Truthy(m.memberUsername) ==> name == m.memberUsername.value
    ensures !Truthy(m.memberUsername) && m.member.Some? && Truthy(m.member.value.username)
            ==> name == m.member.value.username.value
    ensures !Truthy(m.memberUsername) && !(m.member.Some? && Truthy(m.member.value.username))
            ==> name == AnonymousAuthor
  {
    if Truthy(m.memberUsername) then m.memberUsername.value
    else if m.member.Some? && Truthy(m.member.value.username) then m.member.value.username.value
    else AnonymousAuthor
  }

  /** How a `sendMessage()` ended. */
  datatype SendOutcome = Created(item: Item) | SendError

  class Synchronizer {
    var messages: seq<Item>
    var loading: bool
    var error: string
    var newMessage: string
    var sending: bool
    /** The `isMounted` flag of each run of the effect, oldest first. */
    var mounted: seq<bool>
    /** Whether the newest run's interval is registered. */
    var polling: bool
    /** The run each outstanding `getMessages()` belongs to. */
    var loadsInFlight: seq<nat>
    /** How many `sendMessage()` calls are outstanding. */
    var sendsInFlight: nat
    /** The content of every `sendMessage()` issued, in order. */
    var sent: seq<string>

    ghost predicate Valid()
      reads this
    {
      && (forall i | 0 <= i < |loadsInFlight| :: loadsInFlight[i] < |mounted|)
      && (forall i | 0 <= i < |mounted| - 1 :: !mounted[i])
      && (polling ==> Live())
    }

    /** The newest run of the effect is still mounted. */
    predicate Live()
      reads this
    {
      |mounted| > 0 && mounted[|mounted| - 1]
    }

    constructor ()
      ensures Valid() && !Live() && !polling
      ensures messages == [] && !loading && error == "" && newMessage == "" && !sending
      ensures mounted == [] && loadsInFlight == [] && sendsInFlight == 0 && sent == []
    {
      messages, loading, error, newMessage, sending := [], false, "", "", false;
      mounted, polling, loadsInFlight, sendsInFlight, sent := [], false, [], 0, [];
    }

    /**
     * A run of the effect. Without a member: nothing at all. Else a new
     * mounted run, loading shown, one load issued, the poll registered.
     */
    method Start(session: Option<Auth>)
      requires Valid() && !Live()
      modifies this`mounted, this`loading, this`loadsInFlight, this`polling
      ensures Valid()
      ensures !HasMember(session) ==>
                && mounted == old(mounted) && loading == old(loading)
                && loadsInFlight == old(loadsInFlight) && polling == old(polling)
      ensures HasMember(session) ==>
                && mounted == old(mounted) + [true] && Live()
                && loading && polling
                && loadsInFlight == old(loadsInFlight) + [|old(mounted)|]
    {
      if !HasMember(session) {
        return;
      }
      mounted := mounted + [true];
      loading := true;
      loadsInFlight := loadsInFlight + [|mounted| - 1];
      polling := true;
    }

    /** The effect's cleanup: the newest run is unmounted and its interval cleared. */
    method Teardown()
      requires Valid()
      modifies this`mounted, this`polling
      ensures Valid() && !Live() && !polling
      ensures |mounted| == |old(mounted)|
      ensures forall i | 0 <= i < |mounted| - 1 :: mounted[i] == old(mounted)[i]
    {
      if Live() {
        mounted := mounted[|mounted| - 1 := false];
      }
      polling := false;
    }

    /** The 7-second interval fires: a registered poll issues one more load for its run. */
    method Tick()
      requires Valid()
      modifies this`loadsInFlight
      ensures Valid()
      ensures loadsInFlight == if polling then old(loadsInFlight) + [|mounted| - 1] else old(loadsInFlight)
    {
      if polling {
        loadsInFlight := loadsInFlight + [|mounted| - 1];
      }
    }

    /**
     * The i-th outstanding load resolves (in any order). For a run still
     * mounted: success replaces the list wholesale and clears the error,
     * failure keeps the list and sets the load error; loading ends either
     * way. For a torn-down run nothing changes.
     */
    method LoadDone(i: nat, outcome: Fetched<Payload>)
      requires Valid() && i < |loadsInFlight|
      modifies this`messages, this`error, this`loading, this`loadsInFlight
      ensures Valid()
      ensures loadsInFlight == old(loadsInFlight[..i] + loadsInFlight[i + 1..])
      ensures !mounted[old(loadsInFlight[i])] ==>
                messages == old(messages) && error == old(error) && loading == old(loading)
      ensures mounted[old(loadsInFlight[i])] ==>
                && !loading
                && (outcome.Fetched? ==> messages == Coerce(outcome.data) && error == "")
                && (outcome.FetchFailed? ==> messages == old(messages) && error == LoadFailed)
    {
      var run := loadsInFlight[i];
      loadsInFlight := loadsInFlight[..i] + loadsInFlight[i + 1..];
      if mounted[run] {
        match outcome {
          case Fetched(data) =>
            messages := Coerce(data);
            error := "";
          case FetchFailed =>
            error := LoadFailed;
        }
        loading := false;
      }
    }

    /** The textarea's change handler. */
    method Edit(text: string)
      modifies this`newMessage
      ensures newMessage == text
    {
      newMessage := text;
    }

    /**
     * `handleSubmit` up to its await: input that trims to "" (all of it
     * whitespace) issues nothing and changes nothing; otherwise the untrimmed
     * input is sent.
     */
    method Submit() returns (issued: bool)
      modifies this`sending, this`error, this`sent, this`sendsInFlight
      ensures issued == !AllSpace(newMessage)
      ensures !issued ==> sending == old(sending) && error == old(error)
                          && sent == old(sent) && sendsInFlight == old(sendsInFlight)
      ensures issued ==> sending && error == "" && sent == old(sent) + [newMessage]
                         && sendsInFlight == old(sendsInFlight) + 1
    {
      if IsBlank(newMessage) {
        return false;
      }
      sending, error := true, "";
      sent := sent + [newMessage];
      sendsInFlight := sendsInFlight + 1;
      issued := true;
    }

    /**
     * An outstanding send resolves: success appends exactly the created
     * message to the current list and clears the input; failure keeps both
     * and sets the send error. Sending ends either way. The liveness flag is
     * not consulted here.
     */
    method SendDone(outcome: SendOutcome)
      requires sendsInFlight > 0
      modifies this`messages, this`newMessage, this`error, this`sending, this`sendsInFlight
      ensures !sending && sendsInFlight == old(sendsInFlight) - 1
      ensures outcome.Created? ==>
                messages == old(messages) + [outcome.item] && newMessage == "" && error == old(error)
      ensures outcome.SendError? ==>
                messages == old(messages) && newMessage == old(newMessage) && error == SendFailed
    {
      match outcome {
        case Created(item) =>
          messages := messages + [item];
          newMessage := "";
        case SendError =>
          error := SendFailed;
      }
      sending := false;
      sendsInFlight := sendsInFlight - 1;
    }
  }

  /**
   * A member session starts the page with no messages yet, a non-blank
   * text is sent and created: the list is exactly the created message, the
   * input is cleared and one request carried the text.
   */
  method FirstMessageScenario(member: Auth, text: string, created: Item)
    returns (shown: seq<Item>, input: string, requested: seq<string>)
    requires |text| > 0 && !IsJsSpace(text[0])
    ensures shown == [created] && input == "" && requested == [text]
  {
    var chat := new Synchronizer();
    chat.Start(Some(member));
    chat.Edit(text);
    var issued := chat.Submit();
    chat.SendDone(Created(created));
    shown, input, requested := chat.messages, chat.newMessage, chat.sent;
  }

  /**
   * A poll replaces the list wholesale: [A, B] then a poll answering
   * [A, B, C] leaves exactly [A, B, C].
   */
  method PollReplacesScenario(member: Auth, a: Item, b: Item, c: Item) returns (shown: seq<Item>)
    ensures shown == [a, b, c]
  {
    var chat := new Synchronizer();
    chat.Start(Some(member));
    chat.LoadDone(0, Fetched(List([a, b])));
    chat.Tick();
    chat.LoadDone(0, Fetched(List([a, b, c])));
    shown := chat.messages;
  }

  /**
   * A poll starts, the page is torn down, then the poll resolves: neither
   * its data nor its failure reaches the list, the error or the loading flag.
   */
  method StaleLoadScenario(member: Auth, before: seq<Item>, late: Fetched<Payload>)
    returns (shown: seq<Item>, err: string, stillLoading: bool)
    ensures shown == before && err == "" && !stillLoading
  {
    var chat := new Synchronizer();
    chat.Start(Some(member));
    chat.LoadDone(0, Fetched(List(before)));
    assert chat.messages == before && chat.error == "" && !chat.loading;
    chat.Tick();
    assert chat.messages == before && chat.error == "" && !chat.loading;
    chat.Teardown();
    assert chat.messages == before && chat.error == "" && !chat.loading;
    chat.LoadDone(0, late);
    shown, err, stillLoading := chat.messages, chat.error, chat.loading;
  }

  /**
   * There is one flag per run, not per tick: when an older poll resolves
   * after a newer one, the older data is what stays.
   */
  method OlderPollWinsScenario(member: Auth, older: seq<Item>, newer: seq<Item>) returns (shown: seq<Item>)
    ensures shown == older
  {
    var chat := new Synchronizer();
    chat.Start(Some(member));
    chat.Tick();
    chat.LoadDone(1, Fetched(List(newer)));
    chat.LoadDone(0, Fetched(List(older)));
    shown := chat.messages;
  }

  /** Without a member session, starting issues no load and registers no poll. */
  method NoMemberScenario() returns (loads: nat, polls: bool)
    ensures loads == 0 && !polls
  {
    var chat := new Synchronizer();
    chat.Start(None);
    chat.Tick();
    loads, polls := |chat.loadsInFlight|, chat.polling;
  }
}
