/**
 * The profile view: its guard, the loader effect with its own liveness flag
 * per run, the submit handler that merges the response into the session
 * member, and its error-message extraction.
 */
module ProfileView {
  import opened Wrappers
  import opened Wire
  import opened ClientApi
  import opened Session

  const LoadFailed := "Не удалось загрузить профиль."
  const UpdateFailed := "Не удалось обновить профиль."
  const Saved := "Профиль успешно обновлён."

  /** `data.username || ''`: a string username, or the empty string. */
  function UsernameInput(data: Fields): (u: string)
    ensures UsernameField in data && data[UsernameField].Str? ==> u == data[UsernameField].s
    ensures !(UsernameField in data && data[UsernameField].Str?) ==> u == ""
  {
    if UsernameField in data && data[UsernameField].Str? then data[UsernameField].s else ""
  }

  /**
   * `{...member, ...data}`: every field of the response overrides, every
   * field the response lacks keeps its old value.
   */
  function MergeMember(member: Fields, data: Fields): (r: Fields)
    ensures r.Keys == member.Keys + data.Keys
    ensures forall k | k in data :: r[k] == data[k]
    ensures forall k | k in member && k !in data :: r[k] == member[k]
  {
    member + data
  }

  /** Applying the same response twice is applying it once. */
  lemma MergeIdempotent(member: Fields, data: Fields)
    ensures MergeMember(MergeMember(member, data), data) == MergeMember(member, data)
  {
  }

  /** An empty response leaves the member as it was. */
  lemma MergeEmpty(member: Fields)
    ensures MergeMember(member, map[]) == member
  {
  }

  /**
   * The message shown for a failed update: a non-empty string body verbatim,
   * else the first `username` entry, else the fixed text.
   */
  function ProfileErrorMessage(data: Option<Body>): (m: string)
    ensures data.None? || data == Some(Text("")) ==> m == UpdateFailed
    ensures data.Some? && data.value.Text? && data.value.text != "" ==> m == data.value.text
    ensures data.Some? && data.value.Object?
            ==> m == if HasEntries(data.value.lists, UsernameField) then data.value.lists[UsernameField][0]
                     else UpdateFailed
  {
    match data
    case None => UpdateFailed
    case Some(Text(s)) => if s == "" then UpdateFailed else s
    case Some(Object(lists, _)) =>
      if HasEntries(lists, UsernameField) then lists[UsernameField][0] else UpdateFailed
  }

  /** Neither `non_field_errors` nor `detail` changes the profile message. */
  lemma ProfileIgnoresOtherFields(lists: map<string, seq<string>>, es: seq<string>, d1: Option<string>, d2: Option<string>)
    ensures ProfileErrorMessage(Some(Object(lists[NonFieldErrors := es], d1)))
         == ProfileErrorMessage(Some(Object(lists, d2)))
  {
    assert (UsernameField in lists[NonFieldErrors := es]) == (UsernameField in lists);
  }

  class ProfileForm {
    /** Whether the owner passed a `setAuth` callback. */
    const setAuth: bool
    var username: string
    var loading: bool
    var saving: bool
    var error: string
    var success: string
    /** The `isMounted` flag of each run of the loader effect, oldest first. */
    var mounted: seq<bool>
    /** The run each outstanding `getProfile()` belongs to. */
    var loadsInFlight: seq<nat>

    ghost predicate Valid()
      reads this
    {
      && (forall i | 0 <= i < |loadsInFlight| :: loadsInFlight[i] < |mounted|)
      && (forall i | 0 <= i < |mounted| - 1 :: !mounted[i])
    }

    /** The newest run of the effect is still mounted. */
    predicate Live()
      reads this
    {
      |mounted| > 0 && mounted[|mounted| - 1]
    }

    constructor (setAuth: bool)
      ensures Valid() && !Live() && this.setAuth == setAuth
      ensures username == "" && loading && !saving && error == "" && success == ""
      ensures mounted == [] && loadsInFlight == []
    {
      this.setAuth := setAuth;
      username, loading, saving, error, success := "", true, false, "", "";
      mounted, loadsInFlight := [], [];
    }

    /**
     * A run of the effect: without a member, go to '/login' and load nothing;
     * else clear the messages, show loading and request the profile.
     */
    method Mount(b: Browser)
      requires Valid() && !Live()
      modifies this, b`location, b`requests
      ensures Valid()
      ensures username == old(username) && saving == old(saving)
      ensures !HasMember(b.session) ==>
                && b.location == "/login" && b.requests == old(b.requests)
                && mounted == old(mounted) && loadsInFlight == old(loadsInFlight)
                && loading == old(loading) && error == old(error) && success == old(success)
      ensures HasMember(b.session) ==>
                && b.location == old(b.location)
                && b.requests == old(b.requests) + [ProfileRequest(b.storage)]
                && mounted == old(mounted) + [true]
                && loadsInFlight == old(loadsInFlight) + [|old(mounted)|]
                && loading && error == "" && success == ""
    {
      b.Follow(ProtectedViewRedirect(b.session));
      if !HasMember(b.session) {
        return;
      }
      mounted := mounted + [true];
      loading, error, success := true, "", "";
      b.Send(ProfileRequest(b.storage));
      loadsInFlight := loadsInFlight + [|mounted| - 1];
    }

    /** The effect's cleanup: the newest run is no longer mounted. */
    method Unmount()
      requires Valid()
      modifies this`mounted
      ensures Valid() && !Live()
      ensures |mounted| == |old(mounted)|
      ensures forall i | 0 <= i < |mounted| - 1 :: mounted[i] == old(mounted)[i]
    {
      if Live() {
        mounted := mounted[|mounted| - 1 := false];
      }
    }

    /**
     * The i-th outstanding load resolves. A load of a run no longer mounted
     * changes nothing but the set of outstanding loads.
     */
    method LoadDone(i: nat, outcome: Fetched<Fields>)
      requires Valid() && i < |loadsInFlight|
      modifies this`username, this`error, this`loading, this`loadsInFlight
      ensures Valid()
      ensures loadsInFlight == old(loadsInFlight[..i] + loadsInFlight[i + 1..])
      ensures !mounted[old(loadsInFlight[i])] ==>
                username == old(username) && error == old(error) && loading == old(loading)
      ensures mounted[old(loadsInFlight[i])] ==>
                && !loading
                && (outcome.Fetched? ==> username == UsernameInput(outcome.data) && error == old(error))
                && (outcome.FetchFailed? ==> username == old(username) && error == LoadFailed)
    {
      var run := loadsInFlight[i];
      loadsInFlight := loadsInFlight[..i] + loadsInFlight[i + 1..];
      if mounted[run] {
        match outcome {
          case Fetched(data) =>
            username := UsernameInput(data);
          case FetchFailed =>
            error := LoadFailed;
        }
        loading := false;
      }
    }

    /** The input's change handler. */
    method Edit(text: string)
      modifies this`username
      ensures username == text
    {
      username := text;
    }

    /**
     * `handleSubmit` under a given server outcome. Without a member: go to
     * '/login' and send nothing. Else send {username}; on success merge the
     * response into the member, keep the token, rewrite only `authMember`.
     */
    method Submit(b: Browser, outcome: Result<Fields, Option<Body>>)
      requires Valid()
      modifies this`error, this`success, this`saving, b`storage, b`session, b`location, b`requests
      ensures Valid()
      ensures !HasMember(old(b.session)) ==>
                && b.location == "/login" && b.requests == old(b.requests)
                && b.storage == old(b.storage) && b.session == old(b.session)
                && error == old(error) && success == old(success) && saving == old(saving)
      ensures HasMember(old(b.session)) ==>
                && b.location == old(b.location)
                && b.requests == old(b.requests) + [UpdateProfileRequest(old(b.storage), map[UsernameField := Str(username)])]
                && !saving
      ensures HasMember(old(b.session)) && outcome.Success? ==>
                var updated := MergeMember(old(b.session).value.member, outcome.value);
                && b.session == (if setAuth then Some(Auth(old(b.session).value.token, updated)) else old(b.session))
                && b.storage == old(b.storage)[MemberKey := b.serialize(updated)]
                && error == "" && success == Saved
      ensures HasMember(old(b.session)) && outcome.Failure? ==>
                && b.session == old(b.session) && b.storage == old(b.storage)
                && error == ProfileErrorMessage(outcome.error) && success == ""
    {
      if !HasMember(b.session) {
        b.Follow(ProtectedViewRedirect(b.session));
        return;
      }
      error, success, saving := "", "", true;
      b.Send(UpdateProfileRequest(b.storage, map[UsernameField := Str(username)]));
      match outcome {
        case Success(data) =>
          var auth := b.session.value;
          var updated := MergeMember(auth.member, data);
          if setAuth {
            b.session := Some(Auth(auth.token, updated));
          }
          b.storage := b.storage[MemberKey := b.serialize(updated)];
          success := Saved;
        case Failure(details) =>
          error := ProfileErrorMessage(details);
      }
      saving := false;
    }
  }
}
