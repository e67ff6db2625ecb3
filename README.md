# Group chat: client session logic and token-authenticated chat API

This project is a Dafny model of a small group-chat application and the proofs about it.
The server side (Django REST framework) has members who register and log in with a
username and a password. Each member gets one opaque API token. Members post chat
messages to a single shared log and read it back in chronological order.
The client side (React) keeps the token and the member in browser storage.
It attaches the token to every authenticated request, polls the chat log every
seven seconds, and shows form errors taken from the server's error bodies.

The model is organised by the program's own parts:

| file | models |
|---|---|
| `wrappers.dfy` | `Option` and `Result` |
| `text.dfy` | JavaScript `String.prototype.trim` and the "blank message" test |
| `bytes.dfy` | bytes, Python's `bytes.split()`, `bytes.lower()`, strict UTF-8 decoding and a reference encoder |
| `wire.dfy` | JSON values exchanged between client and server, and error bodies |
| `display.dfy` | `ChatMessage.__str__` and the admin's `short_content` |
| `token_auth.dfy` | the `Authorization: Token <key>` header check |
| `accounts.dfy` | the member and message tables, serializers and validators, as pure functions |
| `backend.dfy` | the views, as methods of a `Server` class that owns the tables |
| `client_api.dfy` | the client's request builders and the auth header |
| `session.dfy` | browser storage, the session pair, navigation, and the redirect gates |
| `login.dfy`, `register.dfy`, `profile.dfy` | the three form components |
| `chat.dfy` | the chat page's polling and sending |
| `end_to_end.dfy` | lemmas that join client and server |

State that the source changes in place is modelled by classes:
- `Backend.Server` holds the member, token and message tables.
- `Session.Browser` holds storage, the session, the location and the requests sent.
- `LoginView.LoginForm`, `RegisterView.RegisterForm`, `ProfileView.ProfileForm` and
  `Chat.Synchronizer` hold each component's React state.

Pure computations are functions with the lemmas that give their meaning.

An asynchronous effect is modelled as an issue event and a later resolve event. This applies
to the chat page's load and the profile page's load. Every effect run gets its own entry in a
`mounted` sequence, which stands for that run's `isMounted` closure variable. A resolve event names the
run that issued it, so a result that arrives after its run was torn down can be shown to
change nothing. The form submissions (login, register, profile save) are modelled as one
method that receives the outcome of the awaited request.

The hasher, the generator of fresh token keys, the clock and JSON serialisation are
abstract. They appear as a class constant (`Server.hash`, `Browser.serialize`) or as
parameters (`freshKey`, `now`).

### Behaviour worth knowing

- Two polls of one mounted run of the chat page can resolve out of order, and the older
  result then overwrites the newer one. The code keeps one `isMounted` flag per effect run and
  no per-request generation. `Chat.OlderPollWinsScenario` shows the overwrite.
- The login and register views take `setAuth` as an optional callback and set the session only
  when it is passed. The callback is a constant of each form class, so both cases are covered.
- The chat page posts the untrimmed draft. Only the emptiness test uses `trim()`.
  `Chat.Synchronizer.Submit` records the untrimmed content.
- The username update has no 150-character limit, unlike registration.
  `Accounts.ValidateUsernameUpdate` checks only presence and uniqueness.
- Registering a taken name is rejected by the unique validator that the serializer derives
  from `unique=True`, which runs before `validate_username`. The answer therefore says
  "member with this username already exists."; `validate_username`'s "A member with this
  username already exists." is never sent on registration (`Accounts.UsernameErrors`).
  The username update answers with its own text.
- A login with a blank field is rejected by the field checks with "This field may not be
  blank." before `LoginSerializer.validate` runs, so its "Both username and password are
  required." is never sent. The login page does not read field errors and shows its own
  fixed text (`EndToEnd.BlankLoginMessage`).

## Model

| member | source | states |
|---|---|---|
| Text.TrimStart | react/src/components/Home/index.jsx:60 | the result is a suffix of the input, everything dropped is JavaScript whitespace, and the result is empty or starts with a non-space |
| Text.TrimEnd | react/src/components/Home/index.jsx:60 | the result is a prefix of the input, everything dropped is whitespace, and the result is empty or ends with a non-space |
| Text.Trim | react/src/components/Home/index.jsx:60 | trimming leaves nothing exactly when every character is JavaScript whitespace or a line terminator; what is left is no longer than the input and starts and ends with a non-space |
| Text.IsBlank | react/src/components/Home/index.jsx:60-62 | a draft counts as blank exactly when every character of it is whitespace |
| Text.NonSpaceNotBlank | react/src/components/Home/index.jsx:60-62 | a message with any non-space character is never blank |
| Bytes.Split | api/authentication.py:22 | every word of the split header is non-empty and contains no ASCII whitespace |
| Bytes.SplitAllSpaces | api/authentication.py:22-25 | a header of only whitespace splits into no words |
| Bytes.TakeWordAll | api/authentication.py:22 | a word with no whitespace is taken whole |
| Bytes.TakeWordThenSpace | api/authentication.py:22 | a word followed by a space stops at the space |
| Bytes.SplitCons | api/authentication.py:22 | splitting a word followed by a space gives that word, then the split of the rest |
| Bytes.SplitSkipsSpace | api/authentication.py:22 | leading whitespace does not change the split |
| Bytes.SplitSkipsSpaces | api/authentication.py:22 | any run of leading whitespace does not change the split |
| Bytes.SplitOneWord | api/authentication.py:22 | a single word splits into itself |
| Bytes.SplitTwoWords | api/authentication.py:22 | two words joined by one space split back into those two words |
| Bytes.Lower | api/authentication.py:27 | `bytes.lower()`: the length is unchanged, a byte changes exactly when it is an ASCII capital, and a capital becomes its lower-case letter |
| Bytes.DecodeFirst | api/authentication.py:37-42 | strict UTF-8: a decoded character uses between one and four of the available bytes |
| Bytes.EncodeChar | api/authentication.py:37-42 | the reference UTF-8 encoding of a character: one byte below U+0080, two below U+0800, three below U+10000, four above |
| Bytes.DecodeFirstEncode | api/authentication.py:37-42 | decoding the start of an encoded character, whatever follows it, gives back exactly that character and its byte length |
| Bytes.DecodeFirstCanonical | api/authentication.py:37-42 | strictness: any sequence the decoder accepts is exactly the encoding of the character it returns, so overlong forms, surrogates and code points above U+10FFFF are rejected |
| Bytes.Utf8Decode | api/authentication.py:37-42 | `bytes.decode()`: a successful decoding has at most as many characters as there are bytes |
| Bytes.Utf8Encode | api/authentication.py:37-42 | the reference encoding of a string takes between one and four bytes per character |
| Bytes.Utf8RoundTrip | api/authentication.py:37-42 | every string's UTF-8 encoding decodes back to the same string |
| Bytes.DecodeThenEncode | api/authentication.py:37-42 | every byte string that decodes re-encodes to exactly the same bytes |
| Bytes.DecodeAscii | api/authentication.py:37-42 | ASCII text encoded to bytes decodes back to itself |
| Bytes.AsciiBytesAppend | api/authentication.py:37-42 | encoding ASCII text distributes over concatenation |
| Bytes.DecodeRejectsStrayContinuation | api/authentication.py:37-42 | a key that starts with a continuation byte is rejected as undecodable |
| TokenAuth.Authenticate | api/authentication.py:21-49 | the request is anonymous exactly when the header has no words or its first word is not "token" in any case; after the keyword, one word fails with "No credentials provided", more than two fail with "should not contain spaces", an undecodable key fails with "should not contain invalid characters", an unknown key fails with "Invalid token.", and a stored key authenticates exactly its owner |
| TokenAuth.EmptyHeaderIsAnonymous | api/authentication.py:22-25 | an empty header authenticates nobody and raises no error |
| TokenAuth.KeywordAloneFails | api/authentication.py:27-31 | a lone keyword, in any case, fails with "No credentials provided" |
| TokenAuth.TwoWordHeader | api/authentication.py:37-49 | for a keyword and one key, the outcome depends only on decoding and on the token table |
| TokenAuth.ExtraWordsFail | api/authentication.py:32-35 | the keyword and a key followed by any run of whitespace and then anything more fail with "should not contain spaces", whatever the token table holds |
| TokenAuth.TokenHeaderAuthenticates | api/authentication.py:13-49 | `Token <key>` with a stored ASCII key authenticates exactly the key's owner; with an unknown key it fails with "Invalid token." |
| Display.MessagePreview | api/models.py:29-31 | content of at most 30 characters is kept whole; longer content becomes its first 30 characters plus "..." |
| Display.MessageStr | api/models.py:28-32 | the text is the author's username, ": ", then the preview |
| Display.ShortContent | api/admin.py:20-25 | empty stays empty, up to 50 characters is kept, longer becomes the first 50 plus "..." |
| Display.PreviewIdempotent | api/models.py:29-31 | previewing a preview changes nothing |
| Display.ShortContentIdempotent | api/admin.py:20-25 | shortening already-shortened content changes nothing |
| Display.PreviewSeesOnlyHead | api/models.py:29-31 | two contents that agree on their first 30 characters and are both longer than 30 characters have the same preview |
| Accounts.MemberStr | api/models.py:12-13 | a member is displayed as its username |
| Accounts.MemberStrInjective | api/models.py:5-13 | with unique usernames, two different members are displayed differently |
| Accounts.ToData | api/serializers.py:12-16 | the serialized member holds exactly its id, username and creation time |
| Accounts.UsernameFieldErrors | api/models.py:5 | a blank name gives only "This field may not be blank."; otherwise the unique validator's "member with this username already exists." appears exactly when the name is taken, and the too-long message exactly when it exceeds 150 characters; there is no error exactly when the name is non-empty, within the limit and free |
| Accounts.ValidateUsernameHook | api/serializers.py:26-29 | `validate_username` objects exactly when the name is taken, with "A member with this username already exists." |
| Accounts.UsernameErrors | api/serializers.py:26-29 | the username's errors are exactly the field's own errors, so `validate_username`'s message is never among them; there is none exactly when the name is non-empty, at most 150 characters long and not taken |
| Accounts.PasswordErrors | api/serializers.py:20 | there is at most one password error, and none exactly when the password has at least 4 characters |
| Accounts.ValidateRegister | api/serializers.py:19-29 | registration is accepted exactly when the username is non-empty, at most 150 characters and not taken and the password has at least 4 characters; a rejection body has field lists only (no non_field_errors, no detail), and a taken well-formed name is reported first with the unique validator's "member with this username already exists." |
| Accounts.AddMember | api/serializers.py:31-34 | the new member gets the next id, the given username, the hash of the password and creation time `now`; older members are unchanged |
| Accounts.AddMemberKeepsUnique | api/serializers.py:26-29 | adding a member whose name is not taken keeps usernames unique |
| Accounts.FindByUsername | api/serializers.py:48-51 | finds the member with that username, or none when no member has it |
| Accounts.PasswordMatches | api/serializers.py:53-54 | `check_password` accepts a raw password exactly when the stored value is that password's hash |
| Accounts.CheckCredentials | api/serializers.py:41-57 | `validate`: a blank field fails with "Both username and password are required."; an unknown name or a wrong password fails with "Invalid username or password."; otherwise it returns the member whose username matches and whose stored hash is the password's hash |
| Accounts.ValidateLogin | api/serializers.py:37-57 | a blank field gives exactly the blank fields' "This field may not be blank." lists and no non_field_errors; with both fields filled a rejection is exactly non_field_errors ["Invalid username or password."]; success returns the member whose username matches and whose stored hash is the password's hash |
| Accounts.RegisterThenLogin | api/serializers.py:26-57 | after a registration that passed validation, logging in with the same credentials returns the new member |
| Accounts.GetOrCreateToken | api/views.py:45-48 | a member that has a token gets its key back with the table unchanged; otherwise the fresh key is stored for it; each member keeps at most one token |
| Accounts.GetOrCreateIdempotent | api/views.py:68-71 | a second get-or-create returns the same key and leaves the table unchanged |
| Accounts.ValidateUsernameUpdate | api/views.py:125-143 | a missing or empty username gives "This field is required."; a name held by another member gives "A member with this username already exists."; otherwise it is accepted |
| Accounts.OwnUsernameAccepted | api/views.py:135-139 | a member can always re-submit its own username |
| Accounts.Rename | api/views.py:145-146 | only the requester's username changes; its id, password and creation time, and every other member, stay the same |
| Accounts.RenameKeepsUnique | api/views.py:135-146 | an accepted rename keeps usernames unique |
| Accounts.SerializeMessage | api/serializers.py:60-67 | a message is serialized with its id, its author's id, the author's current username, its content and its creation time |
| Accounts.NewMessage | api/views.py:172-173 | the new message gets the next id, the requester as author, the submitted content and the time `now` |
| Accounts.SortedPairwise | api/views.py:153 | a log sorted by neighbours is sorted for every pair |
| Accounts.InsertByCreatedAt | api/views.py:153 | inserting into a sorted log keeps it sorted and is a permutation |
| Accounts.OrderByCreatedAt | api/views.py:153 | the listed log is sorted by creation time and is a permutation of the stored log |
| Accounts.ListView | api/views.py:152-162 | the listing has one entry per message, sorted by creation time; each entry shows its author's current username; every message appears and every entry is a stored message |
| Accounts.ListedInOrder | api/views.py:153 | any earlier entry of the listing was created no later than any later one |
| Accounts.OrderedLogUnchanged | api/views.py:153 | a log that is already in order is listed in its stored order |
| Backend.Server.constructor | api/models.py:4-26 | the server starts with no members, no tokens and no messages |
| Backend.Server.Register | api/views.py:40-52 | an invalid request is rejected with 400 and changes nothing; a valid one stores the member, gets or creates its token and answers 201 with the token and the member's data |
| Backend.Server.Login | api/views.py:63-75 | a rejected login answers 400 with the validation body (field errors or non_field_errors) and changes nothing; otherwise only the token table may change and the answer is 200 with the member's one token |
| Backend.Server.UpdateUsername | api/views.py:125-149 | a rejected update answers 400 with the username error and changes nothing; an accepted one renames only the requester and answers 200 with its new data |
| Backend.Server.CreateMessage | api/views.py:164-173 | the message log grows by exactly one message authored by the requester, and the answer is 201 with its serialization |
| Backend.Server.ListMessages | api/views.py:152-162 | the answer is 200 with the chronological listing, and nothing changes |
| ClientApi.AuthHeader | react/src/api/auth.jsx:3-9 | with no token or an empty one there is no header; otherwise there is exactly one, `Authorization: Token <token>` |
| ClientApi.RegisterRequest | react/src/api/auth.jsx:11-17 | a POST to /api/auth/register/ with the credentials and no auth header, whatever is stored |
| ClientApi.LoginRequest | react/src/api/auth.jsx:19-25 | a POST to /api/auth/login/ with the credentials and no auth header, whatever is stored |
| ClientApi.CurrentMemberRequest | react/src/api/auth.jsx:27-33 | a GET of /api/auth/me/ that carries `Authorization: Token <token>` exactly when a non-empty token is stored, and no header otherwise |
| ClientApi.ProfileRequest | react/src/api/auth.jsx:35-41 | a GET of /api/profile/ that carries `Authorization: Token <token>` exactly when a non-empty token is stored, and no header otherwise |
| ClientApi.UpdateProfileRequest | react/src/api/auth.jsx:43-49 | a PUT of /api/profile/ with the payload as given, carrying `Authorization: Token <token>` exactly when a non-empty token is stored |
| ClientApi.HeaderDependsOnlyOnToken | react/src/api/auth.jsx:3-9 | two storages with the same token entry give the same header |
| Session.AuthViewRedirect | react/src/components/Auth/Login.jsx:13-17 | the login and register pages send a visitor with a session member to "/", and nobody else |
| Session.ProtectedViewRedirect | react/src/components/Profile/index.jsx:15-18 | the profile page sends a visitor without a session member to "/login", and nobody else |
| Session.GatesComplementary | react/src/components/Auth/Login.jsx:13-17 | every visitor is redirected by exactly one of the two gates |
| Session.Browser.constructor | react/src/components/Auth/Login.jsx:5-6 | the browser starts with the given storage, the `auth` session the views receive, and the given location, and has sent no request |
| Session.Browser.Follow | react/src/components/Auth/Login.jsx:13-17 | a redirect moves the browser to its target; no redirect leaves the location unchanged |
| Session.Browser.Send | react/src/api/auth.jsx:11-49 | a request is appended to the requests sent, and nothing else changes |
| Session.Browser.EstablishSession | react/src/components/Auth/Login.jsx:27-36 | both storage keys are written with the token and the serialized member; the session is set only when a setAuth callback is given; the location becomes "/" |
| Session.EstablishedTokenIsSent | react/src/api/auth.jsx:3-9 | after a session is established with a non-empty token, authenticated requests carry exactly that token |
| LoginView.LoginErrorMessage | react/src/components/Auth/Login.jsx:37-51 | a string body is shown as is; otherwise the first non_field_errors entry, then detail, then the fixed fallback |
| LoginView.LoginIgnoresFieldErrors | react/src/components/Auth/Login.jsx:44-48 | per-field error lists never change the login error |
| LoginView.LoginForm.constructor | react/src/components/Auth/Login.jsx:8-11 | the form starts empty, not loading and without error |
| LoginView.LoginForm.Fill | react/src/components/Auth/Login.jsx:75-91 | typing sets the two fields and nothing else |
| LoginView.LoginForm.Guard | react/src/components/Auth/Login.jsx:13-17 | a visitor with a session member is sent to "/"; others stay |
| LoginView.LoginForm.Submit | react/src/components/Auth/Login.jsx:19-55 | success establishes the session and leaves no error; failure sets the derived error and touches no storage; loading ends false either way |
| RegisterView.RegisterErrorMessage | react/src/components/Auth/Register.jsx:37-51 | a string body is shown as is; otherwise the first non_field_errors entry, then the first username entry, then the fixed fallback |
| RegisterView.RegisterIgnoresDetail | react/src/components/Auth/Register.jsx:44-48 | a detail field never changes the registration error |
| RegisterView.RegisterForm.constructor | react/src/components/Auth/Register.jsx:8-11 | the form starts empty, not loading and without error |
| RegisterView.RegisterForm.Fill | react/src/components/Auth/Register.jsx:75-91 | typing sets the two fields and nothing else |
| RegisterView.RegisterForm.Guard | react/src/components/Auth/Register.jsx:13-17 | a visitor with a session member is sent to "/"; others stay |
| RegisterView.RegisterForm.Submit | react/src/components/Auth/Register.jsx:19-55 | success establishes the session and leaves no error; failure sets the derived error and touches no storage; loading ends false either way |
| ProfileView.UsernameInput | react/src/components/Profile/index.jsx:30 | the input holds the loaded username when it is a string, and "" otherwise |
| ProfileView.MergeMember | react/src/components/Profile/index.jsx:64-67 | the merged member has the keys of both; the response's fields win and the other fields are kept |
| ProfileView.MergeIdempotent | react/src/components/Profile/index.jsx:64-67 | merging the same response twice is the same as merging it once |
| ProfileView.MergeEmpty | react/src/components/Profile/index.jsx:64-67 | merging an empty response leaves the member unchanged |
| ProfileView.ProfileErrorMessage | react/src/components/Profile/index.jsx:79-88 | a string body is shown as is; otherwise the first username entry, then the fixed fallback |
| ProfileView.ProfileIgnoresOtherFields | react/src/components/Profile/index.jsx:81-88 | non_field_errors never change the profile error |
| ProfileView.ProfileForm.constructor | react/src/components/Profile/index.jsx:8-12 | the form starts loading, with no username, error or success text, and no effect runs |
| ProfileView.ProfileForm.Mount | react/src/components/Profile/index.jsx:14-43 | without a session member the page goes to "/login" and starts no load; otherwise a new live run starts loading, clears error and success, and issues one load |
| ProfileView.ProfileForm.Unmount | react/src/components/Profile/index.jsx:45-47 | the current run is marked not mounted and no run stays live |
| ProfileView.ProfileForm.LoadDone | react/src/components/Profile/index.jsx:28-40 | a load of a torn-down run changes nothing visible; a live one sets the username or the load error and ends loading |
| ProfileView.ProfileForm.Edit | react/src/components/Profile/index.jsx:118 | typing sets the username field and nothing else |
| ProfileView.ProfileForm.Submit | react/src/components/Profile/index.jsx:50-94 | without a session member the page goes to "/login"; success stores the merged member under authMember, keeps the token, and shows the saved text; failure shows the derived error; saving ends false |
| Chat.Coerce | react/src/components/Home/index.jsx:28 | a list payload is taken as is; any other payload becomes the empty list |
| Chat.AuthorLabel | react/src/components/Home/index.jsx:120-122 | the label is member_username if non-empty, else the nested member's username if non-empty, else "Участник"; it is never empty |
| Chat.Synchronizer.constructor | react/src/components/Home/index.jsx:6-10 | the page starts with no messages, not loading, not sending and without error |
| Chat.Synchronizer.Start | react/src/components/Home/index.jsx:12-47 | without a session member nothing starts; otherwise a new live run starts loading, issues the first load and starts polling |
| Chat.Synchronizer.Teardown | react/src/components/Home/index.jsx:49-54 | the current run is marked not mounted and polling stops |
| Chat.Synchronizer.Tick | react/src/components/Home/index.jsx:20-23 | a tick of a live run issues one more load; otherwise nothing happens |
| Chat.Synchronizer.LoadDone | react/src/components/Home/index.jsx:25-39 | a load of a torn-down run changes nothing visible; a live success replaces the list by the coerced payload and clears the error; a live failure sets the load error; loading ends false for a live run |
| Chat.Synchronizer.Edit | react/src/components/Home/index.jsx:157 | typing sets the draft and nothing else |
| Chat.Synchronizer.Submit | react/src/components/Home/index.jsx:57-66 | a draft made only of whitespace, which trims to "", changes nothing and sends nothing; otherwise one request is issued with the untrimmed draft, sending starts and the error is cleared |
| Chat.Synchronizer.SendDone | react/src/components/Home/index.jsx:67-75 | success appends the created message and clears the draft; failure sets the send error; sending ends; the run's mounted flag is not consulted |
| Chat.FirstMessageScenario | react/src/components/Home/index.jsx:57-75 | on an empty page, sending a non-blank message that the server creates leaves exactly that message shown |
| Chat.PollReplacesScenario | react/src/components/Home/index.jsx:25-30 | a successful poll replaces the shown list by the server's list |
| Chat.StaleLoadScenario | react/src/components/Home/index.jsx:17-54 | a poll that resolves after teardown leaves the list and the error unchanged |
| Chat.OlderPollWinsScenario | react/src/components/Home/index.jsx:20-46 | two polls of one run that resolve out of order leave the older poll's list shown |
| Chat.NoMemberScenario | react/src/components/Home/index.jsx:12-15 | without a session member the page issues no load and does not poll |
| EndToEnd.MemberJson | api/serializers.py:12-16 | the member JSON has exactly the keys id, username and created_at, and the username is a string |
| EndToEnd.ItemOf | api/serializers.py:60-67 | the client item read from a serialized message carries its id, content, creation time and member_username |
| EndToEnd.StoredTokenAuthenticates | api/authentication.py:21-49 | the header the client builds from a stored ASCII token authenticates the token's owner on the server |
| EndToEnd.DuplicateRegistrationMessage | react/src/components/Auth/Register.jsx:46-48 | registering a taken, well-formed username shows the unique validator's "member with this username already exists." |
| EndToEnd.RegistrationMessageNonEmpty | react/src/components/Auth/Register.jsx:38-49 | every rejected registration shows a non-empty error |
| EndToEnd.FailedLoginMessage | react/src/components/Auth/Login.jsx:44-45 | a rejected login with both fields filled shows "Invalid username or password.", for an unknown name and a wrong password alike |
| EndToEnd.BlankLoginMessage | react/src/components/Auth/Login.jsx:37-51 | a login with a blank field shows the page's fixed failure text, because the server's field errors are not read |
| EndToEnd.RejectedRenameMessage | react/src/components/Profile/index.jsx:85-86 | a rejected rename shows the server's username error |
| EndToEnd.ListedMessageLabel | react/src/components/Home/index.jsx:120-122 | a listed message by a member with a non-empty username is labelled with that username |
| EndToEnd.RenamedMemberJson | react/src/components/Profile/index.jsx:64-67 | after a rename, the merged member shows the new username and keeps its id |

## Left out

- Rendering, CSS classes and the loading and empty-state texts are not modelled. Only the state that decides them is.
- Routing and `App.jsx` are not modelled. The `setAuth` callback the routes pass or omit is a constant of each form class.
- Restoring or clearing the session from storage at start-up is not part of these files and is not modelled.
- The transport (axios, HTTP status handling on the client) is not modelled. A request's outcome is an input of the resolving method.
- Timers are not modelled: the 7-second interval is a `Tick` event the caller may issue; `clearInterval` is the `polling` flag.
- `toLocaleString` formatting of timestamps is not modelled. Timestamps are opaque.
- JSON serialisation is the abstract `Browser.serialize` function.
- Password hashing is the abstract `Server.hash` function.
- `Accounts.AddMember`: it stores `hash(password)`. That the stored value never equals the raw password is not stated, because the hash is abstract.
- Token key generation is not modelled. `Backend.Server.Register` and `Backend.Server.Login` take the key as a parameter that must not already be in the token table.
- Backend.Server.Register: framework field handling beyond the blank check, the unique validator and the length limits is not modelled: trimming surrounding whitespace from character fields (so an all-whitespace value is blank on the server), the null-character validator, type coercion and missing keys. Fields arrive as strings that are already trimmed.
- Backend.Server.Login: the same holds for the two login fields. Only the empty string is blank, a username with surrounding whitespace is looked up as given, and missing keys are not modelled.
- Backend.Server.CreateMessage: the content is stored as submitted. Framework trimming and the "may not be blank" check on content are not modelled.
- Authentication failures are turned into 401/403 responses by the framework. That step is not modelled. Authenticated views take the requester as a parameter with `requires requester in members`.
- `HelloView` answers a fixed greeting and the current time and reads no table. It is not modelled.
- `MeView.get` and `ProfileView.get` only serialize the requester, which `Accounts.ToData` covers. They are not modelled as separate methods.
- `ProfileView.put` and `ProfileView.patch` share one code path, modelled once by `Backend.Server.UpdateUsername`.
- ProfileView.UsernameInput: a username that is a non-empty number would be kept by `data.username || ''`. The model treats every non-string value as "".
- Ties in `order_by("created_at")` are resolved by the database, which promises no order among equal timestamps. `Accounts.OrderByCreatedAt` keeps stored order among them. That stable order is the model's choice, so `Accounts.OrderedLogUnchanged` is a statement about the model, not about the database.
- LoginView.LoginForm.Submit, RegisterView.RegisterForm.Submit and ProfileView.ProfileForm.Submit treat their awaited request as atomic. Events that interleave with a pending login, registration or profile save are not modelled, and neither is React ignoring state updates after unmount.
- Bytes.DecodeFirst and Bytes.Utf8Decode: their own contracts state only how many bytes are consumed. Which character is decoded and that only canonical encodings are accepted are stated by `Bytes.DecodeFirstEncode`, `Bytes.DecodeFirstCanonical`, `Bytes.Utf8RoundTrip` and `Bytes.DecodeThenEncode`.
- The `required` attribute on the login, register and profile inputs is a browser check that blocks submitting an empty field. It is not modelled, so each form's `Submit` may run with empty fields.
- Error bodies are a text or an object of string lists with an optional detail. Other JSON shapes are not modelled, such as a list, or a non_field_errors given as a bare string.
- Database transactions, concurrency between requests and the admin's search and ordering options are not modelled.
