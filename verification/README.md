# Chat app: a Dafny model of its server routes and message client

This project models a small two-party chat application. An Express/Mongoose server keeps three
collections:

- **users**: name, unique email, salted password hash.
- **messages**: chat id, sender, recipient, text, timestamp.
- **contacts**: a per-user ledger of chats, keyed by (owner, chat) and meant to hold one row per
  key. Add-contact can write a second row for a key that already has one
  (`Ledger.InsertExistingKeyBreaksUniqueness`). A row written by add-contact holds the other
  party's id and name, the last message and its time. A row created by the send route's upsert
  holds neither the other party's id nor its name.

The server guards its routes with a bearer token. A React client shows the contact list and the
active chat, and polls that chat for new messages.

The model covers the following:

- **Server** (`Auth`, `Ledger`, `Server`):
  - the token guard, login, signup, the profile lookup;
  - the contact list and the per-chat message fetch;
  - add-contact;
  - the send route, with its two ledger upserts.

  The routes that write are methods of the `Server.Store` class over the three collections.
- **Client message input** (`InputBox`): the `InputBoxState` class. It holds the last-seen
  timestamp, the active chat, the contact list and the input text. Its methods are the poll, the
  send handler and the switch of active chat.
- **Chat window** (`ChatWindow`): loading the message list, appending a message, the date-header
  rule, and the time under each bubble.
- **Contact list** (`ContactList`): loading the list, the search, and the two display fallbacks.
- **Shared support**:
  - `Clock`: local hour, minute and day of a millisecond timestamp, and the `H:MM AM|PM` rendering.
    The rendering is proved to round-trip through a parser.
  - `Text`: trim, ASCII lower-casing, substring search.
  - `Common`: option type, filter, first match, subsequence.

Effects outside the model are parameters:

- `now` is the clock reading.
- `newId` is the store-generated user id.
- `hash(password, salt)` stands for bcrypt hashing and `matches` for bcrypt comparison.
- `sign` and `verify` stand for token issue and verification.
- A `Fault` value says which write of the send route throws.
- A `Reply` value is what an HTTP request returned: an array, some other body, or a failure.

A JavaScript string field that may be absent is an `Option<string>`. "Truthy" means present and
non-empty.

Where the code and its description differ, the model follows the code:

- `ChatWindow` passes `onSendMessage` to `InputBox`, but `InputBox` never reads that prop. The
  append handler (`ChatWindow.AppendMessage`) is therefore modelled on its own and nothing calls it.
- The send route writes the token's `name` claim to the recipient's row. Tokens carry only
  `userId`, so that `userName` is always absent (`Ledger.RecordSend`).
- A recipient whose only row for a chat was created by the send route cannot reply from it. That
  row names no other party, so the reply carries no recipient and the send route answers 400
  (`InputBox.ReplyFromUpsertedRowRejected`).
- A row's `time` is a string field that receives the message's `Date`. It is modelled as the
  timestamp in milliseconds, which is all that the client's hour and minute rendering reads from it.

## Model

| member | source | states |
|---|---|---|
| Text.Trim | frontend/src/components/InputBox.jsx:61 | the trimmed message is what remains after removing whitespace only, and only at either end; it neither starts nor ends with whitespace |
| Text.TrimEmptyIffBlank | frontend/src/components/InputBox.jsx:61 | a message trims to "" exactly when every character of it is whitespace |
| Text.LowerString | frontend/src/components/Contacts.jsx:59 | lower-casing keeps the length and maps each character through the ASCII case map |
| Text.LowerStringIdempotent | frontend/src/components/Contacts.jsx:59 | lower-casing twice is lower-casing once |
| Text.Contains | frontend/src/components/Contacts.jsx:59 | `includes` holds exactly when the needle occurs at some position of the haystack |
| Clock.HourOf | frontend/src/components/ChatWindow.jsx:58 | the local hour of a timestamp is below 24 |
| Clock.MinuteOf | frontend/src/components/ChatWindow.jsx:59 | the local minute of a timestamp is below 60 |
| Clock.LocalClockDecomposes | frontend/src/components/ChatWindow.jsx:57-59 | local day, hour and minute recompose into the local minute count, so nothing is lost |
| Clock.DayOf | frontend/src/components/ChatWindow.jsx:86 | a timestamp's local date is the day whose 1440 minutes contain its local minute count |
| Clock.DayOfMonotone | frontend/src/components/ChatWindow.jsx:86 | a later timestamp never falls on an earlier local date |
| Clock.Hour12 | frontend/src/components/ChatWindow.jsx:61 | the displayed hour is in 1..12 and agrees with the 24-hour hour modulo 12, so hour 0 shows as 12 |
| Clock.Meridiem | frontend/src/components/ChatWindow.jsx:60 | the suffix is AM exactly when the hour is below 12, PM exactly when it is 12 or more |
| Clock.PadMinutes | frontend/src/components/ChatWindow.jsx:62 | minutes always show as exactly two digits whose value is the minute |
| Clock.FormatTime | frontend/src/components/ChatWindow.jsx:56-64 | the rendering has the shape `H:MM AM\|PM`: 12-hour hour, colon, two minute digits, space, meridiem |
| Clock.FormatStamp | frontend/src/components/Contacts.jsx:45-53 | the rendered time of a timestamp reads back as its local hour and minute; by `Clock.ParseTimeDeterminesText` it is the one string that does |
| Clock.ParseTimeDeterminesText | frontend/src/components/Contacts.jsx:45-53 | a string that reads back as an hour and minute is exactly their `H:MM AM\|PM` rendering, with no leading zero in the hour |
| Clock.ShowReadNat | frontend/src/components/ChatWindow.jsx:63 | a digit string without a leading zero is the decimal rendering of its value |
| Clock.FormatTimeRoundTrip | frontend/src/components/Contacts.jsx:45-53 | the hour (0..23) and minute are read back exactly from the rendered time, so the rendering is injective |
| Clock.ReadShowNat | frontend/src/components/ChatWindow.jsx:63 | a number's decimal rendering reads back as the number |
| Auth.Split | backend/server.js:60 | splitting on a separator gives at least one part, no part contains the separator, and joining the parts gives back the string |
| Auth.BearerToken | backend/server.js:60 | a token is extracted exactly when the header is present and its second space-separated field exists and is non-empty, and the token is that field, so it has no spaces |
| Auth.NoSpaceNoToken | backend/server.js:60-64 | a header with no space carries no token, so the guard answers 401 without verifying anything |
| Auth.BearerRoundTrip | backend/server.js:60 | the header `Bearer <token>` yields exactly that token |
| Auth.Authenticate | backend/server.js:59-73 | 401 exactly when no token is extracted; otherwise 400 when verification fails, else the request proceeds with the verified claims |
| Auth.IssuedTokenAuthenticates | backend/server.js:59-79 | a token issued for a user and sent as a bearer header authenticates as that user |
| Auth.FindByEmail | backend/server.js:92 | the lookup finds the first user with the email, and finds none exactly when no user has it |
| Auth.Login | backend/server.js:82-112 | 400 "required" exactly when email or password is missing or empty; "not found" exactly when no user has the email; success only for a user with the email whose hash matches, and the token is signed for that user's id |
| Auth.LoginSucceedsIffPasswordMatches | backend/server.js:92-107 | with unique emails, login with a user's email succeeds if and only if the password matches that user's hash, and returns that user's token and id |
| Auth.CheckSignup | backend/server.js:120-127 | "all fields required" exactly when a field is missing or empty; allowed only when no user has the email; "exists" only when one does |
| Auth.AllowedSignupKeepsEmailsUnique | backend/server.js:124-135 | storing a user that passed the signup checks keeps emails unique |
| Auth.SignupThenLogin | backend/server.js:115-147 | after a signup, logging in with the same email and password succeeds for the new user |
| Auth.GetProfile | backend/server.js:150-161 | 404 exactly when no user has the caller's id; otherwise that user's name and email, and no password hash |
| Ledger.Upsert | backend/server.js:238-257 | the upsert changes only the first row with the key, and only its `userName`, `lastMessage` and `time`; without such a row it appends one made of the key and the patch, with no `senderId` or `senderName`; no row is removed; afterwards the key's first row carries the patch |
| Ledger.UpsertKeepsKeysUnique | backend/server.js:238-257 | with at most one row per (owner, chat) before an upsert, the same holds after it |
| Ledger.InsertExistingKeyBreaksUniqueness | backend/server.js:184-194 | the unconditional insert of add-contact can create a second row for an existing key |
| Ledger.RecordSend | backend/server.js:238-257 | a send's two upserts add at most two rows, lose none, and never change a row's owner, chat or other party |
| Ledger.RecordSendEffect | backend/server.js:238-257 | after a send, both parties' rows for the chat exist and show the text and the time; the sender's row shows the client's `name` unless the sender writes to itself; the recipient's row has no `userName`; rows under other keys are unchanged; no row is lost and at most two are added |
| Ledger.RepeatSendAddsNoRows | backend/server.js:238-257 | a second send in the same chat adds no ledger rows |
| Ledger.RecordSendKeepsKeysUnique | backend/server.js:238-257 | a send keeps the ledger at one row per key |
| Ledger.ListContacts | backend/server.js:169 | the listing holds exactly the caller's rows, each as many times as stored, in storage order |
| Ledger.InsertByTime | backend/server.js:208 | inserting into a timestamp-ordered list keeps it ordered and adds exactly that message |
| Ledger.SortByTime | backend/server.js:208 | the sort yields a timestamp-ordered permutation of its input |
| Ledger.FetchMessages | backend/server.js:208 | the fetch holds exactly the chat's messages, each as many times as stored, in non-decreasing timestamp order |
| Server.Store.Signup | backend/server.js:115-147 | a rejected signup leaves the users unchanged and reports the failed check; an accepted one appends one user with the hashed password; unique emails stay unique; other collections are untouched |
| Server.Store.AddContact | backend/server.js:180-200 | a row with every required field present and non-empty is appended as given (`lastMessage` defaults to ""); otherwise 500 and nothing is written |
| Server.Store.Send | backend/server.js:217-271 | a missing field gives 400 and no writes; otherwise one message is appended with the caller as sender, then both ledger upserts run; a failing write gives 500 and keeps the earlier writes; unique ledger keys stay unique |
| ContactList.FetchContacts | frontend/src/components/Contacts.jsx:13-42 | no token leaves the list alone; an array reply replaces it row by row, with no `name`; any other body empties it; a failed request leaves it alone |
| ContactList.SearchAsWritten | frontend/src/components/Contacts.jsx:56-65 | an empty query re-fetches; otherwise the filter throws exactly when some contact has no `name`, and else keeps, in order and with every copy, exactly the contacts whose lower-cased `name` contains the lower-cased query |
| ContactList.SearchOnLoadedContactsThrows | frontend/src/components/Contacts.jsx:58-60 | a non-empty query over any non-empty list loaded from the server throws |
| ContactList.Search | frontend/src/components/Contacts.jsx:56-65 | an empty query re-fetches; otherwise the result never throws, is a subsequence of the list no longer than it, and holds exactly the contacts whose shown name contains the query, ignoring case, each as many times as in the list |
| ContactList.SearchIgnoresCase | frontend/src/components/Contacts.jsx:59 | a query and its lower-case form select the same contacts |
| ContactList.PreviewText | frontend/src/components/Contacts.jsx:94 | an empty last message shows "No messages yet", any other shows itself |
| ContactList.TimeLabel | frontend/src/components/Contacts.jsx:97 | with no stored time the label is "Just now"; otherwise it renders the local hour and minute of the stored time, which read back exactly, so it is the one rendering of them |
| ChatWindow.LoadMessages | frontend/src/components/ChatWindow.jsx:11-40 | with no chat id nothing is fetched; an array reply replaces the list; any other reply or a failure leaves it unchanged |
| ChatWindow.LoadedFromServerIsTheChat | frontend/src/components/ChatWindow.jsx:27-31 | loading the server's fetch shows exactly the chat's messages, oldest first |
| ChatWindow.AppendMessage | frontend/src/components/ChatWindow.jsx:51-53 | the new message goes last and the earlier messages keep their order |
| ChatWindow.AppendKeepsOrder | frontend/src/components/ChatWindow.jsx:51-53 | appending a message no older than those shown keeps the list in timestamp order |
| ChatWindow.ShowDateHeader | frontend/src/components/ChatWindow.jsx:85-86 | the first message always gets a header, and a header never separates two messages with the same timestamp |
| ChatWindow.DateHeaderMarksFirstOfDay | frontend/src/components/ChatWindow.jsx:85-86 | in a timestamp-ordered list, a header appears above a message exactly when no earlier message has its local date |
| ChatWindow.BubbleTime | frontend/src/components/ChatWindow.jsx:101 | the time under a bubble renders the message's local hour and minute, which read back exactly, so it is the one rendering of them |
| InputBox.UpdateContacts | frontend/src/components/InputBox.jsx:15-23 | same length; every contact of the chat has only `lastMessage` and `time` replaced; every other contact is unchanged |
| InputBox.IsNewer | frontend/src/components/InputBox.jsx:35-39 | a poll updates exactly when it fetched a message and the last fetched timestamp is strictly later than the last seen, or none has been seen |
| InputBox.SeenAfter | frontend/src/components/InputBox.jsx:39-40 | after one poll the last-seen timestamp is no earlier than before, and is either unchanged or the last fetched timestamp |
| InputBox.PollsNeverRewind | frontend/src/components/InputBox.jsx:39-40 | over any series of polls, the last-seen timestamp never moves back |
| InputBox.RepeatedPollIsQuiet | frontend/src/components/InputBox.jsx:39-40 | polling the same reply again makes no update and leaves the last-seen timestamp where the first poll put it |
| InputBox.PollRecordsNewest | frontend/src/components/InputBox.jsx:35-40 | against the server's ordered fetch, an update records a timestamp no earlier than any message of the chat |
| InputBox.StaleLastSeenHidesOpenedChat | frontend/src/components/InputBox.jsx:39-40 | after a switch of chat, while every message of the new chat is no later than the last one seen in the old chat, polls of the new chat never update |
| InputBox.FirstPollOfOpenedChatUpdates | frontend/src/components/InputBox.jsx:35-40 | with last-seen cleared, the first poll of a chat that has messages updates and records its newest timestamp |
| InputBox.RequestFor | frontend/src/components/InputBox.jsx:64-69 | the request carries the active chat's id, its `senderId` as recipient, its `senderName` as name, and the text exactly as typed, which is non-empty |
| InputBox.ReplyFromUpsertedRowRejected | frontend/src/components/InputBox.jsx:64-68 | a reply sent from a ledger row that the send path created names no recipient, so the send route rejects it |
| InputBox.InputBoxState.Poll | frontend/src/components/InputBox.jsx:26-56 | the poll updates only on a non-empty array whose last timestamp is newer than the last seen, or when none is seen; it then records that timestamp and patches the active chat and the chat's contacts; otherwise nothing changes |
| InputBox.InputBoxState.SelectChat | frontend/src/components/Contacts.jsx:89 | clicking a contact makes it the active chat and keeps the last-seen timestamp, the contacts and the input text |
| InputBox.InputBoxState.OpenChat | frontend/src/components/InputBox.jsx:7 | opening a chat makes it active and clears the last-seen timestamp, keeping the contacts and the input text |
| InputBox.InputBoxState.SendMessage | frontend/src/components/InputBox.jsx:59-92 | a blank input sends nothing and changes nothing; otherwise the request is built from the active chat; on acceptance, the active chat and the chat's contacts show the text and the input is cleared; a refused request changes nothing |

## Left out

- Express routing, CORS, the database connection and the server start are I/O and are not modelled.
- bcrypt salting, hashing and comparison, and JWT signing, verification and expiry, are foreign
  libraries. They are the parameters `hash`, `matches`, `sign` and `verify`.
- The 500 answers of login, signup, profile, the listings and the fetch come from database failures.
  They are not modelled. The send route's failures are modelled through `Fault`.
- Signup's duplicate-key answer is not modelled. It is the 400 "Email already in use" raised by the
  unique index when two signups race. It needs concurrency; the sequential model refuses a known
  email before writing.
- A `recipient` that is not a valid object id fails the message's cast and gives 500. Ids are plain
  strings here.
- Date parsing and printing are not modelled: `toISOString`, `toString`, `toDateString`,
  `toLocaleDateString`, and the text of the date header. Timestamps are milliseconds. The local time
  zone is a fixed minute offset, and daylight-saving changes are not modelled. A client time string
  that does not parse is not modelled.
- The 5-second polling timer, overlapping polls and concurrent upserts are not modelled. They are
  about timing; each poll and each send is one atomic step here.
- `localStorage`, axios, navigation, the loading flag and all rendering are not modelled. The token
  read from storage is the `token` parameter. A request's outcome is a `Reply` value or the
  `accepted` flag.
- Text.LowerString: only ASCII letters are case-folded. JavaScript lower-cases all of Unicode.
- Text.Trim: whitespace is the Latin-1 set plus the byte-order mark. JavaScript also trims the other
  Unicode space separators and the line and paragraph separators.
- Ledger.Upsert: a field set to `undefined` in the update is modelled as making the field absent.
  That is what Mongoose 5 does: it writes `null`. Mongoose 6 and later drop an `undefined` key from
  the update, so an existing recipient row would keep its `userName`. The repository does not pin
  the version. Under the later versions, `Ledger.RecordSendEffect`'s "the recipient's row has no
  `userName`" holds only for a row the send creates.
- Request bodies are modelled with string fields only. A JSON number, array or object in a field is
  not modelled. In particular, an object such as `{"$ne": ""}` as `email` reaches `findOne` as a
  query operator (backend/server.js:92 and :124). Login then finds the first user, and signup
  answers "User already exists".
- Ledger.SortByTime: the database's order among messages with equal timestamps is not fixed.
  `Ledger.FetchMessages` therefore promises only some ordered arrangement of exactly the chat's
  messages, and the insertion sort is one such arrangement.

## Findings

| source | as written | input that shows it | evidently intended | confidence | as-written member | corrected member |
|---|---|---|---|---|---|---|
| frontend/src/components/Contacts.jsx:58-60 | the search filter lower-cases each contact's `name` property, which no ledger row has; reading it throws a TypeError, and the list stays as it was | contacts loaded from the server (any one row) and the query "a" | filter on the name each list item shows, `senderName` (Contacts.jsx:93), ignoring case | high; not executed | ContactList.SearchAsWritten, ContactList.SearchOnLoadedContactsThrows | ContactList.Search, ContactList.SearchIgnoresCase |
| frontend/src/components/InputBox.jsx:7 | the last-seen timestamp is created once per mounted input box and never reset; the box stays mounted while any chat is active, so a newly selected chat is compared with the previous chat's last-seen | chat A was polled with its newest message at t=2000; the list was loaded at t=1000; chat B got a message at t=1500; clicking B leaves B's list entry and the active chat on the old last message until B gets a message later than t=2000 | each chat's polls compare with that chat's own last-seen, which starts unset when the chat is opened | medium; not executed | InputBox.InputBoxState.SelectChat, InputBox.StaleLastSeenHidesOpenedChat | InputBox.InputBoxState.OpenChat, InputBox.FirstPollOfOpenedChatUpdates |
