# Friendships and direct messages: a Dafny model

This project models the server core of a small chat application in Dafny. Users send friend requests, and a request
becomes a friendship when it is accepted. Friends exchange direct messages in a two-party dialog, and each new
message is pushed live to both users. The model covers:

- the friendship table and the friend-request lifecycle: request, reciprocal auto-accept, accept, cancel, and the
  friend, incoming and outgoing lists;
- the dialog table, keyed by the ordered pair of its two users;
- the append-only message log, with the REST path (history and send) and the realtime path (the friends-only gate,
  get-or-create of the dialog, send and push).

The database context is the class `Store.Db`. Each table is a field: `users` (a set the core never writes),
`friendships`, `dialogs` and `messages` (sequences). A counter `nextId` stands in for `Guid.NewGuid`. Each controller
action and hub method is a method that takes the context, changes what it names, and states the whole new state.
`Db.Valid()` is the invariant every action keeps:

- no user has a friendship record with themself;
- each unordered pair of users has at most one friendship record;
- every dialog is stored with its smaller user id first, and no ordered pair has two dialogs;
- ids are fresh and distinct within the friendship and dialog tables;
- every message belongs to a stored dialog, was sent by one of that dialog's two users, and has text that is not
  blank.

The read-only queries are functions over the table sequences, so they cannot write anything. These are the three
friend lists and the message history. Each query is proved against an independent description of its result:
membership both ways, no duplicates, sortedness plus being a permutation.

Modules, one per source file, plus two helper modules:

- `Linq`: the two LINQ operators the core uses, FirstOrDefault and Any.
- `Models`: the records and the action results.
- `Strings`: .NET's `Char.IsWhiteSpace`, `String.Trim` and `String.IsNullOrWhiteSpace`.
- `Store`: the tables, their lookups and invariants, and the lemmas that the updates keep the invariants.
- `FriendsController`, `ChatController`, `ChatHub`: the actions.

Modelling choices:

- `Guid` is `int`. The code only uses equality and the order given by `CompareTo` and `<`.
- `DateTime` is `nat`. The current time is a parameter `now`.
- The caller's identity `me` is a parameter.
- A `null` string is `None`: the hub's `text` parameter and the `Text` of the REST send body are both `Option<string>`.

Behaviour of the code worth knowing when reading the model:

- History orders by `SentAt` alone, so messages sent at the same instant have no defined order. It returns the whole
  dialog in one response.
- Neither history nor REST send consults the friendship table; only the realtime hub admits friends alone.
- The friendship actions are request, accept and cancel. Cancel removes the pair's record whatever its status or
  direction, and no action sets `Blocked`.
- The incoming and outgoing lists are returned in no particular order.
- Nothing retries on a uniqueness violation, and the database declares no uniqueness index for friendship pairs or
  dialog pairs. The at-most-one invariants hold here only because every action runs alone and atomically.

## Model

| member | source | states |
|---|---|---|
| `Linq.FirstIndexWhere` | Controllers/FriendsController.cs:87-90 | FirstOrDefault: the index found satisfies the condition and no earlier element does; None exactly when no element does |
| `Linq.Any` | Hubs/ChatHub.cs:18-21 | Any: true exactly when some element satisfies the condition |
| `Models.NewFriendship` | Models/Friendship.cs:9-13 | definition of the property initialisers: a fresh id from the caller, Pending, created now (both user ids are the empty Guid until the action sets them). That a request made by `FriendsController.Request` is Pending, created now and carries an id no earlier record has is stated in its ensures, through `RequestAdded` |
| `Models.ToDto` | Controllers/ChatController.cs:34 | definition of the projection from a stored message to what a client receives: sender, text and time, no dialog id |
| `Strings.IsWhiteSpace` | Hubs/ChatHub.cs:36-37 | definition of the characters .NET's Char.IsWhiteSpace accepts, which both Trim and IsNullOrWhiteSpace use: U+0009..U+000D, U+0020, U+0085, U+00A0, U+1680, U+2000..U+200A, U+2028, U+2029, U+202F, U+205F and U+3000 |
| `Strings.IsBlank` | Hubs/ChatHub.cs:37 | definition of the white-space-only test inside IsNullOrWhiteSpace and `[Required]`: every character is white space, the empty string included |
| `Strings.IsNullOrWhiteSpace` | Hubs/ChatHub.cs:37 | definition of String.IsNullOrWhiteSpace: true for null, for the empty string and for a string of white space only |
| `Strings.LeadingWhiteSpace` | Hubs/ChatHub.cs:36 | the leading run it counts is all white space and is followed by a non-white-space character or the end |
| `Strings.TrailingWhiteSpace` | Hubs/ChatHub.cs:36 | the trailing run it counts is all white space and is preceded by a non-white-space character or the start |
| `Strings.TrimStart` | Hubs/ChatHub.cs:36 | the result is a suffix of the input, everything cut before it is white space, and it is empty exactly when the input is blank and otherwise starts with non-white-space |
| `Strings.TrimEnd` | Hubs/ChatHub.cs:36 | the result is a prefix of the input, everything cut after it is white space, and it is empty exactly when the input is blank and otherwise ends with non-white-space |
| `Strings.Trim` | Hubs/ChatHub.cs:36 | the result is no longer than the input; it is empty exactly when the input is blank, and otherwise starts and ends with non-white-space |
| `Strings.TrimKeepsTheMiddle` | Hubs/ChatHub.cs:36 | Trim keeps one contiguous piece of the input, and everything before and after that piece is white space |
| `Strings.TrimmedIsNullOrWhiteSpace` | Hubs/ChatHub.cs:36-37 | the trimmed text counts as null-or-white-space exactly when the input was blank |
| `Store.Involves` | Controllers/FriendsController.cs:87-90 | definition of the pair condition the lookups test: the record links the two users in either direction, as at FriendsController.cs:89-90 and 141-142 |
| `Store.FindPair` | Controllers/FriendsController.cs:87-90 | the lookup in either direction: a found record links the two users, and None means that no record does |
| `Store.IsDialogOf` | Controllers/ChatController.cs:28 | definition of the dialog lookup condition `d.User1Id == a && d.User2Id == b`, as at ChatController.cs:49 and ChatHub.cs:26 |
| `Store.FindDialog` | Controllers/ChatController.cs:28 | a found dialog has exactly the ordered pair (u1, u2), and None means that no dialog has it |
| `Store.Db.constructor` | Data/AppDbContext.cs:6-8 | an empty context over a given user table satisfies the invariant |
| `Store.Db.NewGuid` | Models/Friendship.cs:9 | the id returned is carried by no stored friendship or dialog, and the invariant is kept |
| `Store.PairRecordUnique` | Controllers/FriendsController.cs:87-90 | under the invariant, two records for the same pair are the same record |
| `Store.FindPairFindsTheRecord` | Controllers/FriendsController.cs:140-142 | under the invariant, the lookup finds the pair's one record whichever direction it is asked in |
| `Store.FindDialogFindsTheDialog` | Hubs/ChatHub.cs:26 | under the invariant, the dialog lookup finds the pair's one dialog |
| `Store.AddKeepsFriendshipTableValid` | Controllers/FriendsController.cs:109-116 | adding a request for a pair that has none, between two different users, under a fresh id, keeps the invariant, and the lookup then finds the new record |
| `Store.SetStatusKeepsFriendshipTableValid` | Controllers/FriendsController.cs:100 | changing one record's status keeps the friendship invariant |
| `Store.RemoveKeepsFriendshipTableValid` | Controllers/FriendsController.cs:147-155 | removing a record keeps the invariant and leaves its pair with no record at all |
| `Store.AddKeepsDialogTableValid` | Hubs/ChatHub.cs:28-30 | adding a dialog for an ordered pair that has none, under a fresh id, keeps the dialog and message invariants, and the lookup then finds it |
| `Store.Db.AddDialog` | Hubs/ChatHub.cs:28-30 | for an ordered pair with no dialog, exactly one dialog with that pair and a fresh id is appended, the lookup then finds it, and the invariant is kept |
| `Store.Db.AddMessage` | Hubs/ChatHub.cs:53-54 | a non-blank message from a participant of its stored dialog is appended to the log, and the invariant is kept |
| `Store.AppendKeepsMessageLogValid` | Hubs/ChatHub.cs:46-54 | appending a non-blank message from a participant of its stored dialog keeps the log invariant |
| `FriendsController.OtherParty` | Controllers/FriendsController.cs:34 | definition of OtherId: the addressee when I am the requester, otherwise the requester |
| `FriendsController.List` | Controllers/FriendsController.cs:28-41 | a user is listed exactly when they exist and an Accepted record links them with me, in either direction |
| `FriendsController.Incoming` | Controllers/FriendsController.cs:53-57 | a user is listed exactly when they exist and have a Pending request addressed to me |
| `FriendsController.Outgoing` | Controllers/FriendsController.cs:68-72 | a user is listed exactly when they exist and I have a Pending request addressed to them |
| `FriendsController.ListHasNoDuplicates` | Controllers/FriendsController.cs:28-41 | with one record per pair, no friend is listed twice |
| `FriendsController.IncomingHasNoDuplicates` | Controllers/FriendsController.cs:53-57 | with one record per pair, no requester is listed twice |
| `FriendsController.OutgoingHasNoDuplicates` | Controllers/FriendsController.cs:68-72 | with one record per pair, no addressee is listed twice |
| `FriendsController.FriendNotPending` | Controllers/FriendsController.cs:28-72 | a listed friend never also appears among my incoming or outgoing requests |
| `FriendsController.Request` | Controllers/FriendsController.cs:79-117 | a request to myself is BadRequest, and one to a missing user is NotFound, both with the table unchanged. With no record for the pair, exactly one Pending record (me to them, fresh id, now) is appended and the rest is kept. Their Pending request to me becomes Accepted in place. Any other existing record gives Conflict (already friends, or request exists) with the table unchanged. The invariant is kept and the dialogs and messages are untouched |
| `FriendsController.FindPendingRequest` | Controllers/FriendsController.cs:125-126 | the lookup Accept makes: a found record is a Pending request from the given user to me, and None means that there is none |
| `FriendsController.Accept` | Controllers/FriendsController.cs:121-132 | the status of the Pending request from userId to me, and only that record, becomes Accepted. With no such request the result is NotFound and the table is unchanged |
| `FriendsController.Cancel` | Controllers/FriendsController.cs:136-159 | the pair's record is removed whatever its status or direction, and afterwards the pair has no record. With no record the result is NotFound and the table is unchanged |
| `FriendsController.ReciprocalRequests` | Controllers/FriendsController.cs:97-103 | when two users request each other in turn, the pair ends with exactly one record, and it is Accepted |
| `ChatHub.OrderPair` | Hubs/ChatHub.cs:15 | the result is the two ids, smaller first |
| `ChatHub.OrderPairSymmetric` | Hubs/ChatHub.cs:15 | the result does not depend on argument order |
| `ChatHub.AreFriends` | Hubs/ChatHub.cs:17-21 | true exactly when an Accepted record links the two users in either direction |
| `ChatHub.AreFriendsSymmetric` | Hubs/ChatHub.cs:17-21 | the gate is symmetric in its two users |
| `ChatHub.NobodyIsOwnFriend` | Hubs/ChatHub.cs:41-42 | with no self-records, a user never passes the gate for themself, so the hub refuses messages to oneself |
| `ChatHub.GateMatchesFriendList` | Hubs/ChatHub.cs:17-21 | for an existing user, the gate admits exactly the users the friend list shows |
| `ChatHub.GetOrCreateDialog` | Hubs/ChatHub.cs:23-32 | it returns the dialog of the ordered pair. An existing dialog is returned with the table unchanged; otherwise exactly one dialog with a fresh id is appended. Afterwards the lookup finds the returned dialog, and no other table changes |
| `ChatHub.GetOrCreateDialogTwice` | Hubs/ChatHub.cs:23-32 | two calls, in either argument order, return the same dialog and add at most one dialog in total |
| `ChatHub.StoreDirectMessage` | Hubs/ChatHub.cs:44-54 | the ordered pair's dialog is got or created, and exactly one message (that dialog, me, the given text, now) is appended to the log |
| `ChatHub.OrEmpty` | Hubs/ChatHub.cs:36 | definition of `text ?? ""`: a null text becomes the empty string |
| `ChatHub.SendDirectMessage` | Hubs/ChatHub.cs:34-60 | null, empty or white-space text is dropped with nothing changed. A non-friend target gets the HubException with nothing changed, so no dialog is created either. Otherwise the dialog is got or created, exactly one message is appended (the trimmed text, from me, at now), and the push names exactly {me, target} |
| `ChatController.CompareTo` | Controllers/ChatController.cs:26 | definition of Guid.CompareTo as its sign: negative exactly when the first id is smaller, zero when they are equal |
| `ChatController.CanonicalPair` | Controllers/ChatController.cs:26 | the result is the two ids, smaller first |
| `ChatController.CanonicalPairSymmetric` | Controllers/ChatController.cs:47 | the key does not depend on which user asks |
| `ChatController.CanonicalPairIsHubOrder` | Controllers/ChatController.cs:47 | the REST key and the hub key of a pair are equal, so both paths reach the same dialog |
| `ChatController.Thread` | Controllers/ChatController.cs:32 | holds only logged messages of the dialog, and every logged message of the dialog |
| `ChatController.ThreadCounts` | Controllers/ChatController.cs:32 | the thread holds each message of the dialog exactly as often as the log does |
| `ChatController.ThreadAppend` | Controllers/ChatController.cs:57-63 | a message appended to the dialog comes last in its thread, and one appended to another dialog leaves the thread unchanged |
| `ChatController.Dtos` | Controllers/ChatController.cs:34 | definition of the `Select` projection: the same length as the messages, with `ToDto` applied to each in place |
| `ChatController.SortedIsNonDecreasing` | Controllers/ChatController.cs:33 | in a sequence where each message is no later than the next, every message is no later than every later one |
| `ChatController.ConsKeepsSorted` | Controllers/ChatController.cs:33 | a message no later than the first of a time-ordered sequence can be put in front of it |
| `ChatController.InsertBySentAt` | Controllers/ChatController.cs:33 | inserting into a time-ordered sequence keeps it ordered and adds exactly the one element; the first element is the new one or the old first |
| `ChatController.SortBySentAt` | Controllers/ChatController.cs:33 | the result is ordered by non-decreasing time and is a permutation of the input |
| `ChatController.History` | Controllers/ChatController.cs:23-38 | empty when the pair has no dialog; otherwise a time-ordered permutation of the projections of the dialog's messages. It is a function, so it creates nothing and changes nothing |
| `ChatController.DtosOfThread` | Controllers/ChatController.cs:32-34 | an entry is in the projected thread exactly when some logged message of the dialog projects to it |
| `ChatController.HistoryHoldsTheDialogsMessages` | Controllers/ChatController.cs:31-35 | an entry is in the history exactly when some logged message of the pair's dialog projects to it |
| `ChatController.HistoryAfterAppend` | Controllers/ChatController.cs:31-35 | a message appended to the pair's dialog appears in the history once more, and nothing else in the history changes |
| `ChatController.SendRequestIsValid` | Dtos/Dtos.cs:35 | definition of the `[Required, MaxLength(4000)]` annotations on Text: not null, not empty or white space only, and at most 4000 characters |
| `ChatController.Send` | Controllers/ChatController.cs:42-65 | a body that fails validation (null, blank or over-long text) gets the automatic 400, and a send to oneself is BadRequest, both with nothing changed. Otherwise the canonical pair's dialog is got or created (created only when missing) and exactly one message is appended (dialog, me, the text as given, untrimmed, now). Friendships are never read or changed |

## Left out

- Concurrency: every action is modelled as atomic, one at a time. The code has no retry on a uniqueness violation, and the database declares no uniqueness index for friendship or dialog pairs. Two interleaved requests could therefore create two records, which this model does not show.
- SignalR delivery (`Clients.Users(...).SendAsync`): only the set of users the push names is modelled, as the `Pushed` result returned after the message is stored.
- Wall-clock time and `Guid.NewGuid`: time is the parameter `now`, and fresh ids come from a counter in the context.
- The claim lookup that yields the caller's id: `me` is a parameter.
- The user names and e-mails in `FriendDto`: the lists return user ids. The join with the user table is modelled as the condition that the user exists.
- Row order of the list queries: the model keeps table order, while the database promises none. Their contracts state only membership and the absence of duplicates.
- Row order of `FirstOrDefault` without an `OrderBy`: `Linq.FirstIndexWhere` returns the first match in table order, while the database promises no particular match. Under `Store.Db.Valid()` every lookup in the core has at most one match, so nothing depends on which match is picked.
- Tie order in history: `OrderBy(SentAt)` in the database gives no order among messages with equal `SentAt`. The model sorts with a stable insertion sort, but `History` promises only sortedness and permutation.
- The DirectDialog and DirectMessage model files are not part of this model. Their fields are taken from how the code uses them. On the REST path `SentAt` is not set explicitly, so the model assumes that it defaults to the current time (`now`).
- Models/Dtos.cs (an older set of DTOs) and the Users-only schema in Data/AppDbContext.cs are not part of this model.
- Request validation before `ChatController.Send`: only the two annotations on `Text` are modelled (required, which rejects null, empty and white space, and a maximum length of 4000). The model counts length in Unicode scalar values, while .NET counts UTF-16 code units. `[Required]` on the `Guid RecipientId` always passes.
- `Cancel`'s empty `NotFound()` is `NotFound("")`. The HubException is the result `HubError` with its message, not a thrown exception.
- Authentication, registration, user search, tokens and program start-up are outside the relationship and messaging core.
