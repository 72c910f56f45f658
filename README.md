# A verified model of the chat server's core

This project models the server side of a small chat application
(`chat-server/bin`). The model has three parts:

- **The room directory and the presence and broadcast engine** (`rooms.js`).
  - Rooms are created, including a list of default rooms created at start-up.
  - Listing rooms gives each room's number of distinct users, most populated first.
  - One room can be read, with its user list de-duplicated, or with its message history oldest first.
  - A socket connection is handled step by step: token check, room-name check, room-existence check, then join. The handlers for chat messages and disconnection follow.
- **The credential store** (`users.js`): signup validation in a fixed order, insertion of hashed credentials, and signin by email and password.
- **The error taxonomy** (`errors.js`): one closed datatype giving every error kind its message template and status code.

The stores are abstracted as follows:
- The MongoDB `rooms` and `users` collections are sequences of documents, kept in insertion order.
- `findOne` selects the first document with a matching name; `find(…).toArray()` is used only for its length or its first element. `updateOne` with `$push` and `$pull` is a pure function on the collection.
- socket.io room membership is a map from room name to the set of connection ids joined to it.
- Every `emit` is appended to an outbox, together with the set of connections it reaches.

External libraries become abstract parameters:
- The SHA-256/base64 password digest is an injective constructor.
- The email-validator library is a predicate `isEmail` passed in.
- A JSON web token records its username, issue time and signing key, and verifies exactly under the key it was signed with.
- `toLowerCase` works on ASCII letters.
- Wall-clock time is an integer `now` passed in.

Modules, one per file:
- `Wrappers`: `Option`, `Result`, `Outcome`.
- `Collections`: JavaScript's `filter`, `[...new Set(…)]`, a stable sort by key, and `$pull`'s removal of every copy.
- `Text`: truthiness, `toLowerCase`, `includes`, and the forbidden-word filter.
- `Errors`: `errors.js`.
- `Tokens`: JWT signing and verification.
- `ChatRooms`: `rooms.js`, with the class `Rooms`.
- `Accounts`: `users.js`, with the class `Users`.

Two behaviours of the code that a reader might not expect, both kept in the model:
- **A connection without a room name is disconnected.** The handler's log call at rooms.js:170 names an undefined variable `msg`. That throws, and the catch block at rooms.js:199-205 disconnects the socket, because the error is not a `NoSuchRoomError`. A connection to an unknown room, by contrast, is left connected but not admitted.
- **Signup checks run in the code's order:**
  1. missing username;
  2. missing password;
  3. missing email;
  4. malformed email;
  5. forbidden username;
  6. email taken;
  7. username taken.

A consequence of the code that the model keeps: `$pull` removes every copy of a username. A user with two sockets in one room therefore disappears from the stored user list as soon as either socket disconnects.

## Model

| member | source | states |
|---|---|---|
| `Collections.Filter` | chat-server/bin/rooms.js:48 | `filter` keeps exactly the elements satisfying the predicate, each with its multiplicity |
| `Collections.Without` | chat-server/bin/rooms.js:36 | `$pull` removes every copy of the value and leaves every other element's multiplicity unchanged |
| `Collections.Distinct` | chat-server/bin/rooms.js:87 | `[...new Set(s)]` has no duplicates and holds exactly the elements of `s` |
| `Collections.DistinctKeepsFirstOccurrenceOrder` | chat-server/bin/rooms.js:107 | the de-duplicated list keeps the elements in order of first occurrence, as a JavaScript Set iterates |
| `Collections.DistinctSize` | chat-server/bin/rooms.js:87 | the length of the de-duplicated list is the number of distinct elements |
| `Collections.SortBy` | chat-server/bin/rooms.js:89 | sorting by a key yields a permutation that is non-decreasing in the key |
| `Text.Lower` | chat-server/bin/rooms.js:48 | `toLowerCase` keeps the length |
| `Text.LowerCases` | chat-server/bin/rooms.js:48 | after `toLowerCase` no upper-case letter is left, only upper-case letters were changed, and lower-casing again changes nothing |
| `Text.Includes` | chat-server/bin/rooms.js:48 | `includes` can only hold when the word is no longer than the string, and always holds for the empty word |
| `Text.ContainsForbiddenIff` | chat-server/bin/users.js:42 | the forbidden-word filter's result is non-empty exactly when some listed word, lower-cased, is included in the lower-cased string |
| `Text.IncludesIff` | chat-server/bin/rooms.js:48 | `includes` is true exactly when the word occurs at some index |
| `Text.ForbiddenWhenEmbedded` | chat-server/bin/rooms.js:48 | a forbidden word, in any letter case and anywhere inside the string (even inside a longer word), makes the string forbidden |
| `Text.EmbeddedWhenForbidden` | chat-server/bin/users.js:42 | conversely, a forbidden string holds some listed word, in some letter case, at some index |
| `Errors.Code` | chat-server/bin/errors.js:1-62 | every error's code is 400, 401 or 404; it is 401 exactly for `UnauthenticatedTokenError` and 404 exactly for `NoSuchRoomError` |
| `Errors.Message` | chat-server/bin/errors.js:8-62 | every error kind other than a bare `BadRequest` has a non-empty message |
| `Errors.MessageEmbedsArgument` | chat-server/bin/errors.js:8-56 | every message embeds its constructor's argument (email, username, room name) verbatim |
| `Errors.MessageDeterminesError` | chat-server/bin/errors.js:8-56 | within one error class that takes an argument, equal messages mean equal arguments: a `WrongSigninError` message names its email and reveals nothing else |
| `Errors.Respond` | chat-server/bin/rooms.js:73-77 | a handler's catch block answers a failure with the error's own code and message, never 500, and a success with its payload |
| `Tokens.Verify` | chat-server/bin/rooms.js:150 | a token verifies exactly when it was signed with the server's secret, and yields the username it was signed for |
| `Tokens.VerifySigned` | chat-server/bin/users.js:68 | a token the server signs verifies under its secret to the signed username, and under no other key |
| `ChatRooms.FindRoom` | chat-server/bin/rooms.js:103 | `findOne({name})` selects the first document with that name, or none exactly when no document has it |
| `ChatRooms.Lookup` | chat-server/bin/rooms.js:103 | `findOne({name})` yields a stored document with that name, and nothing exactly when no document has it |
| `ChatRooms.UpdateOne` | chat-server/bin/rooms.js:31 | `updateOne` rewrites only the first document with that name and leaves every other document, including later ones of the same name, as it was; it changes no name and does nothing when the room is missing |
| `ChatRooms.PushUser` | chat-server/bin/rooms.js:30-33 | `$push` appends one copy of the username to that room's users; other rooms are unchanged |
| `ChatRooms.PullUser` | chat-server/bin/rooms.js:35-38 | `$pull` removes every copy of the username from that room's users; other rooms are unchanged |
| `ChatRooms.PushMessage` | chat-server/bin/rooms.js:123-125 | `$push` on `messages` appends the message to that room's history; other rooms are unchanged |
| `ChatRooms.GetRooms` | chat-server/bin/rooms.js:82-90 | one entry per stored room, a permutation of the per-room summaries, ordered non-increasing by user count |
| `ChatRooms.GetRoomsCountsDistinctUsers` | chat-server/bin/rooms.js:87 | each entry names a stored room and counts the distinct usernames in its user list |
| `ChatRooms.GetRoom` | chat-server/bin/rooms.js:102-108 | fails with `NoSuchRoom(name)` exactly when the room is missing; otherwise exactly the stored usernames, without duplicates, in first-occurrence order |
| `ChatRooms.GetRoomMessages` | chat-server/bin/rooms.js:127-133 | fails with `NoSuchRoom(name)` exactly when the room is missing; otherwise a permutation of the stored messages, non-decreasing in `ts` |
| `ChatRooms.SavedMessageInHistory` | chat-server/bin/rooms.js:123-133 | after a message is saved to an existing room, that room's history contains it |
| `ChatRooms.CreateMessage` | chat-server/bin/rooms.js:156-162 | the message carries the time and text, and a `username` exactly when the argument is truthy |
| `ChatRooms.ValidateCreateRoomRequest` | chat-server/bin/rooms.js:60-64 | passes exactly when `room_name` is truthy; the failure is a 400 |
| `ChatRooms.ValidateRequest` | chat-server/bin/rooms.js:148-154 | a token that does not verify gives `UnauthenticatedTokenError` with code 401; otherwise the token's username |
| `ChatRooms.DefaultsDone` | chat-server/bin/rooms.js:19-24 | after the loop over all default names: the stored rooms are kept, and only fresh, empty, allowed default rooms are added, each with a name the collection did not hold before; every allowed default name is stored; names stay unique; a run when all were stored adds nothing |
| `ChatRooms.Rooms.constructor` | chat-server/bin/rooms.js:8-21 | starts from the given options and collection, with no sockets and nothing emitted |
| `ChatRooms.Rooms.CreateRoom` | chat-server/bin/rooms.js:40-58 | existence is checked before forbidden words: an existing name gives `RoomExists`, and a forbidden new name gives `ForbiddenRoomName`; in default mode both return silently; either way nothing is inserted; a fresh, clean name adds exactly one room with no users and no messages; unique names are preserved |
| `ChatRooms.Rooms.CreateDefaultRooms` | chat-server/bin/rooms.js:19-24 | never fails; keeps the stored rooms; adds only fresh, empty, allowed default rooms whose names were not stored before; afterwards every allowed default name exists; a run when they all exist already changes nothing; names stay unique |
| `ChatRooms.Rooms.PresenceEvent` | chat-server/bin/rooms.js:27 | at most one `users-in-room` event, present exactly when the room exists, sent to the room's sockets with the room's name and its stored usernames without duplicates, in first-occurrence order, exactly the list `_getRoom` returns |
| `ChatRooms.Rooms.UpdateUsersSockets` | chat-server/bin/rooms.js:26-28 | emits `users-in-room`, with the de-duplicated user list, to the room's sockets; nothing is emitted for a missing room |
| `ChatRooms.Rooms.AddUserToRoom` | chat-server/bin/rooms.js:30-33 | `$push` of the username, then the presence broadcast |
| `ChatRooms.Rooms.RemoveUserFromRoom` | chat-server/bin/rooms.js:35-38 | `$pull` of the username, then the presence broadcast |
| `ChatRooms.Rooms.SaveMessage` | chat-server/bin/rooms.js:123-125 | appends the message to that room's history, leaving every other room unchanged, and keeps room names unique |
| `ChatRooms.Rooms.CreateRoomHandler` | chat-server/bin/rooms.js:66-80 | a missing room name gives 400 "no room name provided"; an existing or forbidden name gives 400 with that error's message; otherwise 200 "room '…' was created" and exactly one room added |
| `ChatRooms.Rooms.GetRoomsHandler` | chat-server/bin/rooms.js:92-100 | always 200 with the room list of `GetRooms`: one entry per room, most populated first |
| `ChatRooms.Rooms.GetRoomHandler` | chat-server/bin/rooms.js:110-121 | the reply is `GetRoom` answered by the catch block: an unknown room is a 404 with the `NoSuchRoomError` message; otherwise 200 with the de-duplicated user list in first-occurrence order |
| `ChatRooms.Rooms.GetPreviousMessagesHandler` | chat-server/bin/rooms.js:135-146 | the reply is `GetRoomMessages` answered by the catch block: an unknown room is a 404; otherwise 200 with the history permuted into non-decreasing `ts` order |
| `ChatRooms.Rooms.Connect` | chat-server/bin/rooms.js:164-181 | the outcome depends on the handshake:<br>• a bad token disconnects;<br>• a missing room name disconnects;<br>• an unknown room is not admitted;<br>in these three cases nothing changes.<br>Otherwise the socket joins the room, the others get the join notice, the username is pushed, and the presence broadcast and then the private welcome, stamped with its own later time, follow. |
| `ChatRooms.Rooms.OnUserMessage` | chat-server/bin/rooms.js:189-198 | a message with a forbidden word sends one notice to the sender only and stores nothing; any other message goes to every socket in the room, sender included, and is then appended to that room's history |
| `ChatRooms.Rooms.OnDisconnect` | chat-server/bin/rooms.js:182-188 | the others get the leave notice, the socket leaves the room, every copy of the username is pulled, and the presence broadcast follows |
| `Accounts.VerifySignupRequest` | chat-server/bin/users.js:79-92 | checks in order: missing username, missing password, missing email, malformed email; each failure is reached exactly when the earlier checks pass; a falsy value counts as missing; every failure is a 400 |
| `Accounts.VerifySigninRequest` | chat-server/bin/users.js:94-101 | a missing email is reported before a missing password |
| `Accounts.UserExistsByEmail` | chat-server/bin/users.js:24-26 | the count is non-zero exactly when some account has the email |
| `Accounts.UserExistsByUsername` | chat-server/bin/users.js:20-22 | the count is non-zero exactly when some account has the username |
| `Accounts.Hash` | chat-server/bin/users.js:54 | the digest determines the password, so signin matches exactly the password given at signup |
| `Accounts.SignupOutcome` | chat-server/bin/users.js:61-66 | the request checks come first and their failure is the outcome; the whole chain passes exactly when all fields are present, the email is well formed, the username is clean and neither email nor username is taken; every failure is a 400 |
| `Accounts.NewUserCheck` | chat-server/bin/users.js:42-50 | checks in order: forbidden username, email taken, username taken; each failure is reached exactly when the earlier checks pass; every failure is a 400 |
| `Accounts.GetUserByEmailAndPassword` | chat-server/bin/users.js:28-37 | succeeds exactly when an account has that email and that password's digest; every failure is `WrongSignin(email)` |
| `Accounts.SigninOutcome` | chat-server/bin/users.js:103-110 | a token exactly when both fields are present and an account matches; the token is for the username of an account matching both the email and the password digest; with both fields present, the only failure is `WrongSignin(email)` |
| `Accounts.NewUserKeepsIdentitiesUnique` | chat-server/bin/users.js:45-55 | inserting an account that passed the checks keeps emails and usernames unique across the store |
| `Accounts.SigninAfterSignup` | chat-server/bin/users.js:108-110 | after a successful signup, signing in with the same email and password yields a token for the signed-up username |
| `Accounts.RepeatedSignupFailsOnEmail` | chat-server/bin/users.js:45-47 | repeating a successful signup fails with `EmailExistsError` |
| `Accounts.SameUsernameFailsOnUsername` | chat-server/bin/users.js:48-50 | a well-formed signup that reuses a username with a new email fails with `UsernameExistsError` |
| `Accounts.WrongPasswordRefused` | chat-server/bin/users.js:28-37 | with unique emails, a wrong password fails with the same `WrongSigninError` that an unknown email gets |
| `Accounts.Users.constructor` | chat-server/bin/users.js:8-18 | starts from the given options and `users` collection |
| `Accounts.Users.AddNewUser` | chat-server/bin/users.js:39-56 | runs the checks of `_addNewUser`; on success it appends exactly one account `{email, username, hash(password)}`, and never stores the raw password; on failure it inserts nothing; unique identities are preserved |
| `Accounts.Users.Signup` | chat-server/bin/users.js:58-77 | request checks then store checks; a failure is answered 400 with the error's message (the error's own code), and nothing is stored; success returns a token for the username and stores one account, and a later signin with the same email and password yields that token |
| `Accounts.Users.Signin` | chat-server/bin/users.js:103-119 | the reply is the signin outcome; its fixed 400 is the code of every error signin can meet |

## Left out

- Asynchrony and concurrency: each handler runs to completion in one sequential interleaving.
  - `Promise.all` over the default rooms (rooms.js:22) is modelled as a loop, one room after another. In the code every `_createRoom` runs its `find` (rooms.js:41) before any `insertOne` (rooms.js:56), so a default list that repeats a name not yet stored inserts that name twice on the first start-up. The "names stay unique" promises of `ChatRooms.Rooms.CreateDefaultRooms` and `ChatRooms.DefaultsDone` hold for the sequential run only.
  - The un-awaited `_addUserToRoom` (rooms.js:181) completes before the handler returns.
  - The one-second `setTimeout` welcome (rooms.js:177-179) is emitted last in `Connect`. Its time stamp is a separate parameter `welcomeAt`, since the callback builds the message when the timer fires.
  - Messages and disconnections that race with a pending join are not modelled.
- socket.io transport details: a connection id is a natural number. `socket.to(room)` is the room's sockets minus the sender, and `io.to(room)` is all of the room's sockets.
- Database failures and the 500 replies they cause are not modelled: the in-memory collections never fail. A JWT payload without a `username` field is not modelled either.
- Request bodies whose fields are not strings: each field is an optional string. A present, non-empty string is truthy.
- `toLowerCase` beyond ASCII letters; Unicode case mapping is not modelled.
- Logging (bunyan) has no effect on the model.
- `Collections.SortBy`: stated as a sorted permutation. Its stability (equal keys keep their collection order, as `Array.prototype.sort` guarantees) holds of the definition but is not stated in its contract.
- The Express wiring of the server (chat-server/bin/server.js), including its own `validateRequest` middleware, is not part of this model. Neither is the bootstrap file nor the Angular client.
