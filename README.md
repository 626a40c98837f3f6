# Real-time chat core: presence, rooms and message delivery

This project models, in Dafny, the in-memory real-time core of a chat backend
built on socket.io and a MongoDB message collection, together with the REST
history lookup that shares its room-id rule.

- **Room resolver** (`RoomIds`): a room id is the two user ids sorted with
  JavaScript's default array sort and joined with `"_"`. Strings are sequences
  of UTF-16 code units, and `Below` is JavaScript's `<` on strings, so the
  order is exactly the one the default sort comparator uses.
- **Message model** (`MessageModel`): the stored message with its schema
  defaults and the save step. A missing or empty `messageText` fails
  validation. An unavailable store fails the write. Ids and timestamps come
  from the store: the id is the position in the collection, and both
  timestamps are a counter that increases with every save.
- **Queries** (`MessageQueries`): selection by a criterion and the ascending
  sort on `createdAt` (a stable insertion sort). `History` is the join-time
  history: messages between the two users in either direction, oldest first.
- **REST lookup** (`MessageController`): `getAllMessages` resolves the room
  and returns every stored message of that room. It is a function of the
  store, so it only reads it.
- **Presence registry** (`Presence`): the `onlineUsers` Map, kept as its
  entries in insertion order. `set` on an existing key keeps the key's
  position, `delete` drops the entry, and the disconnect lookup is the first
  entry, in that order, whose socket matches.
- **Server** (`ChatServer.Server`): one class whose fields are the namespace's
  sockets, the registry, the room memberships, the message store with its
  clock, and an outbox. Each socket handler is a method that runs start to
  finish. Every emit is appended to the outbox together with the set of
  sockets it reaches at that moment: the whole namespace for `io.emit`, the
  asking socket for `socket.emit`, and the room's members for
  `io.to(room).emit`. Store calls are atomic steps whose availability is a
  parameter.

Behaviour of the code that the model keeps on purpose:

- The disconnect handler tests the found user id for truthiness
  (`src/app.js:65`). An entry whose user id is the empty string is found but
  never removed, and no offline status is emitted for it.
- Disconnect removes at most one entry. If two users are registered on one
  socket, the one whose key was first inserted into the Map later stays
  registered after the socket leaves (`Presence.DisconnectKeepsLaterSharer`).
  A re-announce does not move a key, so this is not always the user
  announced later on that socket.
- socket.io removes a socket from its rooms and from the namespace before
  the `disconnect` handler runs. The offline status therefore goes to the
  remaining sockets only.
- socket.io puts every socket in the room named by its own id on connection.
  A room emit for a resolved room id that equals some socket's id therefore
  reaches that socket even if it never joined the chat. Socket ids can
  contain `"_"`, so this can happen.
- The join-time history selects by participants (`src/app.js:37-41`). The
  REST lookup selects by room id (`src/controllers/message.controller.js:13`).
  They agree when no id contains `"_"`. They can differ otherwise
  (`MessageController.RoomLookupCanDifferFromHistory`), because the resolver
  is not injective on such ids (`RoomIds.RoomCollision`).
- Disconnecting a socket takes offline the user of the first entry on that
  socket, in insertion order, when that id is not empty
  (`Presence.DisconnectTakesOwnerOffline`). Other users on the same socket
  stay registered.

## Model

| member | source | states |
|---|---|---|
| `RoomIds.Room` | src/app.js:33 | the room id has both ids and the separator; the id that sorts first under JavaScript string order comes first |
| `RoomIds.BelowAsymmetric` | src/app.js:33 | the string order the sort uses never holds both ways |
| `RoomIds.BelowTotal` | src/app.js:33 | any two different ids are ordered one way or the other |
| `RoomIds.RoomSymmetric` | src/app.js:48 | the room of (a, b) equals the room of (b, a) |
| `RoomIds.RoomParts` | src/controllers/message.controller.js:11 | the room id is `a_b` or `b_a`, so it starts with one of the two ids |
| `RoomIds.RoomDeterminesPair` | src/app.js:33 | for ids without `"_"`, equal rooms mean the same unordered pair of users |
| `RoomIds.RoomCollision` | src/app.js:33 | ("a_b", "c") and ("a", "b_c") share the room "a_b_c": the resolver is not injective |
| `MessageModel.Save` | src/app.js:50-58 | validation fails exactly when the room id or the text is missing or empty; otherwise the write fails exactly when the store is unavailable; a saved message carries the given fields, `isRead` false and equal creation and update times |
| `MessageModel.SaveKeepsStoreValid` | src/models/message.models.js:3-30 | appending a saved message keeps ids, well-formedness and strictly increasing creation times |
| `MessageModel.SendValidation` | src/models/message.models.js:17-20 | with a resolved room id, validation fails exactly when the message text is missing or empty |
| `MessageQueries.Filter` | src/app.js:37-41 | the selection holds each message that meets the criterion exactly as often as the store does, and no other |
| `MessageQueries.FilterAscending` | src/app.js:37-42 | selecting from a store sorted by creation time keeps it sorted |
| `MessageQueries.Insert` | src/app.js:42 | insertion adds exactly one message to the sequence |
| `MessageQueries.InsertAscending` | src/app.js:42 | insertion into a sorted sequence keeps it sorted |
| `MessageQueries.SortByCreatedAt` | src/app.js:42 | the sort is a permutation and is ordered by non-decreasing creation time |
| `MessageQueries.SortKeepsSorted` | src/app.js:42 | sorting an already ordered sequence leaves it unchanged |
| `MessageQueries.History` | src/app.js:37-42 | the history holds exactly the stored messages from u to r or from r to u, with their multiplicities, ordered by creation time |
| `MessageQueries.HistorySymmetric` | src/app.js:38-41 | the history of (u, r) equals the history of (r, u) |
| `MessageQueries.HistoryInSaveOrder` | src/app.js:37-42 | in a valid store the history is the pair's messages in the order they were saved |
| `MessageQueries.SingleMessageHistory` | src/app.js:37-44 | a store holding one message of the pair yields exactly that message as history |
| `MessageController.GetAllMessages` | src/controllers/message.controller.js:7-20 | every returned message has the resolved room id, and every stored message of that room is returned as often as it is stored |
| `MessageController.GetAllMessagesSymmetric` | src/controllers/message.controller.js:11 | the lookup for (s, r) equals the lookup for (r, s) |
| `MessageController.SavedMessageListed` | src/controllers/message.controller.js:11-13 | a message saved for (s, r) is listed by the lookup for (s, r) and for (r, s) |
| `MessageController.InRoomIffBetween` | src/controllers/message.controller.js:13 | for a well-formed message and ids without `"_"`, being in the room of (s, r) is the same as being between s and r |
| `MessageController.RoomLookupMatchesHistory` | src/controllers/message.controller.js:13 | for ids without `"_"`, the lookup and the join-time history select the same messages |
| `MessageController.RoomLookupCanDifferFromHistory` | src/controllers/message.controller.js:11-13 | a message from "a_b" to "c" is listed for ("a", "b_c") but is not in that pair's history |
| `Presence.Get` | src/app.js:14 | the Map gives a socket for u exactly when u is a key, and with distinct keys it is u's entry |
| `Presence.Set` | src/app.js:18 | after `set` u maps to the new socket and every other user keeps its socket; an existing key keeps its position and a new key goes last |
| `Presence.SetKeepsDistinct` | src/app.js:18 | `set` keeps the Map's keys distinct |
| `Presence.Delete` | src/app.js:23 | after `delete` u is absent, every other user keeps its socket, an entry remains exactly when it was there with another key, and an absent u leaves the Map unchanged |
| `Presence.DeleteKeepsDistinct` | src/app.js:23 | `delete` keeps the Map's keys distinct |
| `Presence.DeleteKeepsOrder` | src/app.js:23 | `delete` of a present key cuts out exactly that key's entry: the entries before and after it keep their insertion order |
| `Presence.FirstWithSocket` | src/app.js:64 | the position found is the first entry in insertion order with this socket, and none is found exactly when no entry has it |
| `Presence.FindUserBySocket` | src/app.js:64 | the linear scan returns the key of the first entry with this socket, or nothing when no entry has it |
| `Presence.DisconnectedUser` | src/app.js:64-65 | a user is taken offline exactly when the first entry in insertion order with this socket has a non-empty key, and that key is the user; with distinct keys that user is registered on this socket |
| `Presence.AfterDisconnect` | src/app.js:63-68 | disconnect deletes the user found and nothing else, leaves the Map unchanged when none is found, and keeps keys distinct |
| `Presence.SetTwice` | src/app.js:18 | last writer wins: two `set`s for one user equal the second alone |
| `Presence.DeleteTwice` | src/app.js:22-25 | a second `delete` of a user changes nothing |
| `Presence.StaleHandleSafe` | src/app.js:63-68 | after u is re-registered on a new socket, disconnecting the old socket leaves u on the new one |
| `Presence.DisconnectTakesOwnerOffline` | src/app.js:63-68 | the non-empty user of the first entry on the socket is offline after it disconnects |
| `Presence.DisconnectKeepsLaterSharer` | src/app.js:64-66 | when two users share a socket, the one at the later Map position keeps its entry after disconnect |
| `ChatServer.StatusOf` | src/app.js:28 | the status is online exactly when the user is a key of the registry |
| `ChatServer.OnlineThenOffline` | src/app.js:17-25 | a user set online reads online, and reads offline after one or two offline announcements |
| `ChatServer.Server.Members` | src/app.js:60 | a socket is reached by a room emit exactly when it is in that room, by joining it or because the room is named by its own id |
| `ChatServer.Server.constructor` | src/app.js:14 | the server starts with no sockets, an empty registry, no rooms, an empty store and no emits |
| `ChatServer.Server.Connect` | src/app.js:16 | a new socket joins the namespace and the room named by its own id, and nothing else changes |
| `ChatServer.Server.UserOnline` | src/app.js:17-20 | the registry becomes `set(u, this socket)`, only registry and outbox change, and one online status goes to every socket |
| `ChatServer.Server.UserOffline` | src/app.js:22-25 | the registry becomes `delete(u)`, and one offline status goes to every socket whether or not u was present |
| `ChatServer.Server.CheckUserStatus` | src/app.js:27-30 | the reply is online exactly when u is registered, it goes to the asking socket only, and only the outbox changes |
| `ChatServer.Server.JoinRoom` | src/app.js:32-45 | the socket joins the resolved room; when the store answers, the socket alone receives the pair's history; otherwise nothing is emitted |
| `ChatServer.Server.SendMessage` | src/app.js:47-61 | the result is the save's outcome; on success exactly that message is appended and then emitted to every member of its room; on failure nothing changes and nothing is emitted |
| `ChatServer.Server.Disconnect` | src/app.js:63-70 | the socket leaves the namespace and its rooms; the registry loses the user found by the scan, and an offline status goes to the remaining sockets exactly when one is found |
| `ChatServer.ConnectBoth` | src/app.js:16 | after two sockets connect, each is in its own-id room only, no user is registered and the store is empty |
| `ChatServer.AnnounceBoth` | src/app.js:16-20 | after two sockets announce two users, both users read online |
| `ChatServer.OpenChat` | src/app.js:32-45 | the first socket to join an empty chat gets an empty history, and joining from either side subscribes both sockets to one room |
| `ChatServer.TwoUsersChat` | src/app.js:47-61 | the sent message is stored with the given sender, receiver and text in the pair's room, it is emitted once, to exactly the two joined sockets, and a socket joining later receives exactly that message as history |

## Left out

- Transport and server plumbing: socket.io's wire protocol, the HTTP server, CORS, body parsing, static files, cookies and route wiring (`src/app.js:1-12`, `src/app.js:73-94`, the route files). Emits are appends to the outbox.
- Interleaving of handlers around the awaited store calls: each store call is one atomic step, and the model is sequential.
- `translateMessage`: an external HTTP call. Its failure test checks the handler function itself rather than the response, so that branch can never run.
- The user controller, the user model, the unused chat-room model, the upload middleware and `asyncHandler` (whose fallback status is 5000 when the error has no code): password hashing, tokens, uploads and other library calls.
- The REST response envelope and the REST path's store failures: `getAllMessages` is the selection it returns.
- Casting of `senderId`/`receiverId` to Mongo object ids: ids are plain strings, so a save that the cast would reject is not modelled.
- Ids that are not strings (numbers, `undefined`) sent by a client: every id is a string here.
- The process-level effect of a rejected save or find: the handler's promise rejection is unhandled, so the model only records that nothing further happens in that handler.
- Real timestamps: creation times come from a counter that increases on every save, so two messages never share a creation time; real millisecond timestamps can tie.
- The order of `getAllMessages`: the query has no sort, and the model returns store order.
- `console.log` calls.
- `isRead` is never changed by any handler, so it keeps its default.
