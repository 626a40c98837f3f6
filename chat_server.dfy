/**
 * The socket handlers of the chat server (src/app.js:16-71), as one object
 * whose methods run each handler start to finish. Awaited store calls are
 * single steps whose availability is a parameter; everything a handler emits
 * is appended to `outbox` together with the sockets it reaches.
 */
module ChatServer {
  import opened Options
  import opened RoomIds
  import opened MessageModel
  import opened MessageQueries
  import opened Presence

  datatype Status = Online | Offline

  /** What the server emits: 'userStatus', 'previousMessages' and 'receiveMessage'. */
  datatype Payload =
    | UserStatus(userId: UserId, status: Status)
    | PreviousMessages(messages: seq<Message>)
    | ReceiveMessage(message: Message)

  /** One emit, with the sockets it is delivered to at the moment it is made. */
  datatype Emit = Emit(recipients: set<SocketId>, payload: Payload)

  /** `onlineUsers.has(userId) ? 'online' : 'offline'` (src/app.js:28). */
  function StatusOf(reg: Registry, u: UserId): (st: Status)
    ensures st == Online <==> Has(reg, u)
  {
    if Has(reg, u) then Online else Offline
  }

  /**
   * A user announced online reads as online; after an offline announcement
   * (one or more) the same user reads as offline.
   */
  lemma OnlineThenOffline(reg: Registry, u: UserId, s: SocketId)
    ensures StatusOf(Set(reg, u, s), u) == Online
    ensures StatusOf(Delete(Set(reg, u, s), u), u) == Offline
    ensures StatusOf(Delete(Delete(Set(reg, u, s), u), u), u) == Offline
  {
  }

  class Server {
    /** The sockets of the namespace: the audience of `io.emit`. */
    var connected: set<SocketId>
    /** `onlineUsers`. */
    var online: Registry
    /**
     * Room membership kept by socket.io: (socket, room) pairs. Every socket
     * is also in the room named by its own id.
     */
    var joined: set<(SocketId, RoomId)>
    /** The message collection, in insertion order. */
    var store: seq<Message>
    /** The store's clock: the creation time of the next saved message. */
    var clock: nat
    /** Every emit so far, oldest first. */
    var outbox: seq<Emit>

    ghost predicate Valid()
      reads this
    {
      && KeysDistinct(online)
      && StoreValid(store, clock)
      && (forall p :: p in joined ==> p.0 in connected)
    }

    /** The sockets `io.to(room)` reaches. */
    function Members(room: RoomId): (r: set<SocketId>)
      reads this
      ensures forall s :: s in r <==> (s, room) in joined
    {
      set p | p in joined && p.1 == room :: p.0
    }

    constructor ()
      ensures Valid()
      ensures connected == {} && online == [] && joined == {}
      ensures store == [] && clock == 0 && outbox == []
    {
      connected, online, joined := {}, [], {};
      store, clock, outbox := [], 0, [];
    }

    /**
     * `io.on('connection')` (src/app.js:16): a new socket joins the namespace
     * and, as socket.io does for every socket, the room named by its own id.
     */
    method Connect(sid: SocketId)
      requires Valid() && sid !in connected
      modifies this`connected, this`joined
      ensures Valid()
      ensures connected == old(connected) + {sid}
      ensures joined == old(joined) + {(sid, sid)}
    {
      connected := connected + {sid};
      joined := joined + {(sid, sid)};
    }

    /**
     * 'userOnline' (src/app.js:17-20): record this socket for the user,
     * replacing any earlier one, and tell every socket.
     */
    method UserOnline(sid: SocketId, userId: UserId)
      requires Valid() && sid in connected
      modifies this`online, this`outbox
      ensures Valid()
      ensures online == Set(old(online), userId, sid)
      ensures outbox == old(outbox) + [Emit(connected, UserStatus(userId, Online))]
    {
      SetKeepsDistinct(online, userId, sid);
      online := Set(online, userId, sid);
      outbox := outbox + [Emit(connected, UserStatus(userId, Online))];
    }

    /**
     * 'userOffline' (src/app.js:22-25): forget the user, if present, and tell
     * every socket in any case.
     */
    method UserOffline(sid: SocketId, userId: UserId)
      requires Valid() && sid in connected
      modifies this`online, this`outbox
      ensures Valid()
      ensures online == Delete(old(online), userId)
      ensures outbox == old(outbox) + [Emit(connected, UserStatus(userId, Offline))]
    {
      DeleteKeepsDistinct(online, userId);
      online := Delete(online, userId);
      outbox := outbox + [Emit(connected, UserStatus(userId, Offline))];
    }

    /**
     * 'checkUserStatus' (src/app.js:27-30): answer the asking socket alone;
     * the registry is not touched.
     */
    method CheckUserStatus(sid: SocketId, userId: UserId) returns (status: Status)
      requires Valid() && sid in connected
      modifies this`outbox
      ensures Valid()
      ensures status == Online <==> Has(online, userId)
      ensures outbox == old(outbox) + [Emit({sid}, UserStatus(userId, status))]
    {
      status := StatusOf(online, userId);
      outbox := outbox + [Emit({sid}, UserStatus(userId, status))];
    }

    /**
     * 'joinRoom' (src/app.js:32-45): subscribe this socket to the pair's room,
     * then, if the store answers, send this socket alone the pair's history.
     */
    method JoinRoom(sid: SocketId, userId: UserId, receiverId: UserId, storeAvailable: bool)
      returns (history: Option<seq<Message>>)
      requires Valid() && sid in connected
      modifies this`joined, this`outbox
      ensures Valid()
      ensures joined == old(joined) + {(sid, Room(userId, receiverId))}
      ensures storeAvailable ==> history == Some(History(store, userId, receiverId))
      ensures storeAvailable ==> outbox == old(outbox) + [Emit({sid}, PreviousMessages(history.value))]
      ensures !storeAvailable ==> history == None && outbox == old(outbox)
    {
      joined := joined + {(sid, Room(userId, receiverId))};
      assert Valid();
      if storeAvailable {
        var messages := History(store, userId, receiverId);
        outbox := outbox + [Emit({sid}, PreviousMessages(messages))];
        history := Some(messages);
      } else {
        history := None;
      }
    }

    /**
     * 'sendMessage' (src/app.js:47-61): build and save the message; only
     * when the save succeeds, deliver it to every socket in its room.
     */
    method SendMessage(senderId: UserId, receiverId: UserId, messageText: Option<JsString>,
                       translatedText: Option<JsString>, storeAvailable: bool)
      returns (saved: Result<Message, SaveError>)
      requires Valid()
      modifies this`store, this`clock, this`outbox
      ensures Valid()
      ensures saved == Save(old(store), old(clock), Room(senderId, receiverId), senderId, receiverId,
                            messageText, translatedText, storeAvailable)
      ensures saved.Ok? ==> store == old(store) + [saved.value] && clock == old(clock) + 1
      ensures saved.Ok? ==> outbox == old(outbox) + [Emit(Members(saved.value.roomId), ReceiveMessage(saved.value))]
      ensures saved.Err? ==> store == old(store) && clock == old(clock) && outbox == old(outbox)
    {
      var roomId := Room(senderId, receiverId);
      saved := Save(store, clock, roomId, senderId, receiverId, messageText, translatedText, storeAvailable);
      if saved.Ok? {
        SaveKeepsStoreValid(store, clock, senderId, receiverId, messageText, translatedText);
        store := store + [saved.value];
        clock := clock + 1;
        outbox := outbox + [Emit(Members(roomId), ReceiveMessage(saved.value))];
      }
    }

    /**
     * 'disconnect' (src/app.js:63-70). The socket has already left its rooms
     * and the namespace when the handler runs; the handler then takes offline
     * the first user registered on this socket, if that id is truthy, and
     * tells the remaining sockets.
     */
    method Disconnect(sid: SocketId) returns (wentOffline: Option<UserId>)
      requires Valid() && sid in connected
      modifies this`connected, this`joined, this`online, this`outbox
      ensures Valid()
      ensures connected == old(connected) - {sid}
      ensures joined == set p | p in old(joined) && p.0 != sid
      ensures wentOffline == DisconnectedUser(old(online), sid)
      ensures online == AfterDisconnect(old(online), sid)
      ensures wentOffline.Some? ==> outbox == old(outbox) + [Emit(connected, UserStatus(wentOffline.value, Offline))]
      ensures wentOffline.None? ==> outbox == old(outbox)
    {
      connected := connected - {sid};
      joined := set p | p in joined && p.0 != sid;
      var found := FindUserBySocket(online, sid);
      if found.Some? && found.value != [] {
        DeleteKeepsDistinct(online, found.value);
        online := Delete(online, found.value);
        outbox := outbox + [Emit(connected, UserStatus(found.value, Offline))];
        wentOffline := found;
      } else {
        wentOffline := None;
      }
    }
  }

  /** Two sockets connect to a new server. */
  method ConnectBoth(c1: SocketId, c2: SocketId) returns (server: Server)
    requires c1 != c2
    ensures fresh(server) && server.Valid()
    ensures server.connected == {c1, c2} && server.joined == {(c1, c1), (c2, c2)}
    ensures server.online == [] && server.store == []
  {
    server := new Server();
    server.Connect(c1);
    server.Connect(c2);
  }

  /** Two sockets connect and announce their users online. */
  method AnnounceBoth(u1: UserId, u2: UserId, c1: SocketId, c2: SocketId) returns (server: Server)
    requires c1 != c2
    ensures fresh(server) && server.Valid()
    ensures server.connected == {c1, c2} && server.store == [] && server.joined == {(c1, c1), (c2, c2)}
    ensures StatusOf(server.online, u1) == Online && StatusOf(server.online, u2) == Online
  {
    server := ConnectBoth(c1, c2);
    server.UserOnline(c1, u1);
    server.UserOnline(c2, u2);
  }

  /**
   * The opening of a chat: after both announcements, c1 joins the pair's
   * room and receives an empty history, and c2 joins the same room from the
   * other side.
   */
  method OpenChat(u1: UserId, u2: UserId, c1: SocketId, c2: SocketId)
    returns (server: Server, firstHistory: seq<Message>)
    requires c1 != c2
    ensures fresh(server) && server.Valid()
    ensures firstHistory == []
    ensures server.connected == {c1, c2} && server.store == []
    ensures server.joined == {(c1, c1), (c2, c2), (c1, Room(u1, u2)), (c2, Room(u1, u2))}
  {
    server := AnnounceBoth(u1, u2, c1, c2);
    var first := server.JoinRoom(c1, u1, u2, true);
    firstHistory := first.value;
    assert forall m :: m !in firstHistory;
    RoomSymmetric(u1, u2);
    var second := server.JoinRoom(c2, u2, u1, true);
  }

  /**
   * Two users chat: after the opening, c1 sends a text. The send saves one
   * message and emits it once, to exactly the two sockets, and a third
   * socket that joins the room afterwards receives that message alone as
   * history.
   */
  method TwoUsersChat(u1: UserId, u2: UserId, c1: SocketId, c2: SocketId, c3: SocketId, text: JsString)
    returns (m: Message, emitted: seq<Emit>, laterHistory: seq<Message>)
    requires c1 != c2 && c1 != c3 && c2 != c3
    requires text != []
    ensures m.senderId == u1 && m.receiverId == u2 && m.messageText == text
    ensures m.roomId == Room(u2, u1)
    ensures emitted == [Emit({c1, c2}, ReceiveMessage(m))]
    ensures laterHistory == [m]
  {
    var server, _ := OpenChat(u1, u2, c1, c2);
    var room := Room(u1, u2);
    var before := server.outbox;
    var sent := server.SendMessage(u1, u2, Some(text), None, true);
    m := sent.value;
    emitted := server.outbox[|before|..];
    assert emitted == [Emit(server.Members(room), ReceiveMessage(m))];
    assert server.Members(room) == {c1, c2} by {
      forall s ensures s in server.Members(room) <==> s == c1 || s == c2 {
        assert s in server.Members(room) <==> (s, room) in server.joined;
      }
    }
    server.Connect(c3);
    var third := server.JoinRoom(c3, u1, u2, true);
    assert server.store == [m];
    SingleMessageHistory(m, u1, u2);
    RoomSymmetric(u1, u2);
    laterHistory := third.value;
  }
}
