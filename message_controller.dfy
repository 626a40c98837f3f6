/**
 * The REST history lookup `getAllMessages`
 * (src/controllers/message.controller.js:7-20): resolve the room of the
 * two ids and return every stored message of that room. The store is only read.
 */
module MessageController {
  import opened Options
  import opened RoomIds
  import opened MessageModel
  import opened MessageQueries

  /** `Message.find({ roomId })` for the room of the two ids, in store order. */
  function GetAllMessages(store: seq<Message>, senderId: UserId, receiverId: UserId): (r: seq<Message>)
    ensures forall m :: m in r <==> m in store && m.roomId == Room(senderId, receiverId)
    ensures forall m :: multiset(r)[m] == if m.roomId == Room(senderId, receiverId) then multiset(store)[m] else 0
  {
    var roomId := Room(senderId, receiverId);
    Filter(store, (m: Message) => m.roomId == roomId)
  }

  /** Asking for (s, r) or for (r, s) gives the same messages. */
  lemma GetAllMessagesSymmetric(store: seq<Message>, s: UserId, r: UserId)
    ensures GetAllMessages(store, s, r) == GetAllMessages(store, r, s)
  {
    RoomSymmetric(s, r);
  }

  /**
   * A message that the socket handler saved for (s, r) is listed by the REST
   * lookup for (s, r) and for (r, s): both paths resolve the room the same way.
   */
  lemma SavedMessageListed(store: seq<Message>, clock: nat, s: UserId, r: UserId,
                           messageText: Option<JsString>, translatedText: Option<JsString>)
    requires Save(store, clock, Room(s, r), s, r, messageText, translatedText, true).Ok?
    ensures var m := Save(store, clock, Room(s, r), s, r, messageText, translatedText, true).value;
            m in GetAllMessages(store + [m], s, r) && m in GetAllMessages(store + [m], r, s)
  {
    RoomSymmetric(s, r);
  }

  /**
   * For a well-formed message and ids without "_", being in the room of
   * (s, r) is the same as being between s and r.
   */
  lemma InRoomIffBetween(m: Message, s: UserId, r: UserId)
    requires WellFormed(m)
    requires NoSeparator(s) && NoSeparator(r) && NoSeparator(m.senderId) && NoSeparator(m.receiverId)
    ensures m.roomId == Room(s, r) <==> Between(m, s, r)
  {
    if m.roomId == Room(s, r) {
      RoomDeterminesPair(m.senderId, m.receiverId, s, r);
    } else {
      RoomSymmetric(s, r);
    }
  }

  /**
   * When no id contains "_", the REST lookup by room selects, in a valid
   * store, exactly the messages the socket history selects by participants.
   */
  lemma RoomLookupMatchesHistory(store: seq<Message>, clock: nat, s: UserId, r: UserId)
    requires StoreValid(store, clock)
    requires NoSeparator(s) && NoSeparator(r)
    requires forall m :: m in store ==> NoSeparator(m.senderId) && NoSeparator(m.receiverId)
    ensures forall m :: m in GetAllMessages(store, s, r) <==> m in History(store, s, r)
  {
    forall m | m in store
      ensures m.roomId == Room(s, r) <==> Between(m, s, r)
    {
      var k :| 0 <= k < |store| && store[k] == m;
      InRoomIffBetween(store[k], s, r);
    }
  }

  /**
   * With "_" inside ids the two lookups differ: a message from "a_b" to "c"
   * is listed by the REST lookup for ("a", "b_c") although it is not between
   * those two users.
   */
  lemma RoomLookupCanDifferFromHistory(m: Message)
    requires m.senderId == [0x61, 0x5F, 0x62] && m.receiverId == [0x63]
    requires m.roomId == Room(m.senderId, m.receiverId)
    ensures m in GetAllMessages([m], [0x61], [0x62, 0x5F, 0x63])
    ensures m !in History([m], [0x61], [0x62, 0x5F, 0x63])
  {
    RoomCollision();
  }
}
