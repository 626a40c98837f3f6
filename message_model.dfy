/**
 * The stored chat message (src/models/message.models.js:3-30) and the save
 * step that creates one (src/app.js:50-58).
 */
module MessageModel {
  import opened Options
  import opened RoomIds

  /**
   * A stored message. `id` stands for the generated document id and
   * `createdAt`/`updatedAt` for the automatic timestamps, both supplied by
   * the store.
   */
  datatype Message = Message(
    id: nat,
    roomId: RoomId,
    senderId: UserId,
    receiverId: UserId,
    messageText: JsString,
    translatedText: Option<JsString>,
    isRead: bool,
    createdAt: nat,
    updatedAt: nat)

  /** Why a save is rejected: the schema's validation, or the store itself. */
  datatype SaveError = ValidationError | StorageError

  /**
   * The schema's `required: true` on a string field: the value must be
   * present and not the empty string.
   */
  predicate RequiredString(v: Option<JsString>)
  {
    v.Some? && v.value != []
  }

  /**
   * `new Message({...}).save()`: validation first, then the write. On success
   * the store assigns the next id and the current clock as both timestamps,
   * and `isRead` takes its default.
   */
  function Save(store: seq<Message>, clock: nat, roomId: RoomId, senderId: UserId,
                receiverId: UserId, messageText: Option<JsString>,
                translatedText: Option<JsString>, storeAvailable: bool): (r: Result<Message, SaveError>)
    ensures r == Err(ValidationError) <==> !(roomId != [] && RequiredString(messageText))
    ensures r == Err(StorageError) <==> roomId != [] && RequiredString(messageText) && !storeAvailable
    ensures r.Ok? ==> r.value == Message(|store|, roomId, senderId, receiverId, messageText.value,
                                         translatedText, false, clock, clock)
  {
    if roomId == [] || !RequiredString(messageText) then Err(ValidationError)
    else if !storeAvailable then Err(StorageError)
    else Ok(Message(|store|, roomId, senderId, receiverId, messageText.value,
                    translatedText, false, clock, clock))
  }

  /** A message as the chat server saves it: its room is its participants' room. */
  predicate WellFormed(m: Message)
  {
    m.roomId == Room(m.senderId, m.receiverId) && m.messageText != [] && !m.isRead
    && m.updatedAt == m.createdAt
  }

  /**
   * The store's invariant: ids are positions, every message is well formed,
   * and creation times strictly increase along the store and stay below the clock.
   */
  predicate StoreValid(store: seq<Message>, clock: nat)
  {
    && (forall i :: 0 <= i < |store| ==> store[i].id == i && store[i].createdAt < clock && WellFormed(store[i]))
    && (forall i, j :: 0 <= i < j < |store| ==> store[i].createdAt < store[j].createdAt)
  }

  /** Saving a message sent from `senderId` to `receiverId` keeps the store valid. */
  lemma SaveKeepsStoreValid(store: seq<Message>, clock: nat, senderId: UserId, receiverId: UserId,
                            messageText: Option<JsString>, translatedText: Option<JsString>)
    requires StoreValid(store, clock)
    requires Save(store, clock, Room(senderId, receiverId), senderId, receiverId,
                  messageText, translatedText, true).Ok?
    ensures StoreValid(store + [Save(store, clock, Room(senderId, receiverId), senderId, receiverId,
                                     messageText, translatedText, true).value], clock + 1)
  {
  }

  /** The room id built by the chat server is never empty, so only the text can fail validation. */
  lemma SendValidation(store: seq<Message>, clock: nat, senderId: UserId, receiverId: UserId,
                       messageText: Option<JsString>, translatedText: Option<JsString>, storeAvailable: bool)
    ensures Save(store, clock, Room(senderId, receiverId), senderId, receiverId,
                 messageText, translatedText, storeAvailable) == Err(ValidationError)
            <==> !RequiredString(messageText)
  {
  }
}
