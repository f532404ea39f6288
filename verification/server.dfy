/**
 * The server's three collections as one store, and the routes that write to them: signup,
 * add-contact and send-message. Every route here runs behind `Auth.Authenticate` except signup;
 * the send route receives the claims that guard produced. The clock is the `now` parameter, the
 * document store's generated user id is `newId`, and the salted hash is `hash(password, salt)`.
 */
module Server {

  import opened Common
  import opened Schema
  import opened Auth
  import opened Ledger

  /** Signup outcomes: 200 on success, 400 otherwise. */
  datatype SignupResult = SignedUp | SignupRejected(reason: SignupCheck)

  /** Add-contact outcomes: 200 on success, 500 when the document fails schema validation. */
  datatype AddContactResult = ContactAdded | AddContactFailed

  /** Which store write, if any, throws during a send. */
  datatype Fault = NoFault | MessageSaveFails | SenderUpsertFails | RecipientUpsertFails

  /** Send outcomes: 201 with the stored message, 400 on a missing field, 500 when a write throws. */
  datatype SendResult = Created(message: Message) | FieldsMissing | SendFailed

  /** The send route's field check: `chatId`, `recipient` and `message` must all be truthy. */
  predicate SendFieldsPresent(chatId: Option<string>, recipient: Option<string>, text: Option<string>)
  {
    Truthy(chatId) && Truthy(recipient) && Truthy(text)
  }

  /** The schema's `required` string fields of a ledger row, which reject absent and empty values. */
  predicate ContactFieldsValid(senderId: Option<string>, senderName: Option<string>, userId: Option<string>,
                               userName: Option<string>, chatId: Option<string>)
  {
    Truthy(senderId) && Truthy(senderName) && Truthy(userId) && Truthy(userName) && Truthy(chatId)
  }

  class Store {
    var users: seq<User>
    var messages: seq<Message>
    var contacts: seq<Contact>

    constructor ()
      ensures users == [] && messages == [] && contacts == []
    {
      users, messages, contacts := [], [], [];
    }

    /** The signup route: validate, refuse a known email, then store the user with a hashed password. */
    method Signup(name: Option<string>, email: Option<string>, password: Option<string>,
                  newId: string, salt: string, hash: (string, string) -> string) returns (r: SignupResult)
      modifies this
      ensures r == SignedUp <==> CheckSignup(old(users), name, email, password) == SignupAllowed
      ensures r.SignupRejected? ==> r.reason == CheckSignup(old(users), name, email, password)
      ensures r == SignedUp ==> users == old(users) + [User(newId, name.value, email.value, hash(password.value, salt))]
      ensures r != SignedUp ==> users == old(users)
      ensures EmailsUnique(old(users)) ==> EmailsUnique(users)
      ensures messages == old(messages) && contacts == old(contacts)
    {
      var check := CheckSignup(users, name, email, password);
      if check != SignupAllowed {
        return SignupRejected(check);
      }
      var u := User(newId, name.value, email.value, hash(password.value, salt));
      if EmailsUnique(users) {
        AllowedSignupKeepsEmailsUnique(users, name, email, password, u);
      }
      users := users + [u];
      r := SignedUp;
    }

    /**
     * The add-contact route: one new row from the request body, whether or not a row with the same
     * key exists. `lastMessage` defaults to the empty string; `time` is `NoTime` when absent.
     */
    method AddContact(senderName: Option<string>, lastMessage: Option<string>, time: Time, userId: Option<string>,
                      userName: Option<string>, senderId: Option<string>, chatId: Option<string>)
      returns (r: AddContactResult)
      modifies this
      ensures r == ContactAdded <==> ContactFieldsValid(senderId, senderName, userId, userName, chatId)
      ensures r == ContactAdded ==> contacts == old(contacts) + [Contact(senderId, senderName,
        if lastMessage.Some? then lastMessage.value else "", time, userId.value, userName, chatId.value)]
      ensures r != ContactAdded ==> contacts == old(contacts)
      ensures users == old(users) && messages == old(messages)
    {
      if !ContactFieldsValid(senderId, senderName, userId, userName, chatId) {
        return AddContactFailed;
      }
      var text := if lastMessage.Some? then lastMessage.value else "";
      contacts := contacts + [Contact(senderId, senderName, text, time, userId.value, userName, chatId.value)];
      r := ContactAdded;
    }

    /**
     * The send route for the authenticated `caller`: check the fields, append the message with the
     * caller as sender, then upsert the sender's and the recipient's ledger rows. A write that throws
     * ends the route with 500 and keeps the writes already done.
     */
    method Send(caller: Claims, chatId: Option<string>, recipient: Option<string>, text: Option<string>,
                name: Option<string>, now: nat, fault: Fault) returns (r: SendResult)
      modifies this
      ensures users == old(users)
      ensures !SendFieldsPresent(chatId, recipient, text) ==>
        r == FieldsMissing && messages == old(messages) && contacts == old(contacts)
      ensures SendFieldsPresent(chatId, recipient, text) ==>
        var m := Message(chatId.value, caller.userId, recipient.value, text.value, now);
        var senderDone := Upsert(old(contacts), caller.userId, chatId.value, Patch(name, text.value, At(now)));
        match fault
        case NoFault =>
          r == Created(m) && messages == old(messages) + [m]
          && contacts == RecordSend(old(contacts), caller.userId, recipient.value, chatId.value, name, text.value, now)
        case MessageSaveFails =>
          r == SendFailed && messages == old(messages) && contacts == old(contacts)
        case SenderUpsertFails =>
          r == SendFailed && messages == old(messages) + [m] && contacts == old(contacts)
        case RecipientUpsertFails =>
          r == SendFailed && messages == old(messages) + [m] && contacts == senderDone
      ensures UniqueKeys(old(contacts)) ==> UniqueKeys(contacts)
    {
      if !SendFieldsPresent(chatId, recipient, text) {
        return FieldsMissing;
      }
      var m := Message(chatId.value, caller.userId, recipient.value, text.value, now);
      if fault == MessageSaveFails {
        return SendFailed;
      }
      messages := messages + [m];
      if fault == SenderUpsertFails {
        return SendFailed;
      }
      if UniqueKeys(contacts) {
        RecordSendKeepsKeysUnique(contacts, caller.userId, recipient.value, chatId.value, name, text.value, now);
        UpsertKeepsKeysUnique(contacts, caller.userId, chatId.value, Patch(name, text.value, At(now)));
      }
      contacts := Upsert(contacts, caller.userId, chatId.value, Patch(name, text.value, At(now)));
      if fault == RecipientUpsertFails {
        return SendFailed;
      }
      contacts := Upsert(contacts, recipient.value, chatId.value, Patch(None, text.value, At(now)));
      r := Created(m);
    }
  }
}
