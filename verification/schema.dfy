/** The three document collections of the server and the payload of its bearer tokens. */
module Schema {

  import opened Common

  /** A registered account; `passwordHash` is what the hashing primitive produced at signup. */
  datatype User = User(id: string, name: string, email: string, passwordHash: string)

  /** One chat message; `timestamp` is in milliseconds since the epoch. */
  datatype Message = Message(chatId: string, sender: string, recipient: string, message: string, timestamp: nat)

  /**
   * One ledger row: `userId`'s view of the conversation `chatId`. Rows made by the send path's
   * upsert carry no `senderId` or `senderName`; `userName` is absent when the update did not carry one.
   */
  datatype Contact = Contact(
    senderId: Option<string>,
    senderName: Option<string>,
    lastMessage: string,
    time: Time,
    userId: string,
    userName: Option<string>,
    chatId: string)

  /** What a signed token carries: only the user id (no display name). */
  datatype Claims = Claims(userId: string)
}
