/**
 * The message input of the chat window: polling the active chat for new messages against the
 * last-seen timestamp, sending a message, and patching the contact list after either.
 */
module InputBox {

  import opened Common
  import opened Schema
  import opened Text
  import opened Ledger
  import opened ContactList

  /** A contact after a new last message: only `lastMessage` and `time` differ. */
  predicate Patched(before: Entry, after: Entry, lastMessage: string, time: Time)
  {
    after == before.(lastMessage := lastMessage, time := time)
  }

  /** `updateContactsUI`: every contact of the chat shows the new last message and time; the rest are unchanged. */
  function UpdateContacts(cs: seq<Entry>, chatId: string, lastMessage: string, time: Time): (r: seq<Entry>)
    ensures |r| == |cs|
    ensures forall i :: 0 <= i < |cs| && cs[i].chatId == chatId ==> Patched(cs[i], r[i], lastMessage, time)
    ensures forall i :: 0 <= i < |cs| && cs[i].chatId != chatId ==> r[i] == cs[i]
  {
    if cs == [] then []
    else
      var head := if cs[0].chatId == chatId then cs[0].(lastMessage := lastMessage, time := time) else cs[0];
      [head] + UpdateContacts(cs[1..], chatId, lastMessage, time)
  }

  /** The last fetched message is newer than the last one seen, or none has been seen. */
  function IsNewer(lastSeen: Option<nat>, fetched: seq<Message>): (r: bool)
    ensures r <==> |fetched| > 0 && !NotEarlier(lastSeen, Some(fetched[|fetched| - 1].timestamp))
  {
    |fetched| > 0 && (lastSeen.None? || fetched[|fetched| - 1].timestamp > lastSeen.value)
  }

  /** The last-seen timestamp after one poll. */
  function SeenAfter(lastSeen: Option<nat>, fetched: seq<Message>): (r: Option<nat>)
    ensures NotEarlier(r, lastSeen)
    ensures r == lastSeen || (|fetched| > 0 && r == Some(fetched[|fetched| - 1].timestamp))
  {
    if IsNewer(lastSeen, fetched) then Some(fetched[|fetched| - 1].timestamp) else lastSeen
  }

  /** The last-seen timestamp after a series of polls, oldest first. */
  function SeenAfterPolls(lastSeen: Option<nat>, polls: seq<seq<Message>>): Option<nat>
    decreases |polls|
  {
    if polls == [] then lastSeen else SeenAfterPolls(SeenAfter(lastSeen, polls[0]), polls[1..])
  }

  /** `a` is no earlier than `b`; an unset timestamp is earlier than every set one. */
  predicate NotEarlier(a: Option<nat>, b: Option<nat>)
  {
    b.None? || (a.Some? && a.value >= b.value)
  }

  /** The last-seen timestamp never moves back, over any series of polls. */
  lemma {:induction false} PollsNeverRewind(lastSeen: Option<nat>, polls: seq<seq<Message>>)
    ensures NotEarlier(SeenAfterPolls(lastSeen, polls), lastSeen)
    decreases |polls|
  {
    if polls != [] {
      var next := SeenAfter(lastSeen, polls[0]);
      PollsNeverRewind(next, polls[1..]);
    }
  }

  /** Polling the same reply again updates nothing. */
  lemma RepeatedPollIsQuiet(lastSeen: Option<nat>, fetched: seq<Message>)
    ensures !IsNewer(SeenAfter(lastSeen, fetched), fetched)
    ensures SeenAfterPolls(lastSeen, [fetched, fetched]) == SeenAfter(lastSeen, fetched)
  {
    var once := SeenAfter(lastSeen, fetched);
    assert [fetched, fetched][1..] == [fetched];
    assert SeenAfterPolls(lastSeen, [fetched, fetched]) == SeenAfterPolls(once, [fetched]);
    assert SeenAfterPolls(once, [fetched]) == SeenAfterPolls(SeenAfter(once, fetched), [fetched][1..]);
    assert [fetched][1..] == [];
  }

  /** In a list in timestamp order, no message is later than the last one. */
  lemma LastIsNewest(s: seq<Message>, m: Message)
    requires SortedByTime(s) && m in s
    ensures m.timestamp <= s[|s| - 1].timestamp
  {
    var k :| 0 <= k < |s| && s[k] == m;
    if k < |s| - 1 {
      assert s[k].timestamp <= s[|s| - 1].timestamp;
    }
  }

  /** Against the server's timestamp-ordered fetch, an update records the newest timestamp of the chat. */
  lemma PollRecordsNewest(lastSeen: Option<nat>, log: seq<Message>, chatId: string)
    requires IsNewer(lastSeen, FetchMessages(log, chatId))
    ensures forall m :: m in log && m.chatId == chatId ==>
      m.timestamp <= SeenAfter(lastSeen, FetchMessages(log, chatId)).value
  {
    var fetched := FetchMessages(log, chatId);
    assert SeenAfter(lastSeen, fetched) == Some(fetched[|fetched| - 1].timestamp);
    forall m | m in log && m.chatId == chatId ensures m.timestamp <= fetched[|fetched| - 1].timestamp {
      LastIsNewest(fetched, m);
    }
  }

  /**
   * The last-seen timestamp is kept across a change of active chat. While every message of the newly
   * opened chat is no later than the last one seen in the previous chat, a poll of it never updates.
   */
  lemma StaleLastSeenHidesOpenedChat(seen: nat, log: seq<Message>, chatId: string)
    requires forall m :: m in log && m.chatId == chatId ==> m.timestamp <= seen
    ensures !IsNewer(Some(seen), FetchMessages(log, chatId))
    ensures SeenAfter(Some(seen), FetchMessages(log, chatId)) == Some(seen)
  {
    var fetched := FetchMessages(log, chatId);
    if |fetched| > 0 {
      assert fetched[|fetched| - 1] in fetched;
    }
  }

  /** With the last-seen timestamp cleared on opening a chat, the first poll of a chat with messages records its newest one. */
  lemma FirstPollOfOpenedChatUpdates(log: seq<Message>, chatId: string, m: Message)
    requires m in log && m.chatId == chatId
    ensures IsNewer(None, FetchMessages(log, chatId))
    ensures forall k :: k in log && k.chatId == chatId ==> k.timestamp <= SeenAfter(None, FetchMessages(log, chatId)).value
  {
    assert m in FetchMessages(log, chatId);
    PollRecordsNewest(None, log, chatId);
  }

  /** The body the client posts to the send route. */
  datatype SendRequest = SendRequest(chatId: Option<string>, recipient: Option<string>, message: Option<string>, name: Option<string>)

  /** A non-blank message to the active chat: its id, its `senderId` as recipient, the text as typed, its `senderName`. */
  function RequestFor(chat: Entry, message: string): (r: SendRequest)
    requires Trim(message) != ""
    ensures r.chatId == Some(chat.chatId) && r.message == Some(message) && Truthy(r.message)
    ensures r.recipient == chat.senderId && r.name == chat.senderName
  {
    SendRequest(Some(chat.chatId), chat.senderId, Some(message), chat.senderName)
  }

  /**
   * A contact made by the send path's upsert carries no `senderId`, so a reply sent from it names no
   * recipient and fails the send route's field check.
   */
  lemma ReplyFromUpsertedRowRejected(rows: seq<Contact>, sender: string, recipient: string, chatId: string,
                                     name: Option<string>, text: string, now: nat, reply: string)
    requires FindRow(rows, recipient, chatId).None? && Trim(reply) != ""
    ensures var after := RecordSend(rows, sender, recipient, chatId, name, text, now);
      var row := after[FindRow(after, recipient, chatId).value];
      RequestFor(FromRow(row), reply).recipient == None
  {
    var r1 := Upsert(rows, sender, chatId, Patch(name, text, At(now)));
    var after := Upsert(r1, recipient, chatId, Patch(None, text, At(now)));
    RecordSendEffect(rows, sender, recipient, chatId, name, text, now);
    var k := FindRow(after, recipient, chatId).value;
    if k < |rows| {
      assert false;
    } else if k < |r1| {
      assert HasKey(r1[k], recipient, chatId) by { assert SameIdentity(after[k], r1[k]); }
      assert r1[k].senderId == None;
      assert after[k].senderId == None by { assert SameIdentity(after[k], r1[k]); }
    }
  }

  /** The state InputBox reads and writes: the last-seen ref, the active chat, the contact list and the input text. */
  class InputBoxState {
    var lastSeen: Option<nat>
    var activeChat: Entry
    var contacts: seq<Entry>
    var message: string

    constructor (activeChat: Entry, contacts: seq<Entry>, message: string)
      ensures this.lastSeen == None && this.activeChat == activeChat
      ensures this.contacts == contacts && this.message == message
    {
      this.lastSeen := None;
      this.activeChat := activeChat;
      this.contacts := contacts;
      this.message := message;
    }

    /**
     * `fetchNewMessages`: on an array reply whose last message is newer than the last seen, record its
     * timestamp and show it as the active chat's and the chat's contacts' last message. Any other
     * reply, or a failed request, changes nothing.
     */
    method Poll(reply: Reply<Message>)
      modifies this
      ensures var fetched := if reply.ArrayReply? then reply.items else [];
        && lastSeen == SeenAfter(old(lastSeen), fetched)
        && message == old(message)
        && if IsNewer(old(lastSeen), fetched) then
             var latest := fetched[|fetched| - 1];
             && Patched(old(activeChat), activeChat, latest.message, At(latest.timestamp))
             && contacts == UpdateContacts(old(contacts), old(activeChat).chatId, latest.message, At(latest.timestamp))
           else
             activeChat == old(activeChat) && contacts == old(contacts)
    {
      if !reply.ArrayReply? {
        return;
      }
      var fetched := reply.items;
      if |fetched| > 0 {
        var latest := fetched[|fetched| - 1];
        if lastSeen.None? || latest.timestamp > lastSeen.value {
          lastSeen := Some(latest.timestamp);
          activeChat := activeChat.(lastMessage := latest.message, time := At(latest.timestamp));
          contacts := UpdateContacts(contacts, activeChat.chatId, latest.message, At(latest.timestamp));
        }
      }
    }

    /**
     * `handleSendMessage`: a blank input sends nothing and changes nothing. Otherwise the request is
     * posted; if the server accepts it, the active chat and the chat's contacts show the text with
     * the client's clock readings, and the input is cleared. A refused request changes nothing.
     */
    method SendMessage(accepted: bool, chatNow: nat, listNow: nat) returns (request: Option<SendRequest>)
      modifies this
      ensures lastSeen == old(lastSeen)
      ensures Trim(old(message)) == "" ==> request == None && unchanged(this)
      ensures Trim(old(message)) != "" ==> request == Some(RequestFor(old(activeChat), old(message)))
      ensures Trim(old(message)) != "" && accepted ==>
        && Patched(old(activeChat), activeChat, old(message), At(chatNow))
        && contacts == UpdateContacts(old(contacts), old(activeChat).chatId, old(message), At(listNow))
        && message == ""
      ensures Trim(old(message)) != "" && !accepted ==> unchanged(this)
    {
      if Trim(message) == "" {
        return None;
      }
      request := Some(RequestFor(activeChat, message));
      if !accepted {
        return;
      }
      activeChat := activeChat.(lastMessage := message, time := At(chatNow));
      contacts := UpdateContacts(contacts, activeChat.chatId, message, At(listNow));
      message := "";
    }

    /**
     * Clicking a contact in the list makes it the active chat. The input box stays mounted, so its
     * last-seen timestamp carries over from the previous chat.
     */
    method SelectChat(c: Entry)
      modifies this
      ensures activeChat == c
      ensures lastSeen == old(lastSeen) && contacts == old(contacts) && message == old(message)
    {
      activeChat := c;
    }

    /** Opening a chat with the last-seen timestamp cleared, so that the new chat's polls start afresh. */
    method OpenChat(c: Entry)
      modifies this
      ensures activeChat == c && lastSeen == None
      ensures contacts == old(contacts) && message == old(message)
    {
      activeChat := c;
      lastSeen := None;
    }
  }
}
