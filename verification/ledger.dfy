/**
 * The contact ledger and the message log as the server's queries see them: the keyed upsert of
 * the send path, the per-owner listing, and the per-chat fetch sorted by timestamp.
 */
module Ledger {

  import opened Common
  import opened Schema

  /** A ledger row is keyed by its owner and its chat. */
  predicate HasKey(c: Contact, userId: string, chatId: string)
  {
    c.userId == userId && c.chatId == chatId
  }

  /** The fields an upsert never writes on a row it matches. */
  predicate SameIdentity(a: Contact, b: Contact)
  {
    a.senderId == b.senderId && a.senderName == b.senderName && a.userId == b.userId && a.chatId == b.chatId
  }

  /** The fields an upsert writes: `userName`, `lastMessage` and `time`. */
  datatype Patch = Patch(userName: Option<string>, lastMessage: string, time: Time)

  predicate Carries(c: Contact, p: Patch)
  {
    c.userName == p.userName && c.lastMessage == p.lastMessage && c.time == p.time
  }

  function KeyFilter(userId: string, chatId: string): Contact -> bool
  {
    (c: Contact) => HasKey(c, userId, chatId)
  }

  /** The first row with the key, as `findOneAndUpdate` picks it. */
  function FindRow(rows: seq<Contact>, userId: string, chatId: string): Option<nat>
  {
    FirstIndex(rows, KeyFilter(userId, chatId))
  }

  /**
   * `findOneAndUpdate({userId, chatId}, patch, {upsert: true})`: overwrite the patched fields of the
   * first row with the key, or append a row made of the key and the patch.
   */
  function Upsert(rows: seq<Contact>, userId: string, chatId: string, p: Patch): (r: seq<Contact>)
    ensures |r| == if FindRow(rows, userId, chatId).Some? then |rows| else |rows| + 1
    ensures forall i :: 0 <= i < |rows| && Some(i) != FindRow(rows, userId, chatId) ==> r[i] == rows[i]
    ensures forall i :: 0 <= i < |rows| && !HasKey(rows[i], userId, chatId) ==> r[i] == rows[i]
    ensures forall i :: 0 <= i < |rows| ==> SameIdentity(r[i], rows[i])
    ensures FindRow(r, userId, chatId).Some? && Carries(r[FindRow(r, userId, chatId).value], p)
    ensures FindRow(rows, userId, chatId).Some? ==> FindRow(r, userId, chatId) == FindRow(rows, userId, chatId)
    ensures FindRow(rows, userId, chatId).None? ==>
      r[|rows|] == Contact(None, None, p.lastMessage, p.time, userId, p.userName, chatId)
  {
    match FindRow(rows, userId, chatId)
    case Some(i) =>
      var r := rows[i := rows[i].(userName := p.userName, lastMessage := p.lastMessage, time := p.time)];
      assert FindRow(r, userId, chatId) == Some(i) by {
        assert forall j :: 0 <= j < |rows| ==> (HasKey(r[j], userId, chatId) <==> HasKey(rows[j], userId, chatId));
      }
      r
    case None =>
      var r := rows + [Contact(None, None, p.lastMessage, p.time, userId, p.userName, chatId)];
      FirstIndexIs(r, KeyFilter(userId, chatId), |rows|);
      r
  }

  /** At most one row per (owner, chat) key. */
  ghost predicate UniqueKeys(rows: seq<Contact>)
  {
    forall i, j :: 0 <= i < j < |rows| ==> !HasKey(rows[j], rows[i].userId, rows[i].chatId)
  }

  lemma UpsertKeepsKeysUnique(rows: seq<Contact>, userId: string, chatId: string, p: Patch)
    requires UniqueKeys(rows)
    ensures UniqueKeys(Upsert(rows, userId, chatId, p))
  {
    var r := Upsert(rows, userId, chatId, p);
    forall i, j | 0 <= i < j < |r| ensures !HasKey(r[j], r[i].userId, r[i].chatId) {
      assert SameIdentity(r[i], rows[i]);
      if j < |rows| {
        assert SameIdentity(r[j], rows[j]);
      }
    }
  }

  /** Inserting a row whose key is already present, as the add-contact route may, breaks key uniqueness. */
  lemma InsertExistingKeyBreaksUniqueness(rows: seq<Contact>, row: Contact)
    requires FindRow(rows, row.userId, row.chatId).Some?
    ensures !UniqueKeys(rows + [row])
  {
    var i := FindRow(rows, row.userId, row.chatId).value;
    var r := rows + [row];
    assert r[i] == rows[i] && r[|rows|] == row;
    assert HasKey(r[|rows|], r[i].userId, r[i].chatId);
  }

  /**
   * Both ledger upserts of one send, sender's first. The sender's row gets the client-supplied
   * `name`; the recipient's row gets the token's `name` claim, which tokens do not carry, so none.
   */
  function RecordSend(rows: seq<Contact>, sender: string, recipient: string, chatId: string,
                      name: Option<string>, text: string, now: nat): (r: seq<Contact>)
    ensures |rows| <= |r| <= |rows| + 2
    ensures forall i :: 0 <= i < |rows| ==> SameIdentity(r[i], rows[i])
  {
    Upsert(Upsert(rows, sender, chatId, Patch(name, text, At(now))), recipient, chatId, Patch(None, text, At(now)))
  }

  /**
   * After a send, the sender's and the recipient's rows for the chat exist and show the text and the
   * time; the sender's row shows `name` unless the sender wrote to itself. Rows under other keys are
   * untouched.
   */
  lemma RecordSendEffect(rows: seq<Contact>, sender: string, recipient: string, chatId: string,
                         name: Option<string>, text: string, now: nat)
    ensures var r := RecordSend(rows, sender, recipient, chatId, name, text, now);
      && FindRow(r, sender, chatId).Some? && FindRow(r, recipient, chatId).Some?
      && r[FindRow(r, sender, chatId).value].lastMessage == text
      && r[FindRow(r, sender, chatId).value].time == At(now)
      && r[FindRow(r, recipient, chatId).value].lastMessage == text
      && r[FindRow(r, recipient, chatId).value].time == At(now)
      && r[FindRow(r, recipient, chatId).value].userName == None
      && (sender != recipient ==> r[FindRow(r, sender, chatId).value].userName == name)
      && |rows| <= |r| <= |rows| + 2
      && (forall i :: 0 <= i < |rows| && !HasKey(rows[i], sender, chatId) && !HasKey(rows[i], recipient, chatId)
            ==> r[i] == rows[i])
  {
    var r1 := Upsert(rows, sender, chatId, Patch(name, text, At(now)));
    var r := Upsert(r1, recipient, chatId, Patch(None, text, At(now)));
    var s := FindRow(r1, sender, chatId).value;
    if sender != recipient {
      assert !HasKey(r1[s], recipient, chatId);
      assert r[s] == r1[s];
      assert FindRow(r, sender, chatId) == Some(s) by {
        assert forall j :: 0 <= j < |r1| ==> SameIdentity(r[j], r1[j]);
        assert |r| > |r1| ==> !HasKey(r[|r1|], sender, chatId);
      }
    }
  }

  /** A chat's second send adds no ledger rows: the first one created both keys. */
  lemma RepeatSendAddsNoRows(rows: seq<Contact>, sender: string, recipient: string, chatId: string,
                             name1: Option<string>, text1: string, now1: nat,
                             name2: Option<string>, text2: string, now2: nat)
    ensures var once := RecordSend(rows, sender, recipient, chatId, name1, text1, now1);
      |RecordSend(once, sender, recipient, chatId, name2, text2, now2)| == |once|
  {
    var once := RecordSend(rows, sender, recipient, chatId, name1, text1, now1);
    RecordSendEffect(rows, sender, recipient, chatId, name1, text1, now1);
    var r1 := Upsert(once, sender, chatId, Patch(name2, text2, At(now2)));
    assert FindRow(r1, recipient, chatId).Some? by {
      var k := FindRow(once, recipient, chatId).value;
      assert SameIdentity(r1[k], once[k]);
      assert HasKey(r1[k], recipient, chatId);
    }
  }

  /** A send keeps the ledger at one row per key. */
  lemma RecordSendKeepsKeysUnique(rows: seq<Contact>, sender: string, recipient: string, chatId: string,
                                  name: Option<string>, text: string, now: nat)
    requires UniqueKeys(rows)
    ensures UniqueKeys(RecordSend(rows, sender, recipient, chatId, name, text, now))
  {
    UpsertKeepsKeysUnique(rows, sender, chatId, Patch(name, text, At(now)));
    UpsertKeepsKeysUnique(Upsert(rows, sender, chatId, Patch(name, text, At(now))), recipient, chatId,
                          Patch(None, text, At(now)));
  }

  /** The contacts route: the caller's rows, each as often as stored, in storage order. */
  function ListContacts(rows: seq<Contact>, userId: string): (r: seq<Contact>)
    ensures forall c :: c in r <==> c in rows && c.userId == userId
    ensures forall c :: multiset(r)[c] == if c.userId == userId then multiset(rows)[c] else 0
    ensures IsSubsequence(r, rows)
  {
    Filter(rows, (c: Contact) => c.userId == userId)
  }

  ghost predicate SortedByTime(s: seq<Message>)
  {
    forall i, j :: 0 <= i < j < |s| ==> s[i].timestamp <= s[j].timestamp
  }

  /** Places `m` after every message no later than it. */
  function InsertByTime(m: Message, s: seq<Message>): (r: seq<Message>)
    requires SortedByTime(s)
    ensures SortedByTime(r)
    ensures multiset(r) == multiset(s) + multiset{m}
    ensures |r| == |s| + 1
    ensures r[0] == m || (s != [] && r[0] == s[0])
  {
    if s == [] then [m]
    else if m.timestamp < s[0].timestamp then [m] + s
    else
      var rest := InsertByTime(m, s[1..]);
      assert s == [s[0]] + s[1..];
      [s[0]] + rest
  }

  function SortByTime(s: seq<Message>): (r: seq<Message>)
    ensures SortedByTime(r)
    ensures multiset(r) == multiset(s)
  {
    if s == [] then []
    else
      assert s == [s[0]] + s[1..];
      InsertByTime(s[0], SortByTime(s[1..]))
  }

  /** The messages route: exactly the chat's messages, each as often as stored, by ascending timestamp. */
  function FetchMessages(log: seq<Message>, chatId: string): (r: seq<Message>)
    ensures SortedByTime(r)
    ensures forall m :: multiset(r)[m] == if m.chatId == chatId then multiset(log)[m] else 0
    ensures forall m :: m in r <==> m in log && m.chatId == chatId
  {
    var r := SortByTime(Filter(log, (m: Message) => m.chatId == chatId));
    assert forall m :: m in r <==> m in multiset(r);
    r
  }
}
