/**
 * The client's contact list: loading it from the server, the search filter, and the two display
 * fallbacks of a list item.
 */
module ContactList {

  import opened Common
  import opened Schema
  import opened Text
  import opened Clock

  /**
   * A contact as the client holds it: a ledger row as received, plus the `name` property that the
   * search reads. Ledger rows have no such field, so a row received from the server has none.
   */
  datatype Entry = Entry(
    senderId: Option<string>,
    senderName: Option<string>,
    lastMessage: string,
    time: Time,
    userId: string,
    userName: Option<string>,
    chatId: string,
    name: Option<string>)

  function FromRow(c: Contact): Entry
  {
    Entry(c.senderId, c.senderName, c.lastMessage, c.time, c.userId, c.userName, c.chatId, None)
  }

  /**
   * `fetchContacts`: with no token, nothing happens; an array reply replaces the list, any other
   * reply empties it, a failed request leaves it alone.
   */
  function FetchContacts(current: seq<Entry>, token: Option<string>, reply: Reply<Contact>): (r: seq<Entry>)
    ensures !Truthy(token) ==> r == current
    ensures Truthy(token) && reply.OtherReply? ==> r == []
    ensures Truthy(token) && reply.Rejected? ==> r == current
    ensures Truthy(token) && reply.ArrayReply? ==>
      |r| == |reply.items| && forall i :: 0 <= i < |r| ==> r[i] == FromRow(reply.items[i]) && r[i].name == None
  {
    if !Truthy(token) then current
    else match reply
      case ArrayReply(items) => seq(|items|, i requires 0 <= i < |items| => FromRow(items[i]))
      case OtherReply => []
      case Rejected => current
  }

  /** What the search button does: re-fetch (empty query), replace the list, or throw. */
  datatype SearchOutcome = Refetch | Replaced(contacts: seq<Entry>) | Threw

  /** `contact.name.toLowerCase().includes(query.toLowerCase())`, for a contact that has a name. */
  predicate NameMatches(e: Entry, query: string)
  {
    e.name.Some? && Contains(LowerString(e.name.value), LowerString(query))
  }

  /**
   * `handleSearch` as written: the filter reads `name`, and reading it on a contact without one
   * throws, which leaves the list as it was.
   */
  function SearchAsWritten(cs: seq<Entry>, query: string): (r: SearchOutcome)
    ensures r == Refetch <==> query == ""
    ensures r == Threw <==> query != "" && exists i :: 0 <= i < |cs| && cs[i].name.None?
    ensures r.Replaced? ==> IsSubsequence(r.contacts, cs)
    ensures r.Replaced? ==> forall e :: e in r.contacts <==> e in cs && NameMatches(e, query)
    ensures r.Replaced? ==> forall e :: multiset(r.contacts)[e] == if NameMatches(e, query) then multiset(cs)[e] else 0
  {
    if query == "" then Refetch
    else if exists i :: 0 <= i < |cs| && cs[i].name.None? then Threw
    else Replaced(Filter(cs, (e: Entry) => NameMatches(e, query)))
  }

  /** Every contact the server sends lacks `name`, so searching a loaded, non-empty list always throws. */
  lemma SearchOnLoadedContactsThrows(current: seq<Entry>, token: string, rows: seq<Contact>, query: string)
    requires token != "" && |rows| > 0 && query != ""
    ensures SearchAsWritten(FetchContacts(current, Some(token), ArrayReply(rows)), query) == Threw
  {
    var cs := FetchContacts(current, Some(token), ArrayReply(rows));
    assert cs[0].name.None?;
  }

  /** The name a list item shows, `senderName`, as the search's subject; a contact without one never matches. */
  predicate ShownNameMatches(e: Entry, query: string)
  {
    e.senderName.Some? && Contains(LowerString(e.senderName.value), LowerString(query))
  }

  /** The search, reading the name the list shows. */
  function Search(cs: seq<Entry>, query: string): (r: SearchOutcome)
    ensures r == Refetch <==> query == ""
    ensures r != Threw
    ensures r.Replaced? ==> IsSubsequence(r.contacts, cs) && |r.contacts| <= |cs|
    ensures r.Replaced? ==> forall e :: e in r.contacts <==> e in cs && ShownNameMatches(e, query)
    ensures r.Replaced? ==> forall e :: multiset(r.contacts)[e] == if ShownNameMatches(e, query) then multiset(cs)[e] else 0
  {
    if query == "" then Refetch
    else Replaced(Filter(cs, (e: Entry) => ShownNameMatches(e, query)))
  }

  /** The search is case-insensitive: a query and its lower-case form select the same contacts. */
  lemma SearchIgnoresCase(cs: seq<Entry>, query: string)
    ensures Search(cs, query) == Search(cs, LowerString(query))
  {
    LowerStringIdempotent(query);
    if query != "" {
      assert LowerString(query) != "";
      FilterCongruent(cs, (e: Entry) => ShownNameMatches(e, query), (e: Entry) => ShownNameMatches(e, LowerString(query)));
    }
  }

  /** The second line of a list item. */
  function PreviewText(e: Entry): (r: string)
    ensures e.lastMessage == "" ==> r == "No messages yet"
    ensures e.lastMessage != "" ==> r == e.lastMessage
  {
    if e.lastMessage == "" then "No messages yet" else e.lastMessage
  }

  /** The time column of a list item: the local time of day, or "Just now" when no time is stored. */
  function TimeLabel(e: Entry, offset: int): (r: string)
    ensures e.time == NoTime ==> r == "Just now"
    ensures e.time.At? ==> ParseTime(r) == Some((HourOf(e.time.ms, offset), MinuteOf(e.time.ms, offset)))
  {
    match e.time
    case NoTime => "Just now"
    case At(t) => FormatStamp(t, offset)
  }
}
