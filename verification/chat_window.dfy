/** The chat window's message list: loading it, the append handler, and the date-header rule. */
module ChatWindow {

  import opened Common
  import opened Schema
  import opened Clock
  import opened Ledger

  /**
   * `fetchMessages`: skipped when there is no active chat id; an array reply replaces the list;
   * any other reply, or a failed request, leaves it as it was.
   */
  function LoadMessages(current: seq<Message>, chatId: Option<string>, reply: Reply<Message>): (r: seq<Message>)
    ensures !Truthy(chatId) ==> r == current
    ensures Truthy(chatId) && reply.ArrayReply? ==> r == reply.items
    ensures !reply.ArrayReply? ==> r == current
  {
    if !Truthy(chatId) then current
    else match reply
      case ArrayReply(items) => items
      case _ => current
  }

  /** Loading from the server's fetch shows exactly that chat's messages, oldest first. */
  lemma LoadedFromServerIsTheChat(current: seq<Message>, log: seq<Message>, chatId: string)
    requires chatId != ""
    ensures var shown := LoadMessages(current, Some(chatId), ArrayReply(FetchMessages(log, chatId)));
      SortedByTime(shown) && forall m :: m in shown <==> m in log && m.chatId == chatId
  {
  }

  /** `handleSendMessage`: the new message goes after all earlier ones, which keep their order. */
  function AppendMessage(msgs: seq<Message>, m: Message): (r: seq<Message>)
    ensures |r| == |msgs| + 1 && r[..|msgs|] == msgs && r[|msgs|] == m
  {
    msgs + [m]
  }

  /** Appending a message no older than any shown keeps the list in timestamp order. */
  lemma AppendKeepsOrder(msgs: seq<Message>, m: Message)
    requires SortedByTime(msgs)
    requires forall k :: 0 <= k < |msgs| ==> msgs[k].timestamp <= m.timestamp
    ensures SortedByTime(AppendMessage(msgs, m))
  {
  }

  /** A date header goes above the first message and above each message whose local date differs from the one before. */
  function ShowDateHeader(msgs: seq<Message>, i: nat, offset: int): (r: bool)
    requires i < |msgs|
    ensures i == 0 ==> r
    ensures r && i > 0 ==> msgs[i - 1].timestamp != msgs[i].timestamp
  {
    i == 0 || DayOf(msgs[i].timestamp, offset) != DayOf(msgs[i - 1].timestamp, offset)
  }

  /** In a list in timestamp order, a header marks exactly the first message of each local day. */
  lemma DateHeaderMarksFirstOfDay(msgs: seq<Message>, i: nat, offset: int)
    requires SortedByTime(msgs) && i < |msgs|
    ensures ShowDateHeader(msgs, i, offset) <==>
      forall j :: 0 <= j < i ==> DayOf(msgs[j].timestamp, offset) != DayOf(msgs[i].timestamp, offset)
  {
    if i > 0 && ShowDateHeader(msgs, i, offset) {
      DayOfMonotone(msgs[i - 1].timestamp, msgs[i].timestamp, offset);
      forall j | 0 <= j < i
        ensures DayOf(msgs[j].timestamp, offset) != DayOf(msgs[i].timestamp, offset)
      {
        DayOfMonotone(msgs[j].timestamp, msgs[i - 1].timestamp, offset);
      }
    }
  }

  /** The time under a message bubble. */
  function BubbleTime(m: Message, offset: int): (r: string)
    ensures ParseTime(r) == Some((HourOf(m.timestamp, offset), MinuteOf(m.timestamp, offset)))
  {
    FormatStamp(m.timestamp, offset)
  }
}
