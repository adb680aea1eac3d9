/** The conversation records: a thread with an NPC, its messages, and the list-view summary. */
module Conversations {
  import opened Wrappers
  import opened Seqs
  import opened Calendar
  import opened Utf16Text

  datatype Message = Message(id: int, conversationId: int, fromPlayer: bool, content: string, sentAt: DateTime)

  /** A thread; `personName` and `personRole` are copies of the NPC's details kept for display. */
  datatype Conversation = Conversation(
    id: int,
    personId: int,
    personName: string,
    personRole: string,
    initiatedByNpc: bool,
    startedAt: DateTime,
    lastMessageAt: Option<DateTime>,
    isRead: bool,
    subject: Option<string>,
    messages: seq<Message>)

  /** A thread without its messages but with a preview of the last one, as the UTF-16 code units .NET holds. */
  datatype ConversationSummary = ConversationSummary(
    id: int,
    personId: int,
    personName: string,
    personRole: string,
    initiatedByNpc: bool,
    startedAt: DateTime,
    lastMessageAt: Option<DateTime>,
    isRead: bool,
    subject: Option<string>,
    lastMessagePreview: Option<seq<CodeUnit>>)

  /**
   * The documented shape of a thread (no code enforces it): every message belongs to it, messages
   * are in sending order, the thread started with its first message and `lastMessageAt` is the
   * sending time of its last one, absent exactly when there are none.
   */
  predicate WellFormedThread(c: Conversation)
  {
    var msgs := c.messages;
    (forall k :: 0 <= k < |msgs| ==> msgs[k].conversationId == c.id) &&
    (forall j, k :: 0 <= j < k < |msgs| ==> !Before(msgs[k].sentAt, msgs[j].sentAt)) &&
    (|msgs| > 0 ==> c.startedAt == msgs[0].sentAt) &&
    c.lastMessageAt == (if |msgs| == 0 then None else Some(msgs[|msgs| - 1].sentAt))
  }

  /** In a well-formed thread no message is later than `lastMessageAt` or earlier than `startedAt`. */
  lemma WellFormedThreadBounds(c: Conversation)
    requires WellFormedThread(c)
    ensures forall k :: 0 <= k < |c.messages| ==>
      !Before(c.lastMessageAt.value, c.messages[k].sentAt) && !Before(c.messages[k].sentAt, c.startedAt)
  {
    var msgs := c.messages;
    forall k | 0 <= k < |msgs|
      ensures !Before(c.lastMessageAt.value, msgs[k].sentAt) && !Before(msgs[k].sentAt, c.startedAt)
    {
      if k < |msgs| - 1 {
        assert !Before(msgs[|msgs| - 1].sentAt, msgs[k].sentAt);
      }
      if 0 < k {
        assert !Before(msgs[k].sentAt, msgs[0].sentAt);
      }
    }
  }

  predicate IsUnread(c: Conversation)
  {
    !c.isRead
  }

  /** The number of threads not yet read. */
  function UnreadCount(convs: seq<Conversation>): (n: nat)
    ensures n <= |convs|
    ensures n == 0 <==> forall c :: c in convs ==> c.isRead
    decreases |convs|
  {
    if |convs| == 0 then 0
    else
      assert convs == [convs[0]] + convs[1..];
      (if convs[0].isRead then 0 else 1) + UnreadCount(convs[1..])
  }

  /** The count is the number of threads the unread filter keeps. */
  lemma {:induction false} UnreadCountIsFilter(convs: seq<Conversation>)
    ensures UnreadCount(convs) == |Filter(convs, IsUnread)|
    decreases |convs|
  {
    if |convs| > 0 {
      UnreadCountIsFilter(convs[1..]);
      var tail := Filter(convs[1..], IsUnread);
      assert Filter(convs, IsUnread) == if IsUnread(convs[0]) then [convs[0]] + tail else tail;
      assert UnreadCount(convs) == (if IsUnread(convs[0]) then 1 else 0) + |tail|;
    }
  }

  /** The unread count of four threads, thread by thread. */
  lemma UnreadCountOfFour(a: Conversation, b: Conversation, c: Conversation, d: Conversation)
    ensures UnreadCount([a, b, c, d]) ==
      (if a.isRead then 0 else 1) + (if b.isRead then 0 else 1) + (if c.isRead then 0 else 1) + (if d.isRead then 0 else 1)
  {
    assert [d][1..] == [];
    assert UnreadCount([d]) == if d.isRead then 0 else 1;
    assert [c, d][1..] == [d];
    assert UnreadCount([c, d]) == (if c.isRead then 0 else 1) + UnreadCount([d]);
    assert [b, c, d][1..] == [c, d];
    assert UnreadCount([b, c, d]) == (if b.isRead then 0 else 1) + UnreadCount([c, d]);
    assert [a, b, c, d][1..] == [b, c, d];
  }
}
