/**
 * The read side of `ConversationController`: the preview rule, the summary of a thread, the
 * ordering by last activity (newest first, threads without messages last), and the inbox, by-person
 * and by-key queries over the stored threads.
 */
module ConversationViews {
  import opened Wrappers
  import opened Seqs
  import opened Calendar
  import opened Conversations
  import opened Utf16Text

  /** Previews keep at most this many UTF-16 code units of the message. */
  const PreviewLength: nat := 100

  /** What a shortened preview ends with: "..." in UTF-16. */
  const Ellipsis: seq<CodeUnit> := [0x2E, 0x2E, 0x2E]

  /**
   * The preview of one message's text, counted in code units as `Length` and `[..100]` count
   * them: unchanged up to 100 units, else its first 100 units and "...".
   */
  function Truncate(content: seq<CodeUnit>): (r: seq<CodeUnit>)
    ensures |r| <= PreviewLength + |Ellipsis|
    ensures |content| <= PreviewLength ==> r == content
    ensures |content| > PreviewLength ==> |r| == PreviewLength + |Ellipsis| && r[PreviewLength..] == Ellipsis
    ensures var kept := if |content| <= PreviewLength then |content| else PreviewLength;
      r[..kept] == content[..kept]
  {
    if |content| > PreviewLength then content[..PreviewLength] + Ellipsis else content
  }

  /**
   * The texts a preview leaves as they are: those of at most 100 code units, and those that
   * already are 100 code units followed by "...".
   */
  lemma TruncateFixedPoints(content: seq<CodeUnit>)
    ensures Truncate(content) == content <==>
      |content| <= PreviewLength || (|content| == PreviewLength + |Ellipsis| && content[PreviewLength..] == Ellipsis)
  {
    if |content| > PreviewLength && Truncate(content) == content {
      assert |content| == |Truncate(content)|;
    }
    if |content| == PreviewLength + |Ellipsis| && content[PreviewLength..] == Ellipsis {
      assert content == content[..PreviewLength] + content[PreviewLength..];
    }
  }

  /** Shortening a preview again changes nothing. */
  lemma TruncateIdempotent(content: seq<CodeUnit>)
    ensures Truncate(Truncate(content)) == Truncate(content)
  {
    TruncateFixedPoints(Truncate(content));
  }

  /** A 100-unit text is shown whole; one more unit and it is cut to 100 plus "...". */
  lemma TruncateBoundary(content: seq<CodeUnit>)
    ensures |content| == PreviewLength ==> Truncate(content) == content
    ensures |content| == PreviewLength + 1 ==>
      Truncate(content) == content[..PreviewLength] + Ellipsis && |Truncate(content)| == 103
  {
  }

  /** The preview of a thread: that of its last message's UTF-16 form, none for a thread without messages. */
  function Preview(messages: seq<Message>): (r: Option<seq<CodeUnit>>)
    ensures r.None? <==> |messages| == 0
    ensures r.Some? ==> r.value == Truncate(Encode(messages[|messages| - 1].content))
  {
    if |messages| == 0 then None else Some(Truncate(Encode(messages[|messages| - 1].content)))
  }

  /**
   * For text in the Basic Multilingual Plane, code units are characters: a text of at most 100
   * such characters is previewed whole, and a longer one is cut after its 100th character.
   */
  lemma PreviewOfBmpText(content: string)
    requires forall i :: 0 <= i < |content| ==> IsBmp(content[i])
    ensures |content| <= PreviewLength ==> Truncate(Encode(content)) == Encode(content)
    ensures |content| > PreviewLength ==>
      Truncate(Encode(content)) == Encode(content[..PreviewLength]) + Ellipsis
  {
    EncodeBmp(content);
    if |content| > PreviewLength {
      CutAfterUnits(content, PreviewLength);
      assert forall i :: 0 <= i < PreviewLength ==> IsBmp(content[..PreviewLength][i]);
      EncodeBmp(content[..PreviewLength]);
    }
  }

  /**
   * Characters beyond the Basic Multilingual Plane count twice: a message of 51 to 100 emoji,
   * within 100 characters, is still cut, to 50 of them and "...".
   */
  lemma AstralTextCutEarlier(content: string)
    requires forall i :: 0 <= i < |content| ==> !IsBmp(content[i])
    requires 50 < |content| <= PreviewLength
    ensures Truncate(Encode(content)) != Encode(content)
    ensures Truncate(Encode(content)) == Encode(content[..50]) + Ellipsis
  {
    var e, head := Encode(content), content[..50];
    EncodeAstral(content);
    assert |Truncate(e)| != |e| by {
      assert |e| == 2 * |content|;
    }
    assert forall i :: 0 <= i < |head| ==> !IsBmp(head[i]);
    EncodeAstral(head);
    CutAfterUnits(content, 50);
  }

  /** When the first `k` characters take exactly 100 code units, the preview is those characters and "...". */
  lemma CutAfterUnits(content: string, k: nat)
    requires k <= |content| && |Encode(content)| > PreviewLength
    ensures |Encode(content[..k])| == PreviewLength ==>
      Truncate(Encode(content)) == Encode(content[..k]) + Ellipsis
  {
    EncodeSplit(content, k);
    var e, h := Encode(content), Encode(content[..k]);
    if |h| == PreviewLength {
      assert e[..PreviewLength] == h;
    }
  }

  /**
   * The cut can fall inside a surrogate pair: 99 plain characters followed by an emoji give a
   * preview whose 100th code unit is the emoji's lone high surrogate.
   */
  lemma PreviewCanSplitSurrogatePair(plain: string, emoji: char)
    requires |plain| == PreviewLength - 1 && forall i :: 0 <= i < |plain| ==> IsBmp(plain[i])
    requires !IsBmp(emoji)
    ensures |Encode(plain + [emoji])| == PreviewLength + 1
    ensures IsHighSurrogate(Truncate(Encode(plain + [emoji]))[PreviewLength - 1])
  {
    EncodeBmp(plain);
    EncodeAppend(plain, [emoji]);
    assert Encode([emoji]) == EncodeChar(emoji) + Encode([]);
  }

  /** `ToSummary`: the thread without its messages, with the preview of the last message. */
  function ToSummary(c: Conversation): (s: ConversationSummary)
    ensures s.id == c.id && s.personId == c.personId && s.personName == c.personName && s.personRole == c.personRole
    ensures s.initiatedByNpc == c.initiatedByNpc && s.startedAt == c.startedAt && s.lastMessageAt == c.lastMessageAt
    ensures s.isRead == c.isRead && s.subject == c.subject
    ensures s.lastMessagePreview.None? <==> |c.messages| == 0
    ensures s.lastMessagePreview.Some? ==> s.lastMessagePreview.value == Truncate(Encode(c.messages[|c.messages| - 1].content))
  {
    ConversationSummary(c.id, c.personId, c.personName, c.personRole, c.initiatedByNpc, c.startedAt,
      c.lastMessageAt, c.isRead, c.subject, Preview(c.messages))
  }

  /** A summary with its messages put back. */
  function WithMessages(s: ConversationSummary, messages: seq<Message>): Conversation
  {
    Conversation(s.id, s.personId, s.personName, s.personRole, s.initiatedByNpc, s.startedAt,
      s.lastMessageAt, s.isRead, s.subject, messages)
  }

  /** A summary drops the messages and nothing else: putting them back restores the thread. */
  lemma SummaryKeepsAllButMessages(c: Conversation)
    ensures WithMessages(ToSummary(c), c.messages) == c
  {
  }

  /**
   * For a well-formed thread the summary shows a preview exactly when it shows a last-message
   * time, and the preview is that of the message sent at that time.
   */
  lemma PreviewAgreesWithLastMessageAt(c: Conversation)
    requires WellFormedThread(c)
    ensures ToSummary(c).lastMessagePreview.Some? <==> ToSummary(c).lastMessageAt.Some?
    ensures ToSummary(c).lastMessageAt.Some? ==>
      exists k :: 0 <= k < |c.messages| && c.messages[k].sentAt == c.lastMessageAt.value &&
                  ToSummary(c).lastMessagePreview == Some(Truncate(Encode(c.messages[k].content)))
  {
    if |c.messages| > 0 {
      var k := |c.messages| - 1;
      assert c.messages[k].sentAt == c.lastMessageAt.value;
    }
  }

  /**
   * `a` sorts at or before `b` under `OrderByDescending(LastMessageAt)` as SQLite runs it: a
   * missing time is lower than every time, so it comes last.
   */
  predicate NotOlder(a: Option<DateTime>, b: Option<DateTime>)
  {
    b.None? || (a.Some? && !Before(a.value, b.value))
  }

  lemma NotOlderTotal(a: Option<DateTime>, b: Option<DateTime>)
    ensures NotOlder(a, b) || NotOlder(b, a)
  {
  }

  lemma NotOlderTransitive(a: Option<DateTime>, b: Option<DateTime>, c: Option<DateTime>)
    requires NotOlder(a, b) && NotOlder(b, c)
    ensures NotOlder(a, c)
  {
  }

  /** Newest last message first, threads without messages at the end. */
  predicate NewestFirst(s: seq<Conversation>)
  {
    forall i, j :: 0 <= i < j < |s| ==> NotOlder(s[i].lastMessageAt, s[j].lastMessageAt)
  }

  /** One thread put into its place in an ordered list. */
  function Insert(c: Conversation, s: seq<Conversation>): (r: seq<Conversation>)
    requires NewestFirst(s)
    ensures NewestFirst(r)
    ensures multiset(r) == multiset(s) + multiset{c}
    decreases |s|
  {
    if |s| == 0 then [c]
    else if NotOlder(c.lastMessageAt, s[0].lastMessageAt) then
      InsertInFront(c, s);
      [c] + s
    else
      var rest := Insert(c, s[1..]);
      NotOlderTotal(c.lastMessageAt, s[0].lastMessageAt);
      InsertBehind(c, s, rest);
      assert s == [s[0]] + s[1..];
      [s[0]] + rest
  }

  lemma InsertInFront(c: Conversation, s: seq<Conversation>)
    requires NewestFirst(s) && 0 < |s| && NotOlder(c.lastMessageAt, s[0].lastMessageAt)
    ensures NewestFirst([c] + s)
  {
    var t := [c] + s;
    forall i, j | 0 <= i < j < |t| ensures NotOlder(t[i].lastMessageAt, t[j].lastMessageAt) {
      assert t[j] == s[j - 1];
      if i == 0 {
        if j > 1 {
          NotOlderTransitive(c.lastMessageAt, s[0].lastMessageAt, s[j - 1].lastMessageAt);
        }
      } else {
        assert t[i] == s[i - 1];
      }
    }
  }

  lemma InsertBehind(c: Conversation, s: seq<Conversation>, rest: seq<Conversation>)
    requires NewestFirst(s) && 0 < |s| && NotOlder(s[0].lastMessageAt, c.lastMessageAt)
    requires NewestFirst(rest) && multiset(rest) == multiset(s[1..]) + multiset{c}
    ensures NewestFirst([s[0]] + rest)
  {
    forall k | 0 <= k < |rest| ensures NotOlder(s[0].lastMessageAt, rest[k].lastMessageAt) {
      assert rest[k] in multiset(s[1..]) + multiset{c};
      if rest[k] != c {
        var j :| 0 <= j < |s[1..]| && s[1..][j] == rest[k];
        assert s[j + 1] == rest[k];
      }
    }
    var t := [s[0]] + rest;
    forall i, j | 0 <= i < j < |t| ensures NotOlder(t[i].lastMessageAt, t[j].lastMessageAt) {
      assert t[j] == rest[j - 1];
      if i > 0 {
        assert t[i] == rest[i - 1];
      }
    }
  }

  /** The threads ordered newest first (insertion sort; the order of ties is left unspecified). */
  function SortNewestFirst(s: seq<Conversation>): (r: seq<Conversation>)
    ensures NewestFirst(r)
    ensures multiset(r) == multiset(s)
    decreases |s|
  {
    if |s| == 0 then []
    else
      assert s == [s[0]] + s[1..];
      Insert(s[0], SortNewestFirst(s[1..]))
  }

  /** The stored threads matching `p`, summarised, newest first. */
  function SummariesNewestFirst(convs: seq<Conversation>, p: Conversation -> bool): (r: seq<ConversationSummary>)
    ensures multiset(r) == multiset(MapSeq(ToSummary, Filter(convs, p)))
    ensures forall i, j :: 0 <= i < j < |r| ==> NotOlder(r[i].lastMessageAt, r[j].lastMessageAt)
    ensures forall x :: x in r ==> exists c :: c in convs && p(c) && x == ToSummary(c)
  {
    var selected := Filter(convs, p);
    var sorted := SortNewestFirst(selected);
    MapSeqPermutation(ToSummary, sorted, selected);
    var r := MapSeq(ToSummary, sorted);
    SummariesOfSelected(convs, p, sorted);
    r
  }

  /** Every summary of a rearrangement of the selected threads is the summary of a stored thread matching `p`. */
  lemma SummariesOfSelected(convs: seq<Conversation>, p: Conversation -> bool, sorted: seq<Conversation>)
    requires multiset(sorted) == multiset(Filter(convs, p))
    ensures forall x :: x in MapSeq(ToSummary, sorted) ==> exists c :: c in convs && p(c) && x == ToSummary(c)
  {
    var r := MapSeq(ToSummary, sorted);
    forall x | x in r ensures exists c :: c in convs && p(c) && x == ToSummary(c) {
      var i :| 0 <= i < |r| && r[i] == x;
      assert sorted[i] in multiset(Filter(convs, p));
      assert sorted[i] in convs && p(sorted[i]);
    }
  }

  /** `GetInbox`: every NPC-initiated thread and no other, summarised, newest first. */
  function GetInbox(convs: seq<Conversation>): (r: seq<ConversationSummary>)
    ensures multiset(r) == multiset(MapSeq(ToSummary, Filter(convs, (c: Conversation) => c.initiatedByNpc)))
    ensures forall i, j :: 0 <= i < j < |r| ==> NotOlder(r[i].lastMessageAt, r[j].lastMessageAt)
    ensures forall x :: x in r ==> x.initiatedByNpc
  {
    SummariesNewestFirst(convs, (c: Conversation) => c.initiatedByNpc)
  }

  /** `GetByPerson`: every thread with the person and no other, summarised, newest first. */
  function GetByPerson(convs: seq<Conversation>, personId: int): (r: seq<ConversationSummary>)
    ensures multiset(r) == multiset(MapSeq(ToSummary, Filter(convs, (c: Conversation) => c.personId == personId)))
    ensures forall i, j :: 0 <= i < j < |r| ==> NotOlder(r[i].lastMessageAt, r[j].lastMessageAt)
    ensures forall x :: x in r ==> x.personId == personId
  {
    SummariesNewestFirst(convs, (c: Conversation) => c.personId == personId)
  }

  /** Every stored NPC-initiated thread appears in the inbox, as its summary. */
  lemma InboxShowsEveryNpcThread(convs: seq<Conversation>, c: Conversation)
    requires c in convs && c.initiatedByNpc
    ensures ToSummary(c) in GetInbox(convs)
  {
    var selected := Filter(convs, (c: Conversation) => c.initiatedByNpc);
    var i :| 0 <= i < |selected| && selected[i] == c;
    assert ToSummary(c) in MapSeq(ToSummary, selected);
    assert ToSummary(c) in multiset(GetInbox(convs));
  }

  /** No two threads share a key, as the primary key guarantees. */
  predicate UniqueIds(convs: seq<Conversation>)
  {
    forall i, j :: 0 <= i < j < |convs| ==> convs[i].id != convs[j].id
  }

  /** `GetById`: the thread with the key, messages included, or `None` (served as 404). */
  function GetById(convs: seq<Conversation>, id: int): (r: Option<Conversation>)
    ensures r.None? <==> forall c :: c in convs ==> c.id != id
    ensures r.Some? ==> r.value in convs && r.value.id == id
  {
    FindFirst(convs, (c: Conversation) => c.id == id)
  }

  /** With unique keys, looking up a stored thread's key yields that thread. */
  lemma GetByIdFindsStoredThread(convs: seq<Conversation>, c: Conversation)
    requires UniqueIds(convs) && c in convs
    ensures GetById(convs, c.id) == Some(c)
  {
    var r := GetById(convs, c.id);
    var i :| 0 <= i < |convs| && convs[i] == r.value;
    var j :| 0 <= j < |convs| && convs[j] == c;
    if i < j {
      assert convs[i].id != convs[j].id;
    } else if j < i {
      assert convs[j].id != convs[i].id;
    }
  }
}
