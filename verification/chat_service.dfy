/**
 The chat service: lookup-or-insert of a conversation keyed by its directional
 (admin, psicologo) pair, the participant predicate, paged history, message
 creation with the conversation summary update, bulk mark-as-read, and the
 per-role conversation listing with derived unread counts. Each operation is a
 transition of the abstract `Store`; the caller supplies the current time.
 */
module ChatService {
  import opened Wrappers
  import opened ChatModel

  // ---------------------------------------------------------------------------
  // Lookups
  // ---------------------------------------------------------------------------

  /** The conversation with this id, if there is one. */
  function GetConversation(st: Store, id: ConversationId): (r: Option<Conversation>)
    ensures r.Some? <==> id in st.conversations
    ensures r.Some? ==> r.value == st.conversations[id]
  {
    if id in st.conversations then Some(st.conversations[id]) else None
  }

  /** The `(id_admin, id_psicologo)` pair of a conversation, if it exists. */
  function GetConversationParticipants(st: Store, id: ConversationId): (r: Option<(UserId, UserId)>)
    ensures r.Some? <==> id in st.conversations
    ensures r.Some? ==> HasPair(st.conversations[id], r.value.0, r.value.1)
  {
    match GetConversation(st, id)
    case None => None
    case Some(cv) => Some((cv.adminId, cv.psicologoId))
  }

  /**
   The participant predicate: false for an unknown conversation, otherwise
   true exactly for its admin and its psicologo.
   */
  function IsUserInConversation(st: Store, id: ConversationId, userId: UserId): (r: bool)
    ensures r <==> id in st.conversations
                   && (st.conversations[id].adminId == userId || st.conversations[id].psicologoId == userId)
  {
    match GetConversation(st, id)
    case None => false
    case Some(cv) => cv.adminId == userId || cv.psicologoId == userId
  }

  /** The predicate and the participants lookup agree on every id and user. */
  lemma ParticipantsAgree(st: Store, id: ConversationId, userId: UserId)
    ensures IsUserInConversation(st, id, userId)
            <==> (var p := GetConversationParticipants(st, id);
                  p.Some? && (userId == p.value.0 || userId == p.value.1))
  {
  }

  // ---------------------------------------------------------------------------
  // Get-or-create
  // ---------------------------------------------------------------------------

  /** The highest id below `bound` whose conversation has the pair (`adminId`, `psicologoId`). */
  function FindByPair(convs: map<ConversationId, Conversation>, adminId: UserId, psicologoId: UserId, bound: nat)
    : (r: Option<ConversationId>)
    ensures r.Some? ==> r.value in convs && 0 <= r.value < bound && HasPair(convs[r.value], adminId, psicologoId)
    ensures r.None? ==> forall c :: c in convs && 0 <= c < bound ==> !HasPair(convs[c], adminId, psicologoId)
    decreases bound
  {
    if bound == 0 then None
    else if bound - 1 in convs && HasPair(convs[bound - 1], adminId, psicologoId) then Some(bound - 1)
    else FindByPair(convs, adminId, psicologoId, bound - 1)
  }

  /**
   Returns the conversation of the pair, inserting it (with the next id and no
   last message) only when none exists. Messages are never touched.
   */
  function GetOrCreateConversation(st: Store, adminId: UserId, psicologoId: UserId, now: Timestamp)
    : (r: (Store, ConversationId))
    ensures r.1 in r.0.conversations && HasPair(r.0.conversations[r.1], adminId, psicologoId)
    ensures r.0.messages == st.messages && r.0.nextMessageId == st.nextMessageId
    ensures r.0 == st || (
              && r.1 == st.nextConversationId
              && r.0.nextConversationId == st.nextConversationId + 1
              && r.0.conversations == st.conversations[r.1 := NewConversation(adminId, psicologoId, now)])
    ensures Valid(st) ==>
              ((exists c :: c in st.conversations && HasPair(st.conversations[c], adminId, psicologoId))
               <==> r.0 == st)
  {
    match FindByPair(st.conversations, adminId, psicologoId, st.nextConversationId)
    case Some(id) => (st, id)
    case None =>
      var id := st.nextConversationId;
      var st' := st.(conversations := st.conversations[id := NewConversation(adminId, psicologoId, now)],
                     nextConversationId := id + 1);
      (st', id)
  }

  /** An existing conversation of the pair is the one returned. */
  lemma GetOrCreateReturnsExisting(st: Store, adminId: UserId, psicologoId: UserId, now: Timestamp, c: ConversationId)
    requires Valid(st)
    requires c in st.conversations && HasPair(st.conversations[c], adminId, psicologoId)
    ensures GetOrCreateConversation(st, adminId, psicologoId, now) == (st, c)
  {
  }

  /** A second call for the same pair finds the first call's conversation and changes nothing. */
  lemma GetOrCreateIdempotent(st: Store, adminId: UserId, psicologoId: UserId, now1: Timestamp, now2: Timestamp)
    ensures var (st1, id1) := GetOrCreateConversation(st, adminId, psicologoId, now1);
            GetOrCreateConversation(st1, adminId, psicologoId, now2) == (st1, id1)
  {
  }

  lemma GetOrCreatePreservesValid(st: Store, adminId: UserId, psicologoId: UserId, now: Timestamp)
    requires Valid(st)
    ensures Valid(GetOrCreateConversation(st, adminId, psicologoId, now).0)
  {
  }

  // ---------------------------------------------------------------------------
  // History
  // ---------------------------------------------------------------------------

  /** The messages of conversation `id`, in store order. */
  function MessagesOf(msgs: seq<Message>, id: ConversationId): (r: seq<Message>)
    ensures |r| <= |msgs|
    ensures forall m :: m in r <==> m in msgs && m.conversationId == id
  {
    if |msgs| == 0 then []
    else (if msgs[0].conversationId == id then [msgs[0]] else []) + MessagesOf(msgs[1..], id)
  }

  lemma ConcatAssoc<T>(a: seq<T>, b: seq<T>, c: seq<T>)
    ensures a + (b + c) == (a + b) + c
  {
  }

  lemma {:induction false} MessagesOfAppend(msgs: seq<Message>, m: Message, id: ConversationId)
    ensures MessagesOf(msgs + [m], id)
            == MessagesOf(msgs, id) + (if m.conversationId == id then [m] else [])
    decreases |msgs|
  {
    if |msgs| == 0 {
      assert msgs + [m] == [m];
    } else {
      var head := if msgs[0].conversationId == id then [msgs[0]] else [];
      var last := if m.conversationId == id then [m] else [];
      var rest := MessagesOf(msgs[1..], id);
      assert MessagesOf(msgs + [m], id) == head + MessagesOf(msgs[1..] + [m], id) by {
        assert (msgs + [m])[0] == msgs[0];
        assert (msgs + [m])[1..] == msgs[1..] + [m];
      }
      assert MessagesOf(msgs[1..] + [m], id) == rest + last by {
        MessagesOfAppend(msgs[1..], m, id);
      }
      assert MessagesOf(msgs, id) == head + rest;
      ConcatAssoc(head, rest, last);
    }
  }

  lemma ChronologicalTail(msgs: seq<Message>)
    requires |msgs| > 0 && Chronological(msgs)
    ensures Chronological(msgs[1..])
  {
    var tail := msgs[1..];
    forall i, j | 0 <= i < j < |tail| ensures tail[i].createdAt <= tail[j].createdAt {
      assert tail[i] == msgs[i + 1] && tail[j] == msgs[j + 1];
    }
  }

  lemma ChronologicalCons(m: Message, rest: seq<Message>)
    requires Chronological(rest)
    requires forall x :: x in rest ==> m.createdAt <= x.createdAt
    ensures Chronological([m] + rest)
  {
    var r := [m] + rest;
    forall i, j | 0 <= i < j < |r| ensures r[i].createdAt <= r[j].createdAt {
      assert r[j] == rest[j - 1];
      if i > 0 {
        assert r[i] == rest[i - 1];
      } else {
        assert rest[j - 1] in rest;
      }
    }
  }

  /** The head of a chronological sequence is no later than anything after it. */
  lemma ChronologicalHead(msgs: seq<Message>)
    requires |msgs| > 0 && Chronological(msgs)
    ensures forall x :: x in msgs[1..] ==> msgs[0].createdAt <= x.createdAt
  {
    forall x | x in msgs[1..] ensures msgs[0].createdAt <= x.createdAt {
      var k :| 0 <= k < |msgs[1..]| && msgs[1..][k] == x;
      assert x == msgs[k + 1];
    }
  }

  lemma {:induction false} MessagesOfChronological(msgs: seq<Message>, id: ConversationId)
    requires Chronological(msgs)
    ensures Chronological(MessagesOf(msgs, id))
    decreases |msgs|
  {
    if |msgs| > 0 {
      var tail := msgs[1..];
      ChronologicalTail(msgs);
      MessagesOfChronological(tail, id);
      var rest := MessagesOf(tail, id);
      if msgs[0].conversationId == id {
        forall x | x in rest ensures msgs[0].createdAt <= x.createdAt {
          assert x in tail;
          var k :| 0 <= k < |tail| && tail[k] == x;
          assert tail[k] == msgs[k + 1];
        }
        ChronologicalCons(msgs[0], rest);
      }
    }
  }

  function Min(a: nat, b: nat): nat {
    if a <= b then a else b
  }

  /**
   Places `m` before the first message of `sorted` that is not older than it,
   so `m` precedes the equal timestamps that follow it in store order.
   */
  function InsertByTime(m: Message, sorted: seq<Message>): (r: seq<Message>)
    ensures |r| == |sorted| + 1
    ensures forall x :: x in r <==> x == m || x in sorted
    decreases |sorted|
  {
    if |sorted| == 0 || m.createdAt <= sorted[0].createdAt then [m] + sorted
    else [sorted[0]] + InsertByTime(m, sorted[1..])
  }

  /** A stable sort by `created_at`: the order `ORDER BY created_at` returns, ties kept in store order. */
  function SortByTime(msgs: seq<Message>): (r: seq<Message>)
    ensures |r| == |msgs|
    ensures forall x :: x in r <==> x in msgs
    decreases |msgs|
  {
    if |msgs| == 0 then [] else InsertByTime(msgs[0], SortByTime(msgs[1..]))
  }

  /** Inserting into a chronological sequence keeps it chronological and loses nothing. */
  lemma {:induction false} InsertByTimeSorted(m: Message, sorted: seq<Message>)
    requires Chronological(sorted)
    ensures Chronological(InsertByTime(m, sorted))
    ensures multiset(InsertByTime(m, sorted)) == multiset(sorted) + multiset{m}
    decreases |sorted|
  {
    if |sorted| == 0 || m.createdAt <= sorted[0].createdAt {
      ChronologicalCons(m, sorted);
    } else {
      ChronologicalTail(sorted);
      ChronologicalHead(sorted);
      InsertByTimeSorted(m, sorted[1..]);
      ChronologicalCons(sorted[0], InsertByTime(m, sorted[1..]));
      assert sorted == [sorted[0]] + sorted[1..];
    }
  }

  /** The sort yields creation order and neither loses nor duplicates a message. */
  lemma {:induction false} SortByTimeSorted(msgs: seq<Message>)
    ensures Chronological(SortByTime(msgs))
    ensures multiset(SortByTime(msgs)) == multiset(msgs)
    decreases |msgs|
  {
    if |msgs| > 0 {
      SortByTimeSorted(msgs[1..]);
      InsertByTimeSorted(msgs[0], SortByTime(msgs[1..]));
      assert msgs == [msgs[0]] + msgs[1..];
    }
  }

  /** A history already in creation order is left as it is. */
  lemma {:induction false} SortByTimeKeepsChronological(msgs: seq<Message>)
    requires Chronological(msgs)
    ensures SortByTime(msgs) == msgs
    decreases |msgs|
  {
    if |msgs| > 0 {
      ChronologicalTail(msgs);
      SortByTimeKeepsChronological(msgs[1..]);
      assert |msgs| > 1 ==> msgs[0].createdAt <= msgs[1..][0].createdAt;
      assert [msgs[0]] + msgs[1..] == msgs;
    }
  }

  /**
   A conversation's history as `ORDER BY created_at` returns it: its messages,
   each once, in ascending creation time, ties kept in store order.
   */
  function History(st: Store, id: ConversationId): (h: seq<Message>)
    ensures Chronological(h)
    ensures multiset(h) == multiset(MessagesOf(st.messages, id))
    ensures forall m :: m in h <==> m in st.messages && m.conversationId == id
  {
    SortByTimeSorted(MessagesOf(st.messages, id));
    SortByTime(MessagesOf(st.messages, id))
  }

  /** On a consistent store the sort changes nothing: the history is in store order. */
  lemma HistoryInStoreOrder(st: Store, id: ConversationId)
    requires Valid(st)
    ensures History(st, id) == MessagesOf(st.messages, id)
  {
    MessagesOfChronological(st.messages, id);
    SortByTimeKeepsChronological(MessagesOf(st.messages, id));
  }

  /** SQL `OFFSET skip LIMIT limit` over `all`: at most `limit` rows, starting after the first `skip`. */
  function Window(all: seq<Message>, skip: nat, limit: nat): (page: seq<Message>)
    ensures |page| == (if skip >= |all| then 0 else Min(limit, |all| - skip))
    ensures skip < |all| ==> page == all[skip..skip + |page|]
    ensures forall m :: m in page ==> m in all
  {
    if skip >= |all| then [] else all[skip..skip + Min(limit, |all| - skip)]
  }

  /** Adjacent windows join into the window that covers both. */
  lemma WindowsConcatenate(all: seq<Message>, skip: nat, n: nat, k: nat)
    ensures Window(all, skip, n) + Window(all, skip + n, k) == Window(all, skip, n + k)
  {
    if skip < |all| && skip + n < |all| {
      var e1 := skip + Min(n, |all| - skip);
      var e2 := skip + n + Min(k, |all| - skip - n);
      assert all[skip..e1] + all[e1..e2] == all[skip..e2];
    }
  }

  /** One page of a conversation's history (`ORDER BY created_at OFFSET skip LIMIT limit`). */
  function ListMessages(st: Store, id: ConversationId, skip: nat, limit: nat): (page: seq<Message>)
    ensures var all := History(st, id);
            && |page| == (if skip >= |all| then 0 else Min(limit, |all| - skip))
            && (skip < |all| ==> page == all[skip..skip + |page|])
    ensures forall m :: m in page ==> m in st.messages && m.conversationId == id
  {
    Window(History(st, id), skip, limit)
  }

  /** Every page is in ascending creation time, whatever order the rows were stored in. */
  lemma ListMessagesAscending(st: Store, id: ConversationId, skip: nat, limit: nat)
    ensures Chronological(ListMessages(st, id, skip, limit))
  {
    var all := History(st, id);
    var page := ListMessages(st, id, skip, limit);
    if skip < |all| {
      forall i, j | 0 <= i < j < |page| ensures page[i].createdAt <= page[j].createdAt {
        assert page[i] == all[skip + i] && page[j] == all[skip + j];
      }
    }
  }

  /** Consecutive pages join into the page that covers both: paging is restartable. */
  lemma PagesConcatenate(st: Store, id: ConversationId, skip: nat, n: nat, k: nat)
    ensures ListMessages(st, id, skip, n) + ListMessages(st, id, skip + n, k)
            == ListMessages(st, id, skip, n + k)
  {
    WindowsConcatenate(History(st, id), skip, n, k);
  }

  // ---------------------------------------------------------------------------
  // Message creation
  // ---------------------------------------------------------------------------

  /** The two `ValueError`s of `create_message`. */
  datatype ServiceError = ConversationNotFound | SenderOrReceiverNotInConversation

  /** `str(e)` of each error. */
  function ErrorDetail(e: ServiceError): string {
    match e
    case ConversationNotFound => "Conversation not found"
    case SenderOrReceiverNotInConversation => "Sender or receiver not in conversation"
  }

  /** The text stored as `last_message_text`: the first 500 characters of the message. */
  function LastMessageSummary(text: string): (r: string)
    ensures |r| <= LastMessageTextLimit && |r| <= |text|
    ensures r == text[..|r|]
    ensures |text| <= LastMessageTextLimit ==> r == text
    ensures |text| > LastMessageTextLimit ==> |r| == LastMessageTextLimit
  {
    if |text| > LastMessageTextLimit then text[..LastMessageTextLimit] else text
  }

  /**
   Appends a message to an existing conversation and refreshes its summary.
   Sender and receiver are checked separately for membership in the pair, so
   the two may be the same participant. Failure writes nothing.
   */
  function CreateMessage(st: Store, id: ConversationId, senderId: UserId, receiverId: UserId,
                         text: string, now: Timestamp)
    : (r: Result<(Store, Message), ServiceError>)
    ensures id !in st.conversations <==> r == Failure(ConversationNotFound)
    ensures r == Failure(SenderOrReceiverNotInConversation)
            <==> id in st.conversations
                 && !(IsUserInConversation(st, id, senderId) && IsUserInConversation(st, id, receiverId))
    ensures r.Success? ==>
              var (st', m) := r.value;
              && m.id == st.nextMessageId && m.conversationId == id
              && m.senderId == senderId && m.receiverId == receiverId
              && m.text == text && m.createdAt == now && !m.isRead
              && st'.messages == st.messages + [m]
              && st'.nextMessageId == st.nextMessageId + 1
              && st'.nextConversationId == st.nextConversationId
              && st'.conversations.Keys == st.conversations.Keys
              && (forall c :: c in st.conversations && c != id ==> st'.conversations[c] == st.conversations[c])
    ensures r.Success? ==>
              var (before, after) := (st.conversations[id], r.value.0.conversations[id]);
              && HasPair(after, before.adminId, before.psicologoId) && after.createdAt == before.createdAt
              && after.updatedAt == now && after.lastMessageAt == Some(now)
              && after.lastMessageText == Some(LastMessageSummary(text))
  {
    match GetConversation(st, id)
    case None => Failure(ConversationNotFound)
    case Some(cv) =>
      var participants := {cv.adminId, cv.psicologoId};
      if senderId !in participants || receiverId !in participants then
        Failure(SenderOrReceiverNotInConversation)
      else
        var m := Message(st.nextMessageId, id, senderId, receiverId, text, now, false);
        var cv' := cv.(updatedAt := now, lastMessageAt := Some(now),
                       lastMessageText := Some(LastMessageSummary(text)));
        Success((Store(st.conversations[id := cv'], st.messages + [m],
                       st.nextConversationId, st.nextMessageId + 1), m))
  }

  /** With a clock that does not run backwards, creation keeps every table invariant. */
  lemma CreateMessagePreservesValid(st: Store, id: ConversationId, senderId: UserId, receiverId: UserId,
                                    text: string, now: Timestamp)
    requires Valid(st)
    requires forall i :: 0 <= i < |st.messages| ==> st.messages[i].createdAt <= now
    ensures var r := CreateMessage(st, id, senderId, receiverId, text, now);
            r.Success? ==> Valid(r.value.0)
  {
    var r := CreateMessage(st, id, senderId, receiverId, text, now);
    if r.Success? {
      var (st', m) := r.value;
      var msgs := st'.messages;
      assert msgs == st.messages + [m];
      assert forall i :: 0 <= i < |st.messages| ==> msgs[i] == st.messages[i];
      assert msgs[|msgs| - 1] == m;
      assert IdsFromSequence(st');
      assert UniquePairs(st'.conversations);
      assert SummaryFits(st'.conversations);
      assert MessagesOwned(st');
      assert MessageIdsIncreasing(st');
      assert Chronological(msgs);
    }
  }

  /** The new message closes the conversation's history; no other history changes. */
  lemma CreateMessageExtendsHistory(st: Store, id: ConversationId, senderId: UserId, receiverId: UserId,
                                    text: string, now: Timestamp, other: ConversationId)
    ensures var r := CreateMessage(st, id, senderId, receiverId, text, now);
            r.Success? ==>
              && MessagesOf(r.value.0.messages, id) == MessagesOf(st.messages, id) + [r.value.1]
              && (other != id ==> MessagesOf(r.value.0.messages, other) == MessagesOf(st.messages, other))
  {
    var r := CreateMessage(st, id, senderId, receiverId, text, now);
    if r.Success? {
      MessagesOfAppend(st.messages, r.value.1, id);
      MessagesOfAppend(st.messages, r.value.1, other);
    }
  }

  // ---------------------------------------------------------------------------
  // Unread state
  // ---------------------------------------------------------------------------

  /** A message of conversation `id` addressed to `userId` that has not been read. */
  predicate IsUnreadFor(m: Message, id: ConversationId, userId: UserId) {
    m.conversationId == id && m.receiverId == userId && !m.isRead
  }

  /** The derived unread count: messages of `id` addressed to `userId` not yet read. */
  function UnreadCount(msgs: seq<Message>, id: ConversationId, userId: UserId): (n: nat)
    ensures n <= |msgs|
    ensures n == 0 <==> forall i :: 0 <= i < |msgs| ==> !IsUnreadFor(msgs[i], id, userId)
  {
    if |msgs| == 0 then 0
    else (if IsUnreadFor(msgs[0], id, userId) then 1 else 0) + UnreadCount(msgs[1..], id, userId)
  }

  lemma {:induction false} UnreadCountAppend(msgs: seq<Message>, m: Message, id: ConversationId, userId: UserId)
    ensures UnreadCount(msgs + [m], id, userId)
            == UnreadCount(msgs, id, userId) + (if IsUnreadFor(m, id, userId) then 1 else 0)
    decreases |msgs|
  {
    if |msgs| == 0 {
      assert msgs + [m] == [m];
    } else {
      assert (msgs + [m])[1..] == msgs[1..] + [m];
      UnreadCountAppend(msgs[1..], m, id, userId);
    }
  }

  /**
   A new message adds one to its receiver's unread count in that conversation
   and leaves every other (conversation, user) count as it was.
   */
  lemma CreateMessageUnread(st: Store, id: ConversationId, senderId: UserId, receiverId: UserId,
                            text: string, now: Timestamp, c: ConversationId, u: UserId)
    ensures var r := CreateMessage(st, id, senderId, receiverId, text, now);
            r.Success? ==>
              UnreadCount(r.value.0.messages, c, u)
              == UnreadCount(st.messages, c, u) + (if c == id && u == receiverId then 1 else 0)
  {
    var r := CreateMessage(st, id, senderId, receiverId, text, now);
    if r.Success? {
      UnreadCountAppend(st.messages, r.value.1, c, u);
    }
  }

  /** The row as `mark_messages_as_read` leaves it. */
  function MarkOne(m: Message, id: ConversationId, userId: UserId): Message {
    if IsUnreadFor(m, id, userId) then m.(isRead := true) else m
  }

  function MarkAll(msgs: seq<Message>, id: ConversationId, userId: UserId): (r: seq<Message>)
    ensures |r| == |msgs|
    ensures forall i :: 0 <= i < |msgs| ==> r[i] == MarkOne(msgs[i], id, userId)
  {
    if |msgs| == 0 then [] else [MarkOne(msgs[0], id, userId)] + MarkAll(msgs[1..], id, userId)
  }

  /** The number of positions where two equally long tables differ (the update's row count). */
  function ChangedRows(before: seq<Message>, after: seq<Message>): nat
    requires |before| == |after|
  {
    if |before| == 0 then 0
    else (if before[0] != after[0] then 1 else 0) + ChangedRows(before[1..], after[1..])
  }

  lemma {:induction false} MarkAllChangesUnreadRows(msgs: seq<Message>, id: ConversationId, userId: UserId)
    ensures ChangedRows(msgs, MarkAll(msgs, id, userId)) == UnreadCount(msgs, id, userId)
    decreases |msgs|
  {
    if |msgs| > 0 {
      var r := MarkAll(msgs, id, userId);
      assert r[1..] == MarkAll(msgs[1..], id, userId);
      MarkAllChangesUnreadRows(msgs[1..], id, userId);
    }
  }

  /**
   Sets `is_read` on exactly the unread messages of `id` addressed to
   `userId` and returns how many rows that changed; nothing else moves.
   */
  function MarkMessagesAsRead(st: Store, id: ConversationId, userId: UserId): (r: (Store, nat))
    ensures r.0.conversations == st.conversations
    ensures r.0.nextConversationId == st.nextConversationId && r.0.nextMessageId == st.nextMessageId
    ensures |r.0.messages| == |st.messages|
    ensures forall i :: 0 <= i < |st.messages| ==>
              if IsUnreadFor(st.messages[i], id, userId)
              then r.0.messages[i] == st.messages[i].(isRead := true)
              else r.0.messages[i] == st.messages[i]
    ensures r.1 == ChangedRows(st.messages, r.0.messages)
    ensures UnreadCount(r.0.messages, id, userId) == 0
  {
    var marked := MarkAll(st.messages, id, userId);
    MarkAllChangesUnreadRows(st.messages, id, userId);
    (st.(messages := marked), UnreadCount(st.messages, id, userId))
  }

  /** The count returned is the unread count before the call. */
  lemma MarkReadCountsUnread(st: Store, id: ConversationId, userId: UserId)
    ensures MarkMessagesAsRead(st, id, userId).1 == UnreadCount(st.messages, id, userId)
  {
    MarkAllChangesUnreadRows(st.messages, id, userId);
  }

  /** An immediate repeat returns 0 and changes nothing. */
  lemma MarkReadIdempotent(st: Store, id: ConversationId, userId: UserId)
    ensures var (st1, _) := MarkMessagesAsRead(st, id, userId);
            MarkMessagesAsRead(st1, id, userId) == (st1, 0)
  {
    var (st1, _) := MarkMessagesAsRead(st, id, userId);
    var (st2, n2) := MarkMessagesAsRead(st1, id, userId);
    MarkReadCountsUnread(st1, id, userId);
    assert st2.messages == st1.messages;
  }

  /** Marking one (conversation, user) leaves every other unread count alone. */
  lemma {:induction false} MarkAllKeepsOtherCounts(msgs: seq<Message>, id: ConversationId, userId: UserId,
                                                   c: ConversationId, u: UserId)
    requires c != id || u != userId
    ensures UnreadCount(MarkAll(msgs, id, userId), c, u) == UnreadCount(msgs, c, u)
    decreases |msgs|
  {
    if |msgs| > 0 {
      var r := MarkAll(msgs, id, userId);
      assert r[1..] == MarkAll(msgs[1..], id, userId);
      MarkAllKeepsOtherCounts(msgs[1..], id, userId, c, u);
    }
  }

  lemma MarkReadKeepsOtherCounts(st: Store, id: ConversationId, userId: UserId, c: ConversationId, u: UserId)
    requires c != id || u != userId
    ensures UnreadCount(MarkMessagesAsRead(st, id, userId).0.messages, c, u) == UnreadCount(st.messages, c, u)
  {
    MarkAllKeepsOtherCounts(st.messages, id, userId, c, u);
  }

  lemma MarkReadPreservesValid(st: Store, id: ConversationId, userId: UserId)
    requires Valid(st)
    ensures Valid(MarkMessagesAsRead(st, id, userId).0)
  {
    var st1 := MarkMessagesAsRead(st, id, userId).0;
    assert forall i :: 0 <= i < |st.messages| ==>
      st1.messages[i].id == st.messages[i].id
      && st1.messages[i].conversationId == st.messages[i].conversationId
      && st1.messages[i].createdAt == st.messages[i].createdAt;
  }

  // ---------------------------------------------------------------------------
  // Conversation listing
  // ---------------------------------------------------------------------------

  /** One listing entry: the conversation, the counterpart's display name, the caller's unread count. */
  datatype ConversationRow = ConversationRow(
    id: ConversationId, conversation: Conversation, participantName: string, unreadCount: nat)

  /** The caller's side of the pair: the admin column for admins, the psicologo column otherwise. */
  predicate OnCallerSide(cv: Conversation, userId: UserId, isAdmin: bool) {
    if isAdmin then cv.adminId == userId else cv.psicologoId == userId
  }

  /** The other side of the pair, whose name the listing shows. */
  function Counterpart(cv: Conversation, isAdmin: bool): UserId {
    if isAdmin then cv.psicologoId else cv.adminId
  }

  /** `f"{nombre} {apellido}"`. */
  function DisplayName(u: UserRecord): string {
    u.nombre + " " + u.apellido
  }

  /** Conversation `id` belongs in the caller's listing (the inner join needs the counterpart's user row). */
  ghost predicate Listed(st: Store, dir: Directory, userId: UserId, isAdmin: bool, id: ConversationId) {
    id in st.conversations && OnCallerSide(st.conversations[id], userId, isAdmin)
    && Counterpart(st.conversations[id], isAdmin) in dir
  }

  /** A row carries its conversation, the counterpart's name and the caller's unread count. */
  ghost predicate RowDescribes(st: Store, dir: Directory, userId: UserId, isAdmin: bool, row: ConversationRow) {
    && Listed(st, dir, userId, isAdmin, row.id)
    && row.conversation == st.conversations[row.id]
    && row.participantName == DisplayName(dir[Counterpart(row.conversation, isAdmin)])
    && row.unreadCount == UnreadCount(st.messages, row.id, userId)
  }

  /** `ORDER BY updated_at DESC`. */
  ghost predicate MostRecentFirst(rows: seq<ConversationRow>) {
    forall i, j :: 0 <= i < j < |rows| ==> rows[i].conversation.updatedAt >= rows[j].conversation.updatedAt
  }

  ghost predicate DistinctIds(rows: seq<ConversationRow>) {
    forall i, j :: 0 <= i < j < |rows| ==> rows[i].id != rows[j].id
  }

  lemma MostRecentTail(rows: seq<ConversationRow>)
    requires |rows| > 0 && MostRecentFirst(rows)
    ensures MostRecentFirst(rows[1..])
    ensures forall x :: x in rows[1..] ==> rows[0].conversation.updatedAt >= x.conversation.updatedAt
  {
    var tail := rows[1..];
    forall i, j | 0 <= i < j < |tail| ensures tail[i].conversation.updatedAt >= tail[j].conversation.updatedAt {
      assert tail[i] == rows[i + 1] && tail[j] == rows[j + 1];
    }
    forall x | x in tail ensures rows[0].conversation.updatedAt >= x.conversation.updatedAt {
      var k :| 0 <= k < |tail| && tail[k] == x;
      assert tail[k] == rows[k + 1];
    }
  }

  lemma RowCons(row: ConversationRow, rest: seq<ConversationRow>)
    requires MostRecentFirst(rest)
    requires forall x :: x in rest ==> row.conversation.updatedAt >= x.conversation.updatedAt
    ensures MostRecentFirst([row] + rest)
    ensures DistinctIds(rest) && (forall x :: x in rest ==> x.id != row.id) ==> DistinctIds([row] + rest)
  {
    var r := [row] + rest;
    forall i, j | 0 <= i < j < |r| ensures r[i].conversation.updatedAt >= r[j].conversation.updatedAt {
      assert r[j] == rest[j - 1] && rest[j - 1] in rest;
      if i > 0 {
        assert r[i] == rest[i - 1];
      }
    }
    if DistinctIds(rest) && (forall x :: x in rest ==> x.id != row.id) {
      forall i, j | 0 <= i < j < |r| ensures r[i].id != r[j].id {
        assert r[j] == rest[j - 1] && rest[j - 1] in rest;
        if i > 0 {
          assert r[i] == rest[i - 1];
        }
      }
    }
  }

  /** Places `row` before the first entry that is not more recent. */
  function InsertByRecency(row: ConversationRow, rows: seq<ConversationRow>): (r: seq<ConversationRow>)
    requires MostRecentFirst(rows)
    ensures |r| == |rows| + 1
    ensures forall x :: x in r <==> x == row || x in rows
    ensures MostRecentFirst(r)
    ensures DistinctIds(rows) && (forall x :: x in rows ==> x.id != row.id) ==> DistinctIds(r)
  {
    if |rows| == 0 then [row]
    else if row.conversation.updatedAt >= rows[0].conversation.updatedAt then
      MostRecentTail(rows);
      RowCons(row, rows);
      [row] + rows
    else
      MostRecentTail(rows);
      var tail := rows[1..];
      var rec := InsertByRecency(row, tail);
      assert DistinctIds(rows) ==> DistinctIds(tail) by {
        if DistinctIds(rows) {
          forall i, j | 0 <= i < j < |tail| ensures tail[i].id != tail[j].id {
            assert tail[i] == rows[i + 1] && tail[j] == rows[j + 1];
          }
        }
      }
      assert DistinctIds(rows) ==> forall x :: x in tail ==> x.id != rows[0].id by {
        if DistinctIds(rows) {
          forall x | x in tail ensures x.id != rows[0].id {
            var k :| 0 <= k < |tail| && tail[k] == x;
            assert tail[k] == rows[k + 1];
          }
        }
      }
      assert rows == [rows[0]] + tail;
      RowCons(rows[0], rec);
      [rows[0]] + rec
  }

  /**
   The caller's conversations, most recently active first, each with the
   counterpart's display name and the caller's unread count.
   */
  method ListConversationsForUser(st: Store, dir: Directory, userId: UserId, isAdmin: bool)
    returns (rows: seq<ConversationRow>)
    ensures forall i :: 0 <= i < |rows| ==> RowDescribes(st, dir, userId, isAdmin, rows[i])
    ensures forall id :: Listed(st, dir, userId, isAdmin, id) ==> exists i :: 0 <= i < |rows| && rows[i].id == id
    ensures DistinctIds(rows)
    ensures MostRecentFirst(rows)
  {
    rows := [];
    var remaining := st.conversations.Keys;
    while remaining != {}
      invariant remaining <= st.conversations.Keys
      invariant forall x :: x in rows ==> RowDescribes(st, dir, userId, isAdmin, x) && x.id !in remaining
      invariant forall id :: Listed(st, dir, userId, isAdmin, id) && id !in remaining ==>
                  exists x :: x in rows && x.id == id
      invariant DistinctIds(rows)
      invariant MostRecentFirst(rows)
      decreases remaining
    {
      if forall k :: k !in remaining {
        assert false;
      }
      var id :| id in remaining;
      var cv := st.conversations[id];
      var other := Counterpart(cv, isAdmin);
      if OnCallerSide(cv, userId, isAdmin) && other in dir {
        var row := ConversationRow(id, cv, DisplayName(dir[other]), UnreadCount(st.messages, id, userId));
        rows := InsertByRecency(row, rows);
      }
      remaining := remaining - {id};
    }
    forall id | Listed(st, dir, userId, isAdmin, id) ensures exists i :: 0 <= i < |rows| && rows[i].id == id {
      var x :| x in rows && x.id == id;
      var i :| 0 <= i < |rows| && rows[i] == x;
    }
    assert forall i :: 0 <= i < |rows| ==> rows[i] in rows;
  }
}
