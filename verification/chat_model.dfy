/**
 Record shapes of the chat tables (`Conversaciones` and `Mensajes`) and the
 integrity rules the database keeps for them: one conversation per
 (admin, psicologo) pair, every message owned by an existing conversation,
 a 500-character summary column, ids handed out by increasing sequences.
 */
module ChatModel {
  import opened Wrappers

  type UserId = int
  type ConversationId = int
  type MessageId = int

  /** An abstract point in time; a larger value is later. */
  type Timestamp = int

  /** Width of the `last_message_text` column. */
  const LastMessageTextLimit: nat := 500

  /**
   A `Conversaciones` row. The store's map key is its `id_conversacion`; both
   participant columns are required, the two last-message columns start empty.
   */
  datatype Conversation = Conversation(
    adminId: UserId,
    psicologoId: UserId,
    createdAt: Timestamp,
    updatedAt: Timestamp,
    lastMessageAt: Option<Timestamp>,
    lastMessageText: Option<string>)

  /** A `Mensajes` row: owning conversation, both ends, the text, and the read flag. */
  datatype Message = Message(
    id: MessageId,
    conversationId: ConversationId,
    senderId: UserId,
    receiverId: UserId,
    text: string,
    createdAt: Timestamp,
    isRead: bool)

  /**
   The two chat tables. `messages` is in insertion order; the two counters
   stand for the primary-key sequences and give the next id to hand out.
   */
  datatype Store = Store(
    conversations: map<ConversationId, Conversation>,
    messages: seq<Message>,
    nextConversationId: nat,
    nextMessageId: nat)

  /** The part of a `Usuarios` row (joined with its role) that the chat core reads. */
  datatype UserRecord = UserRecord(nombre: string, apellido: string, roleName: string)

  /** The user directory, keyed by `id_usuario`. */
  type Directory = map<UserId, UserRecord>

  /** Empty tables; both sequences start at 1. */
  function EmptyStore(): Store {
    Store(map[], [], 1, 1)
  }

  /** A conversation as inserted: both timestamps default to the insertion time. */
  function NewConversation(adminId: UserId, psicologoId: UserId, now: Timestamp): Conversation {
    Conversation(adminId, psicologoId, now, now, None, None)
  }

  predicate HasPair(cv: Conversation, adminId: UserId, psicologoId: UserId) {
    cv.adminId == adminId && cv.psicologoId == psicologoId
  }

  /** The `uq_admin_psicologo` constraint: no two conversations share a directional pair. */
  ghost predicate UniquePairs(convs: map<ConversationId, Conversation>) {
    forall c1, c2 ::
      c1 in convs && c2 in convs && HasPair(convs[c2], convs[c1].adminId, convs[c1].psicologoId)
      ==> c1 == c2
  }

  /** Every conversation id was handed out by the sequence, which starts at 1. */
  ghost predicate IdsFromSequence(st: Store) {
    && 0 < st.nextConversationId
    && forall c :: c in st.conversations ==> 0 < c < st.nextConversationId
  }

  /** The summary column never holds more than 500 characters. */
  ghost predicate SummaryFits(convs: map<ConversationId, Conversation>) {
    forall c :: c in convs && convs[c].lastMessageText.Some? ==>
      |convs[c].lastMessageText.value| <= LastMessageTextLimit
  }

  /** Every message references exactly one existing conversation. */
  ghost predicate MessagesOwned(st: Store) {
    forall i :: 0 <= i < |st.messages| ==> st.messages[i].conversationId in st.conversations
  }

  /** Message ids grow with insertion order and stay below the sequence. */
  ghost predicate MessageIdsIncreasing(st: Store) {
    && (forall i, j :: 0 <= i < j < |st.messages| ==> st.messages[i].id < st.messages[j].id)
    && (forall i :: 0 <= i < |st.messages| ==> st.messages[i].id < st.nextMessageId)
  }

  /** Store order agrees with creation time. */
  ghost predicate Chronological(msgs: seq<Message>) {
    forall i, j :: 0 <= i < j < |msgs| ==> msgs[i].createdAt <= msgs[j].createdAt
  }

  /**
   The integrity rules of the chat tables: the database's constraints and
   sequences, plus creation-time order of the message table, which holds as
   long as the clock supplied to each insert does not run backwards.
   */
  ghost predicate Valid(st: Store) {
    && IdsFromSequence(st)
    && UniquePairs(st.conversations)
    && SummaryFits(st.conversations)
    && MessagesOwned(st)
    && MessageIdsIncreasing(st)
    && Chronological(st.messages)
  }

  lemma EmptyStoreValid()
    ensures Valid(EmptyStore())
  {
  }
}
