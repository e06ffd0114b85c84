/**
 The chat HTTP endpoints: role dispatch for get-or-create, the participant
 gates in front of history, sending and mark-as-read, the translation of the
 service's errors into HTTP errors, and the real-time push after a send.
 The authenticated caller's id is an input; the token check in front of
 these endpoints is not part of this model.
 */
module ChatController {
  import opened Wrappers
  import opened ChatModel
  import opened ChatService
  import opened ChatConnections

  /** An `HTTPException`: the status code and its detail text. */
  datatype HttpError = HttpError(status: int, detail: string)

  const AdminRole: string := "ADMINISTRADOR"
  const PsicologoRole: string := "PSICOLOGO"

  /** The event pushed to a conversation's sockets after a message is stored. */
  datatype PushEvent = PushEvent(kind: string, message: Message)

  const NewMessageEvent: string := "new_message"

  /** `get_user_with_role`: the user row with its role, or 404. */
  function GetUserWithRole(dir: Directory, userId: UserId): (r: Result<UserRecord, HttpError>)
    ensures r.Success? <==> userId in dir
    ensures r.Success? ==> r.value == dir[userId]
    ensures r.Failure? ==> r.error == HttpError(404, "User not found")
  {
    if userId in dir then Success(dir[userId]) else Failure(HttpError(404, "User not found"))
  }

  /**
   The (admin, psicologo) pair a caller asks for when naming `target`. An admin
   names a psicologo, a psicologo names an admin; the caller's side is filled
   with the caller. Any other role is refused before the target is looked up.
   */
  function ConversationPair(dir: Directory, caller: UserId, target: UserId): (r: Result<(UserId, UserId), HttpError>)
    ensures caller !in dir ==> r == Failure(HttpError(404, "User not found"))
    ensures caller in dir && dir[caller].roleName != AdminRole && dir[caller].roleName != PsicologoRole
            ==> r == Failure(HttpError(403, "Only admin or psicologo can create conversations"))
    ensures (caller in dir && (dir[caller].roleName == AdminRole || dir[caller].roleName == PsicologoRole)
             && target !in dir)
            ==> r == Failure(HttpError(404, "User not found"))
    ensures r.Success? <==>
              caller in dir && target in dir
              && ((dir[caller].roleName == AdminRole && dir[target].roleName == PsicologoRole)
                  || (dir[caller].roleName == PsicologoRole && dir[target].roleName == AdminRole))
    ensures r.Success? ==>
              (r.value == (caller, target) && dir[caller].roleName == AdminRole)
              || (r.value == (target, caller) && dir[caller].roleName == PsicologoRole)
    ensures r.Success? ==> dir[r.value.0].roleName == AdminRole && dir[r.value.1].roleName == PsicologoRole
    ensures caller in dir && target in dir && dir[caller].roleName == AdminRole
            && dir[target].roleName != PsicologoRole
            ==> r == Failure(HttpError(400, "Target user must be a psicologo"))
    ensures caller in dir && target in dir && dir[caller].roleName == PsicologoRole
            && dir[target].roleName != AdminRole
            ==> r == Failure(HttpError(400, "Target user must be an admin"))
    ensures r.Failure? && r.error.status == 400 ==>
              caller in dir && target in dir
              && r.error.detail == (if dir[caller].roleName == AdminRole
                                    then "Target user must be a psicologo" else "Target user must be an admin")
  {
    match GetUserWithRole(dir, caller)
    case Failure(e) => Failure(e)
    case Success(user) =>
      if user.roleName == AdminRole then
        match GetUserWithRole(dir, target)
        case Failure(e) => Failure(e)
        case Success(t) =>
          if t.roleName != PsicologoRole then Failure(HttpError(400, "Target user must be a psicologo"))
          else Success((caller, target))
      else if user.roleName == PsicologoRole then
        match GetUserWithRole(dir, target)
        case Failure(e) => Failure(e)
        case Success(t) =>
          if t.roleName != AdminRole then Failure(HttpError(400, "Target user must be an admin"))
          else Success((target, caller))
      else Failure(HttpError(403, "Only admin or psicologo can create conversations"))
  }

  /** Either side asking for the other names the same pair. */
  lemma PairIsSymmetric(dir: Directory, adminId: UserId, psicologoId: UserId)
    requires adminId in dir && dir[adminId].roleName == AdminRole
    requires psicologoId in dir && dir[psicologoId].roleName == PsicologoRole
    ensures ConversationPair(dir, adminId, psicologoId) == Success((adminId, psicologoId))
    ensures ConversationPair(dir, psicologoId, adminId) == Success((adminId, psicologoId))
  {
  }

  /** `POST /chat/conversations`. */
  function CreateOrGetConversation(st: Store, dir: Directory, caller: UserId, target: UserId, now: Timestamp)
    : (r: Result<(Store, ConversationId), HttpError>)
    ensures r.Failure? <==> ConversationPair(dir, caller, target).Failure?
    ensures r.Failure? ==> r.error == ConversationPair(dir, caller, target).error
    ensures r.Success? ==>
              var (st', id) := r.value;
              var (a, p) := ConversationPair(dir, caller, target).value;
              && id in st'.conversations && HasPair(st'.conversations[id], a, p)
              && (caller == a || caller == p) && (target == a || target == p)
              && st'.messages == st.messages
    ensures r.Success? ==>
              r.value == GetOrCreateConversation(st, ConversationPair(dir, caller, target).value.0,
                                                 ConversationPair(dir, caller, target).value.1, now)
  {
    match ConversationPair(dir, caller, target)
    case Failure(e) => Failure(e)
    case Success(pair) => Success(GetOrCreateConversation(st, pair.0, pair.1, now))
  }

  /**
   An admin opening a conversation with a psicologo, and that psicologo then
   opening one with the admin, land on the same conversation and leave the
   store as the first call left it.
   */
  lemma BothSidesMeet(st: Store, dir: Directory, adminId: UserId, psicologoId: UserId, now1: Timestamp, now2: Timestamp)
    requires adminId in dir && dir[adminId].roleName == AdminRole
    requires psicologoId in dir && dir[psicologoId].roleName == PsicologoRole
    ensures var r1 := CreateOrGetConversation(st, dir, adminId, psicologoId, now1);
            && r1.Success?
            && CreateOrGetConversation(r1.value.0, dir, psicologoId, adminId, now2) == r1
  {
    PairIsSymmetric(dir, adminId, psicologoId);
    GetOrCreateIdempotent(st, adminId, psicologoId, now1, now2);
  }

  /** One listing entry as returned: the counterpart's name sits in the column of its role. */
  datatype ConversationDetails = ConversationDetails(
    id: ConversationId, conversation: Conversation,
    adminNombre: Option<string>, psicologoNombre: Option<string>, unreadCount: nat)

  function Details(row: ConversationRow, isAdmin: bool): (d: ConversationDetails)
    ensures d.id == row.id && d.conversation == row.conversation && d.unreadCount == row.unreadCount
    ensures isAdmin ==> d.adminNombre.None? && d.psicologoNombre == Some(row.participantName)
    ensures !isAdmin ==> d.psicologoNombre.None? && d.adminNombre == Some(row.participantName)
  {
    ConversationDetails(row.id, row.conversation,
                        if isAdmin then None else Some(row.participantName),
                        if isAdmin then Some(row.participantName) else None,
                        row.unreadCount)
  }

  /**
   `GET /chat/conversations`. Only `ADMINISTRADOR` counts as admin; every
   other role, psicologo or not, is listed by the psicologo column.
   */
  method ListConversations(st: Store, dir: Directory, caller: UserId)
    returns (r: Result<seq<ConversationDetails>, HttpError>)
    ensures r.Failure? <==> caller !in dir
    ensures r.Failure? ==> r.error == HttpError(404, "User not found")
    ensures r.Success? ==>
              var isAdmin := dir[caller].roleName == AdminRole;
              && (forall i :: 0 <= i < |r.value| ==>
                    Listed(st, dir, caller, isAdmin, r.value[i].id)
                    && r.value[i].conversation == st.conversations[r.value[i].id]
                    && r.value[i].unreadCount == UnreadCount(st.messages, r.value[i].id, caller)
                    && (if isAdmin then r.value[i].psicologoNombre else r.value[i].adminNombre)
                       == Some(DisplayName(dir[Counterpart(r.value[i].conversation, isAdmin)]))
                    && (if isAdmin then r.value[i].adminNombre else r.value[i].psicologoNombre).None?)
              && (forall id :: Listed(st, dir, caller, isAdmin, id) ==>
                    exists i :: 0 <= i < |r.value| && r.value[i].id == id)
              && (forall i, j :: 0 <= i < j < |r.value| ==>
                    r.value[i].id != r.value[j].id
                    && r.value[i].conversation.updatedAt >= r.value[j].conversation.updatedAt)
  {
    var user := GetUserWithRole(dir, caller);
    if user.Failure? {
      return Failure(user.error);
    }
    var isAdmin := user.value.roleName == AdminRole;
    var rows := ListConversationsForUser(st, dir, caller, isAdmin);
    var out := seq(|rows|, i requires 0 <= i < |rows| => Details(rows[i], isAdmin));
    assert forall i :: 0 <= i < |out| ==> out[i] == Details(rows[i], isAdmin);
    forall id | Listed(st, dir, caller, isAdmin, id) ensures exists i :: 0 <= i < |out| && out[i].id == id {
      var i :| 0 <= i < |rows| && rows[i].id == id;
      assert out[i].id == id;
    }
    return Success(out);
  }

  /** `GET /chat/conversations/{id}/messages`: the page, for participants only. */
  function GetMessages(st: Store, caller: UserId, id: ConversationId, skip: nat, limit: nat)
    : (r: Result<seq<Message>, HttpError>)
    ensures r.Failure? <==> !IsUserInConversation(st, id, caller)
    ensures r.Failure? ==> r.error == HttpError(403, "Not authorized to view this conversation")
    ensures r.Success? ==> r.value == ListMessages(st, id, skip, limit)
  {
    if !IsUserInConversation(st, id, caller) then Failure(HttpError(403, "Not authorized to view this conversation"))
    else Success(ListMessages(st, id, skip, limit))
  }

  /** The default page: `skip = 0`, `limit = 100`. */
  const DefaultLimit: nat := 100

  /** The history request without `skip` and `limit`: the first 100 messages, for participants only. */
  function GetDefaultMessages(st: Store, caller: UserId, id: ConversationId): (r: Result<seq<Message>, HttpError>)
    ensures r.Failure? <==> !IsUserInConversation(st, id, caller)
    ensures r.Failure? ==> r.error == HttpError(403, "Not authorized to view this conversation")
    ensures r.Success? ==>
              |r.value| == Min(DefaultLimit, |History(st, id)|) && r.value == History(st, id)[..|r.value|]
  {
    GetMessages(st, caller, id, 0, DefaultLimit)
  }

  /**
   `POST /chat/conversations/{id}/messages`. The caller is the sender. A
   non-participant gets 403; a service error becomes 400 with its text and
   nothing is stored or pushed; otherwise the message is stored and a
   `new_message` event is pushed to the conversation's sockets, the failed ones
   of which (`failing`) are dropped.
   */
  method SendMessage(st: Store, reg: Registry, caller: UserId, id: ConversationId, receiver: UserId,
                     text: string, now: Timestamp, failing: set<Handle>)
    returns (r: Result<Message, HttpError>, st': Store, reg': Registry, pushed: Option<PushEvent>,
             delivered: set<Handle>)
    ensures !IsUserInConversation(st, id, caller) <==>
              r == Failure(HttpError(403, "Not authorized to send messages in this conversation"))
    ensures r.Failure? ==> st' == st && reg' == reg && pushed.None? && delivered == {}
    ensures r.Failure? && r.error.status == 400 ==>
              r.error.detail == "Sender or receiver not in conversation"
              && IsUserInConversation(st, id, caller) && !IsUserInConversation(st, id, receiver)
    ensures r.Failure? ==> r.error.status == 400 || r.error.status == 403
    ensures IsUserInConversation(st, id, caller) && !IsUserInConversation(st, id, receiver) ==>
              r == Failure(HttpError(400, "Sender or receiver not in conversation"))
    ensures r.Success? <==> IsUserInConversation(st, id, caller) && IsUserInConversation(st, id, receiver)
    ensures r.Success? ==>
              var created := CreateMessage(st, id, caller, receiver, text, now);
              && created.Success? && (st', r.value) == created.value
              && pushed == Some(PushEvent(NewMessageEvent, r.value))
              && delivered == Room(reg, id) - failing
              && Room(reg', id) == Room(reg, id) - failing
              && (forall d :: d != id ==> Room(reg', d) == Room(reg, d))
              && (id in reg'.rooms <==>
                    id in reg.rooms && (Room(reg, id) * failing == {} || Room(reg, id) - failing != {}))
    ensures forall d :: d != id ==> (d in reg'.rooms <==> d in reg.rooms)
    ensures NoEmptyRooms(reg) ==> NoEmptyRooms(reg')
  {
    st', reg', pushed, delivered := st, reg, None, {};
    if !IsUserInConversation(st, id, caller) {
      r := Failure(HttpError(403, "Not authorized to send messages in this conversation"));
      return;
    }
    var created := CreateMessage(st, id, caller, receiver, text, now);
    if created.Failure? {
      r := Failure(HttpError(400, ErrorDetail(created.error)));
      return;
    }
    var m;
    st', m := created.value.0, created.value.1;
    var event := PushEvent(NewMessageEvent, m);
    reg', delivered := Broadcast(reg, id, failing);
    pushed := Some(event);
    r := Success(m);
  }

  /** `POST /chat/conversations/{id}/read`: the number of messages newly marked. */
  function MarkAsRead(st: Store, caller: UserId, id: ConversationId): (r: Result<(Store, nat), HttpError>)
    ensures r.Failure? <==> !IsUserInConversation(st, id, caller)
    ensures r.Failure? ==> r.error == HttpError(403, "Not authorized")
    ensures r.Success? ==> r.value == MarkMessagesAsRead(st, id, caller)
    ensures r.Success? ==>
              && r.value.1 == UnreadCount(st.messages, id, caller)
              && UnreadCount(r.value.0.messages, id, caller) == 0
              && r.value.0.conversations == st.conversations
  {
    if !IsUserInConversation(st, id, caller) then Failure(HttpError(403, "Not authorized"))
    else
      MarkReadCountsUnread(st, id, caller);
      Success(MarkMessagesAsRead(st, id, caller))
  }

  /**
   After the sender sends a message to the receiver, the receiver has one more
   unread message in the conversation and the sender's own count is unchanged;
   once the receiver marks the conversation read, the call reports every one of
   those messages and the receiver has none left unread.
   */
  lemma SendThenReadClearsUnread(st: Store, reg: Registry, sender: UserId, receiver: UserId,
                                 id: ConversationId, text: string, now: Timestamp)
    requires IsUserInConversation(st, id, sender) && IsUserInConversation(st, id, receiver)
    ensures var created := CreateMessage(st, id, sender, receiver, text, now);
            && created.Success?
            && UnreadCount(created.value.0.messages, id, receiver) == UnreadCount(st.messages, id, receiver) + 1
            && (sender != receiver ==>
                  UnreadCount(created.value.0.messages, id, sender) == UnreadCount(st.messages, id, sender))
            && var marked := MarkAsRead(created.value.0, receiver, id);
               && marked.Success?
               && marked.value.1 == UnreadCount(st.messages, id, receiver) + 1
               && UnreadCount(marked.value.0.messages, id, receiver) == 0
  {
    CreateMessageUnread(st, id, sender, receiver, text, now, id, receiver);
    CreateMessageUnread(st, id, sender, receiver, text, now, id, sender);
  }
}
