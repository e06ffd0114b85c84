/**
 The real-time chat endpoint `/chat/ws/{conversation_id}` as a state machine
 over one socket: accept, authenticate the query token, check membership,
 register in the conversation's room, answer pings, and deregister when the
 client goes away. Token decoding and the socket's receive outcomes are
 inputs; signatures and frames on the wire are not modelled.
 */
module ChatSocket {
  import opened Wrappers
  import opened ChatModel
  import opened ChatService
  import opened ChatConnections

  /** Close code for a token that does not identify a user. */
  const CloseUnauthenticated: int := 4401
  /** Close code for a user outside the conversation. */
  const CloseForbidden: int := 4403

  /** What the token's `sub` claim holds after a successful decode. */
  datatype SubClaim = NoSub | SubNotInteger | SubInteger(value: int)

  /** The outcome of decoding and verifying the token. */
  datatype TokenDecoding = DecodeFailed | Decoded(sub: SubClaim)

  /** What one `receive_text` produces. */
  datatype Inbound =
    | TextFrame(data: string)
    | ClientDisconnect   // `WebSocketDisconnect`
    | TransportFailure   // any other exception

  /** What the server writes to the socket. */
  datatype Outbound = AcceptFrame | PongFrame | CloseFrame(code: int)

  datatype EndReason = AuthenticationFailed | NotParticipant | ClientDisconnected | TransportError

  datatype Phase = Streaming(userId: UserId) | Ended(reason: EndReason)

  /** One socket's session: its phase, the shared registry, and everything written so far. */
  datatype Session = Session(phase: Phase, registry: Registry, outbox: seq<Outbound>)

  /** The user id the token names; a failed decode, a missing or a non-integer `sub` name none. */
  function Authenticate(token: TokenDecoding): (r: Option<UserId>)
    ensures r.Some? <==> token.Decoded? && token.sub.SubInteger?
    ensures r.Some? ==> r.value == token.sub.value
  {
    match token
    case DecodeFailed => None
    case Decoded(sub) =>
      match sub
      case SubInteger(n) => Some(n)
      case _ => None
  }

  /**
   From accept to the start of the receive loop: the socket is accepted first,
   closed with 4401 when the token names no user, closed with 4403 when that
   user is not in the conversation, and otherwise registered in its room.
   */
  function Open(st: Store, reg: Registry, c: ConversationId, h: Handle, token: TokenDecoding): (s: Session)
    ensures |s.outbox| >= 1 && s.outbox[0] == AcceptFrame
    ensures Authenticate(token).None? ==>
              s == Session(Ended(AuthenticationFailed), reg, [AcceptFrame, CloseFrame(CloseUnauthenticated)])
    ensures Authenticate(token).Some? && !IsUserInConversation(st, c, Authenticate(token).value) ==>
              s == Session(Ended(NotParticipant), reg, [AcceptFrame, CloseFrame(CloseForbidden)])
    ensures s.phase.Streaming? <==>
              Authenticate(token).Some? && IsUserInConversation(st, c, Authenticate(token).value)
    ensures s.phase.Streaming? ==>
              s.phase.userId == Authenticate(token).value && s.registry == Connect(reg, c, h)
              && s.outbox == [AcceptFrame]
  {
    var accepted := [AcceptFrame];
    match Authenticate(token)
    case None => Session(Ended(AuthenticationFailed), reg, accepted + [CloseFrame(CloseUnauthenticated)])
    case Some(u) =>
      if !IsUserInConversation(st, c, u) then
        Session(Ended(NotParticipant), reg, accepted + [CloseFrame(CloseForbidden)])
      else
        Session(Streaming(u), Connect(reg, c, h), accepted)
  }

  /** A token that names no user is refused the same way whatever the tables hold. */
  lemma RefusalIgnoresStore(st1: Store, st2: Store, reg: Registry, c: ConversationId, h: Handle, token: TokenDecoding)
    requires Authenticate(token).None?
    ensures Open(st1, reg, c, h, token) == Open(st2, reg, c, h, token)
  {
  }

  /** The socket joins the room exactly when both checks pass. */
  lemma OpenRegistersOnlyParticipants(st: Store, reg: Registry, c: ConversationId, h: Handle, token: TokenDecoding)
    requires h !in Room(reg, c)
    ensures h in Room(Open(st, reg, c, h, token).registry, c)
            <==> Authenticate(token).Some? && IsUserInConversation(st, c, Authenticate(token).value)
  {
  }

  /** One turn of the receive loop; an ended session ignores further input. */
  function Receive(s: Session, c: ConversationId, h: Handle, ev: Inbound): (r: Session)
    ensures s.phase.Ended? ==> r == s
    ensures s.phase.Streaming? && ev.TextFrame? ==>
              r.phase == s.phase && r.registry == s.registry
              && r.outbox == s.outbox + (if ev.data == "ping" then [PongFrame] else [])
    ensures s.phase.Streaming? && ev.ClientDisconnect? ==>
              r == Session(Ended(ClientDisconnected), Disconnect(s.registry, c, h), s.outbox)
    ensures s.phase.Streaming? && ev.TransportFailure? ==>
              r == Session(Ended(TransportError), s.registry, s.outbox)
  {
    match s.phase
    case Streaming(_) =>
      (match ev
       case TextFrame(data) => if data == "ping" then s.(outbox := s.outbox + [PongFrame]) else s
       case ClientDisconnect => Session(Ended(ClientDisconnected), Disconnect(s.registry, c, h), s.outbox)
       case TransportFailure => s.(phase := Ended(TransportError)))
    case _ => s
  }

  /** Feeds the socket's inbound events to the loop in order. */
  function Run(s: Session, c: ConversationId, h: Handle, evs: seq<Inbound>): Session
    decreases |evs|
  {
    if |evs| == 0 then s else Run(Receive(s, c, h, evs[0]), c, h, evs[1..])
  }

  /** The number of `ping` frames before the first disconnect or failure. */
  function PingsBeforeEnd(evs: seq<Inbound>): nat
    decreases |evs|
  {
    if |evs| == 0 || !evs[0].TextFrame? then 0
    else (if evs[0].data == "ping" then 1 else 0) + PingsBeforeEnd(evs[1..])
  }

  /** The first event that ends the loop, if any. */
  function FirstEnd(evs: seq<Inbound>): (r: Option<Inbound>)
    ensures r.Some? ==> !r.value.TextFrame? && r.value in evs
    ensures r.Some? ==>
              exists i :: 0 <= i < |evs| && evs[i] == r.value && forall k :: 0 <= k < i ==> evs[k].TextFrame?
    ensures r.None? <==> forall i :: 0 <= i < |evs| ==> evs[i].TextFrame?
    decreases |evs|
  {
    if |evs| == 0 then None
    else if !evs[0].TextFrame? then Some(evs[0])
    else FirstEnd(evs[1..])
  }

  function Pongs(n: nat): (r: seq<Outbound>)
    ensures |r| == n && forall i :: 0 <= i < n ==> r[i] == PongFrame
  {
    if n == 0 then [] else [PongFrame] + Pongs(n - 1)
  }

  lemma {:induction false} EndedIsFinal(s: Session, c: ConversationId, h: Handle, evs: seq<Inbound>)
    requires s.phase.Ended?
    ensures Run(s, c, h, evs) == s
    decreases |evs|
  {
    if |evs| > 0 {
      EndedIsFinal(Receive(s, c, h, evs[0]), c, h, evs[1..]);
    }
  }

  /**
   Running a live session answers exactly one pong per ping before the first
   disconnect or failure, and nothing else is written.
   */
  lemma {:induction false} OnePongPerPing(s: Session, c: ConversationId, h: Handle, evs: seq<Inbound>)
    requires s.phase.Streaming?
    ensures Run(s, c, h, evs).outbox == s.outbox + Pongs(PingsBeforeEnd(evs))
    decreases |evs|
  {
    if |evs| > 0 {
      var s1 := Receive(s, c, h, evs[0]);
      if evs[0].TextFrame? {
        OnePongPerPing(s1, c, h, evs[1..]);
        var n := PingsBeforeEnd(evs[1..]);
        if evs[0].data == "ping" {
          assert Pongs(n + 1) == [PongFrame] + Pongs(n);
          assert s.outbox + Pongs(n + 1) == s.outbox + [PongFrame] + Pongs(n);
        }
      } else {
        EndedIsFinal(s1, c, h, evs[1..]);
      }
    }
  }

  /**
   The phase and registry after the loop depend only on the first ending
   event: none keeps the session live and registered, a client disconnect
   removes the socket from its room, any other failure leaves it registered.
   */
  lemma {:induction false} LoopOutcome(s: Session, c: ConversationId, h: Handle, evs: seq<Inbound>)
    requires s.phase.Streaming?
    ensures var r := Run(s, c, h, evs);
            match FirstEnd(evs)
            case None => r.phase == s.phase && r.registry == s.registry
            case Some(ClientDisconnect) =>
              r.phase == Ended(ClientDisconnected) && r.registry == Disconnect(s.registry, c, h)
            case Some(_) => r.phase == Ended(TransportError) && r.registry == s.registry
    decreases |evs|
  {
    if |evs| > 0 {
      var s1 := Receive(s, c, h, evs[0]);
      if evs[0].TextFrame? {
        LoopOutcome(s1, c, h, evs[1..]);
      } else {
        EndedIsFinal(s1, c, h, evs[1..]);
      }
    }
  }

  /** A whole session: opened, then fed its inbound events. */
  function WholeSession(st: Store, reg: Registry, c: ConversationId, h: Handle, token: TokenDecoding,
                    evs: seq<Inbound>): Session
  {
    Run(Open(st, reg, c, h, token), c, h, evs)
  }

  /**
   A socket that joined a room has passed both checks; after a client
   disconnect it is no longer in the room; after any other failure it stays
   registered, since only `WebSocketDisconnect` leads to deregistration.
   */
  lemma SessionLifecycle(st: Store, reg: Registry, c: ConversationId, h: Handle, token: TokenDecoding,
                         evs: seq<Inbound>)
    requires h !in Room(reg, c)
    ensures var r := WholeSession(st, reg, c, h, token, evs);
            && (h in Room(r.registry, c) ==>
                  Authenticate(token).Some? && IsUserInConversation(st, c, Authenticate(token).value))
            && (FirstEnd(evs) == Some(ClientDisconnect) ==> h !in Room(r.registry, c))
            && ((Authenticate(token).Some? && IsUserInConversation(st, c, Authenticate(token).value)
                 && FirstEnd(evs) == Some(TransportFailure))
                ==> h in Room(r.registry, c))
  {
    var s0 := Open(st, reg, c, h, token);
    if s0.phase.Streaming? {
      LoopOutcome(s0, c, h, evs);
    } else {
      EndedIsFinal(s0, c, h, evs);
    }
  }
}
