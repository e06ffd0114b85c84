/**
 The in-process registry of live chat sockets: for each conversation, the set
 of open handles that should receive its real-time events. A handle stands for
 one accepted websocket; whether a send to it fails is supplied by the caller.
 */
module ChatConnections {
  import opened ChatModel

  /** One accepted websocket, compared by identity. */
  datatype Handle = Handle(id: nat)

  /** `active_connections`: conversation id to its set of sockets. */
  datatype Registry = Registry(rooms: map<ConversationId, set<Handle>>)

  /** No socket is registered at startup. */
  function EmptyRegistry(): (r: Registry)
    ensures NoEmptyRooms(r)
    ensures forall c :: Room(r, c) == {}
  {
    Registry(map[])
  }

  /** The sockets of a conversation; a missing room has none. */
  function Room(reg: Registry, c: ConversationId): set<Handle> {
    if c in reg.rooms then reg.rooms[c] else {}
  }

  /** No conversation is kept with an empty socket set. */
  ghost predicate NoEmptyRooms(reg: Registry) {
    forall c :: c in reg.rooms ==> reg.rooms[c] != {}
  }

  /** Adds a socket to a conversation's room, creating the room when needed. */
  function Connect(reg: Registry, c: ConversationId, h: Handle): (r: Registry)
    ensures Room(r, c) == Room(reg, c) + {h}
    ensures r.rooms.Keys == reg.rooms.Keys + {c}
    ensures forall d :: d != c ==> Room(r, d) == Room(reg, d)
    ensures NoEmptyRooms(reg) ==> NoEmptyRooms(r)
  {
    Registry(reg.rooms[c := Room(reg, c) + {h}])
  }

  /**
   Removes a socket from a conversation's room and drops the room once it is
   empty. A missing or already empty room is left exactly as it is.
   */
  function Disconnect(reg: Registry, c: ConversationId, h: Handle): (r: Registry)
    ensures Room(r, c) == Room(reg, c) - {h}
    ensures forall d :: d != c ==> Room(r, d) == Room(reg, d)
    ensures forall d :: d != c ==> (d in r.rooms <==> d in reg.rooms)
    ensures c in r.rooms <==> c in reg.rooms && (Room(reg, c) == {} || Room(reg, c) - {h} != {})
    ensures h !in Room(reg, c) ==> r == reg
    ensures NoEmptyRooms(reg) ==> NoEmptyRooms(r)
  {
    if c !in reg.rooms || reg.rooms[c] == {} then reg
    else
      var rest := reg.rooms[c] - {h};
      assert h !in reg.rooms[c] ==> rest == reg.rooms[c] && reg.rooms[c := rest] == reg.rooms;
      if rest == {} then Registry(reg.rooms - {c}) else Registry(reg.rooms[c := rest])
  }

  /** Disconnecting a socket that was just connected restores the registry. */
  lemma DisconnectUndoesConnect(reg: Registry, c: ConversationId, h: Handle)
    requires NoEmptyRooms(reg)
    requires h !in Room(reg, c)
    ensures Disconnect(Connect(reg, c, h), c, h) == reg
  {
    var r := Disconnect(Connect(reg, c, h), c, h);
    assert Room(r, c) == Room(reg, c);
    assert r.rooms.Keys == reg.rooms.Keys;
    assert forall d :: d in r.rooms ==> r.rooms[d] == Room(r, d) && reg.rooms[d] == Room(reg, d);
  }

  /** Connecting twice is connecting once; so is disconnecting twice. */
  lemma ConnectDisconnectIdempotent(reg: Registry, c: ConversationId, h: Handle)
    ensures Connect(Connect(reg, c, h), c, h) == Connect(reg, c, h)
    ensures Disconnect(Disconnect(reg, c, h), c, h) == Disconnect(reg, c, h)
  {
    assert Room(Connect(reg, c, h), c) + {h} == Room(reg, c) + {h};
  }

  /**
   Sends an event to every socket of the room. Each send either succeeds or
   fails (`failing` says which); after all sends, every failed socket is
   disconnected. Returns the new registry and the sockets reached.
   */
  method Broadcast(reg: Registry, c: ConversationId, failing: set<Handle>)
    returns (r: Registry, delivered: set<Handle>)
    ensures delivered == Room(reg, c) - failing
    ensures Room(r, c) == Room(reg, c) - failing
    ensures c in r.rooms <==>
              c in reg.rooms && (Room(reg, c) * failing == {} || Room(reg, c) - failing != {})
    ensures forall d :: d != c ==> Room(r, d) == Room(reg, d) && (d in r.rooms <==> d in reg.rooms)
    ensures NoEmptyRooms(reg) ==> NoEmptyRooms(r)
  {
    var conns := Room(reg, c);
    var toRemove: set<Handle> := {};
    delivered := {};
    var pending := conns;
    while pending != {}
      invariant pending <= conns
      invariant toRemove == (conns - pending) * failing
      invariant delivered == (conns - pending) - failing
      decreases pending
    {
      var ws :| ws in pending;
      if ws in failing {
        toRemove := toRemove + {ws};
      } else {
        delivered := delivered + {ws};
      }
      pending := pending - {ws};
    }
    r := reg;
    var left := toRemove;
    while left != {}
      invariant left <= toRemove
      invariant toRemove <= conns
      invariant Room(r, c) == conns - (toRemove - left)
      invariant c in r.rooms <==> c in reg.rooms && (toRemove - left == {} || Room(r, c) != {})
      invariant forall d :: d != c ==> Room(r, d) == Room(reg, d) && (d in r.rooms <==> d in reg.rooms)
      invariant NoEmptyRooms(reg) ==> NoEmptyRooms(r)
      decreases left
    {
      var ws :| ws in left;
      r := Disconnect(r, c, ws);
      left := left - {ws};
    }
  }
}
