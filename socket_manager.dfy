/** The server's connection registry (`ConnectionManager`): class id to the
    list of Q&A sockets of that class, and user id to the one direct-message
    socket of that user. Sending a frame on a socket is recorded as a
    `Delivery` appended to one global log, so the log keeps the order of sends
    across sockets. */
module SocketManager {
  import opened Common
  import opened Wire

  datatype Delivery = Delivery(socket: SocketId, frame: Frame)

  type ClassRegistry = map<int, seq<SocketId>>
  type UserRegistry = map<int, SocketId>

  /** Registry invariant: no class maps to an empty list. */
  predicate NoEmptyClass(active: ClassRegistry)
  {
    forall c :: c in active ==> active[c] != []
  }

  /** Index of the first occurrence of `x` in `s`. */
  function FirstIndex(s: seq<SocketId>, x: SocketId): (k: nat)
    requires x in s
    ensures k < |s| && s[k] == x && x !in s[..k]
  {
    if s[0] == x then 0 else 1 + FirstIndex(s[1..], x)
  }

  /** `list.remove(x)` guarded by `x in list`: the first occurrence goes. */
  function RemoveFirst(s: seq<SocketId>, x: SocketId): (r: seq<SocketId>)
    ensures x !in s ==> r == s
    ensures x in s ==> r == s[..FirstIndex(s, x)] + s[FirstIndex(s, x) + 1..]
  {
    if x in s then s[..FirstIndex(s, x)] + s[FirstIndex(s, x) + 1..] else s
  }

  /** Removing one occurrence takes exactly one copy of `x` out of the list. */
  lemma RemoveFirstMultiset(s: seq<SocketId>, x: SocketId)
    requires x in s
    ensures multiset(RemoveFirst(s, x)) == multiset(s) - multiset{x}
    ensures |RemoveFirst(s, x)| == |s| - 1
  {
    var k := FirstIndex(s, x);
    assert s == s[..k] + [s[k]] + s[k + 1..];
    assert multiset(s) == multiset(s[..k]) + multiset{x} + multiset(s[k + 1..]);
  }

  /** `connect(ws, c)`, lines 13-15. */
  function ConnectClass(active: ClassRegistry, ws: SocketId, c: int): (r: ClassRegistry)
  {
    active[c := (if c in active then active[c] else []) + [ws]]
  }

  /** `disconnect(ws, c)`, lines 18-22. */
  function DisconnectClass(active: ClassRegistry, ws: SocketId, c: int): (r: ClassRegistry)
  {
    if c !in active then active
    else
      var rest := RemoveFirst(active[c], ws);
      if rest == [] then active - {c} else active[c := rest]
  }

  /** After `connect(ws, c)`, `ws` ends class `c`'s list, the earlier entries
      come before it in order, and every other class is unchanged. */
  lemma ConnectAppendsLast(active: ClassRegistry, ws: SocketId, c: int)
    ensures var r := ConnectClass(active, ws, c);
      && c in r && r[c] != [] && r[c][|r[c]| - 1] == ws
      && r[c][..|r[c]| - 1] == (if c in active then active[c] else [])
      && r.Keys == active.Keys + {c}
      && forall d :: d in active && d != c ==> r[d] == active[d]
  {
    var r := ConnectClass(active, ws, c);
    assert r[c][..|r[c]| - 1] == (if c in active then active[c] else []);
  }

  /** `disconnect` takes exactly one copy of `ws` out of class `c`, deletes the
      key once the list is empty, and leaves the other classes alone. */
  lemma DisconnectRemovesOne(active: ClassRegistry, ws: SocketId, c: int)
    requires c in active && ws in active[c]
    ensures var r := DisconnectClass(active, ws, c);
      && multiset(if c in r then r[c] else []) == multiset(active[c]) - multiset{ws}
      && (c !in r <==> active[c] == [ws])
      && forall d :: d != c ==> (d in r <==> d in active) && (d in r ==> r[d] == active[d])
  {
    RemoveFirstMultiset(active[c], ws);
    var rest := RemoveFirst(active[c], ws);
    if active[c] == [ws] {
      assert rest == [];
    }
    if rest == [] {
      assert |active[c]| == 1 && active[c][0] == ws;
      assert active[c] == [ws];
    }
  }

  /** `disconnect` of a class that is absent, or of a socket not in its list,
      changes nothing (the registry invariant rules out an empty list). */
  lemma DisconnectAbsentIsNoOp(active: ClassRegistry, ws: SocketId, c: int)
    requires NoEmptyClass(active)
    requires c !in active || ws !in active[c]
    ensures DisconnectClass(active, ws, c) == active
  {
  }

  lemma ConnectKeepsInvariant(active: ClassRegistry, ws: SocketId, c: int)
    requires NoEmptyClass(active)
    ensures NoEmptyClass(ConnectClass(active, ws, c))
  {
  }

  lemma DisconnectKeepsInvariant(active: ClassRegistry, ws: SocketId, c: int)
    requires NoEmptyClass(active)
    ensures NoEmptyClass(DisconnectClass(active, ws, c))
  {
  }

  /** A connect or a disconnect on the class registry. */
  datatype ClassOp = ConnectOp(ws: SocketId, classId: int) | DisconnectOp(ws: SocketId, classId: int)

  function Apply(active: ClassRegistry, op: ClassOp): ClassRegistry
  {
    match op
    case ConnectOp(ws, c) => ConnectClass(active, ws, c)
    case DisconnectOp(ws, c) => DisconnectClass(active, ws, c)
  }

  function Run(active: ClassRegistry, ops: seq<ClassOp>): ClassRegistry
    decreases |ops|
  {
    if ops == [] then active else Run(Apply(active, ops[0]), ops[1..])
  }

  /** From an empty registry, no sequence of connects and disconnects ever
      leaves a class mapped to an empty list. */
  lemma {:induction false} RunKeepsInvariant(active: ClassRegistry, ops: seq<ClassOp>)
    requires NoEmptyClass(active)
    ensures NoEmptyClass(Run(active, ops))
    decreases |ops|
  {
    if ops != [] {
      match ops[0] {
        case ConnectOp(ws, c) => ConnectKeepsInvariant(active, ws, c);
        case DisconnectOp(ws, c) => DisconnectKeepsInvariant(active, ws, c);
      }
      RunKeepsInvariant(Apply(active, ops[0]), ops[1..]);
    }
  }

  /** The sends `broadcast(m, c)` makes: one per entry of the class list, in
      list order. */
  function Deliveries(sockets: seq<SocketId>, m: Frame): (r: seq<Delivery>)
    ensures |r| == |sockets|
    ensures forall i :: 0 <= i < |r| ==> r[i] == Delivery(sockets[i], m)
  {
    seq(|sockets|, i requires 0 <= i < |sockets| => Delivery(sockets[i], m))
  }

  function BroadcastDeliveries(active: ClassRegistry, m: Frame, c: int): seq<Delivery>
  {
    if c in active then Deliveries(active[c], m) else []
  }

  /** Number of deliveries made to a socket. */
  function SentTo(log: seq<Delivery>, ws: SocketId): nat
  {
    if log == [] then 0
    else SentTo(log[..|log| - 1], ws) + (if log[|log| - 1].socket == ws then 1 else 0)
  }

  /** Each socket of the class receives the frame as many times as it is
      listed (once, for a socket registered once), and no other socket
      receives anything. */
  lemma {:induction false} DeliveriesCount(sockets: seq<SocketId>, m: Frame, ws: SocketId)
    ensures SentTo(Deliveries(sockets, m), ws) == multiset(sockets)[ws]
  {
    if sockets != [] {
      var n := |sockets|;
      var front := sockets[..n - 1];
      assert Deliveries(sockets, m)[..n - 1] == Deliveries(front, m);
      DeliveriesCount(front, m, ws);
      assert sockets == front + [sockets[n - 1]];
    }
  }

  lemma {:induction false} SentToAppend(a: seq<Delivery>, b: seq<Delivery>, ws: SocketId)
    ensures SentTo(a + b, ws) == SentTo(a, ws) + SentTo(b, ws)
    decreases |b|
  {
    if b != [] {
      assert (a + b)[..|a + b| - 1] == a + b[..|b| - 1];
      assert (a + b)[|a + b| - 1] == b[|b| - 1];
      SentToAppend(a, b[..|b| - 1], ws);
    } else {
      assert a + b == a;
    }
  }

  /** The server's `ConnectionManager`. */
  class ConnectionManager {
    var activeConnections: ClassRegistry
    var userConnections: UserRegistry
    /** every frame sent on any socket, oldest first */
    var sent: seq<Delivery>

    ghost predicate Valid()
      reads this
    {
      NoEmptyClass(activeConnections)
    }

    constructor ()
      ensures Valid()
      ensures activeConnections == map[] && userConnections == map[] && sent == []
    {
      activeConnections := map[];
      userConnections := map[];
      sent := [];
    }

    /** `connect`: the socket's `accept()` handshake is transport and is not
        modelled. */
    method Connect(ws: SocketId, classId: int)
      requires Valid()
      modifies this
      ensures Valid()
      ensures activeConnections == ConnectClass(old(activeConnections), ws, classId)
      ensures userConnections == old(userConnections) && sent == old(sent)
    {
      ConnectKeepsInvariant(activeConnections, ws, classId);
      if classId !in activeConnections {
        activeConnections := activeConnections[classId := []];
      }
      activeConnections := activeConnections[classId := activeConnections[classId] + [ws]];
    }

    method Disconnect(ws: SocketId, classId: int)
      requires Valid()
      modifies this
      ensures Valid()
      ensures activeConnections == DisconnectClass(old(activeConnections), ws, classId)
      ensures userConnections == old(userConnections) && sent == old(sent)
    {
      DisconnectKeepsInvariant(activeConnections, ws, classId);
      if classId in activeConnections {
        if ws in activeConnections[classId] {
          activeConnections := activeConnections[classId := RemoveFirst(activeConnections[classId], ws)];
        }
        if activeConnections[classId] == [] {
          activeConnections := activeConnections - {classId};
        }
      }
    }

    method Broadcast(m: Frame, classId: int)
      modifies this
      ensures sent == old(sent) + BroadcastDeliveries(old(activeConnections), m, classId)
      ensures activeConnections == old(activeConnections) && userConnections == old(userConnections)
    {
      if classId in activeConnections {
        var sockets := activeConnections[classId];
        for i := 0 to |sockets|
          invariant sent == old(sent) + Deliveries(sockets[..i], m)
          invariant activeConnections == old(activeConnections) && userConnections == old(userConnections)
        {
          assert Deliveries(sockets[..i + 1], m) == Deliveries(sockets[..i], m) + [Delivery(sockets[i], m)];
          sent := sent + [Delivery(sockets[i], m)];
        }
        assert sockets[..|sockets|] == sockets;
      }
    }

    /** `connect_user`: a later socket for the same user replaces the earlier
        one. */
    method ConnectUser(ws: SocketId, userId: int)
      modifies this
      ensures userConnections == old(userConnections)[userId := ws]
      ensures activeConnections == old(activeConnections) && sent == old(sent)
    {
      userConnections := userConnections[userId := ws];
    }

    method DisconnectUser(userId: int)
      modifies this
      ensures userConnections == old(userConnections) - {userId}
      ensures activeConnections == old(activeConnections) && sent == old(sent)
    {
      if userId in userConnections {
        userConnections := userConnections - {userId};
      }
    }

    method SendPersonalMessage(m: Frame, userId: int)
      modifies this
      ensures sent == old(sent) + PersonalDeliveries(old(userConnections), m, userId)
      ensures activeConnections == old(activeConnections) && userConnections == old(userConnections)
    {
      if userId in userConnections {
        sent := sent + [Delivery(userConnections[userId], m)];
      }
    }
  }

  /** The sends `send_personal_message(m, u)` makes: one to the user's socket
      if the user is registered, none otherwise. */
  function PersonalDeliveries(users: UserRegistry, m: Frame, userId: int): (r: seq<Delivery>)
    ensures |r| <= 1
    ensures r != [] <==> userId in users
    ensures r != [] ==> r[0] == Delivery(users[userId], m)
  {
    if userId in users then [Delivery(users[userId], m)] else []
  }
}
