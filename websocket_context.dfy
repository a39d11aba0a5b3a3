/** The client's shared Q&A connection (`WebSocketProvider`): the held
    `socket`, the `isConnected` flag, and the browser transports the provider
    has created. Transport events are explicit calls naming the socket that
    raised them; a socket may only raise the events a browser WebSocket
    raises in its current ready state. */
module WebSocketContext {
  import opened Common
  import opened Text
  import opened Wire

  /** The browser's `WebSocket.readyState`. */
  datatype ReadyState = Connecting | Open | Closing | Closed

  /** What `sendMessage` did with its payload. */
  datatype SendOutcome =
    | Transmitted      // handed to an open transport
    | Skipped          // the guard `socket && isConnected` failed
    | Discarded        // the held socket is closing; the browser drops the data
    | Threw            // the held socket is still connecting; `send` throws

  datatype ProviderState = ProviderState(
    socket: Option<SocketId>,
    isConnected: bool,
    transport: map<SocketId, ReadyState>,
    urls: map<SocketId, string>,
    /** payloads handed to a transport, oldest first */
    wire: seq<(SocketId, string)>,
    nextId: nat)

  const Initial := ProviderState(None, false, map[], map[], [], 0)

  predicate Valid(st: ProviderState)
  {
    && (forall s :: s in st.transport ==> s < st.nextId)
    && st.urls.Keys == st.transport.Keys
    && (st.socket.Some? ==> st.socket.value in st.transport && st.transport[st.socket.value] != Closed)
  }

  /** The address `connect(classId)` opens. */
  function QaSocketUrl(classId: int): (u: string)
    ensures StartsWith(u, "ws://localhost:8000/api/v1/qa/ws/")
  {
    StartsWithConcat("ws://localhost:8000/api/v1/qa/ws/", IntToString(classId));
    "ws://localhost:8000/api/v1/qa/ws/" + IntToString(classId)
  }

  /** `socket.close()`: a connecting or open transport starts closing; on a
      closing or closed one it does nothing. */
  function RequestClose(transport: map<SocketId, ReadyState>, ws: SocketId): map<SocketId, ReadyState>
  {
    if ws in transport && (transport[ws] == Connecting || transport[ws] == Open)
    then transport[ws := Closing] else transport
  }

  /** `connect(classId)`, lines 17-40. */
  function AfterConnect(st: ProviderState, classId: int): (r: ProviderState)
  {
    var transport := if st.socket.Some? then RequestClose(st.transport, st.socket.value) else st.transport;
    var ws := st.nextId;
    st.(socket := Some(ws),
        transport := transport[ws := Connecting],
        urls := st.urls[ws := QaSocketUrl(classId)],
        nextId := st.nextId + 1)
  }

  /** The `onopen` handler of socket `ws`, lines 24-27. */
  function OnOpen(st: ProviderState, ws: SocketId): (r: ProviderState)
    requires ws in st.transport && st.transport[ws] == Connecting
  {
    st.(isConnected := true, transport := st.transport[ws := Open])
  }

  /** The `onclose` handler of socket `ws`, lines 29-33. */
  function OnClose(st: ProviderState, ws: SocketId): (r: ProviderState)
    requires ws in st.transport && st.transport[ws] != Closed
  {
    st.(isConnected := false, socket := None, transport := st.transport[ws := Closed])
  }

  /** The `onerror` handler only logs, lines 35-37. */
  function OnError(st: ProviderState, ws: SocketId): (r: ProviderState)
    requires ws in st.transport
  {
    st
  }

  /** `disconnect()`, lines 42-46. */
  function AfterDisconnect(st: ProviderState): (r: ProviderState)
  {
    if st.socket.Some? then st.(transport := RequestClose(st.transport, st.socket.value)) else st
  }

  /** `sendMessage(message)`, lines 48-52; `payload` is `JSON.stringify(message)`. */
  function AfterSend(st: ProviderState, payload: string): (r: (ProviderState, SendOutcome))
    requires Valid(st)
  {
    if st.socket.None? || !st.isConnected then (st, Skipped)
    else
      var ws := st.socket.value;
      match st.transport[ws]
      case Open => (st.(wire := st.wire + [(ws, payload)]), Transmitted)
      case Connecting => (st, Threw)
      case _ => (st, Discarded)
  }

  lemma ConnectKeepsValid(st: ProviderState, classId: int)
    requires Valid(st)
    ensures Valid(AfterConnect(st, classId))
  {
  }

  lemma EventsKeepValid(st: ProviderState, ws: SocketId)
    requires Valid(st) && ws in st.transport
    ensures st.transport[ws] == Connecting ==> Valid(OnOpen(st, ws))
    ensures st.transport[ws] != Closed ==> Valid(OnClose(st, ws))
    ensures Valid(OnError(st, ws)) && Valid(AfterDisconnect(st))
  {
  }

  /** `connect` asks the held socket, if any, to close before it opens a new
      socket to the class's address; the new socket is fresh and is now the
      held one, and the flag is untouched. */
  lemma ConnectClosesPrevious(st: ProviderState, classId: int)
    requires Valid(st)
    ensures var r := AfterConnect(st, classId);
      && r.socket == Some(st.nextId) && st.nextId !in st.transport
      && r.transport[st.nextId] == Connecting
      && r.urls[st.nextId] == "ws://localhost:8000/api/v1/qa/ws/" + IntToString(classId)
      && r.isConnected == st.isConnected && r.wire == st.wire
      && (st.socket.Some? ==> r.transport[st.socket.value] == Closing || r.transport[st.socket.value] == st.transport[st.socket.value])
      && (st.socket.Some? && st.transport[st.socket.value] in {Connecting, Open} ==> r.transport[st.socket.value] == Closing)
      && forall s :: s in st.transport && Some(s) != st.socket ==> r.transport[s] == st.transport[s]
  {
    assert st.nextId !in st.transport;
  }

  /** Open, close and error events, from any socket the provider made. */
  lemma EventEffects(st: ProviderState, ws: SocketId)
    requires Valid(st) && ws in st.transport
    ensures st.transport[ws] == Connecting ==> OnOpen(st, ws).isConnected && OnOpen(st, ws).socket == st.socket
    ensures st.transport[ws] != Closed ==> !OnClose(st, ws).isConnected && OnClose(st, ws).socket.None?
    ensures OnError(st, ws).socket == st.socket && OnError(st, ws).isConnected == st.isConnected
  {
  }

  /** The payload reaches a transport only when a socket is held, the flag is
      set and the held socket is open; in every other case nothing is sent and
      the state is unchanged. */
  lemma SendGate(st: ProviderState, payload: string)
    requires Valid(st)
    ensures var (r, out) := AfterSend(st, payload);
      && (out == Transmitted <==> st.socket.Some? && st.isConnected && st.transport[st.socket.value] == Open)
      && (out == Transmitted ==> r.wire == st.wire + [(st.socket.value, payload)])
      && (out != Transmitted ==> r == st)
      && r.socket == st.socket && r.isConnected == st.isConnected && r.transport == st.transport
  {
  }

  /** `disconnect` with no socket changes nothing; with one it only asks the
      transport to close: `socket` and `isConnected` wait for the close
      event. Calling it twice is the same as calling it once. */
  lemma DisconnectEffects(st: ProviderState)
    ensures st.socket.None? ==> AfterDisconnect(st) == st
    ensures AfterDisconnect(st).socket == st.socket && AfterDisconnect(st).isConnected == st.isConnected
    ensures AfterDisconnect(st).wire == st.wire
    ensures AfterDisconnect(AfterDisconnect(st)) == AfterDisconnect(st)
  {
  }

  /** Connecting, opening and connecting again holds the second socket,
      still connecting, with the flag still set; the first socket is
      closing. */
  lemma ReconnectHoldsSecondSocket(c1: int, c2: int)
    ensures var s := AfterConnect(OnOpen(AfterConnect(Initial, c1), 0), c2);
      && Valid(s) && s.socket == Some(1) && s.isConnected
      && 0 in s.transport && s.transport[0] == Closing && s.transport[1] == Connecting
  {
  }

  /** A replaced socket's close event clears the socket that replaced it:
      no socket is held although the new transport is still connecting;
      once the new socket opens the flag is set again, yet `sendMessage`
      sends nothing because no socket is held. */
  lemma StaleCloseDropsNewSocket(st: ProviderState, stale: SocketId, payload: string)
    requires Valid(st) && st.socket.Some? && st.transport[st.socket.value] == Connecting
    requires stale in st.transport && stale != st.socket.value && st.transport[stale] != Closed
    ensures var ws := st.socket.value;
      var closed := OnClose(st, stale);
      && closed.socket.None? && !closed.isConnected && closed.transport[ws] == Connecting
      && OnOpen(closed, ws).socket.None? && OnOpen(closed, ws).isConnected
      && Valid(OnOpen(closed, ws)) && AfterSend(OnOpen(closed, ws), payload).1 == Skipped
  {
  }

  /** Right after a reconnect the flag still says connected while the new
      socket is connecting, so `sendMessage` calls `send` on a connecting
      socket, which throws. */
  lemma SendRightAfterReconnectThrows(c1: int, c2: int, payload: string)
    ensures var s := AfterConnect(OnOpen(AfterConnect(Initial, c1), 0), c2);
      Valid(s) && AfterSend(s, payload).1 == Threw
  {
  }

  /** The provider itself. Its unmount cleanup (lines 54-60) captured the
      `socket` of the first render, which is always `null`, so it closes
      nothing and has no counterpart here. */
  class WebSocketProvider {
    var socket: Option<SocketId>
    var isConnected: bool
    var transport: map<SocketId, ReadyState>
    var urls: map<SocketId, string>
    var wire: seq<(SocketId, string)>
    var nextId: nat

    function State(): ProviderState
      reads this
    {
      ProviderState(socket, isConnected, transport, urls, wire, nextId)
    }

    constructor ()
      ensures State() == Initial
    {
      socket, isConnected := None, false;
      transport, urls, wire, nextId := map[], map[], [], 0;
    }

    method Connect(classId: int)
      requires Valid(State())
      modifies this
      ensures State() == AfterConnect(old(State()), classId)
      ensures Valid(State())
    {
      ConnectKeepsValid(State(), classId);
      if socket.Some? {
        transport := RequestClose(transport, socket.value);
      }
      var ws := nextId;
      nextId := nextId + 1;
      transport := transport[ws := Connecting];
      urls := urls[ws := QaSocketUrl(classId)];
      socket := Some(ws);
    }

    method HandleOpen(ws: SocketId)
      requires Valid(State()) && ws in transport && transport[ws] == Connecting
      modifies this
      ensures State() == OnOpen(old(State()), ws)
      ensures Valid(State())
    {
      transport := transport[ws := Open];
      isConnected := true;
    }

    method HandleClose(ws: SocketId)
      requires Valid(State()) && ws in transport && transport[ws] != Closed
      modifies this
      ensures State() == OnClose(old(State()), ws)
      ensures Valid(State())
    {
      transport := transport[ws := Closed];
      isConnected := false;
      socket := None;
    }

    method HandleError(ws: SocketId)
      requires Valid(State()) && ws in transport
      ensures State() == OnError(old(State()), ws)
    {
    }

    method Disconnect()
      requires Valid(State())
      modifies this
      ensures State() == AfterDisconnect(old(State()))
      ensures Valid(State())
    {
      if socket.Some? {
        transport := RequestClose(transport, socket.value);
      }
    }

    method SendMessage(payload: string) returns (out: SendOutcome)
      requires Valid(State())
      modifies this
      ensures (State(), out) == AfterSend(old(State()), payload)
    {
      out := Skipped;
      if socket.Some? && isConnected {
        var ws := socket.value;
        if transport[ws] == Open {
          wire := wire + [(ws, payload)];
          out := Transmitted;
        } else if transport[ws] == Connecting {
          out := Threw;
        } else {
          out := Discarded;
        }
      }
    }
  }
}
