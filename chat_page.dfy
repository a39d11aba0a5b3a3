/** The direct-message page (`Chat`): the open conversation's message list,
    filled from the history endpoint, extended by the user's chat socket and
    by optimistic copies of what the user sends. */
module ChatPage {
  import opened Common
  import opened Text
  import opened Wire

  /** The frame `handleSendMessage` sends: `{receiver_id, content}`. */
  datatype Outbound = Outbound(receiverId: int, content: string)

  /** The socket address for the signed-in user, line 64. */
  function ChatSocketUrl(userId: int): (u: string)
    ensures StartsWith(u, "ws://localhost:8000/api/v1/chat/ws/")
  {
    StartsWithConcat("ws://localhost:8000/api/v1/chat/ws/", IntToString(userId));
    "ws://localhost:8000/api/v1/chat/ws/" + IntToString(userId)
  }

  /** The socket handler's filter, line 75: a conversation must be open, and
      the message must come from its peer or from the user; the receiver is
      not consulted. */
  predicate Accepts(activeUser: Option<int>, me: int, m: DirectMessage)
  {
    activeUser.Some? && (m.senderId == activeUser.value || m.senderId == me)
  }

  /** The list after one frame from the chat socket. */
  function OnChatFrame(messages: seq<DirectMessage>, activeUser: Option<int>, me: int, f: Frame): (r: seq<DirectMessage>)
    ensures f.NewMessage? && Accepts(activeUser, me, f.message) ==> r == messages + [f.message]
    ensures !(f.NewMessage? && Accepts(activeUser, me, f.message)) ==> r == messages
  {
    if f.NewMessage? && Accepts(activeUser, me, f.message) then messages + [f.message] else messages
  }

  /** A message from a third user is dropped whatever its receiver, and so
      is every message while no conversation is open. */
  lemma FilterIgnoresReceiver(messages: seq<DirectMessage>, activeUser: Option<int>, me: int, m: DirectMessage, receiver: int)
    ensures Accepts(activeUser, me, m) == Accepts(activeUser, me, m.(receiverId := receiver))
    ensures activeUser.None? ==> OnChatFrame(messages, activeUser, me, NewMessage(m)) == messages
    ensures activeUser.Some? && m.senderId != activeUser.value && m.senderId != me ==>
            OnChatFrame(messages, activeUser, me, NewMessage(m)) == messages
  {
  }

  /** The optimistic copy, lines 124-131: the id is the send time in
      milliseconds and the message is unread. */
  function Optimistic(now: nat, me: int, peer: int, content: string): (m: DirectMessage)
    ensures m.id == now && m.senderId == me && m.receiverId == peer && m.content == content && !m.isRead
  {
    DirectMessage(now, me, peer, content, IsoFormat(now), false)
  }

  /** The guard of `handleSendMessage`, line 114: a non-blank input, a held
      socket, an open conversation and a known user. */
  function ShouldSend(input: string, socket: Option<SocketId>, activeUser: Option<int>, currentUser: Option<int>): (b: bool)
    ensures b <==> !IsBlank(input) && socket.Some? && activeUser.Some? && currentUser.Some?
  {
    TrimEmptyIffBlank(input);
    Trim(input) != [] && socket.Some? && activeUser.Some? && currentUser.Some?
  }

  /** The page state `Chat` keeps; `outbound` records the frames a socket
      accepted, oldest first. */
  datatype ChatState = ChatState(
    currentUser: Option<int>,
    conversations: seq<User>,
    activeUser: Option<int>,
    messages: seq<DirectMessage>,
    newMessage: string,
    socket: Option<SocketId>,
    outbound: seq<(SocketId, Outbound)>)

  /** `handleSendMessage`, lines 112-134, at time `now`. `sendThrows` says
      the held socket is still connecting, so `send` throws without
      transmitting and the handler stops before the optimistic copy.
      Otherwise the frame is handed to the socket (a closed socket drops it
      silently), the copy is appended and the input cleared. */
  function AfterSend(st: ChatState, now: nat, sendThrows: bool): ChatState
  {
    if !ShouldSend(st.newMessage, st.socket, st.activeUser, st.currentUser) || sendThrows then st
    else
      st.(outbound := st.outbound + [(st.socket.value, Outbound(st.activeUser.value, st.newMessage))],
          messages := st.messages + [Optimistic(now, st.currentUser.value, st.activeUser.value, st.newMessage)],
          newMessage := "")
  }

  /** Sending never drops or reorders the list. When the guard passes and
      `send` does not throw, the frame goes to the held socket, the list
      gains the optimistic copy and the input is cleared; a blank input, a
      failed guard or a throwing `send` changes nothing. */
  lemma SendEffects(st: ChatState, now: nat, sendThrows: bool)
    ensures var r := AfterSend(st, now, sendThrows);
      var go := ShouldSend(st.newMessage, st.socket, st.activeUser, st.currentUser);
      && st.messages <= r.messages
      && (go && !sendThrows ==>
            && r.outbound == st.outbound + [(st.socket.value, Outbound(st.activeUser.value, st.newMessage))]
            && r.messages == st.messages + [Optimistic(now, st.currentUser.value, st.activeUser.value, st.newMessage)]
            && r.newMessage == "")
      && (!go || sendThrows ==> r == st)
      && r.activeUser == st.activeUser && r.currentUser == st.currentUser && r.socket == st.socket
  {
  }

  lemma BlankInputSendsNothing(st: ChatState, now: nat, sendThrows: bool)
    requires IsBlank(st.newMessage)
    ensures AfterSend(st, now, sendThrows) == st
  {
  }

  /** The socket's `onmessage`; the handler only exists once a user is
      known. */
  function AfterFrame(st: ChatState, f: Frame): ChatState
    requires st.currentUser.Some?
  {
    st.(messages := OnChatFrame(st.messages, st.activeUser, st.currentUser.value, f))
  }

  /** Only the history response replaces the list; a frame only appends to
      it and changes nothing else. */
  lemma FramesOnlyAppend(st: ChatState)
    requires st.currentUser.Some?
    ensures forall f :: st.messages <= AfterFrame(st, f).messages
    ensures forall f :: AfterFrame(st, f).(messages := st.messages) == st
  {
  }

  class ChatView {
    var currentUser: Option<int>
    var conversations: seq<User>
    var activeUser: Option<int>
    var messages: seq<DirectMessage>
    var newMessage: string
    var socket: Option<SocketId>
    var outbound: seq<(SocketId, Outbound)>

    function State(): ChatState
      reads this
    {
      ChatState(currentUser, conversations, activeUser, messages, newMessage, socket, outbound)
    }

    constructor ()
      ensures State() == ChatState(None, [], None, [], "", None, [])
    {
      currentUser, conversations, activeUser := None, [], None;
      messages, newMessage, socket, outbound := [], "", None, [];
    }

    /** `fetchUser`: the `/users/me` response. */
    method SetCurrentUser(me: int)
      modifies this
      ensures State() == old(State()).(currentUser := Some(me))
    {
      currentUser := Some(me);
    }

    /** `fetchConversations`: the `/chat/conversations` response. */
    method SetConversations(users: seq<User>)
      modifies this
      ensures State() == old(State()).(conversations := users)
    {
      conversations := users;
    }

    /** A click on a conversation opens it. */
    method SelectConversation(peer: User)
      modifies this
      ensures State() == old(State()).(activeUser := Some(peer.id))
    {
      activeUser := Some(peer.id);
    }

    /** The connect effect, lines 61-90, once a user is known: socket `ws`
        to `ChatSocketUrl(currentUser)` becomes the held one (the effect's
        cleanup closes the previous one). It runs again whenever the open
        conversation changes. */
    method AttachSocket(ws: SocketId)
      requires currentUser.Some?
      modifies this
      ensures State() == old(State()).(socket := Some(ws))
    {
      socket := Some(ws);
    }

    /** `fetchMessages`: the history replaces the list, optimistic copies
        included. */
    method LoadHistory(history: seq<DirectMessage>)
      requires activeUser.Some?
      modifies this
      ensures State() == old(State()).(messages := history)
    {
      messages := history;
    }

    method OnFrame(f: Frame)
      requires currentUser.Some?
      modifies this
      ensures State() == AfterFrame(old(State()), f)
    {
      if f.NewMessage? && Accepts(activeUser, currentUser.value, f.message) {
        messages := messages + [f.message];
      }
    }

    method TypeMessage(text: string)
      modifies this
      ensures State() == old(State()).(newMessage := text)
    {
      newMessage := text;
    }

    method HandleSendMessage(now: nat, sendThrows: bool)
      modifies this
      ensures State() == AfterSend(old(State()), now, sendThrows)
    {
      if !ShouldSend(newMessage, socket, activeUser, currentUser) || sendThrows {
        return;
      }
      outbound := outbound + [(socket.value, Outbound(activeUser.value, newMessage))];
      messages := messages + [Optimistic(now, currentUser.value, activeUser.value, newMessage)];
      newMessage := "";
    }
  }

  /** A peer's message echoed back to its sender never happens (the server
      relays only to the receiver), so a sent message shows once: the
      optimistic copy is the only entry for it until the history is
      reloaded. A frame for that same message arrives only when the user
      writes to themself, and then it is accepted and shows twice. */
  lemma SelfMessageShowsTwice(messages: seq<DirectMessage>, now: nat, me: int, content: string, relayed: DirectMessage)
    requires relayed.senderId == me && relayed.receiverId == me
    ensures var after := messages + [Optimistic(now, me, me, content)];
      OnChatFrame(after, Some(me), me, NewMessage(relayed)) == after + [relayed]
  {
  }
}
