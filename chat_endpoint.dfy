/** The direct-message endpoints (backend/app/api/api_v1/endpoints/chat.py):
    the conversation list, the history between two users and the chat
    socket session that persists and relays messages. The `message` table
    is a sequence in insertion order. */
module ChatEndpoint {
  import opened Common
  import opened Text
  import opened Wire
  import opened SocketManager

  /** A row of the `message` table. */
  datatype MessageRow = MessageRow(id: int, senderId: int, receiverId: int, content: string, timestamp: nat, isRead: bool)

  /** The row as `schemas.Message`, and as the `message` object of a
      `new_message` frame. */
  function ToWire(r: MessageRow): (m: DirectMessage)
    ensures m.id == r.id && m.senderId == r.senderId && m.receiverId == r.receiverId
    ensures m.content == r.content && m.timestamp == IsoFormat(r.timestamp) && m.isRead == r.isRead
  {
    DirectMessage(r.id, r.senderId, r.receiverId, r.content, IsoFormat(r.timestamp), r.isRead)
  }

  predicate Involves(me: int, r: MessageRow)
  {
    r.senderId == me || r.receiverId == me
  }

  /** The messages the user sent or received, in table order, lines 21-26. */
  function InvolvingMe(me: int, rows: seq<MessageRow>): (r: seq<MessageRow>)
    ensures forall x :: x in r <==> x in rows && Involves(me, x)
  {
    if rows == [] then []
    else (if Involves(me, rows[0]) then [rows[0]] else []) + InvolvingMe(me, rows[1..])
  }

  /** Everyone the user exchanged a message with, the user excluded. */
  function Counterparts(me: int, rows: seq<MessageRow>): set<int>
  {
    (set r | r in rows && Involves(me, r) && r.senderId != me :: r.senderId)
    + (set r | r in rows && Involves(me, r) && r.receiverId != me :: r.receiverId)
  }

  /** The ids a message contributes in the loop of lines 30-34. */
  function Contributed(me: int, r: MessageRow): set<int>
  {
    (if r.senderId != me then {r.senderId} else {}) + (if r.receiverId != me then {r.receiverId} else {})
  }

  lemma CounterpartsStep(me: int, s: seq<MessageRow>, r: MessageRow)
    requires Involves(me, r)
    ensures Counterparts(me, s + [r]) == Counterparts(me, s) + Contributed(me, r)
  {
    assert forall x :: x in s + [r] <==> x in s || x == r;
  }

  /** Counterparts of the messages involving the user are its counterparts
      in the whole table. */
  lemma CounterpartsOfFiltered(me: int, rows: seq<MessageRow>)
    ensures Counterparts(me, InvolvingMe(me, rows)) == Counterparts(me, rows)
  {
  }

  /** The users whose id is in `ids`, in table order. */
  function UsersIn(users: seq<User>, ids: set<int>): (r: seq<User>)
    ensures forall u :: u in r <==> u in users && u.id in ids
  {
    if users == [] then []
    else (if users[0].id in ids then [users[0]] else []) + UsersIn(users[1..], ids)
  }

  /** Everyone but the user, in table order, line 41. */
  function OthersThan(users: seq<User>, me: int): (r: seq<User>)
    ensures forall u :: u in r <==> u in users && u.id != me
  {
    if users == [] then []
    else (if users[0].id != me then [users[0]] else []) + OthersThan(users[1..], me)
  }

  /** `get_conversations`, lines 12-43: the users the caller exchanged a
      message with, or, when none of them has a row, every other user. The
      caller is never listed. */
  method GetConversations(me: int, rows: seq<MessageRow>, users: seq<User>) returns (result: seq<User>)
    ensures var partners := UsersIn(users, Counterparts(me, rows));
      result == if partners != [] then partners else OthersThan(users, me)
    ensures forall u :: u in result ==> u.id != me && u in users
  {
    var messages := InvolvingMe(me, rows);
    var ids := CollectCounterparts(me, messages);
    CounterpartsOfFiltered(me, rows);
    result := UsersIn(users, ids);
    if result == [] {
      result := OthersThan(users, me);
    }
  }

  /** The loop of lines 30-34 over the caller's messages. */
  method CollectCounterparts(me: int, messages: seq<MessageRow>) returns (ids: set<int>)
    requires forall r :: r in messages ==> Involves(me, r)
    ensures ids == Counterparts(me, messages)
  {
    ids := {};
    for i := 0 to |messages|
      invariant ids == Counterparts(me, messages[..i])
    {
      assert messages[i] in messages;
      PrefixSnoc(messages, i);
      CounterpartsStep(me, messages[..i], messages[i]);
      if messages[i].senderId != me {
        ids := ids + {messages[i].senderId};
      }
      if messages[i].receiverId != me {
        ids := ids + {messages[i].receiverId};
      }
    }
    assert messages[..|messages|] == messages;
  }

  /** The caller is never among its own counterparts. */
  lemma NotOwnCounterpart(me: int, rows: seq<MessageRow>)
    ensures me !in Counterparts(me, rows)
  {
  }

  /** Every counterpart shares a message with the caller. */
  lemma CounterpartHasMessage(me: int, rows: seq<MessageRow>, x: int)
    requires x in Counterparts(me, rows)
    ensures exists r :: r in rows && Involves(me, r) && Involves(x, r)
  {
  }

  /** The messages between `a` and `b`, either direction, in table order. */
  predicate Between(a: int, b: int, r: MessageRow)
  {
    (r.senderId == a && r.receiverId == b) || (r.senderId == b && r.receiverId == a)
  }

  function Conversation(a: int, b: int, rows: seq<MessageRow>): (r: seq<MessageRow>)
    ensures forall x :: x in r <==> x in rows && Between(a, b, x)
    ensures |r| <= |rows|
  {
    if rows == [] then []
    else (if Between(a, b, rows[0]) then [rows[0]] else []) + Conversation(a, b, rows[1..])
  }

  /** The conversation is the same seen from either side. */
  lemma {:induction false} ConversationSymmetric(a: int, b: int, rows: seq<MessageRow>)
    ensures Conversation(a, b, rows) == Conversation(b, a, rows)
  {
    if rows != [] {
      ConversationSymmetric(a, b, rows[1..]);
    }
  }

  predicate SortedByTime(s: seq<MessageRow>)
  {
    forall i, j :: 0 <= i < j < |s| ==> s[i].timestamp <= s[j].timestamp
  }

  /** Insert `x` after every row not later than it. */
  function InsertByTime(x: MessageRow, s: seq<MessageRow>): (r: seq<MessageRow>)
    ensures multiset(r) == multiset(s) + multiset{x}
    ensures |r| == |s| + 1
  {
    if s == [] then [x]
    else if x.timestamp < s[0].timestamp then [x] + s
    else
      assert s == [s[0]] + s[1..];
      [s[0]] + InsertByTime(x, s[1..])
  }

  /** No row of `s` is earlier than `t`. */
  predicate NotBefore(s: seq<MessageRow>, t: nat)
  {
    forall i :: 0 <= i < |s| ==> t <= s[i].timestamp
  }

  lemma {:induction false} InsertNotBefore(x: MessageRow, s: seq<MessageRow>, t: nat)
    requires NotBefore(s, t) && t <= x.timestamp
    ensures NotBefore(InsertByTime(x, s), t)
  {
    if s != [] && x.timestamp >= s[0].timestamp {
      assert NotBefore(s[1..], t) by {
        assert forall i :: 1 <= i < |s| ==> s[1..][i - 1] == s[i];
      }
      InsertNotBefore(x, s[1..], t);
    }
  }

  /** A first row not later than every other row, before a sorted list, is
      a sorted list. */
  lemma ConsSorted(y: MessageRow, s: seq<MessageRow>)
    requires SortedByTime(s) && NotBefore(s, y.timestamp)
    ensures SortedByTime([y] + s)
  {
    var r := [y] + s;
    forall i, j | 0 <= i < j < |r|
      ensures r[i].timestamp <= r[j].timestamp
    {
      assert r[j] == s[j - 1];
      if i > 0 {
        assert r[i] == s[i - 1];
      }
    }
  }

  lemma {:induction false} InsertKeepsSorted(x: MessageRow, s: seq<MessageRow>)
    requires SortedByTime(s)
    ensures SortedByTime(InsertByTime(x, s))
  {
    if s == [] {
    } else if x.timestamp < s[0].timestamp {
      assert NotBefore(s, x.timestamp);
      ConsSorted(x, s);
    } else {
      var tail := s[1..];
      assert forall i :: 1 <= i < |s| ==> tail[i - 1] == s[i];
      assert SortedByTime(tail);
      assert NotBefore(tail, s[0].timestamp);
      InsertKeepsSorted(x, tail);
      InsertNotBefore(x, tail, s[0].timestamp);
      ConsSorted(s[0], InsertByTime(x, tail));
    }
  }

  /** `order_by(timestamp.asc())`: the rows sorted by time (equal times keep
      table order). */
  function SortByTime(s: seq<MessageRow>): (r: seq<MessageRow>)
    ensures SortedByTime(r)
    ensures multiset(r) == multiset(s)
    decreases |s|
  {
    if s == [] then []
    else
      var front := s[..|s| - 1];
      assert s == front + [s[|s| - 1]];
      InsertKeepsSorted(s[|s| - 1], SortByTime(front));
      InsertByTime(s[|s| - 1], SortByTime(front))
  }

  /** `get_messages`, lines 45-63: the page of the conversation with
      `other`, oldest first. */
  function GetMessages(me: int, other: int, rows: seq<MessageRow>, skip: nat, limit: nat): (r: seq<DirectMessage>)
    ensures |r| <= limit
  {
    var page := Page(SortByTime(Conversation(me, other, rows)), skip, limit);
    seq(|page|, i requires 0 <= i < |page| => ToWire(page[i]))
  }

  /** `m` is a stored message between `a` and `b`, as sent on the wire. */
  predicate StoredBetween(a: int, b: int, rows: seq<MessageRow>, m: DirectMessage)
  {
    exists x :: x in rows && Between(a, b, x) && m == ToWire(x)
  }

  /** The history holds only messages between the two users. */
  lemma GetMessagesBetween(me: int, other: int, rows: seq<MessageRow>, skip: nat, limit: nat)
    ensures var r := GetMessages(me, other, rows, skip, limit);
      forall i :: 0 <= i < |r| ==> StoredBetween(me, other, rows, r[i])
  {
    var sorted := SortByTime(Conversation(me, other, rows));
    var page := Page(sorted, skip, limit);
    var r := GetMessages(me, other, rows, skip, limit);
    forall i | 0 <= i < |r|
      ensures StoredBetween(me, other, rows, r[i])
    {
      assert page[i] == sorted[skip + i];
      assert page[i] in multiset(sorted);
      assert page[i] in Conversation(me, other, rows);
      assert r[i] == ToWire(page[i]);
    }
  }

  /** The history is oldest first. */
  lemma GetMessagesOldestFirst(me: int, other: int, rows: seq<MessageRow>, skip: nat, limit: nat)
    ensures forall i, j :: 0 <= i < j < |GetMessages(me, other, rows, skip, limit)| ==>
      DigitsValue(GetMessages(me, other, rows, skip, limit)[i].timestamp)
        <= DigitsValue(GetMessages(me, other, rows, skip, limit)[j].timestamp)
  {
    var sorted := SortByTime(Conversation(me, other, rows));
    var page := Page(sorted, skip, limit);
    var r := GetMessages(me, other, rows, skip, limit);
    forall i, j | 0 <= i < j < |r|
      ensures DigitsValue(r[i].timestamp) <= DigitsValue(r[j].timestamp)
    {
      DigitsValueOfNat(page[i].timestamp);
      DigitsValueOfNat(page[j].timestamp);
    }
  }

  /** With no paging cut the history holds every message between the two,
      as many times as it is stored. */
  lemma GetMessagesWhole(me: int, other: int, rows: seq<MessageRow>, limit: nat)
    requires |Conversation(me, other, rows)| <= limit
    ensures |GetMessages(me, other, rows, 0, limit)| == |Conversation(me, other, rows)|
    ensures forall x :: x in Conversation(me, other, rows) ==> ToWire(x) in GetMessages(me, other, rows, 0, limit)
  {
    var conv := Conversation(me, other, rows);
    var sorted := SortByTime(conv);
    assert |sorted| == |multiset(sorted)| == |conv|;
    var r := GetMessages(me, other, rows, 0, limit);
    assert Page(sorted, 0, limit) == sorted;
    forall x | x in conv
      ensures ToWire(x) in r
    {
      assert x in multiset(conv);
      assert x in multiset(sorted);
      var i :| 0 <= i < |sorted| && sorted[i] == x;
      assert r[i] == ToWire(x);
    }
  }

  /** A frame the chat socket reads with `receive_json`, reduced to the two
      keys the session reads; `None` is a missing key or `null`. */
  datatype Inbound = Inbound(receiverId: Option<int>, content: Option<string>)

  /** `if receiver_id and content`: both present and truthy. */
  predicate Truthy(f: Inbound)
  {
    f.receiverId.Some? && f.receiverId.value != 0 && f.content.Some? && f.content.value != ""
  }

  /** A frame with the database time at which it is stored. */
  datatype Received = Received(frame: Inbound, at: nat)

  /** The `is_read` column's default for a new row; backend/app/models/message.py
      is not part of this model, and the value is taken as false. */
  const DefaultIsRead := false

  function RowOf(userId: int, f: Received, id: int): MessageRow
    requires Truthy(f.frame)
  {
    MessageRow(id, userId, f.frame.receiverId.value, f.frame.content.value, f.at, DefaultIsRead)
  }

  /** The row a frame stores, if it is truthy. */
  function StoredRow(userId: int, f: Received, id: int): (r: seq<MessageRow>)
    ensures |r| <= 1
    ensures r != [] <==> Truthy(f.frame)
  {
    if Truthy(f.frame) then [RowOf(userId, f, id)] else []
  }

  /** The sends for a stored row: one to its receiver's socket, if the
      receiver has one. */
  function RelayOf(reg: UserRegistry, stored: seq<MessageRow>): (r: seq<Delivery>)
    ensures |r| <= |stored|
  {
    if stored == [] then [] else PersonalDeliveries(reg, NewMessage(ToWire(stored[0])), stored[0].receiverId)
  }

  /** What a session does: the rows it stores and the sends it makes. */
  datatype Outcome = Outcome(rows: seq<MessageRow>, sent: seq<Delivery>)

  /** The outcome of a session of user `userId` over its frames, in order,
      taking ids from `firstId` on, while the user registry is `reg`. */
  function Handled(reg: UserRegistry, userId: int, fs: seq<Received>, firstId: nat): (o: Outcome)
    ensures |o.rows| <= |fs| && |o.sent| <= |o.rows|
    decreases |fs|
  {
    if fs == [] then Outcome([], [])
    else
      var o := Handled(reg, userId, fs[..|fs| - 1], firstId);
      var add := StoredRow(userId, fs[|fs| - 1], firstId + |o.rows|);
      Outcome(o.rows + add, o.sent + RelayOf(reg, add))
  }

  /** Row `k` of a session's stored rows: the session user's, with a truthy
      receiver and content taken from one of the frames, and id
      `firstId + k`. */
  predicate RowFromFrames(userId: int, fs: seq<Received>, firstId: nat, row: MessageRow, k: nat)
  {
    && row.senderId == userId && row.id == firstId + k
    && row.receiverId != 0 && row.content != ""
    && exists f :: f in fs && Truthy(f.frame) && row == RowOf(userId, f, firstId + k)
  }

  /** Every stored row comes from one of the session's truthy frames, and
      the k-th stored row has id `firstId + k`. */
  lemma {:induction false} HandledRows(reg: UserRegistry, userId: int, fs: seq<Received>, firstId: nat)
    ensures forall k :: 0 <= k < |Handled(reg, userId, fs, firstId).rows| ==>
      RowFromFrames(userId, fs, firstId, Handled(reg, userId, fs, firstId).rows[k], k)
    decreases |fs|
  {
    if fs != [] {
      var front := fs[..|fs| - 1];
      var last := fs[|fs| - 1];
      HandledRows(reg, userId, front, firstId);
      var before := Handled(reg, userId, front, firstId).rows;
      var r := Handled(reg, userId, fs, firstId).rows;
      forall k | 0 <= k < |r|
        ensures RowFromFrames(userId, fs, firstId, r[k], k)
      {
        if k < |before| {
          assert r[k] == before[k];
          assert RowFromFrames(userId, front, firstId, before[k], k);
          var f :| f in front && Truthy(f.frame) && before[k] == RowOf(userId, f, firstId + k);
          assert f in fs;
        } else {
          assert last in fs && r[k] == RowOf(userId, last, firstId + k);
        }
      }
    }
  }

  /** A frame whose receiver or content is missing or falsy stores and
      sends nothing. */
  lemma {:induction false} FalsyFramesStoreNothing(reg: UserRegistry, userId: int, fs: seq<Received>, firstId: nat)
    requires forall i :: 0 <= i < |fs| ==> !Truthy(fs[i].frame)
    ensures Handled(reg, userId, fs, firstId) == Outcome([], [])
    decreases |fs|
  {
    if fs != [] {
      FalsyFramesStoreNothing(reg, userId, fs[..|fs| - 1], firstId);
    }
  }

  /** Every send goes to the socket registered for the receiver of a stored
      row and carries that row; the sender's socket receives only what it
      sends to itself. */
  lemma {:induction false} HandledSends(reg: UserRegistry, userId: int, fs: seq<Received>, firstId: nat)
    ensures forall d :: d in Handled(reg, userId, fs, firstId).sent ==>
      exists r :: r in Handled(reg, userId, fs, firstId).rows && r.receiverId in reg
        && d == Delivery(reg[r.receiverId], NewMessage(ToWire(r)))
    decreases |fs|
  {
    if fs != [] {
      var front := fs[..|fs| - 1];
      HandledSends(reg, userId, front, firstId);
      var before := Handled(reg, userId, front, firstId);
      var o := Handled(reg, userId, fs, firstId);
      assert forall r :: r in before.rows ==> r in o.rows;
    }
  }

  /** The server side of the chat socket. The `message` table and its next id
      live here; sends go through the shared connection manager. */
  class ChatServer {
    var rows: seq<MessageRow>
    var nextId: nat
    const manager: ConnectionManager

    constructor (manager: ConnectionManager)
      ensures this.manager == manager && rows == [] && nextId == 1
    {
      this.manager := manager;
      rows, nextId := [], 1;
    }

    /** One frame of the session loop, lines 79-110. */
    method HandleFrame(userId: int, f: Received)
      modifies this, manager
      ensures rows == old(rows) + StoredRow(userId, f, old(nextId))
      ensures nextId == old(nextId) + |StoredRow(userId, f, old(nextId))|
      ensures manager.sent == old(manager.sent) + RelayOf(old(manager.userConnections), StoredRow(userId, f, old(nextId)))
      ensures manager.userConnections == old(manager.userConnections)
      ensures manager.activeConnections == old(manager.activeConnections)
    {
      if Truthy(f.frame) {
        var row := RowOf(userId, f, nextId);
        rows := rows + [row];
        nextId := nextId + 1;
        manager.SendPersonalMessage(NewMessage(ToWire(row)), row.receiverId);
      }
    }

    /** `websocket_endpoint`, lines 65-116: the socket `ws` becomes the
        user's, every frame is handled in order, and when the client goes
        away the user's registration is dropped. A frame that is not JSON
        ends the handler with another exception, and then the registration
        stays. */
    method Session(ws: SocketId, userId: int, frames: seq<Received>, clientClosed: bool)
      modifies this, manager
      ensures var reg := old(manager.userConnections)[userId := ws];
        var o := Handled(reg, userId, frames, old(nextId));
        && rows == old(rows) + o.rows
        && manager.sent == old(manager.sent) + o.sent
        && manager.userConnections == (if clientClosed then reg - {userId} else reg)
      ensures manager.activeConnections == old(manager.activeConnections)
    {
      manager.ConnectUser(ws, userId);
      HandleFrames(userId, frames);
      if clientClosed {
        manager.DisconnectUser(userId);
      }
    }

    /** The receive loop of lines 77-110, over the frames that arrive. */
    method HandleFrames(userId: int, frames: seq<Received>)
      modifies this, manager
      ensures var o := Handled(old(manager.userConnections), userId, frames, old(nextId));
        && rows == old(rows) + o.rows
        && nextId == old(nextId) + |o.rows|
        && manager.sent == old(manager.sent) + o.sent
      ensures manager.userConnections == old(manager.userConnections)
      ensures manager.activeConnections == old(manager.activeConnections)
    {
      ghost var rows0, id0, sent0 := rows, nextId, manager.sent;
      ghost var reg := manager.userConnections;
      ghost var o := Outcome([], []);
      for i := 0 to |frames|
        invariant o == Handled(reg, userId, frames[..i], id0)
        invariant rows == rows0 + o.rows && nextId == id0 + |o.rows|
        invariant manager.sent == sent0 + o.sent
        invariant manager.userConnections == reg && manager.activeConnections == old(manager.activeConnections)
      {
        ghost var add := StoredRow(userId, frames[i], nextId);
        HandledStep(reg, userId, frames, i, id0, o, add);
        AppendAssoc(rows0, o.rows, add);
        AppendAssoc(sent0, o.sent, RelayOf(reg, add));
        HandleFrame(userId, frames[i]);
        o := Outcome(o.rows + add, o.sent + RelayOf(reg, add));
      }
      assert frames[..|frames|] == frames;
    }
  }

  /** Frame `i` adds its own row, if any, and that row's relay to the
      outcome `o` of the first `i` frames. */
  lemma HandledStep(reg: UserRegistry, userId: int, frames: seq<Received>, i: nat, firstId: nat, o: Outcome, add: seq<MessageRow>)
    requires i < |frames|
    requires o == Handled(reg, userId, frames[..i], firstId)
    requires add == StoredRow(userId, frames[i], firstId + |o.rows|)
    ensures Handled(reg, userId, frames[..i + 1], firstId) == Outcome(o.rows + add, o.sent + RelayOf(reg, add))
  {
    PrefixSnoc(frames, i);
  }

  /** The page closes the old socket and opens a new one whenever the open
      conversation changes. When the new socket registers before the old
      session ends, the old session's disconnect drops the new
      registration, and messages to the user are stored but no longer
      relayed. */
  lemma ReconnectRaceUnregisters(reg: UserRegistry, userId: int, oldWs: SocketId, newWs: SocketId, m: Frame)
    ensures var after := reg[userId := oldWs][userId := newWs] - {userId};
      userId !in after && PersonalDeliveries(after, m, userId) == []
  {
  }
}
