# School management: real-time messaging and access rules, in Dafny

This project models the messaging core of a school-management application.
The application has a FastAPI backend and a React frontend, and has three
kinds of user: students, teachers and admins.

- **The server connection registry** (`ConnectionManager`) has two parts.
  One maps each class to the sockets following its Q&A board. The other
  maps each user to the one socket that receives their direct messages.
  Sockets are opaque ids. Every frame the server sends is appended to a
  single send log, so the order across sockets is kept.
- **The client connection provider** (`WebSocketProvider`) is a state
  machine over the held socket and the connected flag. Each transport event
  (open, close, error) is a method call tagged with the socket that raised
  it.
- **The pages' message logs** are pure reducers over sequences, wrapped in
  classes whose methods are the page handlers:
  - the class discussion board;
  - the Q&A chat panel;
  - the direct-message page.
- **The REST endpoints that feed them**: chat, Q&A, classes, submissions,
  users, files and avatar upload. The database is modelled as in-memory
  rows. Each endpoint is a method that checks the caller's role and
  ownership, then changes exactly the rows it names.
- **The rule-bearing helpers of the frontend**:
  - the form schemas;
  - the dashboard's sidebar, title and inactivity logout;
  - the admin's user filter and update payload;
  - the file list of the assignment page.

Each imperative part is a class. Its methods are proved against a pure step
function of the old state, and the properties are proved as lemmas about
those functions. A frame on the wire is modelled already decoded, as a
datatype.

Oracles and parameters:
- Whether a string passes the email check is a parameter.
- Random class-code draws are an oracle.
- Results that come from the clock, the file system or a failing `send`
  are parameters.
- Password hashing is symbolic.

## Model

| member | source | states |
|---|---|---|
| Common.RoleOf | backend/app/models/user.py:6-9 | a string names a role only if it is one of the three enum values, and then the role's value is that string |
| Common.RoleNameRoundTrip | backend/app/models/user.py:6-9 | looking up a role's value gives the role back |
| Common.Page | backend/app/api/api_v1/endpoints/users.py:26 | `offset(skip).limit(limit)`: at most `limit` rows, exactly `min(limit, n - skip)` when `skip <= n`, none past the end, and row i of the page is row `skip + i` |
| Common.PageSubset | backend/app/api/api_v1/endpoints/qa.py:20 | a page holds only rows of the query it pages |
| Wire.Lookup | backend/app/api/api_v1/endpoints/qa.py:20 | a loaded relationship is present exactly when a user row has the id, and is that row |
| Wire.KindDeterminesShape | backend/app/api/api_v1/endpoints/qa.py:51 | the `type` field of a well-formed frame tells a question, an answer and a direct message apart (both directions) |
| Wire.IsoFormatInjective | backend/app/api/api_v1/endpoints/chat.py:105 | distinct timestamps serialise to distinct strings |
| Text.TrimStartSpec | frontend/src/pages/Chat.tsx:114 | `trimStart` cuts a blank prefix only, and what it keeps is a suffix that is empty or starts with a non-space |
| Text.TrimEndSpec | frontend/src/pages/Chat.tsx:114 | `trimEnd` cuts a blank suffix only, and what it keeps is a prefix that is empty or ends with a non-space |
| Text.TrimEmptyIffBlank | frontend/src/pages/ClassDiscussion.tsx:115 | `!s.trim()` holds exactly for the strings made of white space only (both directions) |
| Text.StartsWithConcat | backend/app/api/api_v1/endpoints/upload.py:64 | a string built as prefix plus rest starts with that prefix |
| Text.ToLower | frontend/src/pages/AdminDashboard.tsx:127-128 | lower-casing keeps the length and maps each character on its own |
| Text.AfterLast | frontend/src/pages/AssignmentDetail.tsx:80 | `split(c).pop()` is a suffix free of `c`, and the character just before it is `c` when it is not the whole string |
| Text.AfterLastWhole | frontend/src/pages/AssignmentDetail.tsx:80 | the last piece is the whole string exactly when the separator does not occur (both directions) |
| Text.AfterLastConcat | frontend/src/pages/AssignmentDetail.tsx:80 | the last piece of `p + c + t`, with `t` free of `c`, is `t` |
| Text.NatToString | frontend/src/pages/ClassDiscussion.tsx:120 | the decimal rendering is a non-empty string of digits with no leading zero |
| Text.IntToString | frontend/src/context/WebSocketContext.tsx:22 | the rendering of an integer in a template string is never empty |
| Text.DigitPrefix | frontend/src/pages/ClassDiscussion.tsx:120 | the digits `parseInt` reads: a prefix of digits that stops before the first non-digit |
| Text.DigitsValueOfNat | frontend/src/pages/ClassDiscussion.tsx:120 | the value of a rendered number's digits is the number |
| Text.ParseInt | frontend/src/pages/ClassDiscussion.tsx:120 | `parseInt` yields a number only when the string holds a digit; otherwise `NaN` |
| Text.ParseIntRoundTrip | frontend/src/pages/ClassDiscussion.tsx:120 | `parseInt` of a rendered natural number gives the number back |
| SocketManager.FirstIndex | backend/app/core/socket_manager.py:19-20 | the index found holds the socket and no earlier position does |
| SocketManager.RemoveFirst | backend/app/core/socket_manager.py:19-20 | `list.remove` under the `in` guard: an absent socket leaves the list as it is, otherwise exactly the first occurrence is cut out |
| SocketManager.RemoveFirstMultiset | backend/app/core/socket_manager.py:20 | removing takes out exactly one copy of the socket and shortens the list by one |
| SocketManager.ConnectAppendsLast | backend/app/core/socket_manager.py:11-15 | `connect` creates the class's list if missing and appends the socket last; every other class is untouched |
| SocketManager.DisconnectRemovesOne | backend/app/core/socket_manager.py:17-22 | `disconnect` removes one copy of a registered socket, deletes the class exactly when its list held only that socket, and leaves other classes alone |
| SocketManager.DisconnectAbsentIsNoOp | backend/app/core/socket_manager.py:17-22 | disconnecting a socket that is not registered for the class changes nothing |
| SocketManager.ConnectKeepsInvariant | backend/app/core/socket_manager.py:11-15 | `connect` keeps the registry free of empty class lists |
| SocketManager.DisconnectKeepsInvariant | backend/app/core/socket_manager.py:17-22 | `disconnect` keeps the registry free of empty class lists (line 21-22 deletes a list it emptied) |
| SocketManager.RunKeepsInvariant | backend/app/core/socket_manager.py:11-22 | any sequence of connects and disconnects keeps the registry free of empty class lists |
| SocketManager.Deliveries | backend/app/core/socket_manager.py:26-27 | one send per listed socket, in list order, all with the same message |
| SocketManager.DeliveriesCount | backend/app/core/socket_manager.py:24-27 | a socket registered k times for a class receives a broadcast k times |
| SocketManager.SentToAppend | backend/app/core/socket_manager.py:24-27 | the number of sends to a socket adds up over consecutive broadcasts |
| SocketManager.ConnectionManager.constructor | backend/app/core/socket_manager.py:5-9 | both registries start empty and nothing has been sent |
| SocketManager.ConnectionManager.Connect | backend/app/core/socket_manager.py:11-15 | the class registry becomes its `connect` update; user registry and sends unchanged |
| SocketManager.ConnectionManager.Disconnect | backend/app/core/socket_manager.py:17-22 | the class registry becomes its `disconnect` update; user registry and sends unchanged |
| SocketManager.ConnectionManager.Broadcast | backend/app/core/socket_manager.py:24-27 | the send log grows by one delivery per socket of the class, nothing when the class is absent; registries unchanged |
| SocketManager.ConnectionManager.ConnectUser | backend/app/core/socket_manager.py:30-32 | the user's entry is set to the socket, replacing an older one |
| SocketManager.ConnectionManager.DisconnectUser | backend/app/core/socket_manager.py:34-36 | the user's entry is removed whatever socket it holds |
| SocketManager.ConnectionManager.SendPersonalMessage | backend/app/core/socket_manager.py:38-40 | the send log grows by the personal delivery; registries unchanged |
| SocketManager.PersonalDeliveries | backend/app/core/socket_manager.py:38-40 | at most one send, made exactly when the user is registered, to the registered socket |
| WebSocketContext.QaSocketUrl | frontend/src/context/WebSocketContext.tsx:22 | the address opened is under `ws://localhost:8000/api/v1/qa/ws/` |
| WebSocketContext.ConnectKeepsValid | frontend/src/context/WebSocketContext.tsx:17-40 | `connect` keeps the provider consistent: the held socket is a known transport that is not closed |
| WebSocketContext.EventsKeepValid | frontend/src/context/WebSocketContext.tsx:24-46 | open, close and error events, and `disconnect`, keep the provider consistent |
| WebSocketContext.ConnectClosesPrevious | frontend/src/context/WebSocketContext.tsx:17-40 | `connect` asks an open or connecting held socket to close, creates a fresh connecting socket to the class's address and holds it; the flag, the sent payloads and every other transport are untouched |
| WebSocketContext.EventEffects | frontend/src/context/WebSocketContext.tsx:24-37 | `onopen` sets the flag and keeps the held socket; `onclose` clears both, whichever socket raised it; `onerror` changes nothing |
| WebSocketContext.SendGate | frontend/src/context/WebSocketContext.tsx:48-52 | a payload is transmitted exactly when a socket is held, the flag is set and that socket is open; otherwise the state is unchanged |
| WebSocketContext.DisconnectEffects | frontend/src/context/WebSocketContext.tsx:42-46 | `disconnect` only asks the held socket to close: it keeps socket, flag and sent payloads, does nothing without a socket, and is idempotent |
| WebSocketContext.ReconnectHoldsSecondSocket | frontend/src/context/WebSocketContext.tsx:17-40 | connect, open, connect again: the second socket is held and still connecting, the flag is still set and the first socket is closing |
| WebSocketContext.StaleCloseDropsNewSocket | frontend/src/context/WebSocketContext.tsx:29-33 | the replaced socket's close event clears the socket that replaced it; when that one opens the flag is set again but `sendMessage` sends nothing |
| WebSocketContext.SendRightAfterReconnectThrows | frontend/src/context/WebSocketContext.tsx:48-51 | right after a reconnect the guard passes while the held socket is still connecting, so `send` throws |
| WebSocketContext.WebSocketProvider.constructor | frontend/src/context/WebSocketContext.tsx:14-15 | no socket, flag clear, no transports |
| WebSocketContext.WebSocketProvider.Connect | frontend/src/context/WebSocketContext.tsx:17-40 | the new state is `AfterConnect` of the old one and stays consistent |
| WebSocketContext.WebSocketProvider.HandleOpen | frontend/src/context/WebSocketContext.tsx:24-27 | the new state is `OnOpen` of the old one and stays consistent |
| WebSocketContext.WebSocketProvider.HandleClose | frontend/src/context/WebSocketContext.tsx:29-33 | the new state is `OnClose` of the old one and stays consistent |
| WebSocketContext.WebSocketProvider.HandleError | frontend/src/context/WebSocketContext.tsx:35-37 | the state is `OnError` of the old one, that is unchanged |
| WebSocketContext.WebSocketProvider.Disconnect | frontend/src/context/WebSocketContext.tsx:42-46 | the new state is `AfterDisconnect` of the old one and stays consistent |
| WebSocketContext.WebSocketProvider.SendMessage | frontend/src/context/WebSocketContext.tsx:48-52 | the new state and the outcome are those of `AfterSend` |
| QaEndpoint.AnswerView | backend/app/schemas/qa.py:32-38 | an answer is shown with its own id, content and question, its timestamp in ISO form and its teacher loaded from the user table |
| QaEndpoint.AnswersOf | backend/app/models/qa.py:15 | a question's answers are exactly the stored answers naming it |
| QaEndpoint.AnswerViews | backend/app/schemas/qa.py:13-22 | one view per answer, in order |
| QaEndpoint.QuestionView | backend/app/schemas/qa.py:31-41 | a question is shown with its own fields, its student loaded, and as many answers as name it, each of them naming it |
| QaEndpoint.InClass | backend/app/api/api_v1/endpoints/qa.py:20 | the filter keeps exactly the questions of the class |
| QaEndpoint.ReadQuestions | backend/app/api/api_v1/endpoints/qa.py:13-21 | the result is the page at `skip`/`limit` of the class's questions in table order, each as its view with its student and answers loaded; hence at most `limit` questions, all of that class |
| QaEndpoint.QaServer.constructor | backend/app/core/socket_manager.py:42 | empty tables, ids from 1, the shared manager |
| QaEndpoint.QaServer.CreateQuestion | backend/app/api/api_v1/endpoints/qa.py:24-54 | a class id no class holds fails the `question.class_id` foreign key at the commit (500) with nothing stored or sent; otherwise any signed-in user's question is stored with the next id, returned and broadcast as `new_question` to the class's sockets, with no answers and the author loaded; the foreign-key invariant is kept and nothing else changes |
| QaEndpoint.QaServer.CreateAnswer | backend/app/api/api_v1/endpoints/qa.py:56-84 | a non-teacher gets 403 and nothing changes; a teacher's answer to a question id no question holds fails the `answer.question_id` foreign key at the commit (500) and nothing changes; otherwise the answer is stored with the next id, returned and broadcast as `new_answer` to its question's class; the foreign-key invariant is kept |
| QaEndpoint.QaServer.Session | backend/app/api/api_v1/endpoints/qa.py:87-97 | the class socket session registers the socket, reads and ignores every text, and unregisters it when the client leaves; nothing is sent |
| QaEndpoint.FirstWithId | backend/app/api/api_v1/endpoints/qa.py:75 | `.first()` finds nothing exactly when no question has the id, and otherwise a stored question with that id |
| QaEndpoint.AnswerBroadcast | backend/app/api/api_v1/endpoints/qa.py:75-81 | the `if question:` guard: an answer whose question is not found is broadcast to nobody; CreateAnswer reaches it only with a found question, since the foreign key refuses the rest |
| QaEndpoint.FirstWithIdAppend | backend/app/api/api_v1/endpoints/qa.py:39-40 | storing a question keeps every earlier lookup by id and makes the new id found |
| QaEndpoint.NewQuestionHasNoAnswers | backend/app/models/qa.py:15-22 | while every answer names a stored question and every id is below the next one, no answer names the next question id |
| QaEndpoint.CreatedQuestionReadsAsBroadcast | backend/app/api/api_v1/endpoints/qa.py:47-54 | under the foreign-key invariant, a created question reads back exactly as its `new_question` payload: its author loaded and no answers |
| QaEndpoint.AnswerReachesItsClass | backend/app/api/api_v1/endpoints/qa.py:75-81 | an answer to an existing question reaches each socket of that question's class as many times as it is registered there, and no other socket |
| QaEndpoint.SessionLeavesRegistry | backend/app/api/api_v1/endpoints/qa.py:87-97 | a session for a socket not yet registered leaves the class registry exactly as it found it |
| QaEndpoint.BroadcastMatchesRead | backend/app/api/api_v1/endpoints/qa.py:47-51 | the `new_question` payload equals what a later read shows for that question, while its author is unchanged and no answer names its id |
| ChatEndpoint.ToWire | backend/app/schemas/message.py:11-16 | a stored message is sent with its own id, sender, receiver, content and read flag, and its timestamp in ISO form |
| ChatEndpoint.InvolvingMe | backend/app/api/api_v1/endpoints/chat.py:21-26 | the query keeps exactly the messages the caller sent or received |
| ChatEndpoint.CounterpartsStep | backend/app/api/api_v1/endpoints/chat.py:30-34 | one more message of the caller adds exactly its sender and receiver other than the caller |
| ChatEndpoint.CounterpartsOfFiltered | backend/app/api/api_v1/endpoints/chat.py:21-34 | collecting over the caller's messages gives the same ids as over the whole table |
| ChatEndpoint.UsersIn | backend/app/api/api_v1/endpoints/chat.py:37 | `id.in_(user_ids)` keeps exactly the users whose id was collected |
| ChatEndpoint.OthersThan | backend/app/api/api_v1/endpoints/chat.py:41 | the fallback keeps exactly the users other than the caller |
| ChatEndpoint.GetConversations | backend/app/api/api_v1/endpoints/chat.py:12-43 | the result is the users the caller exchanged a message with, or everyone else when there are none; never the caller, always a stored user |
| ChatEndpoint.CollectCounterparts | backend/app/api/api_v1/endpoints/chat.py:29-34 | the loop's id set is every sender or receiver, other than the caller, of the caller's messages |
| ChatEndpoint.NotOwnCounterpart | backend/app/api/api_v1/endpoints/chat.py:31-34 | the caller's own id is never collected |
| ChatEndpoint.CounterpartHasMessage | backend/app/api/api_v1/endpoints/chat.py:30-34 | every collected id shares a stored message with the caller |
| ChatEndpoint.Conversation | backend/app/api/api_v1/endpoints/chat.py:56-60 | the filter keeps exactly the messages between the two users, in either direction |
| ChatEndpoint.ConversationSymmetric | backend/app/api/api_v1/endpoints/chat.py:57-60 | the filter is the same seen from either user |
| ChatEndpoint.InsertByTime | backend/app/api/api_v1/endpoints/chat.py:61 | inserting one message keeps every other message and adds it once |
| ChatEndpoint.InsertNotBefore | backend/app/api/api_v1/endpoints/chat.py:61 | inserting a message no earlier than a bound keeps every message at or after that bound |
| ChatEndpoint.ConsSorted | backend/app/api/api_v1/endpoints/chat.py:61 | a message no later than a sorted list placed before it gives a sorted list |
| ChatEndpoint.InsertKeepsSorted | backend/app/api/api_v1/endpoints/chat.py:61 | inserting into a list ordered by timestamp keeps it ordered |
| ChatEndpoint.SortByTime | backend/app/api/api_v1/endpoints/chat.py:61 | `order_by(timestamp.asc())`: ordered by timestamp and a permutation of its input |
| ChatEndpoint.GetMessages | backend/app/api/api_v1/endpoints/chat.py:45-63 | at most `limit` messages |
| ChatEndpoint.GetMessagesBetween | backend/app/api/api_v1/endpoints/chat.py:56-61 | every message returned is a stored message between the caller and the other user, sent as stored |
| ChatEndpoint.GetMessagesOldestFirst | backend/app/api/api_v1/endpoints/chat.py:61 | the history comes oldest first |
| ChatEndpoint.GetMessagesWhole | backend/app/api/api_v1/endpoints/chat.py:56-61 | with `skip` 0 and a `limit` no smaller than the conversation, the history has one message per stored message between the two users, and every such message appears in it as sent on the wire |
| ChatEndpoint.StoredRow | backend/app/api/api_v1/endpoints/chat.py:85-94 | a frame stores at most one row, and one exactly when `receiver_id` and `content` are both truthy |
| ChatEndpoint.RelayOf | backend/app/api/api_v1/endpoints/chat.py:97-110 | at most one `new_message` send per stored row |
| ChatEndpoint.Handled | backend/app/api/api_v1/endpoints/chat.py:77-110 | a session stores at most one row per frame and sends at most one message per stored row |
| ChatEndpoint.HandledRows | backend/app/api/api_v1/endpoints/chat.py:82-94 | the k-th stored row comes from a truthy frame of the session, has id `firstId + k`, the session's user as sender and that frame's receiver and content |
| ChatEndpoint.FalsyFramesStoreNothing | backend/app/api/api_v1/endpoints/chat.py:85 | frames whose receiver or content is falsy store nothing and send nothing |
| ChatEndpoint.HandledSends | backend/app/api/api_v1/endpoints/chat.py:96-110 | every send goes to the socket registered for the receiver of a stored row and carries that row |
| ChatEndpoint.ChatServer.constructor | backend/app/api/api_v1/endpoints/chat.py:10 | an empty message table with ids from 1, and the shared manager |
| ChatEndpoint.ChatServer.HandleFrame | backend/app/api/api_v1/endpoints/chat.py:79-110 | one frame appends its stored row, if any, advances the id by as much, and relays the row to the receiver's socket, if registered |
| ChatEndpoint.ChatServer.Session | backend/app/api/api_v1/endpoints/chat.py:65-116 | the user's socket is registered (replacing an older one), the frames are handled against that registry, and the user is unregistered when the client disconnects |
| ChatEndpoint.ChatServer.HandleFrames | backend/app/api/api_v1/endpoints/chat.py:77-110 | the receive loop stores and relays exactly what `Handled` says for the frames |
| ChatEndpoint.HandledStep | backend/app/api/api_v1/endpoints/chat.py:77-110 | handling one more frame extends the rows and sends by that frame's row and relay |
| ChatEndpoint.ReconnectRaceUnregisters | backend/app/core/socket_manager.py:30-36 | when an older session of a user ends after a newer one connected, the user is unregistered and no personal message reaches the newer socket |
| ClassesEndpoint.CodeChar | backend/app/api/api_v1/endpoints/classes.py:23 | every pick names an upper-case ASCII letter or a digit |
| ClassesEndpoint.CodeAlphabetChars | backend/app/api/api_v1/endpoints/classes.py:23 | the alphabet `ascii_uppercase + digits` has 36 characters, the p-th being `CodeChar(p)` |
| ClassesEndpoint.CodeFrom | backend/app/api/api_v1/endpoints/classes.py:22-23 | a code is as long as the draw, made of alphabet characters, each the character its pick names |
| ClassesEndpoint.PickFreshCode | backend/app/api/api_v1/endpoints/classes.py:36-39 | the retry loop returns the code of the first draw that no class holds, a well-formed class code |
| ClassesEndpoint.FreshCodeKeepsUnique | backend/app/api/api_v1/endpoints/classes.py:92 | giving a class a code no class holds keeps codes and ids unique and changes that class's code |
| ClassesEndpoint.IndexOfId | backend/app/api/api_v1/endpoints/classes.py:78 | `.first()` on the id: none exactly when no class has it, otherwise the first class that has it |
| ClassesEndpoint.IndexOfCode | backend/app/api/api_v1/endpoints/classes.py:59 | the lookup by code finds a class exactly when some class holds the code, and that class holds it |
| ClassesEndpoint.ApplyUpdate | backend/app/api/api_v1/endpoints/classes.py:146-152 | the name is always replaced (it is a required field), teacher and image only when given; id and code are kept |
| ClassesEndpoint.RowsOf | backend/app/api/api_v1/endpoints/classes.py:112 | `classes_enrolled` gives only stored classes among the enrolled ids; when every enrolled id is stored it gives one row per id, in enrolment order, each the class with that id |
| ClassesEndpoint.SameIdsKeepEnrolments | backend/app/models/student_class.py:8 | rewriting class rows without changing their ids keeps every enrolment pointing at a stored class |
| ClassesEndpoint.DropKeepsEnrolments | backend/app/api/api_v1/endpoints/classes.py:170-173 | deleting a class together with its `student_class` rows keeps every remaining enrolment pointing at a stored class |
| ClassesEndpoint.StudentSeesEnrolmentOrder | backend/app/api/api_v1/endpoints/classes.py:110-115 | a student's page has as many classes as the page of their enrolled ids, the i-th being the class of the (skip+i)-th enrolled id |
| ClassesEndpoint.OwnedBy | backend/app/api/api_v1/endpoints/classes.py:108 | the filter keeps exactly the classes the teacher owns |
| ClassesEndpoint.Without | backend/app/api/api_v1/endpoints/classes.py:173 | removing a class from an enrolment list keeps exactly the other ids |
| ClassesEndpoint.WithoutKeepsNoDuplicates | backend/app/api/api_v1/endpoints/classes.py:173 | removing an id keeps an enrolment list free of duplicates |
| ClassesEndpoint.ClassStore.constructor | backend/app/models/class_model.py:1-14 | no classes and no enrolments |
| ClassesEndpoint.ClassStore.CreateClass | backend/app/api/api_v1/endpoints/classes.py:25-39 | a caller who is neither teacher nor admin gets 403; a teacher or admin obtains a fresh, well-formed code |
| ClassesEndpoint.ClassStore.JoinClass | backend/app/api/api_v1/endpoints/classes.py:51-69 | an unknown code is 404; a class already joined is 400; otherwise the class is appended to the caller's enrolments and returned; the class table never changes |
| ClassesEndpoint.ClassStore.RegenerateClassCode | backend/app/api/api_v1/endpoints/classes.py:71-95 | unknown id is 404; neither admin nor owner is 403; otherwise only that class's code changes, to a fresh well-formed one, and the class is returned |
| ClassesEndpoint.ClassStore.ListClasses | backend/app/api/api_v1/endpoints/classes.py:97-117 | a teacher gets the page of the owned classes, a student the page of the enrolled classes in enrolment order, an admin the page of all classes; hence at most `limit` classes |
| ClassesEndpoint.ClassStore.GetClass | backend/app/api/api_v1/endpoints/classes.py:119-128 | 404 exactly when no class has the id, otherwise a stored class with that id |
| ClassesEndpoint.ClassStore.UpdateClass | backend/app/api/api_v1/endpoints/classes.py:130-156 | unknown id is 404; neither admin nor owner is 403; a `teacher_id` no user holds fails the `class.teacher_id` foreign key at the commit (500) and nothing changes; otherwise the class becomes its update and is returned |
| ClassesEndpoint.ClassStore.DeleteClass | backend/app/api/api_v1/endpoints/classes.py:158-175 | a non-admin gets 403, an unknown id 404, and nothing changes; otherwise the class is removed and dropped from every enrolment list |
| ClassesEndpoint.DropKeepsUnique | backend/app/api/api_v1/endpoints/classes.py:173 | removing a class keeps ids and codes unique and shortens the table by one |
| ClassesEndpoint.JoinIsOnce | backend/app/api/api_v1/endpoints/classes.py:64-67 | after a join the class is enrolled once, the list keeps no duplicates and no other user's list changes |
| UsersEndpoint.NewUser | backend/app/api/api_v1/endpoints/users.py:64-70 | a created row carries the form's email, name and role, the hash of its password, no avatar, and `is_active` from the form or true when absent |
| UsersEndpoint.ApplyUpdate | backend/app/api/api_v1/endpoints/users.py:91-101 | email, name and password change only when truthy, role and `is_active` only when given; id and avatar are kept |
| UsersEndpoint.FalsyUpdateChangesNothing | backend/app/api/api_v1/endpoints/users.py:91-101 | an update whose fields are all absent or empty leaves the row as it is |
| UsersEndpoint.SelfUpdateMayPromote | backend/app/api/api_v1/endpoints/users.py:84-97 | a student may update its own row and may set its own role to admin |
| UsersEndpoint.IndexOfId | backend/app/api/api_v1/endpoints/users.py:87 | the lookup by id finds a row exactly when some row has the id, and that row has it |
| UsersEndpoint.IndexOfEmail | backend/app/api/api_v1/endpoints/users.py:60 | the lookup by email finds a row exactly when some row has the email, and that row has it |
| UsersEndpoint.ReplaceKeepsUnique | backend/app/models/user.py:14 | writing a row with the same id and no clashing email keeps ids and emails unique |
| UsersEndpoint.DropKeepsUnique | backend/app/api/api_v1/endpoints/users.py:121 | deleting a row keeps ids and emails unique and shortens the table by one |
| UsersEndpoint.AvatarExtension | backend/app/api/api_v1/endpoints/users.py:139 | the extension holds no dot; a name without a dot gets `jpg`; otherwise the name is something, a dot, then the extension |
| UsersEndpoint.AvatarExtensionOfConcat | backend/app/api/api_v1/endpoints/users.py:139 | the extension of `p.ext` is `ext` |
| UsersEndpoint.AvatarUrl | backend/app/api/api_v1/endpoints/users.py:140-147 | the stored avatar URL is under `/static/avatars/` |
| UsersEndpoint.UserStore.constructor | backend/app/models/user.py:11-18 | an empty table with ids from 1 |
| UsersEndpoint.UserStore.ListUsers | backend/app/api/api_v1/endpoints/users.py:15-27 | 403 exactly when the caller is not an admin; otherwise the page of all rows |
| UsersEndpoint.UserStore.GetUser | backend/app/api/api_v1/endpoints/users.py:38-47 | 404 exactly when no row has the id, otherwise a stored row with that id |
| UsersEndpoint.UserStore.CreateUser | backend/app/api/api_v1/endpoints/users.py:49-74 | a non-admin gets 403 and a taken email 400, with nothing stored; otherwise the new row gets the next id, is appended and returned |
| UsersEndpoint.UserStore.UpdateUser | backend/app/api/api_v1/endpoints/users.py:76-105 | neither admin nor the user itself is 403, an unknown id 404; otherwise the row becomes its update, or the commit fails with 500 when the new email is another row's |
| UsersEndpoint.UserStore.DeleteUser | backend/app/api/api_v1/endpoints/users.py:107-123 | a non-admin gets 403, an unknown id 404, a user with submissions 500 (the ORM NULLs the non-null `submission.student_id`), with nothing deleted; otherwise the row is removed and returned, and no row keeps its id |
| UsersEndpoint.UserStore.UploadAvatar | backend/app/api/api_v1/endpoints/users.py:125-152 | a failed write is 500 with nothing changed; otherwise only the caller's `avatar_url` changes, to the URL built from its id, the time stamp and the extension, which is returned |
| SubmissionsEndpoint.ApplyUpdate | backend/app/api/api_v1/endpoints/submissions.py:107-109 | exactly the fields set in the request change, to the values sent; id, assignment, student and submission time are kept |
| SubmissionsEndpoint.UpdateIdentityAndIdempotent | backend/app/api/api_v1/endpoints/submissions.py:107-109 | an update that sets nothing changes nothing, and applying an update twice is applying it once |
| SubmissionsEndpoint.FindPair | backend/app/api/api_v1/endpoints/submissions.py:32-35 | the lookup finds a row exactly when some row is for that assignment and student, and that row is |
| SubmissionsEndpoint.FindId | backend/app/api/api_v1/endpoints/submissions.py:103 | the lookup finds a row exactly when some row has the id, and that row has it |
| SubmissionsEndpoint.PairsUniqueCount | backend/app/api/api_v1/endpoints/submissions.py:32-53 | while every pair is submitted at most once, a pair has one row when the lookup finds it and none otherwise |
| SubmissionsEndpoint.StudentRows | backend/app/api/api_v1/endpoints/submissions.py:65-67 | the filter keeps exactly the student's rows |
| SubmissionsEndpoint.AssignmentRows | backend/app/api/api_v1/endpoints/submissions.py:84-86 | the filter keeps exactly the assignment's rows |
| SubmissionsEndpoint.StudentRowsKeepPairs | backend/app/api/api_v1/endpoints/submissions.py:65-67 | filtering a table with unique pairs keeps them unique |
| SubmissionsEndpoint.MySubmissionsDistinct | backend/app/api/api_v1/endpoints/submissions.py:55-68 | a page of "my submissions" names each assignment at most once |
| SubmissionsEndpoint.SubmissionStore.constructor | backend/app/models/submission.py:1-18 | an empty table with ids from 1 |
| SubmissionsEndpoint.SubmissionStore.Submit | backend/app/api/api_v1/endpoints/submissions.py:13-53 | a non-student gets 403 and an unknown assignment 404, with nothing stored; a second submission overwrites content, files and time of the existing row and keeps grade and feedback; a first one is appended ungraded; afterwards the pair has exactly one row |
| SubmissionsEndpoint.SubmissionStore.ReadMy | backend/app/api/api_v1/endpoints/submissions.py:55-68 | at most `limit` rows, all the caller's, the page of the caller's rows |
| SubmissionsEndpoint.SubmissionStore.ReadForAssignment | backend/app/api/api_v1/endpoints/submissions.py:70-87 | 403 exactly for a student; otherwise the page at `skip`/`limit` of the assignment's submissions in table order, hence at most `limit` rows, all of the assignment |
| SubmissionsEndpoint.BoundFileUrl | backend/app/api/api_v1/endpoints/submissions.py:133-137 | the plain `str` parameter `file_url` is bound exactly when the query string carries it, to that value; the body is never read |
| SubmissionsEndpoint.DeleteSubmissionFile | backend/app/api/api_v1/endpoints/submissions.py:133-150 | an unbound `file_url` is 422, a missing file 404; the delete succeeds exactly when the URL is bound and the file exists, and answers that URL |
| SubmissionsEndpoint.SubmissionStore.Grade | backend/app/api/api_v1/endpoints/submissions.py:89-114 | a student gets 403, an unknown id 404; otherwise the row becomes its update and is returned |
| FilesEndpoint.Extension | backend/app/api/api_v1/endpoints/files.py:100 | a name without a dot has the empty extension; otherwise the text after the last dot, lower-cased |
| FilesEndpoint.MimeType | backend/app/api/api_v1/endpoints/files.py:98-111 | a known extension gets the table's type, any other the default `application/octet-stream` |
| FilesEndpoint.ExtensionOfName | backend/app/api/api_v1/endpoints/files.py:100 | the extension of `p.ext` is `ext` lower-cased, whatever `p` holds |
| FilesEndpoint.MimeOfExtension | backend/app/api/api_v1/endpoints/files.py:100-111 | the type of `p.ext` is the table's entry for `ext` lower-cased, or the default |
| FilesEndpoint.MimeWithoutDot | backend/app/api/api_v1/endpoints/files.py:100-111 | a name without a dot has the default type |
| FilesEndpoint.ToLowerIdempotent | backend/app/api/api_v1/endpoints/files.py:100 | lower-casing twice is lower-casing once |
| FilesEndpoint.MimeIgnoresCase | backend/app/api/api_v1/endpoints/files.py:100 | the case of the extension does not change the type |
| FilesEndpoint.AfterLastOfSuffix | backend/app/api/api_v1/endpoints/files.py:54 | what follows the last dot of `p + s` is what follows the last dot of `s` when `s` has one |
| FilesEndpoint.Info | backend/app/api/api_v1/endpoints/files.py:26-35 | a listed file has its own name and size, its modification time, the path `/<root>/<name>` and the type of its name |
| FilesEndpoint.DirListing | backend/app/api/api_v1/endpoints/files.py:25-35 | one entry per file of a directory, in walk order |
| FilesEndpoint.ListingEntries | backend/app/api/api_v1/endpoints/files.py:24-35 | the listing has one entry per file walked; each entry is typed by its name and lies in a walked directory |
| FilesEndpoint.ListFiles | backend/app/api/api_v1/endpoints/files.py:15-37 | a non-admin gets 403; an admin gets the listing of the whole walk |
| FilesEndpoint.UploadFile | backend/app/api/api_v1/endpoints/files.py:39-67 | a non-admin gets 403, a failed write 500; otherwise the file is stored as `<stamp>_<name>` under `/static/uploads/` |
| FilesEndpoint.UploadKeepsType | backend/app/api/api_v1/endpoints/files.py:54 | the stored name of an upload has the type of the original name |
| FilesEndpoint.StripLeadingSlashes | backend/app/api/api_v1/endpoints/files.py:79 | `lstrip('/')` removes a run of leading slashes only, and what remains does not start with one |
| FilesEndpoint.SplitSlash | backend/app/api/api_v1/endpoints/files.py:81 | splitting gives at least one piece and no piece holds a slash |
| FilesEndpoint.JoinEmptyLast | backend/app/api/api_v1/endpoints/files.py:81 | joining after a last empty piece adds a trailing slash |
| FilesEndpoint.JoinExtendLast | backend/app/api/api_v1/endpoints/files.py:81 | adding a character to the last piece adds it at the end of the joined string |
| FilesEndpoint.SplitJoin | backend/app/api/api_v1/endpoints/files.py:81 | splitting at the slashes and joining again gives the path back |
| FilesEndpoint.Parts | backend/app/api/api_v1/endpoints/files.py:81 | the components `pathlib` keeps are non-empty, not `.` and free of slashes |
| FilesEndpoint.Keep | backend/app/api/api_v1/endpoints/files.py:81 | dropping empty and `.` pieces keeps only real components |
| FilesEndpoint.Resolve | backend/app/api/api_v1/endpoints/files.py:92 | resolving `..` never lengthens the path |
| FilesEndpoint.ResolveLeadingDotDots | backend/app/api/api_v1/endpoints/files.py:92 | after resolution `..` occurs only in a leading run |
| FilesEndpoint.ResolveWithoutDotDots | backend/app/api/api_v1/endpoints/files.py:92 | a path without `..` resolves to itself |
| FilesEndpoint.UnderStaticStaysInside | backend/app/api/api_v1/endpoints/files.py:85-89 | a path that passes the corrected check resolves to a path that starts with `static` and holds no `..` |
| FilesEndpoint.ChecksAgreeWithoutDotDots | backend/app/api/api_v1/endpoints/files.py:86-89 | for a path without `..` the written check and the corrected one agree (both directions) |
| FilesEndpoint.TraversalPassesCheck | backend/app/api/api_v1/endpoints/files.py:86-89 | `static/../<name>` passes `relative_to("static")`, resolves to `<name>` outside `static`, and fails the corrected check |
| FilesEndpoint.DeleteFile | backend/app/api/api_v1/endpoints/files.py:69-96 | a non-admin gets 403, a missing path 404, a path outside `static` 403, a failed unlink 500; a deleted path always lies inside `static` |
| FilesEndpoint.DeleteIgnoresLeadingSlashes | backend/app/api/api_v1/endpoints/files.py:79 | a leading slash makes no difference to a deletion |
| UploadEndpoint.StoredName | backend/app/api/api_v1/endpoints/upload.py:28 | the stored file name starts with `user_` |
| UploadEndpoint.Suffix | backend/app/api/api_v1/endpoints/upload.py:52 | `PurePath.suffix` is empty or a dot followed by at least one character and no further dot, a proper tail of the name |
| UploadEndpoint.SuffixOfName | backend/app/api/api_v1/endpoints/upload.py:52 | `p.ext` has suffix `.ext`; a name whose only dot leads it, or that ends in a dot, has none |
| UploadEndpoint.DefaultUrls | backend/app/api/api_v1/endpoints/upload.py:49-54 | at most one URL per directory entry |
| UploadEndpoint.DefaultUrlsSelectable | backend/app/api/api_v1/endpoints/upload.py:50-65 | every listed URL carries the defaults prefix and names a listed image file of the directory |
| UploadEndpoint.ListDefaultAvatars | backend/app/api/api_v1/endpoints/upload.py:46-54 | nothing when the directory is missing; otherwise the URLs of the image files, in directory order |
| UploadEndpoint.UploadAvatar | backend/app/api/api_v1/endpoints/upload.py:18-44 | a content type not starting with `image/` is 400 and a failed write 500, with nothing changed; otherwise only the caller's avatar URL changes, to `/static/avatars/user_<id>_<filename>` |
| UploadEndpoint.SelectDefaultAvatar | backend/app/api/api_v1/endpoints/upload.py:56-71 | a URL outside the defaults prefix is 400 with nothing changed; otherwise it becomes the caller's avatar URL as given |
| UploadEndpoint.SetAvatar | backend/app/api/api_v1/endpoints/upload.py:40-42 | only the caller's avatar URL changes, and the updated row is returned |
| UploadEndpoint.ListedDefaultIsAccepted | backend/app/api/api_v1/endpoints/upload.py:53-64 | a URL the listing returns is accepted by selection |
| Validations.Check | frontend/src/lib/validations.ts:5-6 | one rule gives no issue exactly when it holds, and otherwise one issue on its field |
| Validations.MinLength | frontend/src/lib/validations.ts:6 | `min(n)` passes exactly when the string has at least n characters, white space included |
| Validations.LoginIssues | frontend/src/lib/validations.ts:4-7 | the login form parses exactly when the email passes and the password has at least 6 characters; issues are only on those two fields |
| Validations.RegisterFieldIssues | frontend/src/lib/validations.ts:9-14 | the object part passes exactly when the name has 2 characters, the email passes, the password has 6 and the role is student or teacher |
| Validations.RegisterIssues | frontend/src/lib/validations.ts:9-18 | the register form parses exactly when every field passes and both passwords match; with a valid role a mismatch is reported last on `confirmPassword`; with an invalid role it is never reported |
| Validations.MismatchReportedBesideFieldIssues | frontend/src/lib/validations.ts:10-18 | with a valid role a short name, a bad email and a mismatch are all reported together |
| Validations.PostIssues | frontend/src/lib/validations.ts:21-29 | a post parses exactly when its content has a character and its id is a number |
| Validations.QuestionIssues | frontend/src/lib/validations.ts:21-24 | a question parses exactly when its content is non-empty and its class id a number |
| Validations.AnswerIssues | frontend/src/lib/validations.ts:26-29 | an answer parses exactly when its content is non-empty and its question id a number |
| Validations.BlankQuestionParses | frontend/src/lib/validations.ts:22 | a question of one space parses; an empty one gets exactly the `content` issue |
| Validations.AssignmentIssues | frontend/src/lib/validations.ts:32-37 | an assignment parses exactly when title and due date are non-empty and the class id a number; the description is never checked |
| Validations.UserIssues | frontend/src/lib/validations.ts:40-45 | the user form parses exactly when the name has 2 characters, the email passes and the role is one of the three backend roles |
| Validations.SchemaRoles | frontend/src/lib/validations.ts:14 | every backend role passes the user schema, and registration accepts all roles but admin |
| DashboardLayout.EffectiveRole | frontend/src/layouts/DashboardLayout.tsx:29 | the role is the prop when non-empty, else the stored role when non-empty, else `student`; never empty |
| DashboardLayout.SidebarItems | frontend/src/layouts/DashboardLayout.tsx:89-116 | four items ending with settings: the three admin pages for `admin`, the teacher pages for `teacher`, and the student pages for any other role |
| DashboardLayout.ActiveRule | frontend/src/layouts/DashboardLayout.tsx:136 | the dashboard items light up only on their exact path; every other item also on any path it prefixes |
| DashboardLayout.FirstActive | frontend/src/layouts/DashboardLayout.tsx:165 | `find` returns nothing exactly when no item is active, and otherwise the first active item |
| DashboardLayout.HeaderTitle | frontend/src/layouts/DashboardLayout.tsx:163-165 | a `/class/` path shows the class-detail title; otherwise the first active item's label, or the default title when none is active |
| DashboardLayout.TeacherSubpageTitle | frontend/src/layouts/DashboardLayout.tsx:165 | a path below the teacher dashboard shows the default title |
| DashboardLayout.SettingsTitle | frontend/src/layouts/DashboardLayout.tsx:91-165 | the settings page shows the settings label for every role |
| DashboardLayout.Logout | frontend/src/layouts/DashboardLayout.tsx:40-44 | logging out goes to `/login` and removes exactly the token and the role from session storage |
| DashboardLayout.ActivityRearms | frontend/src/layouts/DashboardLayout.tsx:51-63 | every tracked activity pushes the logout deadline to five minutes after it, and changes nothing else |
| DashboardLayout.TickRule | frontend/src/layouts/DashboardLayout.tsx:53-55 | the timer logs out exactly when it fires at or after the deadline while mounted; otherwise nothing changes |
| DashboardLayout.LogoutOnlyAfterInactivity | frontend/src/layouts/DashboardLayout.tsx:47-76 | after mounting, activities and a tick, the page is at `/login` exactly when five minutes passed since the last activity, or it was there already |
| DashboardLayout.PrefixRun | frontend/src/layouts/DashboardLayout.tsx:47-76 | running two event sequences one after the other is running their concatenation |
| DashboardLayout.Layout.constructor | frontend/src/layouts/DashboardLayout.tsx:25-29 | the layout starts unmounted with no deadline, at its location and with its storage |
| DashboardLayout.Layout.ResetTimer | frontend/src/layouts/DashboardLayout.tsx:51-56 | only the deadline changes, to five minutes after now |
| DashboardLayout.Layout.HandleLogout | frontend/src/layouts/DashboardLayout.tsx:40-44 | the new state is the logout of the old one |
| DashboardLayout.Layout.Handle | frontend/src/layouts/DashboardLayout.tsx:47-76 | the new state is the step of the old one for the event |
| QaChat.SenderName | frontend/src/components/QAChat.tsx:31 | the sender's name is its full name when it has a non-empty one, and otherwise a non-empty placeholder |
| QaChat.SenderRole | frontend/src/components/QAChat.tsx:32 | the sender's role when a sender is loaded, the fallback otherwise |
| QaChat.HistoryLog | frontend/src/components/QAChat.tsx:28-34 | one entry per loaded question, in the order received |
| QaChat.FromFrame | frontend/src/components/QAChat.tsx:45-54 | a `new_question` or `new_answer` frame gives an entry with the post's own id, content and time, the author's name, and the author's role or `student`/`teacher` by kind; any other frame gives none |
| QaChat.ReceiveIsAppend | frontend/src/components/QAChat.tsx:55 | a frame only appends its contribution to the log |
| QaChat.ReceiveAllAppends | frontend/src/components/QAChat.tsx:43-57 | a run of frames appends their entries, in arrival order, and keeps the earlier log |
| QaChat.LiveEntriesConcat | frontend/src/components/QAChat.tsx:43-57 | the entries of two runs of frames are those of the first, then those of the second |
| QaChat.OnlyQaFramesContribute | frontend/src/components/QAChat.tsx:45 | frames that are neither questions nor answers add nothing |
| QaChat.QaChatPanel.constructor | frontend/src/components/QAChat.tsx:14-17 | empty log, empty input, nothing posted |
| QaChat.QaChatPanel.LoadHistory | frontend/src/components/QAChat.tsx:24-35 | the log becomes the history transform of the loaded questions |
| QaChat.QaChatPanel.OnFrame | frontend/src/components/QAChat.tsx:43-56 | the log becomes its update for the frame |
| QaChat.QaChatPanel.TypeMessage | frontend/src/components/QAChat.tsx:17 | only the input changes |
| QaChat.QaChatPanel.HandleSend | frontend/src/components/QAChat.tsx:61-71 | a blank input posts nothing; otherwise the text is posted as a question of the class and the input is cleared only when the post succeeds; the log is untouched |
| QaChat.HistoryThenFrames | frontend/src/components/QAChat.tsx:19-57 | after loading the history and receiving frames the log is the history followed by the frames' entries |
| ChatPage.ChatSocketUrl | frontend/src/pages/Chat.tsx:64 | the socket address is under `ws://localhost:8000/api/v1/chat/ws/` |
| ChatPage.OnChatFrame | frontend/src/pages/Chat.tsx:70-79 | a `new_message` frame is appended exactly when a conversation is open and its sender is the open peer or the user; anything else leaves the list as it is |
| ChatPage.FilterIgnoresReceiver | frontend/src/pages/Chat.tsx:75 | the filter never looks at the receiver: with no open conversation, or a sender other than the peer and the user, nothing is appended |
| ChatPage.Optimistic | frontend/src/pages/Chat.tsx:124-131 | the optimistic message is from the user to the peer, with the typed content, unread, and the clock as its id |
| ChatPage.ShouldSend | frontend/src/pages/Chat.tsx:114 | a send happens exactly when the input is not blank and a socket, a peer and a user are all present |
| ChatPage.SendEffects | frontend/src/pages/Chat.tsx:112-134 | when the send goes ahead and `send` does not throw, the frame with receiver and content is recorded on the socket, the optimistic message appended and the input cleared; a skipped send, or one whose `send` throws, changes nothing; user, peer and socket never change and messages only grow |
| ChatPage.BlankInputSendsNothing | frontend/src/pages/Chat.tsx:114 | a blank input sends nothing and changes nothing |
| ChatPage.FramesOnlyAppend | frontend/src/pages/Chat.tsx:70-79 | a frame only ever appends to the message list and changes nothing else |
| ChatPage.ChatView.constructor | frontend/src/pages/Chat.tsx:26-31 | no user, no conversations, no peer, no messages, empty input, no socket |
| ChatPage.ChatView.SetCurrentUser | frontend/src/pages/Chat.tsx:35-45 | only the user changes |
| ChatPage.ChatView.SetConversations | frontend/src/pages/Chat.tsx:48-58 | only the conversation list changes |
| ChatPage.ChatView.SelectConversation | frontend/src/pages/Chat.tsx:150 | only the open peer changes |
| ChatPage.ChatView.AttachSocket | frontend/src/pages/Chat.tsx:61-85 | only the socket changes |
| ChatPage.ChatView.LoadHistory | frontend/src/pages/Chat.tsx:93-105 | only the message list changes, to the history |
| ChatPage.ChatView.OnFrame | frontend/src/pages/Chat.tsx:70-79 | the new state is the frame step of the old one |
| ChatPage.ChatView.TypeMessage | frontend/src/pages/Chat.tsx:221 | only the input changes |
| ChatPage.ChatView.HandleSendMessage | frontend/src/pages/Chat.tsx:112-134 | the new state is the send step of the old one, given whether `send` throws |
| ChatPage.SelfMessageShowsTwice | frontend/src/pages/Chat.tsx:75-132 | a message to oneself shows twice: the optimistic copy and the relayed one |
| ClassDiscussion.AttachAnswer | frontend/src/pages/ClassDiscussion.tsx:104-109 | the list keeps its length; each question whose id is the answer's question id gets the answer appended to its answers, every other question is unchanged |
| ClassDiscussion.NewQuestionPrepends | frontend/src/pages/ClassDiscussion.tsx:101-102 | a `new_question` frame puts its question first and keeps the old list after it |
| ClassDiscussion.NewAnswerAttaches | frontend/src/pages/ClassDiscussion.tsx:103-109 | a `new_answer` frame keeps the length, changes nothing but answers, appends the answer to the matching questions and leaves the rest as they were |
| ClassDiscussion.NewAnswerForUnknownQuestion | frontend/src/pages/ClassDiscussion.tsx:103-109 | an answer to a question not on the list leaves the list unchanged |
| ClassDiscussion.OtherFramesIgnored | frontend/src/pages/ClassDiscussion.tsx:100-111 | frames of any other type leave the list unchanged |
| ClassDiscussion.ClassIdField | frontend/src/pages/ClassDiscussion.tsx:120 | a missing or empty route id is sent as class 0 |
| ClassDiscussion.ClassIdFieldOfNumber | frontend/src/pages/ClassDiscussion.tsx:120 | a route id written in decimal is sent as that number |
| ClassDiscussion.DiscussionSocketUrl | frontend/src/pages/ClassDiscussion.tsx:77-81 | the scheme is `wss://` on an https page and `ws://` otherwise |
| ClassDiscussion.QuestionRequest | frontend/src/pages/ClassDiscussion.tsx:113-121 | nothing is posted exactly when the trimmed input is empty; otherwise the untrimmed input and the class id field are posted |
| ClassDiscussion.QuestionRequestBlank | frontend/src/pages/ClassDiscussion.tsx:115 | nothing is posted exactly when the input is all white space |
| ClassDiscussion.AnswerRequest | frontend/src/pages/ClassDiscussion.tsx:128-136 | nothing is posted exactly when the question has no reply text or its trimmed text is empty; otherwise the untrimmed text and the question id are posted |
| ClassDiscussion.AnswerRequestBlank | frontend/src/pages/ClassDiscussion.tsx:130 | nothing is posted exactly when the reply is missing or all white space |
| ClassDiscussion.DiscussionPage.constructor | frontend/src/pages/ClassDiscussion.tsx:36-42 | no questions, empty inputs, nothing posted, the given route id |
| ClassDiscussion.DiscussionPage.LoadQuestions | frontend/src/pages/ClassDiscussion.tsx:65-74 | only the question list changes, to the fetched one |
| ClassDiscussion.DiscussionPage.OnMessage | frontend/src/pages/ClassDiscussion.tsx:89-111 | the question list becomes the frame step of the old one; nothing else changes |
| ClassDiscussion.DiscussionPage.TypeQuestion | frontend/src/pages/ClassDiscussion.tsx:165 | only the question input changes |
| ClassDiscussion.DiscussionPage.TypeReply | frontend/src/pages/ClassDiscussion.tsx:209 | only the reply for that question changes |
| ClassDiscussion.DiscussionPage.HandlePostQuestion | frontend/src/pages/ClassDiscussion.tsx:113-126 | the request, if any, is appended to the posts; the input is cleared only when a post was made and succeeded |
| ClassDiscussion.DiscussionPage.HandlePostAnswer | frontend/src/pages/ClassDiscussion.tsx:128-141 | the request, if any, is appended to the posts; that question's reply is cleared only when a post was made and succeeded |
| AdminDashboard.FilteredUsers | frontend/src/pages/AdminDashboard.tsx:126-129 | a user is shown exactly when they are on the list and the lower-cased term occurs in their lower-cased name or email; the list never grows |
| AdminDashboard.EmptyTermShowsAll | frontend/src/pages/AdminDashboard.tsx:126-129 | an empty search shows every user in list order |
| AdminDashboard.AllMatchingKept | frontend/src/pages/AdminDashboard.tsx:126-129 | a list whose every user matches is shown whole, in order |
| AdminDashboard.FilterIdempotent | frontend/src/pages/AdminDashboard.tsx:126-129 | filtering twice by one term is filtering once |
| AdminDashboard.RoleBadge | frontend/src/pages/AdminDashboard.tsx:131-135 | `destructive` exactly for admin, `default` exactly for teacher, `secondary` for every other string |
| AdminDashboard.RoleLabel | frontend/src/pages/AdminDashboard.tsx:137-141 | the admin label exactly for admin, the teacher label exactly for teacher, the student label for every other string |
| AdminDashboard.StatusLabel | frontend/src/pages/AdminDashboard.tsx:143-145 | `Hoạt động` exactly when active, `Tạm ngưng` exactly when not |
| AdminDashboard.InputChange | frontend/src/pages/AdminDashboard.tsx:49-55 | the named field takes the typed value and nothing else changes; the activity field becomes whether the value is `true` |
| AdminDashboard.IsActiveOnlyFromTrue | frontend/src/pages/AdminDashboard.tsx:53 | only the exact string `true` makes the user active; `True` does not |
| AdminDashboard.PayloadOf | frontend/src/pages/AdminDashboard.tsx:112-113 | the update body has no password exactly when the form's password is empty, and otherwise carries every form field as typed |
| AdminDashboard.EditKeepsPassword | frontend/src/pages/AdminDashboard.tsx:112-115 | saving an edit with no password typed keeps the stored hash and writes the form's activity flag |
| AdminDashboard.Reset | frontend/src/pages/AdminDashboard.tsx:57-66 | the form goes back to its defaults and no user is picked |
| AdminDashboard.EditClick | frontend/src/pages/AdminDashboard.tsx:82-92 | the form takes the user's fields with an empty password, the user is picked, the edit dialog opens; the list and the requests stay |
| AdminDashboard.Update | frontend/src/pages/AdminDashboard.tsx:107-124 | with no picked id (or id 0) nothing happens; otherwise a PUT of the payload to that id is sent; on success the dialog closes and the form resets, on failure only the request is recorded |
| AdminDashboard.Add | frontend/src/pages/AdminDashboard.tsx:68-80 | a POST of the form is always sent; on success the dialog closes and the form resets, on failure only the request is recorded |
| AdminDashboard.Delete | frontend/src/pages/AdminDashboard.tsx:94-105 | without confirmation nothing happens; with it a DELETE of that id is sent and nothing else changes |
| AdminDashboard.EditThenSaveSendsUser | frontend/src/pages/AdminDashboard.tsx:82-124 | editing a user with a nonzero id and saving at once sends a PUT to that id with the user's own fields and no password |
| AdminDashboard.AdminPage.constructor | frontend/src/pages/AdminDashboard.tsx:20-32 | no users, empty search, both dialogs closed, no pick, the default form, no requests |
| AdminDashboard.AdminPage.SetUsers | frontend/src/pages/AdminDashboard.tsx:38-47 | only the user list changes, to the fetched one |
| AdminDashboard.AdminPage.SetSearchTerm | frontend/src/pages/AdminDashboard.tsx:259 | only the search term changes |
| AdminDashboard.AdminPage.OpenAdd | frontend/src/pages/AdminDashboard.tsx:154 | the form resets and the add dialog opens |
| AdminDashboard.AdminPage.ResetForm | frontend/src/pages/AdminDashboard.tsx:57-66 | the new state is the reset of the old one |
| AdminDashboard.AdminPage.HandleEditClick | frontend/src/pages/AdminDashboard.tsx:82-92 | the new state is the edit-click step of the old one |
| AdminDashboard.AdminPage.HandleInputChange | frontend/src/pages/AdminDashboard.tsx:49-55 | only the form changes, by the input-change step |
| AdminDashboard.AdminPage.HandleUpdateUser | frontend/src/pages/AdminDashboard.tsx:107-124 | the new state is the update step of the old one |
| AdminDashboard.AdminPage.HandleAddUser | frontend/src/pages/AdminDashboard.tsx:68-80 | the new state is the add step of the old one |
| AdminDashboard.AdminPage.HandleDeleteUser | frontend/src/pages/AdminDashboard.tsx:94-105 | the new state is the delete step of the old one |
| AdminDashboard.AdminPage.Shown | frontend/src/pages/AdminDashboard.tsx:126-129 | the table shows the filter of the fetched users by the current term |
| AssignmentDetail.FindOwn | frontend/src/pages/AssignmentDetail.tsx:71-73 | nothing is found exactly when no record is for the assignment; otherwise the first record for it |
| AssignmentDetail.FileName | frontend/src/pages/AssignmentDetail.tsx:80 | the name has no slash and ends the URL; a URL without a slash is its own name |
| AssignmentDetail.FileNameOfPath | frontend/src/pages/AssignmentDetail.tsx:80 | the name of `dir/name` is `name` |
| AssignmentDetail.EntriesOf | frontend/src/pages/AssignmentDetail.tsx:78-83 | one entry per URL, in order, each named by its last segment |
| AssignmentDetail.UrlsOf | frontend/src/pages/AssignmentDetail.tsx:150 | the URLs of the entries, in order |
| AssignmentDetail.UrlsOfEntries | frontend/src/pages/AssignmentDetail.tsx:78-83 | loading URLs into entries and reading them back gives the same URLs |
| AssignmentDetail.NewFiles | frontend/src/pages/AssignmentDetail.tsx:99-113 | the batch succeeds exactly when every upload returned a URL; then one entry per file, in order, with the file's name and its URL |
| AssignmentDetail.RemoveUrl | frontend/src/pages/AssignmentDetail.tsx:132 | an entry is kept exactly when it was there and its URL differs; the list never grows |
| AssignmentDetail.RemoveUrlConcat | frontend/src/pages/AssignmentDetail.tsx:132 | the filter keeps the remaining entries in their order: filtering two lists one after the other is filtering each, in that order |
| AssignmentDetail.RemoveUrlKeepsOthers | frontend/src/pages/AssignmentDetail.tsx:132 | removing a URL that no entry has changes nothing, and removing twice is removing once |
| AssignmentDetail.NothingToRemove | frontend/src/pages/AssignmentDetail.tsx:132 | a list with no entry for the URL is unchanged |
| AssignmentDetail.PageRole | frontend/src/pages/AssignmentDetail.tsx:48 | a missing or empty stored role reads as student; any other stored role is used as given |
| AssignmentDetail.AsSubmissionCreate | frontend/src/pages/AssignmentDetail.tsx:147-151 | the backend gets the assignment id, the content and the URL list unchanged |
| AssignmentDetail.Loaded | frontend/src/pages/AssignmentDetail.tsx:67-85 | with no record for the assignment nothing changes; otherwise the record is kept, the content is its content or empty, the file URLs are its URLs or none, and the requests stay |
| AssignmentDetail.Selected | frontend/src/pages/AssignmentDetail.tsx:93-124 | an empty selection or a failed upload changes nothing; otherwise the new entries are appended after the old ones, in order, and nothing else changes |
| AssignmentDetail.Deleted | frontend/src/pages/AssignmentDetail.tsx:126-137 | a DELETE of the URL is always sent, in the corrected query-string form; the entry is removed only when it succeeded; content and record stay |
| AssignmentDetail.DeleteRequestAsWritten | frontend/src/pages/AssignmentDetail.tsx:129 | `{ data: { file_url } }` carries the URL in the body only, so the backend binds no `file_url` |
| AssignmentDetail.DeleteRequest | frontend/src/pages/AssignmentDetail.tsx:129 | the corrected `{ params: { file_url } }` binds `file_url` to the URL |
| AssignmentDetail.AsWrittenDeleteNeverRemoves | frontend/src/pages/AssignmentDetail.tsx:126-137 | as written every delete is answered 422, so the `catch` branch runs and the file list never changes |
| AssignmentDetail.DeleteRemovesWhenFileExists | frontend/src/pages/AssignmentDetail.tsx:126-137 | with the corrected request the delete succeeds exactly when the file exists, and then every entry with that URL is removed; otherwise the list is unchanged |
| AssignmentDetail.TurnedIn | frontend/src/pages/AssignmentDetail.tsx:139-151 | with no files and empty content nothing is sent; otherwise a POST of the assignment id, the content and the file URLs is recorded |
| AssignmentDetail.BlankContentTurnsIn | frontend/src/pages/AssignmentDetail.tsx:140 | content of one space is handed in |
| AssignmentDetail.ReloadThenTurnInResendsFiles | frontend/src/pages/AssignmentDetail.tsx:67-151 | after loading a record with files, turning in again sends exactly those URLs to the backend |
| AssignmentDetail.DetailPage.constructor | frontend/src/pages/AssignmentDetail.tsx:33-46 | the route id, no record, empty content, no files, no requests |
| AssignmentDetail.DetailPage.FetchOwn | frontend/src/pages/AssignmentDetail.tsx:53-91 | the new state is the load step of the old one |
| AssignmentDetail.DetailPage.SetContent | frontend/src/pages/AssignmentDetail.tsx:376 | only the content changes |
| AssignmentDetail.DetailPage.HandleFileSelect | frontend/src/pages/AssignmentDetail.tsx:93-124 | the new state is the select step of the old one |
| AssignmentDetail.DetailPage.HandleFileDelete | frontend/src/pages/AssignmentDetail.tsx:126-137 | the new state is the delete step of the old one |
| AssignmentDetail.DetailPage.HandleTurnIn | frontend/src/pages/AssignmentDetail.tsx:139-160 | the new state is the turn-in step of the old one |

## Left out

- **Transport:**
  - Real WebSocket objects and `await` scheduling are not modelled.
  - JSON encoding and decoding are not modelled: frames are datatypes.
  - A client frame that is not JSON ends the chat session without unregistering it (`clientClosed = false`).
- **React effects:** their timing, their re-render closures and the cleanup on unmount are not modelled. Each effect or callback is a method the caller invokes.
- **Behaviour the code does not have:** there is no reconnection, backoff, timeout, rollback of an optimistic send, or deduplication of a provisional message against its relayed copy. None of these is modelled.
- **Broadcast send failure:** a socket whose `send_text` raises in the middle of a broadcast is not modelled. Every send is assumed to land.
- The WebSocket endpoint of `backend/main.py` is not part of this model. Its calls to the manager do not match the manager's signatures.
- **The database:**
  - SQLAlchemy sessions, joins and eager loading are replaced by in-memory rows.
  - Foreign keys are checked where the endpoints write them: `question.class_id` in CreateQuestion, `answer.question_id` in CreateAnswer, `class.teacher_id` in UpdateClass and `submission.student_id` in DeleteUser. A failure is a 500 with nothing changed. Ids held by another store are given as parameters (`classIds`, `userIds`, `hasSubmissions`).
  - UsersEndpoint.UserStore.DeleteUser: the ORM also NULLs the deleted user's `class.teacher_id`, `question.student_id` and `answer.teacher_id` and drops their `student_class` rows; those rows live in other stores and are not updated here. The `message` table's keys are not part of this model.
  - Where the source runs a query with no `ORDER BY`, rows are in table order. The order some other database would choose is not modelled.
  - Ties among messages with equal timestamps keep table order, which is one order the database may choose.
  - Negative `skip` and `limit` are not modelled; both are `nat`.
- **Authentication** (decoding the token in `backend/app/api/deps.py`) is not part of this model. The caller arrives as a row.
- **Password hashing** is a symbolic digest of the password, not a real hash.
- **The clock:** time is a `nat`. The ISO rendering of a timestamp is a stand-in: the decimal of the time, which is injective, like the real format.
- **Randomness:** `random.choices` is an oracle, a sequence of draws. The retry loop is kept; its termination needs one of the draws to be a fresh code.
- **The email check** (zod `email()` and pydantic `EmailStr`) is a parameter.
- **Text:**
  - `toLowerCase` is ASCII-only.
  - Lengths count characters, not UTF-16 code units.
  - White space for `trim` is a fixed set: ASCII white space, no-break space, the byte-order mark and the line and paragraph separators. It is not the full Unicode `Zs` class.
- **`parseInt`:** hex prefixes are not modelled. With no radix, JavaScript reads `0x1A` as hex (26), where the model reads the digit `0` and stops at `x`, giving 0. The sign of a negative zero (`-0`) is not kept.
- **Floating point:**
  - A grade is a Dafny `real`.
  - The `parseFloat` of a typed grade (frontend/src/pages/AssignmentDetail.tsx:167), `handleGradeSubmit` and the teacher view of the assignment page are not modelled.
  - The grade averages of `grades.py` are not modelled.
- **File system:** writes, existence checks, `unlink` and the `os.walk` listing are oracles, given as parameters. Symlinks are not modelled. The static mount of `backend/main.py:23` is not part of this model.
- `upload_submission_file` (backend/app/api/api_v1/endpoints/submissions.py:116-131) is not modelled: it is file I/O only. Of `delete_submission_file` only the binding of `file_url` and the 404 are modelled; the file system is an oracle.
- ClassesEndpoint.ClassStore.CreateClass models the role guard and the code loop only. The construction line of `create_class` (backend/app/api/api_v1/endpoints/classes.py:41-45) always raises a `TypeError` for a duplicate `teacher_id` keyword, so no row is ever stored.
- ClassesEndpoint.ClassStore.DeleteClass: the class's `student_class` rows are removed, as the ORM does. The ORM also sets `question.class_id` and `assignment.class_id` of that class to NULL through the `questions` and `assignments` backrefs; questions live in QaServer and assignments are not part of this model, so this is not modelled. So in the source a read of the deleted class's questions then returns `[]`, while in the model QaServer still lists them under the old class id.
- AdminDashboard.AsUserUpdate: a role text other than the three names becomes no role change, where the backend would reject the request with 422; the form only offers the three names.
- **Unchecked by the source:** `join_class` checks no role, and `read_questions` checks no authentication. Neither is added here.
- **Ignored fields:** `class_code` in a class update is ignored, as in the source.
- **Email clash on update:** an update to an email another user holds fails on the unique column (backend/app/models/user.py:14). The model gives it as a 500 and leaves the rows unchanged. The error's text is not modelled.
- `read_user_me` only returns the caller and is not modelled.
- The `is_read` default of a new message comes from `backend/app/models/message.py`, which is not part of this model; it is taken as false.
- FilesEndpoint.DeleteFile uses the corrected containment check (see Findings). The as-written check is modelled beside it.
- AssignmentDetail.Deleted and AssignmentDetail.DetailPage.HandleFileDelete record the corrected query-string request (see Findings). As written, every delete is answered 422 and the list never changes (AsWrittenDeleteNeverRemoves).
- **Route ids** in the pages are taken as already parsed. There is no loading flag and no toast.
- **Refetch after success:** the refetch that follows a successful request is left to the caller, as a fresh load call.
- **Avatar upload names:** the upload time used in file names is a parameter.

## Findings

| source | as written | input that shows it | evidently intended | confidence | as-written member | corrected member |
|---|---|---|---|---|---|---|
| backend/app/api/api_v1/endpoints/files.py:86-89 | containment is checked with `relative_to("static")` on the unresolved path, which only compares leading components | the path `static/../<name>`, which resolves to `<name>` outside `static` but passes the check | refuse to delete any path that resolves outside `static` | not executed | FilesEndpoint.TraversalPassesCheck | FilesEndpoint.UnderStaticStaysInside |
| frontend/src/pages/AssignmentDetail.tsx:129 | `handleFileDelete` sends the URL as a JSON body field (`data`), but `delete_submission_file` (backend/app/api/api_v1/endpoints/submissions.py:133-137) takes `file_url` as a plain `str` parameter, which FastAPI binds from the query string | deleting any uploaded file, e.g. `/static/submissions/a.pdf`: the request carries no `file_url` query parameter, the backend answers 422, and the entry stays in the list | send the URL as a query parameter (`params`), so the file is removed when it exists | not executed | AssignmentDetail.AsWrittenDeleteNeverRemoves | AssignmentDetail.DeleteRemovesWhenFileExists |
