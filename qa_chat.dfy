/** The Q&A chat panel (`QAChat`): a log of entries built from the class's
    question history and then extended by the frames of the shared Q&A
    socket. */
module QaChat {
  import opened Common
  import opened Text
  import opened Wire

  /** One line of the panel: `{id, content, senderName, senderRole, timestamp}`. */
  datatype Entry = Entry(id: int, content: string, senderName: string, senderRole: string, timestamp: string)

  /** `user?.full_name || 'Unknown'`: an absent author or an absent or empty
      name shows as "Unknown". */
  function SenderName(u: Option<User>): (n: string)
    ensures n != ""
    ensures u.Some? && u.value.fullName.Some? && u.value.fullName.value != "" ==> n == u.value.fullName.value
  {
    if u.Some? && u.value.fullName.Some? && u.value.fullName.value != "" then u.value.fullName.value else "Unknown"
  }

  /** `user?.role || fallback`: a role's name is never empty, so the fallback
      is used exactly when there is no author. */
  function SenderRole(u: Option<User>, fallback: string): (r: string)
    ensures u.Some? ==> r == RoleName(u.value.role)
    ensures u.None? ==> r == fallback
  {
    if u.Some? then RoleName(u.value.role) else fallback
  }

  /** One question of the history, lines 28-34. */
  function FromHistory(q: Question): Entry
  {
    Entry(q.id, q.content, SenderName(q.student), SenderRole(q.student, "student"), q.timestamp)
  }

  /** The history transform: one entry per question, in the order received. */
  function HistoryLog(qs: seq<Question>): (r: seq<Entry>)
    ensures |r| == |qs|
    ensures forall i :: 0 <= i < |qs| ==> r[i] == FromHistory(qs[i])
  {
    if qs == [] then [] else [FromHistory(qs[0])] + HistoryLog(qs[1..])
  }

  /** The socket handler, lines 44-55: a question frame is written by its
      student, an answer frame by its teacher; other frames give no entry. */
  function FromFrame(f: Frame): (e: Option<Entry>)
    ensures e.Some? <==> f.NewQuestion? || f.NewAnswer?
    ensures f.NewQuestion? ==>
      && e.value.id == f.question.id && e.value.content == f.question.content
      && e.value.timestamp == f.question.timestamp
      && e.value.senderName == SenderName(f.question.student)
      && e.value.senderRole == (if f.question.student.Some? then RoleName(f.question.student.value.role) else "student")
    ensures f.NewAnswer? ==>
      && e.value.id == f.answer.id && e.value.content == f.answer.content
      && e.value.timestamp == f.answer.timestamp
      && e.value.senderName == SenderName(f.answer.teacher)
      && e.value.senderRole == (if f.answer.teacher.Some? then RoleName(f.answer.teacher.value.role) else "teacher")
  {
    match f
    case NewQuestion(q) => Some(Entry(q.id, q.content, SenderName(q.student), SenderRole(q.student, "student"), q.timestamp))
    case NewAnswer(a) => Some(Entry(a.id, a.content, SenderName(a.teacher), SenderRole(a.teacher, "teacher"), a.timestamp))
    case _ => None
  }

  /** The log after one frame. */
  function Receive(log: seq<Entry>, f: Frame): seq<Entry>
  {
    match FromFrame(f)
    case Some(e) => log + [e]
    case None => log
  }

  /** The log after a run of frames, in arrival order. */
  function ReceiveAll(log: seq<Entry>, fs: seq<Frame>): seq<Entry>
    decreases |fs|
  {
    if fs == [] then log else ReceiveAll(Receive(log, fs[0]), fs[1..])
  }

  /** The entries a run of frames contributes, in arrival order. */
  function LiveEntries(fs: seq<Frame>): seq<Entry>
    decreases |fs|
  {
    if fs == [] then [] else Contribution(fs[0]) + LiveEntries(fs[1..])
  }

  function Contribution(f: Frame): seq<Entry>
  {
    if FromFrame(f).Some? then [FromFrame(f).value] else []
  }

  lemma ReceiveIsAppend(log: seq<Entry>, f: Frame)
    ensures Receive(log, f) == log + Contribution(f)
  {
    if FromFrame(f).None? {
      assert log + [] == log;
    }
  }

  /** Frames only append: the log after a run of frames is the log before it
      followed by one entry per question or answer frame, in arrival order. */
  lemma {:induction false} ReceiveAllAppends(log: seq<Entry>, fs: seq<Frame>)
    ensures ReceiveAll(log, fs) == log + LiveEntries(fs)
    decreases |fs|
  {
    if fs == [] {
      assert log + [] == log;
    } else {
      ReceiveIsAppend(log, fs[0]);
      ReceiveAllAppends(log + Contribution(fs[0]), fs[1..]);
      assert log + Contribution(fs[0]) + LiveEntries(fs[1..]) == log + (Contribution(fs[0]) + LiveEntries(fs[1..]));
    }
  }

  /** The contribution of two runs of frames is the first run's followed by
      the second's. */
  lemma {:induction false} LiveEntriesConcat(a: seq<Frame>, b: seq<Frame>)
    ensures LiveEntries(a + b) == LiveEntries(a) + LiveEntries(b)
    decreases |a|
  {
    if a == [] {
      assert a + b == b;
    } else {
      assert (a + b)[1..] == a[1..] + b;
      LiveEntriesConcat(a[1..], b);
    }
  }

  /** A frame that is neither a question nor an answer contributes nothing. */
  lemma {:induction false} OnlyQaFramesContribute(fs: seq<Frame>)
    requires forall i :: 0 <= i < |fs| ==> !fs[i].NewQuestion? && !fs[i].NewAnswer?
    ensures LiveEntries(fs) == []
    decreases |fs|
  {
    if fs != [] {
      OnlyQaFramesContribute(fs[1..]);
    }
  }

  /** The component state that the handlers touch. */
  class QaChatPanel {
    const classId: int
    var messages: seq<Entry>
    var newMessage: string
    /** `{content, class_id}` bodies posted to the questions endpoint */
    var posts: seq<(string, int)>

    constructor (classId: int)
      ensures this.classId == classId && messages == [] && newMessage == "" && posts == []
    {
      this.classId := classId;
      messages, newMessage, posts := [], "", [];
    }

    /** `fetchMessages`: the history replaces the log, so frames that arrived
        before the history response are dropped. */
    method LoadHistory(history: seq<Question>)
      modifies this
      ensures messages == HistoryLog(history)
      ensures newMessage == old(newMessage) && posts == old(posts)
    {
      messages := HistoryLog(history);
    }

    method OnFrame(f: Frame)
      modifies this
      ensures messages == Receive(old(messages), f)
      ensures newMessage == old(newMessage) && posts == old(posts)
    {
      var e := FromFrame(f);
      if e.Some? {
        messages := messages + [e.value];
      }
    }

    method TypeMessage(text: string)
      modifies this
      ensures newMessage == text && messages == old(messages) && posts == old(posts)
    {
      newMessage := text;
    }

    /** `handleSend`, lines 61-71: teachers and students alike post a
        question; the input is cleared once the request succeeded, and the
        log waits for the broadcast. */
    method HandleSend(succeeded: bool)
      modifies this
      ensures IsBlank(old(newMessage)) ==> posts == old(posts) && newMessage == old(newMessage)
      ensures !IsBlank(old(newMessage)) ==>
        && posts == old(posts) + [(old(newMessage), classId)]
        && newMessage == (if succeeded then "" else old(newMessage))
      ensures messages == old(messages)
    {
      TrimEmptyIffBlank(newMessage);
      if Trim(newMessage) != [] {
        posts := posts + [(newMessage, classId)];
        if succeeded {
          newMessage := "";
        }
      }
    }
  }

  /** A panel whose history arrived before any frame shows the history,
      then the live questions and answers in arrival order. */
  lemma HistoryThenFrames(history: seq<Question>, fs: seq<Frame>)
    ensures ReceiveAll(HistoryLog(history), fs) == HistoryLog(history) + LiveEntries(fs)
  {
    ReceiveAllAppends(HistoryLog(history), fs);
  }
}
