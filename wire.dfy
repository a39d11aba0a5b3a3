/** The records that cross the REST and WebSocket boundaries, after the
    response schemas of backend/app/schemas (qa.py, message.py, user.py), and
    the decoded form of a WebSocket frame. */
module Wire {
  import opened Common
  import opened Text

  /** A WebSocket is modelled by an opaque identity. */
  type SocketId = nat

  /** `schemas.User`: the public view of a user row. */
  datatype User = User(
    id: int,
    email: string,
    fullName: Option<string>,
    role: Role,
    isActive: Option<bool>,
    avatarUrl: Option<string>)

  /** The public view of every user row, by id. */
  type Directory = map<int, User>

  /** A relationship to a user row, loaded: absent when no row has the id. */
  function Lookup(dir: Directory, id: int): (u: Option<User>)
    ensures u.Some? <==> id in dir
    ensures u.Some? ==> u.value == dir[id]
  {
    if id in dir then Some(dir[id]) else None
  }

  /** `schemas.Answer` as serialised: its `teacher` is the author, if loaded. */
  datatype Answer = Answer(
    id: int,
    content: string,
    questionId: int,
    timestamp: string,
    teacher: Option<User>)

  /** `schemas.Question` as serialised, with its answers in order. */
  datatype Question = Question(
    id: int,
    content: string,
    classId: int,
    timestamp: string,
    student: Option<User>,
    answers: seq<Answer>)

  /** `schemas.Message`: one direct message. */
  datatype DirectMessage = DirectMessage(
    id: int,
    senderId: int,
    receiverId: int,
    content: string,
    timestamp: string,
    isRead: bool)

  /** A JSON frame `{"type": ..., ...}` after decoding. The Q&A frames carry
      their record under `data`, the direct-message frame under `message`;
      any other `type` is kept only by its name. */
  datatype Frame =
    | NewQuestion(question: Question)
    | NewAnswer(answer: Answer)
    | NewMessage(message: DirectMessage)
    | Other(kind: string)

  function Kind(f: Frame): (k: string)
  {
    match f
    case NewQuestion(_) => "new_question"
    case NewAnswer(_) => "new_answer"
    case NewMessage(_) => "new_message"
    case Other(k) => k
  }

  /** A frame's `type` decides its shape: an `Other` frame never carries one
      of the three known names. */
  predicate WellFormed(f: Frame)
  {
    f.Other? ==> f.kind != "new_question" && f.kind != "new_answer" && f.kind != "new_message"
  }

  lemma KindDeterminesShape(f: Frame)
    requires WellFormed(f)
    ensures Kind(f) == "new_question" <==> f.NewQuestion?
    ensures Kind(f) == "new_answer" <==> f.NewAnswer?
    ensures Kind(f) == "new_message" <==> f.NewMessage?
  {
  }

  /** Stand-in for `datetime.isoformat()`: database times are natural numbers
      and their rendering is a fixed function of the time. */
  function IsoFormat(t: nat): (s: string)
    ensures |s| >= 1
  {
    NatToString(t)
  }

  /** Distinct times render differently. */
  lemma IsoFormatInjective(t1: nat, t2: nat)
    requires IsoFormat(t1) == IsoFormat(t2)
    ensures t1 == t2
  {
    DigitsValueOfNat(t1);
    DigitsValueOfNat(t2);
  }
}
