/** The Q&A endpoints (backend/app/api/api_v1/endpoints/qa.py): reading a
    class's questions, posting a question or an answer with its broadcast to
    the class's sockets, and the class socket session. The `question` and
    `answer` tables are sequences in insertion order. */
module QaEndpoint {
  import opened Common
  import opened Text
  import opened Wire
  import opened SocketManager

  datatype QuestionRow = QuestionRow(id: int, content: string, timestamp: nat, studentId: int, classId: int)
  datatype AnswerRow = AnswerRow(id: int, content: string, timestamp: nat, teacherId: int, questionId: int)

  /** `schemas.Answer` of a row, its teacher loaded from the user table. */
  function AnswerView(dir: Directory, a: AnswerRow): (r: Answer)
    ensures r.id == a.id && r.content == a.content && r.questionId == a.questionId
    ensures r.timestamp == IsoFormat(a.timestamp) && r.teacher == Lookup(dir, a.teacherId)
  {
    Answer(a.id, a.content, a.questionId, IsoFormat(a.timestamp), Lookup(dir, a.teacherId))
  }

  /** The answers of question `qid`, in table order. */
  function AnswersOf(answers: seq<AnswerRow>, qid: int): (r: seq<AnswerRow>)
    ensures forall a :: a in r <==> a in answers && a.questionId == qid
  {
    if answers == [] then []
    else (if answers[0].questionId == qid then [answers[0]] else []) + AnswersOf(answers[1..], qid)
  }

  function AnswerViews(dir: Directory, s: seq<AnswerRow>): (r: seq<Answer>)
    ensures |r| == |s|
    ensures forall i :: 0 <= i < |s| ==> r[i] == AnswerView(dir, s[i])
  {
    if s == [] then [] else [AnswerView(dir, s[0])] + AnswerViews(dir, s[1..])
  }

  /** `schemas.Question` of a row: student and answers loaded. */
  function QuestionView(dir: Directory, answers: seq<AnswerRow>, q: QuestionRow): (r: Question)
    ensures r.id == q.id && r.content == q.content && r.classId == q.classId
    ensures r.timestamp == IsoFormat(q.timestamp) && r.student == Lookup(dir, q.studentId)
    ensures |r.answers| == |AnswersOf(answers, q.id)|
    ensures forall a :: a in r.answers ==> a.questionId == q.id
  {
    var own := AnswersOf(answers, q.id);
    var views := AnswerViews(dir, own);
    assert forall i :: 0 <= i < |views| ==> views[i].questionId == own[i].questionId && own[i] in own;
    Question(q.id, q.content, q.classId, IsoFormat(q.timestamp), Lookup(dir, q.studentId), views)
  }

  function InClass(questions: seq<QuestionRow>, classId: int): (r: seq<QuestionRow>)
    ensures forall q :: q in r <==> q in questions && q.classId == classId
    ensures |r| <= |questions|
  {
    if questions == [] then []
    else (if questions[0].classId == classId then [questions[0]] else []) + InClass(questions[1..], classId)
  }

  /** `read_questions`, lines 13-21: a page of the class's questions in table
      order; it asks for no signed-in user. */
  function ReadQuestions(dir: Directory, questions: seq<QuestionRow>, answers: seq<AnswerRow>,
                         classId: int, skip: nat, limit: nat): (r: seq<Question>)
    ensures |r| <= limit
    ensures var page := Page(InClass(questions, classId), skip, limit);
      |r| == |page| && forall i :: 0 <= i < |r| ==> r[i] == QuestionView(dir, answers, page[i])
    ensures forall i :: 0 <= i < |r| ==> r[i].classId == classId
    ensures forall i :: 0 <= i < |r| ==> exists q :: q in questions && q.classId == classId && r[i] == QuestionView(dir, answers, q)
  {
    var page := Page(InClass(questions, classId), skip, limit);
    assert forall i :: 0 <= i < |page| ==> page[i] in InClass(questions, classId) && page[i] in questions;
    seq(|page|, i requires 0 <= i < |page| => QuestionView(dir, answers, page[i]))
  }

  /** Every stored question id lies below `next`, the id the next insert
      takes. */
  predicate IdsBelow(questions: seq<QuestionRow>, next: int)
  {
    forall i :: 0 <= i < |questions| ==> questions[i].id < next
  }

  /** The foreign key `answer.question_id` (backend/app/models/qa.py:22):
      every answer names a stored question. */
  predicate Referenced(questions: seq<QuestionRow>, answers: seq<AnswerRow>)
  {
    forall i :: 0 <= i < |answers| ==> FirstWithId(questions, answers[i].questionId).Some?
  }

  /** The server side of the Q&A endpoints. */
  class QaServer {
    var questions: seq<QuestionRow>
    var answers: seq<AnswerRow>
    var nextQuestionId: nat
    var nextAnswerId: nat
    const manager: ConnectionManager

    ghost predicate Valid()
      reads this
    {
      IdsBelow(questions, nextQuestionId) && Referenced(questions, answers)
    }

    constructor (manager: ConnectionManager)
      ensures Valid()
      ensures this.manager == manager && questions == [] && answers == []
      ensures nextQuestionId == 1 && nextAnswerId == 1
    {
      this.manager := manager;
      questions, answers := [], [];
      nextQuestionId, nextAnswerId := 1, 1;
    }

    /** `create_question`, lines 24-54, by `caller` at database time `at`.
        `classIds` are the ids the `class` table holds (that table is kept by
        the class endpoints). Any role may post (the student check is
        commented out). A `class_id` naming no class fails the commit at
        line 40 on the foreign key of backend/app/models/qa.py:11, a 500 with
        nothing stored or sent. Otherwise the new question is stored, and
        every socket of its class receives it with its student and no
        answers. */
    method CreateQuestion(caller: User, content: string, classId: int, at: nat, classIds: set<int>)
      returns (r: ApiResult<Question>)
      requires Valid()
      modifies this, manager
      ensures Valid()
      ensures answers == old(answers) && nextAnswerId == old(nextAnswerId)
      ensures manager.activeConnections == old(manager.activeConnections)
      ensures manager.userConnections == old(manager.userConnections)
      ensures classId !in classIds ==>
        && r == Err(500)
        && questions == old(questions) && nextQuestionId == old(nextQuestionId)
        && manager.sent == old(manager.sent)
      ensures classId in classIds ==>
        && questions == old(questions) + [QuestionRow(old(nextQuestionId), content, at, caller.id, classId)]
        && nextQuestionId == old(nextQuestionId) + 1
        && r == Ok(Question(old(nextQuestionId), content, classId, IsoFormat(at), Some(caller), []))
        && manager.sent == old(manager.sent) + BroadcastDeliveries(old(manager.activeConnections), NewQuestion(r.value), classId)
    {
      if classId !in classIds {
        return Err(500);
      }
      var row := QuestionRow(nextQuestionId, content, at, caller.id, classId);
      FirstWithIdAppend(questions, row);
      questions := questions + [row];
      nextQuestionId := nextQuestionId + 1;
      var q := Question(row.id, content, classId, IsoFormat(at), Some(caller), []);
      manager.Broadcast(NewQuestion(q), classId);
      r := Ok(q);
    }

    /** `create_answer`, lines 56-84. Only a teacher may answer (403). A
        `question_id` naming no question fails the commit at line 71 on the
        foreign key of backend/app/models/qa.py:22, a 500 with nothing stored
        or sent. Otherwise the answer is stored and returned, and the lookup
        of line 75 finds its question, so the answer is broadcast to that
        question's class. */
    method CreateAnswer(caller: User, content: string, questionId: int, at: nat) returns (r: ApiResult<Answer>)
      requires Valid()
      modifies this, manager
      ensures Valid()
      ensures caller.role != Teacher ==>
        && r == Err(403)
        && answers == old(answers) && nextAnswerId == old(nextAnswerId)
        && manager.sent == old(manager.sent)
      ensures caller.role == Teacher && FirstWithId(questions, questionId).None? ==>
        && r == Err(500)
        && answers == old(answers) && nextAnswerId == old(nextAnswerId)
        && manager.sent == old(manager.sent)
      ensures caller.role == Teacher && FirstWithId(questions, questionId).Some? ==>
        && answers == old(answers) + [AnswerRow(old(nextAnswerId), content, at, caller.id, questionId)]
        && nextAnswerId == old(nextAnswerId) + 1
        && r == Ok(Answer(old(nextAnswerId), content, questionId, IsoFormat(at), Some(caller)))
        && manager.sent == old(manager.sent) + AnswerBroadcast(old(manager.activeConnections), questions, r.value)
      ensures questions == old(questions) && nextQuestionId == old(nextQuestionId)
      ensures manager.activeConnections == old(manager.activeConnections)
      ensures manager.userConnections == old(manager.userConnections)
    {
      if caller.role != Teacher {
        return Err(403);
      }
      if FirstWithId(questions, questionId).None? {
        return Err(500);
      }
      var row := AnswerRow(nextAnswerId, content, at, caller.id, questionId);
      answers := answers + [row];
      nextAnswerId := nextAnswerId + 1;
      var a := Answer(row.id, content, questionId, IsoFormat(at), Some(caller));
      var owner := FirstWithId(questions, questionId);
      if owner.Some? {
        manager.Broadcast(NewAnswer(a), owner.value.classId);
      }
      r := Ok(a);
    }

    /** `websocket_endpoint`, lines 87-97: the socket joins the class, the
        texts it sends are read and ignored, and when the client goes away
        the socket leaves the class. */
    method Session(ws: SocketId, classId: int, texts: seq<string>)
      requires manager.Valid()
      modifies manager
      ensures manager.Valid()
      ensures manager.activeConnections ==
        DisconnectClass(ConnectClass(old(manager.activeConnections), ws, classId), ws, classId)
      ensures manager.sent == old(manager.sent) && manager.userConnections == old(manager.userConnections)
    {
      manager.Connect(ws, classId);
      for i := 0 to |texts|
        invariant manager.Valid()
        invariant manager.activeConnections == ConnectClass(old(manager.activeConnections), ws, classId)
        invariant manager.sent == old(manager.sent) && manager.userConnections == old(manager.userConnections)
      {
        // `receive_text` returns the text, which the handler drops.
      }
      manager.Disconnect(ws, classId);
    }
  }

  /** `.filter(Question.id == qid).first()` */
  function FirstWithId(questions: seq<QuestionRow>, qid: int): (r: Option<QuestionRow>)
    ensures r.None? <==> forall q :: q in questions ==> q.id != qid
    ensures r.Some? ==> r.value in questions && r.value.id == qid
  {
    if questions == [] then None
    else if questions[0].id == qid then Some(questions[0])
    else FirstWithId(questions[1..], qid)
  }

  /** The sends of the answer broadcast, lines 75-81: to the class of the
      answered question, or none when no question has that id. `CreateAnswer`
      reaches this only after its question was found, so there the empty
      case does not arise. */
  function AnswerBroadcast(active: ClassRegistry, questions: seq<QuestionRow>, a: Answer): (r: seq<Delivery>)
    ensures FirstWithId(questions, a.questionId).None? ==> r == []
  {
    var owner := FirstWithId(questions, a.questionId);
    if owner.Some? then BroadcastDeliveries(active, NewAnswer(a), owner.value.classId) else []
  }

  /** Appending a question keeps every earlier lookup and finds the new
      row's id. */
  lemma {:induction false} FirstWithIdAppend(questions: seq<QuestionRow>, row: QuestionRow)
    ensures forall qid :: FirstWithId(questions, qid).Some? ==> FirstWithId(questions + [row], qid) == FirstWithId(questions, qid)
    ensures FirstWithId(questions + [row], row.id).Some?
  {
    if questions != [] {
      FirstWithIdAppend(questions[1..], row);
      assert questions + [row] == [questions[0]] + (questions[1..] + [row]);
    }
  }

  /** Every socket of the answered question's class receives the answer once
      per registration, and sockets of other classes receive nothing. */
  lemma AnswerReachesItsClass(active: ClassRegistry, questions: seq<QuestionRow>, a: Answer, ws: SocketId)
    requires FirstWithId(questions, a.questionId).Some?
    ensures var c := FirstWithId(questions, a.questionId).value.classId;
      SentTo(AnswerBroadcast(active, questions, a), ws) == (if c in active then multiset(active[c])[ws] else 0)
  {
    var c := FirstWithId(questions, a.questionId).value.classId;
    if c in active {
      DeliveriesCount(active[c], NewAnswer(a), ws);
    }
  }

  /** A session of a socket that was not yet in the class leaves the class
      registry as it found it. */
  lemma SessionLeavesRegistry(active: ClassRegistry, ws: SocketId, classId: int)
    requires NoEmptyClass(active)
    requires classId !in active || ws !in active[classId]
    ensures DisconnectClass(ConnectClass(active, ws, classId), ws, classId) == active
  {
    var joined := ConnectClass(active, ws, classId);
    var old_ := if classId in active then active[classId] else [];
    assert joined[classId] == old_ + [ws];
    assert forall j :: 0 <= j < |old_| ==> joined[classId][j] == old_[j] && old_[j] in old_;
    assert FirstIndex(joined[classId], ws) == |old_|;
    assert (old_ + [ws])[..|old_|] == old_;
    var rest := RemoveFirst(joined[classId], ws);
    assert rest == old_;
    if classId in active {
      assert rest != [];
      assert DisconnectClass(joined, ws, classId) == joined[classId := old_];
      assert joined[classId := old_] == active;
    } else {
      assert DisconnectClass(joined, ws, classId) == joined - {classId};
      assert joined - {classId} == active;
    }
  }

  /** The broadcast payload is what a later read of the class shows for the
      new question, as long as the author's row is unchanged and no stored
      answer already names the new id. */
  lemma BroadcastMatchesRead(dir: Directory, questions: seq<QuestionRow>, answers: seq<AnswerRow>,
                             caller: User, id: int, content: string, classId: int, at: nat)
    requires caller.id in dir && dir[caller.id] == caller
    requires forall a :: a in answers ==> a.questionId != id
    ensures QuestionView(dir, answers, QuestionRow(id, content, at, caller.id, classId))
         == Question(id, content, classId, IsoFormat(at), Some(caller), [])
  {
    var own := AnswersOf(answers, id);
    assert forall i :: 0 <= i < |own| ==> own[i] in own;
  }

  /** No stored answer can name the id the next question takes: by the
      foreign key each answer names a stored question, and every stored id
      lies below the next one. */
  lemma NewQuestionHasNoAnswers(questions: seq<QuestionRow>, answers: seq<AnswerRow>, next: int)
    requires IdsBelow(questions, next) && Referenced(questions, answers)
    ensures forall a :: a in answers ==> a.questionId != next
  {
    forall a | a in answers
      ensures a.questionId != next
    {
      var i :| 0 <= i < |answers| && answers[i] == a;
      var q := FirstWithId(questions, answers[i].questionId).value;
      var k :| 0 <= k < |questions| && questions[k] == q;
    }
  }

  /** So in a consistent store a created question reads back exactly as it
      was broadcast: with its student and no answers. */
  lemma CreatedQuestionReadsAsBroadcast(dir: Directory, questions: seq<QuestionRow>, answers: seq<AnswerRow>,
                                        caller: User, next: int, content: string, classId: int, at: nat)
    requires IdsBelow(questions, next) && Referenced(questions, answers)
    requires caller.id in dir && dir[caller.id] == caller
    ensures QuestionView(dir, answers, QuestionRow(next, content, at, caller.id, classId))
         == Question(next, content, classId, IsoFormat(at), Some(caller), [])
  {
    NewQuestionHasNoAnswers(questions, answers, next);
    BroadcastMatchesRead(dir, questions, answers, caller, next, content, classId, at);
  }
}
