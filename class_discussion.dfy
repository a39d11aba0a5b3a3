/** The class discussion page: its question list, updated by the frames of
    the class's Q&A socket, and the handlers that post questions and answers
    over REST. Posting never touches the list; only frames do. */
module ClassDiscussion {
  import opened Common
  import opened Text
  import opened Wire

  /** Attach answer `a` to every question whose id is `a.questionId`. */
  function AttachAnswer(qs: seq<Question>, a: Answer): (r: seq<Question>)
    ensures |r| == |qs|
    ensures forall i :: 0 <= i < |qs| ==>
      r[i] == (if qs[i].id == a.questionId then qs[i].(answers := qs[i].answers + [a]) else qs[i])
  {
    if qs == [] then []
    else
      var q := qs[0];
      [if q.id == a.questionId then q.(answers := q.answers + [a]) else q] + AttachAnswer(qs[1..], a)
  }

  /** `handleWebSocketMessage`, lines 100-111, as a function of the list. */
  function Reduce(qs: seq<Question>, f: Frame): seq<Question>
  {
    match f
    case NewQuestion(q) => [q] + qs
    case NewAnswer(a) => AttachAnswer(qs, a)
    case _ => qs
  }

  /** A `new_question` frame goes in front; the earlier questions follow in
      their old order. */
  lemma NewQuestionPrepends(qs: seq<Question>, q: Question)
    ensures |Reduce(qs, NewQuestion(q))| == |qs| + 1
    ensures Reduce(qs, NewQuestion(q))[0] == q && Reduce(qs, NewQuestion(q))[1..] == qs
  {
    assert ([q] + qs)[1..] == qs;
  }

  /** A `new_answer` frame keeps the list's length, order and questions, and
      appends the answer to exactly the questions with a matching id. */
  lemma NewAnswerAttaches(qs: seq<Question>, a: Answer)
    ensures var r := Reduce(qs, NewAnswer(a));
      && |r| == |qs|
      && forall i :: 0 <= i < |qs| ==>
        && r[i].(answers := qs[i].answers) == qs[i]
        && (qs[i].id == a.questionId ==> r[i].answers == qs[i].answers + [a])
        && (qs[i].id != a.questionId ==> r[i] == qs[i])
  {
  }

  /** An answer for a question not on the list leaves the list as it was. */
  lemma {:induction false} NewAnswerForUnknownQuestion(qs: seq<Question>, a: Answer)
    requires forall i :: 0 <= i < |qs| ==> qs[i].id != a.questionId
    ensures Reduce(qs, NewAnswer(a)) == qs
  {
    if qs != [] {
      NewAnswerForUnknownQuestion(qs[1..], a);
    }
  }

  /** Frames of any other type leave the list as it was. */
  lemma OtherFramesIgnored(qs: seq<Question>, f: Frame)
    requires f.NewMessage? || f.Other?
    ensures Reduce(qs, f) == qs
  {
  }

  /** A request the page sends to the REST API. */
  datatype Post =
    | PostQuestion(content: string, classId: Option<int>)
    | PostAnswer(content: string, questionId: int)

  /** `parseInt(classId || '0')`, line 120; `None` is `NaN`, which the request
      body carries as `null`. */
  function ClassIdField(routeClassId: Option<string>): (r: Option<int>)
    ensures routeClassId.None? || routeClassId == Some("") ==> r == Some(0)
  {
    ParseIntRoundTrip(0);
    ParseInt(if routeClassId.None? || routeClassId.value == "" then "0" else routeClassId.value)
  }

  /** A route id written in decimal is sent as that number. */
  lemma ClassIdFieldOfNumber(n: nat)
    ensures ClassIdField(Some(NatToString(n))) == Some(n)
  {
    ParseIntRoundTrip(n);
  }

  /** The socket address of `connectWebSocket`, line 81; an absent route
      parameter renders as "undefined". */
  function DiscussionSocketUrl(pageIsHttps: bool, routeClassId: Option<string>): (u: string)
    ensures StartsWith(u, if pageIsHttps then "wss://" else "ws://")
  {
    var protocol := if pageIsHttps then "wss:" else "ws:";
    var s := protocol + "//localhost:8000/api/v1/qa/ws/" + (if routeClassId.Some? then routeClassId.value else "undefined");
    assert s[..|protocol| + 2] == protocol + "//";
    s
  }

  /** What `handlePostQuestion` sends for the current input: nothing when
      the trimmed input is empty. */
  function QuestionRequest(input: string, routeClassId: Option<string>): (r: Option<Post>)
    ensures r.None? <==> Trim(input) == []
    ensures r.Some? ==> r.value == PostQuestion(input, ClassIdField(routeClassId))
  {
    if Trim(input) == [] then None else Some(PostQuestion(input, ClassIdField(routeClassId)))
  }

  /** Nothing is sent exactly for an input made of white space only. */
  lemma QuestionRequestBlank(input: string, routeClassId: Option<string>)
    ensures QuestionRequest(input, routeClassId).None? <==> IsBlank(input)
  {
    TrimEmptyIffBlank(input);
  }

  /** What `handlePostAnswer(questionId)` sends: nothing when no reply was
      typed for that question or the reply is blank. */
  function AnswerRequest(replies: map<int, string>, questionId: int): (r: Option<Post>)
    ensures r.None? <==> questionId !in replies || Trim(replies[questionId]) == []
    ensures r.Some? ==> r.value == PostAnswer(replies[questionId], questionId)
  {
    if questionId !in replies then None
    else if Trim(replies[questionId]) == [] then None
    else Some(PostAnswer(replies[questionId], questionId))
  }

  /** Nothing is sent exactly when no reply was typed for the question or
      the reply is white space only. */
  lemma AnswerRequestBlank(replies: map<int, string>, questionId: int)
    ensures AnswerRequest(replies, questionId).None? <==> questionId !in replies || IsBlank(replies[questionId])
  {
    if questionId in replies {
      TrimEmptyIffBlank(replies[questionId]);
    }
  }

  class DiscussionPage {
    const routeClassId: Option<string>
    var questions: seq<Question>
    var newQuestion: string
    var replyContent: map<int, string>
    /** requests sent to the REST API, oldest first */
    var posts: seq<Post>

    constructor (routeClassId: Option<string>)
      ensures this.routeClassId == routeClassId
      ensures questions == [] && newQuestion == "" && replyContent == map[] && posts == []
    {
      this.routeClassId := routeClassId;
      questions, newQuestion, replyContent, posts := [], "", map[], [];
    }

    /** `fetchQuestions`: the fetched list replaces the current one. */
    method LoadQuestions(fetched: seq<Question>)
      modifies this
      ensures questions == fetched
      ensures newQuestion == old(newQuestion) && replyContent == old(replyContent) && posts == old(posts)
    {
      questions := fetched;
    }

    /** The socket's `onmessage`. */
    method OnMessage(f: Frame)
      modifies this
      ensures questions == Reduce(old(questions), f)
      ensures newQuestion == old(newQuestion) && replyContent == old(replyContent) && posts == old(posts)
    {
      match f {
        case NewQuestion(q) => questions := [q] + questions;
        case NewAnswer(a) => questions := AttachAnswer(questions, a);
        case _ =>
      }
    }

    /** `TypeQuestion` and `TypeReply` are the inputs' `onChange`. */
    method TypeQuestion(text: string)
      modifies this
      ensures newQuestion == text
      ensures questions == old(questions) && replyContent == old(replyContent) && posts == old(posts)
    {
      newQuestion := text;
    }

    method TypeReply(questionId: int, text: string)
      modifies this
      ensures replyContent == old(replyContent)[questionId := text]
      ensures questions == old(questions) && newQuestion == old(newQuestion) && posts == old(posts)
    {
      replyContent := replyContent[questionId := text];
    }

    /** `handlePostQuestion`; `succeeded` is the outcome of the request. The
        list is untouched, and the input is cleared only after a request
        that succeeded. */
    method HandlePostQuestion(succeeded: bool)
      modifies this
      ensures var req := QuestionRequest(old(newQuestion), routeClassId);
        && posts == old(posts) + (if req.Some? then [req.value] else [])
        && newQuestion == (if req.Some? && succeeded then "" else old(newQuestion))
      ensures questions == old(questions) && replyContent == old(replyContent)
    {
      var req := QuestionRequest(newQuestion, routeClassId);
      if req.None? {
        return;
      }
      posts := posts + [req.value];
      if succeeded {
        newQuestion := "";
      }
    }

    /** `handlePostAnswer(questionId)`; `succeeded` is the outcome of the
        request. */
    method HandlePostAnswer(questionId: int, succeeded: bool)
      modifies this
      ensures var req := AnswerRequest(old(replyContent), questionId);
        posts == old(posts) + (if req.Some? then [req.value] else [])
      ensures var req := AnswerRequest(old(replyContent), questionId);
        replyContent == (if req.Some? && succeeded then old(replyContent)[questionId := ""] else old(replyContent))
      ensures questions == old(questions) && newQuestion == old(newQuestion)
    {
      ghost var r0 := replyContent;
      var req := AnswerRequest(replyContent, questionId);
      assert req == AnswerRequest(old(replyContent), questionId);
      if req.None? {
        assert replyContent == r0;
        return;
      }
      posts := posts + [req.value];
      if succeeded {
        replyContent := replyContent[questionId := ""];
      }
    }
  }
}
