/** The form schemas of frontend/src/lib/validations.ts as functions from a
    form to the list of issues zod reports, in field order (an empty list
    means the form parses). Whether a string passes zod's email check is a
    parameter. A field that must be a number is `Some(n)` when it is one. */
module Validations {
  import opened Common

  /** Which rule an issue breaks. */
  datatype Rule = TooShort(min: nat) | NotEmail | NotInEnum | NotNumber | Mismatch

  /** A zod issue: the field it is reported on, and the rule. */
  datatype Issue = Issue(path: string, rule: Rule)

  function Check(ok: bool, path: string, rule: Rule): (r: seq<Issue>)
    ensures ok <==> r == []
    ensures !ok ==> r == [Issue(path, rule)]
  {
    if ok then [] else [Issue(path, rule)]
  }

  /** `z.string().min(n)`; zod counts the string's length, so white space
      counts too. */
  function MinLength(path: string, s: string, n: nat): (r: seq<Issue>)
    ensures r == [] <==> |s| >= n
  {
    Check(|s| >= n, path, TooShort(n))
  }

  /** `loginSchema`, lines 4-7. */
  function LoginIssues(email: string, emailOk: bool, password: string): (r: seq<Issue>)
    ensures r == [] <==> emailOk && |password| >= 6
    ensures forall i :: 0 <= i < |r| ==> r[i].path in {"email", "password"}
  {
    Check(emailOk, "email", NotEmail) + MinLength("password", password, 6)
  }

  datatype RegisterForm = RegisterForm(fullName: string, email: string, password: string, confirmPassword: string, role: string)

  predicate RegisterRole(role: string)
  {
    role == "student" || role == "teacher"
  }

  /** The object part of `registerSchema`, lines 9-14. */
  function RegisterFieldIssues(f: RegisterForm, emailOk: bool): (r: seq<Issue>)
    ensures r == [] <==> |f.fullName| >= 2 && emailOk && |f.password| >= 6 && RegisterRole(f.role)
  {
    MinLength("full_name", f.fullName, 2) + Check(emailOk, "email", NotEmail)
      + MinLength("password", f.password, 6) + Check(RegisterRole(f.role), "role", NotInEnum)
  }

  /** `registerSchema`, lines 9-18. A value outside the enum aborts the
      object's parse, so the `refine` of lines 15-18 does not run; a short
      string or a bad email leaves the parse going, and the refine then
      reports a mismatch on `confirmPassword`. */
  function RegisterIssues(f: RegisterForm, emailOk: bool): (r: seq<Issue>)
    ensures r == [] <==>
      && |f.fullName| >= 2 && emailOk && |f.password| >= 6 && RegisterRole(f.role)
      && f.password == f.confirmPassword
    ensures RegisterRole(f.role) && f.password != f.confirmPassword ==>
      r[|r| - 1] == Issue("confirmPassword", Mismatch)
    ensures !RegisterRole(f.role) ==> Issue("confirmPassword", Mismatch) !in r
  {
    var fields := RegisterFieldIssues(f, emailOk);
    if !RegisterRole(f.role) then
      assert forall i :: 0 <= i < |fields| ==> fields[i].path != "confirmPassword";
      fields
    else fields + Check(f.password == f.confirmPassword, "confirmPassword", Mismatch)
  }

  /** Only the role can hide a mismatch: with a valid role every short field
      or bad email is reported and the mismatch too. */
  lemma MismatchReportedBesideFieldIssues(f: RegisterForm)
    requires RegisterRole(f.role) && f.password != f.confirmPassword && |f.fullName| < 2
    ensures var r := RegisterIssues(f, false);
      && Issue("full_name", TooShort(2)) in r
      && Issue("email", NotEmail) in r
      && Issue("confirmPassword", Mismatch) in r
  {
    var r := RegisterIssues(f, false);
    assert r[0] == Issue("full_name", TooShort(2));
    assert r[1] == Issue("email", NotEmail);
  }

  /** `questionSchema` (lines 21-24) and `answerSchema` (lines 26-29):
      content of at least one character, white space included, and a
      numeric id. */
  function PostIssues(content: string, idField: string, id: Option<int>): (r: seq<Issue>)
    ensures r == [] <==> |content| >= 1 && id.Some?
  {
    MinLength("content", content, 1) + Check(id.Some?, idField, NotNumber)
  }

  function QuestionIssues(content: string, classId: Option<int>): (r: seq<Issue>)
    ensures r == [] <==> content != "" && classId.Some?
  {
    PostIssues(content, "class_id", classId)
  }

  function AnswerIssues(content: string, questionId: Option<int>): (r: seq<Issue>)
    ensures r == [] <==> content != "" && questionId.Some?
  {
    PostIssues(content, "question_id", questionId)
  }

  /** A question of white space only parses. */
  lemma BlankQuestionParses(classId: int)
    ensures QuestionIssues(" ", Some(classId)) == []
    ensures QuestionIssues("", Some(classId)) == [Issue("content", TooShort(1))]
  {
  }

  /** `assignmentSchema`, lines 32-37; the description may be absent. */
  function AssignmentIssues(title: string, description: Option<string>, dueDate: string, classId: Option<int>): (r: seq<Issue>)
    ensures r == [] <==> title != "" && dueDate != "" && classId.Some?
  {
    MinLength("title", title, 1) + MinLength("due_date", dueDate, 1) + Check(classId.Some?, "class_id", NotNumber)
  }

  /** `userSchema`, lines 40-45: the role is any of the three backend
      roles. */
  function UserIssues(fullName: string, email: string, emailOk: bool, role: string, isActive: Option<bool>): (r: seq<Issue>)
    ensures r == [] <==> |fullName| >= 2 && emailOk && RoleOf(role).Some?
  {
    MinLength("full_name", fullName, 2) + Check(emailOk, "email", NotEmail)
      + Check(role == "student" || role == "teacher" || role == "admin", "role", NotInEnum)
  }

  /** Every role the backend knows passes the user schema's enum, and
      registration admits all but admin. */
  lemma SchemaRoles(r: Role)
    ensures RoleOf(RoleName(r)).Some?
    ensures RegisterRole(RoleName(r)) <==> r != Admin
  {
    RoleNameRoundTrip(r);
  }
}
