/** The submission endpoints (backend/app/api/api_v1/endpoints/submissions.py):
    a student's upsert of their submission to an assignment, the two listings,
    and grading by partial update. The `submission` table is a sequence in
    insertion order; which assignments exist is a parameter. */
module SubmissionsEndpoint {
  import opened Common
  import opened Wire

  /** A row of the `submission` table; `submittedAt` is the database time. */
  datatype SubmissionRow = SubmissionRow(
    id: int,
    assignmentId: int,
    studentId: int,
    content: Option<string>,
    fileUrls: Option<seq<string>>,
    submittedAt: nat,
    grade: Option<real>,
    feedback: Option<string>)

  /** `schemas.SubmissionCreate` */
  datatype SubmissionCreate = SubmissionCreate(content: Option<string>, fileUrls: Option<seq<string>>, assignmentId: int)

  /** A field of a request body that the client left out, or set (possibly
      to null). */
  datatype Patch<T> = Unset | Set(v: T)

  /** `schemas.SubmissionUpdate` as `dict(exclude_unset=True)` sees it. */
  datatype SubmissionUpdate = SubmissionUpdate(
    content: Patch<Option<string>>,
    fileUrls: Patch<Option<seq<string>>>,
    grade: Patch<Option<real>>,
    feedback: Patch<Option<string>>)

  function Patched<T>(p: Patch<T>, current: T): T
  {
    if p.Set? then p.v else current
  }

  /** The `setattr` loop of lines 107-109: exactly the set fields change. */
  function ApplyUpdate(row: SubmissionRow, u: SubmissionUpdate): (r: SubmissionRow)
    ensures r.id == row.id && r.assignmentId == row.assignmentId && r.studentId == row.studentId
    ensures r.submittedAt == row.submittedAt
    ensures u.content.Set? ==> r.content == u.content.v
    ensures u.content.Unset? ==> r.content == row.content
    ensures u.fileUrls.Set? ==> r.fileUrls == u.fileUrls.v
    ensures u.fileUrls.Unset? ==> r.fileUrls == row.fileUrls
    ensures u.grade.Set? ==> r.grade == u.grade.v
    ensures u.grade.Unset? ==> r.grade == row.grade
    ensures u.feedback.Set? ==> r.feedback == u.feedback.v
    ensures u.feedback.Unset? ==> r.feedback == row.feedback
  {
    row.(content := Patched(u.content, row.content),
         fileUrls := Patched(u.fileUrls, row.fileUrls),
         grade := Patched(u.grade, row.grade),
         feedback := Patched(u.feedback, row.feedback))
  }

  /** An empty body changes nothing, and applying the same body twice is
      applying it once. */
  lemma UpdateIdentityAndIdempotent(row: SubmissionRow, u: SubmissionUpdate)
    ensures ApplyUpdate(row, SubmissionUpdate(Unset, Unset, Unset, Unset)) == row
    ensures ApplyUpdate(ApplyUpdate(row, u), u) == ApplyUpdate(row, u)
  {
  }

  predicate SamePair(r: SubmissionRow, assignmentId: int, studentId: int)
  {
    r.assignmentId == assignmentId && r.studentId == studentId
  }

  /** The query of lines 32-35, as an index. */
  function FindPair(rows: seq<SubmissionRow>, assignmentId: int, studentId: int): (r: Option<nat>)
    ensures r.None? <==> forall i :: 0 <= i < |rows| ==> !SamePair(rows[i], assignmentId, studentId)
    ensures r.Some? ==> r.value < |rows| && SamePair(rows[r.value], assignmentId, studentId)
  {
    if rows == [] then None
    else if SamePair(rows[0], assignmentId, studentId) then Some(0)
    else
      var t := FindPair(rows[1..], assignmentId, studentId);
      assert forall i :: 1 <= i < |rows| ==> rows[i] == rows[1..][i - 1];
      if t.None? then None else Some(t.value + 1)
  }

  function FindId(rows: seq<SubmissionRow>, id: int): (r: Option<nat>)
    ensures r.None? <==> forall i :: 0 <= i < |rows| ==> rows[i].id != id
    ensures r.Some? ==> r.value < |rows| && rows[r.value].id == id
  {
    if rows == [] then None
    else if rows[0].id == id then Some(0)
    else
      var t := FindId(rows[1..], id);
      assert forall i :: 1 <= i < |rows| ==> rows[i] == rows[1..][i - 1];
      if t.None? then None else Some(t.value + 1)
  }

  /** At most one submission per (assignment, student) pair. */
  predicate PairsUnique(rows: seq<SubmissionRow>)
  {
    forall i, j :: 0 <= i < j < |rows| ==>
      rows[i].assignmentId != rows[j].assignmentId || rows[i].studentId != rows[j].studentId
  }

  function CountPair(rows: seq<SubmissionRow>, assignmentId: int, studentId: int): nat
  {
    if rows == [] then 0
    else (if SamePair(rows[0], assignmentId, studentId) then 1 else 0) + CountPair(rows[1..], assignmentId, studentId)
  }

  /** With unique pairs, each pair has at most one row, and exactly one when
      the lookup finds it. */
  lemma {:induction false} PairsUniqueCount(rows: seq<SubmissionRow>, assignmentId: int, studentId: int)
    requires PairsUnique(rows)
    ensures CountPair(rows, assignmentId, studentId) <= 1
    ensures CountPair(rows, assignmentId, studentId) == (if FindPair(rows, assignmentId, studentId).Some? then 1 else 0)
  {
    if rows != [] {
      assert PairsUnique(rows[1..]) by {
        assert forall i :: 1 <= i < |rows| ==> rows[i] == rows[1..][i - 1];
      }
      PairsUniqueCount(rows[1..], assignmentId, studentId);
      if SamePair(rows[0], assignmentId, studentId) {
        assert forall i :: 0 <= i < |rows[1..]| ==> rows[1..][i] == rows[i + 1];
        assert FindPair(rows[1..], assignmentId, studentId).None?;
      }
    }
  }

  function StudentRows(rows: seq<SubmissionRow>, studentId: int): (r: seq<SubmissionRow>)
    ensures forall x :: x in r <==> x in rows && x.studentId == studentId
  {
    if rows == [] then []
    else (if rows[0].studentId == studentId then [rows[0]] else []) + StudentRows(rows[1..], studentId)
  }

  function AssignmentRows(rows: seq<SubmissionRow>, assignmentId: int): (r: seq<SubmissionRow>)
    ensures forall x :: x in r <==> x in rows && x.assignmentId == assignmentId
  {
    if rows == [] then []
    else (if rows[0].assignmentId == assignmentId then [rows[0]] else []) + AssignmentRows(rows[1..], assignmentId)
  }

  /** A filter of a table with unique pairs keeps them unique. */
  lemma {:induction false} StudentRowsKeepPairs(rows: seq<SubmissionRow>, studentId: int)
    requires PairsUnique(rows)
    ensures PairsUnique(StudentRows(rows, studentId))
  {
    if rows != [] {
      assert forall i :: 1 <= i < |rows| ==> rows[i] == rows[1..][i - 1];
      StudentRowsKeepPairs(rows[1..], studentId);
      var rest := StudentRows(rows[1..], studentId);
      if rows[0].studentId == studentId {
        forall j | 0 <= j < |rest|
          ensures rows[0].assignmentId != rest[j].assignmentId || rows[0].studentId != rest[j].studentId
        {
          assert rest[j] in rest;
        }
      }
    }
  }

  /** "My submissions" lists each assignment at most once. */
  lemma MySubmissionsDistinct(rows: seq<SubmissionRow>, studentId: int, skip: nat, limit: nat)
    requires PairsUnique(rows)
    ensures var mine := Page(StudentRows(rows, studentId), skip, limit);
      forall i, j :: 0 <= i < j < |mine| ==> mine[i].assignmentId != mine[j].assignmentId
  {
    var all := StudentRows(rows, studentId);
    StudentRowsKeepPairs(rows, studentId);
    var mine := Page(all, skip, limit);
    forall i, j | 0 <= i < j < |mine|
      ensures mine[i].assignmentId != mine[j].assignmentId
    {
      assert mine[i] == all[skip + i] && mine[j] == all[skip + j];
      assert all[skip + i] in all && all[skip + j] in all;
    }
  }

  class SubmissionStore {
    var rows: seq<SubmissionRow>
    var nextId: int

    ghost predicate Valid()
      reads this
    {
      && PairsUnique(rows)
      && (forall i, j :: 0 <= i < j < |rows| ==> rows[i].id != rows[j].id)
      && forall i :: 0 <= i < |rows| ==> rows[i].id < nextId
    }

    constructor ()
      ensures Valid() && rows == [] && nextId == 1
    {
      rows, nextId := [], 1;
    }

    /** `create_submission`, lines 13-53, at database time `now`: 403 for a
        non-student, 404 for an unknown assignment; a resubmission
        overwrites content, files and time of the caller's row in place and
        keeps its grade and feedback; a first submission adds a row for the
        caller, ungraded. */
    method Submit(caller: User, form: SubmissionCreate, assignments: set<int>, now: nat)
      returns (r: ApiResult<SubmissionRow>)
      requires Valid()
      modifies this
      ensures Valid()
      ensures caller.role != Student ==> r == Err(403) && rows == old(rows) && nextId == old(nextId)
      ensures caller.role == Student && form.assignmentId !in assignments ==>
        r == Err(404) && rows == old(rows) && nextId == old(nextId)
      ensures caller.role == Student && form.assignmentId in assignments ==>
        var found := FindPair(old(rows), form.assignmentId, caller.id);
        && r.Ok?
        && (found.Some? ==>
              var k := found.value;
              && rows == old(rows)[k := r.value] && nextId == old(nextId)
              && r.value == old(rows)[k].(content := form.content, fileUrls := form.fileUrls, submittedAt := now)
              && r.value.grade == old(rows)[k].grade && r.value.feedback == old(rows)[k].feedback)
        && (found.None? ==>
              && r.value == SubmissionRow(old(nextId), form.assignmentId, caller.id, form.content, form.fileUrls, now, None, None)
              && rows == old(rows) + [r.value] && nextId == old(nextId) + 1)
      ensures r.Ok? ==> FindPair(rows, form.assignmentId, caller.id).Some? && CountPair(rows, form.assignmentId, caller.id) == 1
    {
      if caller.role != Student {
        return Err(403);
      }
      if form.assignmentId !in assignments {
        return Err(404);
      }
      var found := FindPair(rows, form.assignmentId, caller.id);
      if found.Some? {
        var k := found.value;
        var row := rows[k].(content := form.content, fileUrls := form.fileUrls, submittedAt := now);
        rows := rows[k := row];
        assert SamePair(rows[k], form.assignmentId, caller.id);
        r := Ok(row);
      } else {
        var row := SubmissionRow(nextId, form.assignmentId, caller.id, form.content, form.fileUrls, now, None, None);
        rows := rows + [row];
        nextId := nextId + 1;
        assert SamePair(rows[|rows| - 1], form.assignmentId, caller.id);
        r := Ok(row);
      }
      PairsUniqueCount(rows, form.assignmentId, caller.id);
    }

    /** `read_my_submissions`, lines 55-68: the caller's rows only. */
    function ReadMy(caller: User, skip: nat, limit: nat): (r: seq<SubmissionRow>)
      reads this
      ensures |r| <= limit
      ensures forall x :: x in r ==> x in rows && x.studentId == caller.id
      ensures r == Page(StudentRows(rows, caller.id), skip, limit)
    {
      var mine := StudentRows(rows, caller.id);
      var page := Page(mine, skip, limit);
      assert forall i :: 0 <= i < |page| ==> page[i] in mine;
      page
    }

    /** `read_assignment_submissions`, lines 70-87: teachers and admins
        only. */
    function ReadForAssignment(caller: User, assignmentId: int, skip: nat, limit: nat): (r: ApiResult<seq<SubmissionRow>>)
      reads this
      ensures caller.role == Student <==> r == Err(403)
      ensures r.Ok? ==> |r.value| <= limit && forall x :: x in r.value ==> x in rows && x.assignmentId == assignmentId
      ensures r.Ok? ==> r.value == Page(AssignmentRows(rows, assignmentId), skip, limit)
    {
      if caller.role != Teacher && caller.role != Admin then assert caller.role.Student?; Err(403)
      else
        var these := AssignmentRows(rows, assignmentId);
        var page := Page(these, skip, limit);
        assert forall i :: 0 <= i < |page| ==> page[i] in these;
        Ok(page)
    }

    /** `grade_submission`, lines 89-114: teachers and admins only (403), an
        unknown id gives 404; otherwise the set fields of the body are
        written to that row and nothing else changes. */
    method Grade(caller: User, submissionId: int, u: SubmissionUpdate) returns (r: ApiResult<SubmissionRow>)
      requires Valid()
      modifies this
      ensures Valid() && nextId == old(nextId)
      ensures caller.role == Student ==> r == Err(403) && rows == old(rows)
      ensures caller.role != Student && FindId(old(rows), submissionId).None? ==> r == Err(404) && rows == old(rows)
      ensures caller.role != Student && FindId(old(rows), submissionId).Some? ==>
        var k := FindId(old(rows), submissionId).value;
        && r == Ok(ApplyUpdate(old(rows)[k], u))
        && rows == old(rows)[k := r.value]
    {
      if caller.role != Teacher && caller.role != Admin {
        return Err(403);
      }
      var k := FindId(rows, submissionId);
      if k.None? {
        return Err(404);
      }
      var row := ApplyUpdate(rows[k.value], u);
      rows := rows[k.value := row];
      r := Ok(row);
    }
  }

  /** A DELETE request as the backend sees it: the query string and the
      JSON body, each as field names to values. */
  datatype FileRequest = FileRequest(query: map<string, string>, body: map<string, string>)

  /** How `delete_submission_file` (lines 133-137) receives `file_url`: a
      plain `str` parameter is bound from the query string only, and a
      request without it is refused before the handler runs. */
  function BoundFileUrl(req: FileRequest): (r: Option<string>)
    ensures r.Some? <==> "file_url" in req.query
    ensures r.Some? ==> r.value == req.query["file_url"]
  {
    if "file_url" in req.query then Some(req.query["file_url"]) else None
  }

  /** `delete_submission_file`, lines 133-150, with the file system's answer
      as `present`: 422 when `file_url` is not bound, 404 when no such file
      exists, else the file is removed. */
  function DeleteSubmissionFile(req: FileRequest, present: bool): (r: ApiResult<string>)
    ensures r.Ok? <==> BoundFileUrl(req).Some? && present
    ensures BoundFileUrl(req).None? ==> r == Err(422)
    ensures BoundFileUrl(req).Some? && !present ==> r == Err(404)
    ensures r.Ok? ==> r.value == req.query["file_url"]
  {
    match BoundFileUrl(req)
    case None => Err(422)
    case Some(url) => if present then Ok(url) else Err(404)
  }
}
