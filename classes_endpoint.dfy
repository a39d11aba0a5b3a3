/** The class endpoints (backend/app/api/api_v1/endpoints/classes.py): class
    codes, joining by code, listing by role, and the owner-or-admin edits.
    `random.choices` is an oracle: each element of `draws` is one call's six
    picks, as indices into the code alphabet. */
module ClassesEndpoint {
  import opened Common
  import opened Wire

  /** `string.ascii_uppercase + string.digits` */
  const CodeAlphabet: string := "ABCDEFGHIJKLMNOPQRSTUVWXYZ0123456789"
  const CodeLength: nat := 6

  predicate IsCodeChar(c: char)
  {
    'A' <= c <= 'Z' || '0' <= c <= '9'
  }

  /** Pick `p` of `random.choices`: the `p`-th character of the alphabet. */
  function CodeChar(p: nat): (c: char)
    requires p < 36
    ensures IsCodeChar(c)
  {
    if p < 26 then ('A' as int + p) as char else ('0' as int + p - 26) as char
  }

  /** The alphabet is the upper-case ASCII letters and then the digits, each
      once, so a pick into it is `CodeChar`. */
  lemma CodeAlphabetChars()
    ensures |CodeAlphabet| == 36
    ensures forall p :: 0 <= p < 36 ==> CodeAlphabet[p] == CodeChar(p)
  {
  }

  /** One draw: six picks into the alphabet. */
  predicate ValidDraw(picks: seq<nat>)
  {
    |picks| == CodeLength && forall i :: 0 <= i < |picks| ==> picks[i] < 36
  }

  /** `generate_class_code()`, lines 22-23, for the picks of one call. */
  function CodeFrom(picks: seq<nat>): (code: string)
    requires ValidDraw(picks)
    ensures IsClassCode(code) && |code| == |picks|
    ensures forall i :: 0 <= i < |code| ==> code[i] == CodeChar(picks[i])
  {
    seq(|picks|, i requires 0 <= i < |picks| => CodeChar(picks[i]))
  }

  predicate IsClassCode(code: string)
  {
    |code| == CodeLength && forall i :: 0 <= i < |code| ==> IsCodeChar(code[i])
  }

  /** A row of the `class` table. */
  datatype ClassRow = ClassRow(id: int, name: string, teacherId: Option<int>, imageUrl: Option<string>, classCode: string)

  predicate CodeTaken(classes: seq<ClassRow>, code: string)
  {
    exists i :: 0 <= i < |classes| && classes[i].classCode == code
  }

  /** The `while True` loops of lines 36-39 and 87-90: draw until a code no
      class holds. The oracle offers such a draw somewhere; the loop stops at
      the first one. */
  method PickFreshCode(classes: seq<ClassRow>, draws: seq<seq<nat>>) returns (code: string)
    requires forall k :: 0 <= k < |draws| ==> ValidDraw(draws[k])
    requires exists k :: 0 <= k < |draws| && !CodeTaken(classes, CodeFrom(draws[k]))
    ensures IsClassCode(code) && !CodeTaken(classes, code)
    ensures exists k :: FirstFreshDraw(classes, draws, k) && code == CodeFrom(draws[k])
  {
    ghost var good :| 0 <= good < |draws| && !CodeTaken(classes, CodeFrom(draws[good]));
    var i := 0;
    while true
      invariant 0 <= i <= good
      invariant forall j :: 0 <= j < i ==> CodeTaken(classes, CodeFrom(draws[j]))
      decreases good - i
    {
      code := CodeFrom(draws[i]);
      if IndexOfCode(classes, code).None? {
        assert FirstFreshDraw(classes, draws, i);
        return;
      }
      i := i + 1;
    }
  }

  /** Draw `k` is the first whose code no class holds. */
  predicate FirstFreshDraw(classes: seq<ClassRow>, draws: seq<seq<nat>>, k: int)
    requires forall j :: 0 <= j < |draws| ==> ValidDraw(draws[j])
  {
    && 0 <= k < |draws| && !CodeTaken(classes, CodeFrom(draws[k]))
    && forall j :: 0 <= j < k ==> CodeTaken(classes, CodeFrom(draws[j]))
  }

  predicate IdsUnique(classes: seq<ClassRow>)
  {
    forall i, j :: 0 <= i < j < |classes| ==> classes[i].id != classes[j].id
  }

  /** The `unique=True` constraint on `class_code`. */
  predicate CodesUnique(classes: seq<ClassRow>)
  {
    forall i, j :: 0 <= i < j < |classes| ==> classes[i].classCode != classes[j].classCode
  }

  /** Replacing one row's code with a code no row holds keeps the codes
      unique and changes nothing else. */
  lemma FreshCodeKeepsUnique(classes: seq<ClassRow>, k: nat, code: string)
    requires k < |classes| && CodesUnique(classes) && !CodeTaken(classes, code)
    ensures var r := classes[k := classes[k].(classCode := code)];
      && CodesUnique(r) && r[k].classCode != classes[k].classCode
      && (IdsUnique(classes) ==> IdsUnique(r))
  {
    var r := classes[k := classes[k].(classCode := code)];
    forall i, j | 0 <= i < j < |r|
      ensures r[i].classCode != r[j].classCode
    {
      if i == k {
        assert classes[j].classCode != code;
      } else if j == k {
        assert classes[i].classCode != code;
      }
    }
  }

  /** `.filter(Class.id == id).first()`, as an index. */
  function IndexOfId(classes: seq<ClassRow>, id: int): (r: Option<nat>)
    ensures r.None? <==> forall i :: 0 <= i < |classes| ==> classes[i].id != id
    ensures r.Some? ==>
      && r.value < |classes| && classes[r.value].id == id
      && forall i :: 0 <= i < r.value ==> classes[i].id != id
  {
    if classes == [] then None
    else if classes[0].id == id then Some(0)
    else
      var t := IndexOfId(classes[1..], id);
      if t.None? then None else Some(t.value + 1)
  }

  /** `.filter(Class.class_code == code).first()`, as an index. */
  function IndexOfCode(classes: seq<ClassRow>, code: string): (r: Option<nat>)
    ensures r.None? <==> !CodeTaken(classes, code)
    ensures r.Some? ==> r.value < |classes| && classes[r.value].classCode == code
  {
    if classes == [] then None
    else if classes[0].classCode == code then Some(0)
    else
      var t := IndexOfCode(classes[1..], code);
      assert forall i :: 1 <= i < |classes| ==> classes[i] == classes[1..][i - 1];
      if t.None? then None else Some(t.value + 1)
  }

  /** The owner-or-admin rule of lines 83 and 143. */
  predicate MayEdit(caller: User, row: ClassRow)
  {
    caller.role == Admin || row.teacherId == Some(caller.id)
  }

  /** `schemas.ClassUpdate`: `name` is a required string; the other fields
      may be `None`. `class_code` is accepted and ignored. */
  datatype ClassUpdate = ClassUpdate(name: string, teacherId: Option<int>, imageUrl: Option<string>, classCode: Option<string>)

  /** Lines 147-152: `name` always, `teacher_id` and `image_url` when not
      `None`; the id and the code stay. */
  function ApplyUpdate(row: ClassRow, form: ClassUpdate): (r: ClassRow)
    ensures r.id == row.id && r.classCode == row.classCode && r.name == form.name
    ensures r.teacherId == (if form.teacherId.Some? then form.teacherId else row.teacherId)
    ensures r.imageUrl == (if form.imageUrl.Some? then form.imageUrl else row.imageUrl)
  {
    row.(name := form.name,
         teacherId := if form.teacherId.Some? then form.teacherId else row.teacherId,
         imageUrl := if form.imageUrl.Some? then form.imageUrl else row.imageUrl)
  }

  /** `classes_enrolled` of a user: the class ids in the order joined. */
  function EnrolledOf(enrolled: map<int, seq<int>>, userId: int): seq<int>
  {
    if userId in enrolled then enrolled[userId] else []
  }

  /** The rows of the given ids, in the order of the ids. */
  function RowsOf(classes: seq<ClassRow>, ids: seq<int>): (r: seq<ClassRow>)
    ensures forall x :: x in r ==> x in classes && x.id in ids
    ensures AllStored(classes, ids) ==>
      && |r| == |ids|
      && forall j :: 0 <= j < |ids| ==> r[j] == classes[IndexOfId(classes, ids[j]).value]
  {
    if ids == [] then []
    else
      var k := IndexOfId(classes, ids[0]);
      var rest := RowsOf(classes, ids[1..]);
      assert forall j :: 1 <= j < |ids| ==> ids[1..][j - 1] == ids[j];
      (if k.Some? then [classes[k.value]] else []) + rest
  }

  /** Every id names a stored class. */
  predicate AllStored(classes: seq<ClassRow>, ids: seq<int>)
  {
    forall j :: 0 <= j < |ids| ==> IndexOfId(classes, ids[j]).Some?
  }

  /** The foreign key `student_class.class_id`
      (backend/app/models/student_class.py:8): every enrolment names a
      stored class. */
  predicate Enrolments(classes: seq<ClassRow>, enrolled: map<int, seq<int>>)
  {
    forall u :: u in enrolled ==> AllStored(classes, enrolled[u])
  }

  /** Rewriting rows without touching their ids keeps every enrolment
      valid. */
  lemma SameIdsKeepEnrolments(a: seq<ClassRow>, b: seq<ClassRow>, enrolled: map<int, seq<int>>)
    requires |a| == |b| && forall i :: 0 <= i < |a| ==> a[i].id == b[i].id
    requires Enrolments(a, enrolled)
    ensures Enrolments(b, enrolled)
  {
    forall u, j | u in enrolled && 0 <= j < |enrolled[u]|
      ensures IndexOfId(b, enrolled[u][j]).Some?
    {
      var k := IndexOfId(a, enrolled[u][j]).value;
      assert b[k].id == enrolled[u][j];
    }
  }

  /** Deleting class `k` and striking its id from every list keeps every
      enrolment valid. */
  lemma DropKeepsEnrolments(classes: seq<ClassRow>, k: nat, enrolled: map<int, seq<int>>)
    requires k < |classes| && Enrolments(classes, enrolled)
    ensures Enrolments(classes[..k] + classes[k + 1..],
                       map u | u in enrolled :: Without(enrolled[u], classes[k].id))
  {
    var r := classes[..k] + classes[k + 1..];
    var id := classes[k].id;
    forall u, j | u in enrolled && 0 <= j < |Without(enrolled[u], id)|
      ensures IndexOfId(r, Without(enrolled[u], id)[j]).Some?
    {
      var c := Without(enrolled[u], id)[j];
      assert c in Without(enrolled[u], id);
      var m :| 0 <= m < |enrolled[u]| && enrolled[u][m] == c;
      var i := IndexOfId(classes, enrolled[u][m]).value;
      assert i != k;
      assert r[if i < k then i else i - 1] == classes[i];
    }
  }

  function OwnedBy(classes: seq<ClassRow>, teacherId: int): (r: seq<ClassRow>)
    ensures forall x :: x in r <==> x in classes && x.teacherId == Some(teacherId)
  {
    if classes == [] then []
    else (if classes[0].teacherId == Some(teacherId) then [classes[0]] else []) + OwnedBy(classes[1..], teacherId)
  }

  function Without(ids: seq<int>, id: int): (r: seq<int>)
    ensures forall x :: x in r <==> x in ids && x != id
    ensures |r| <= |ids|
  {
    if ids == [] then []
    else (if ids[0] == id then [] else [ids[0]]) + Without(ids[1..], id)
  }

  predicate NoDuplicates(ids: seq<int>)
  {
    forall i, j :: 0 <= i < j < |ids| ==> ids[i] != ids[j]
  }

  lemma {:induction false} WithoutKeepsNoDuplicates(ids: seq<int>, id: int)
    requires NoDuplicates(ids)
    ensures NoDuplicates(Without(ids, id))
  {
    if ids != [] {
      WithoutKeepsNoDuplicates(ids[1..], id);
      var rest := Without(ids[1..], id);
      assert ids[0] !in ids[1..] by {
        assert forall j :: 1 <= j < |ids| ==> ids[j] == ids[1..][j - 1];
      }
      assert ids[0] !in rest;
    }
  }

  /** The `class` table and the `student_class` association. */
  class ClassStore {
    var classes: seq<ClassRow>
    var enrolled: map<int, seq<int>>

    ghost predicate Valid()
      reads this
    {
      && IdsUnique(classes) && CodesUnique(classes)
      && (forall u :: u in enrolled ==> NoDuplicates(enrolled[u]))
      && Enrolments(classes, enrolled)
    }

    constructor ()
      ensures Valid() && classes == [] && enrolled == map[]
    {
      classes, enrolled := [], map[];
    }

    /** `create_class`, lines 25-39, up to the choice of the code: only a
        teacher or an admin passes (403), and the code is held by no class.
        Nothing is stored: see README for the construction line. */
    method CreateClass(caller: User, draws: seq<seq<nat>>) returns (r: ApiResult<string>)
      requires caller.role == Teacher || caller.role == Admin ==>
        (forall k :: 0 <= k < |draws| ==> ValidDraw(draws[k]))
        && exists k :: 0 <= k < |draws| && !CodeTaken(classes, CodeFrom(draws[k]))
      ensures caller.role != Teacher && caller.role != Admin ==> r == Err(403)
      ensures caller.role == Teacher || caller.role == Admin ==>
        r.Ok? && IsClassCode(r.value) && !CodeTaken(classes, r.value)
    {
      if caller.role != Teacher && caller.role != Admin {
        return Err(403);
      }
      var code := PickFreshCode(classes, draws);
      r := Ok(code);
    }

    /** `join_class`, lines 51-69; any role may join. */
    method JoinClass(caller: User, code: string) returns (r: ApiResult<ClassRow>)
      requires Valid()
      modifies this
      ensures Valid()
      ensures !CodeTaken(old(classes), code) ==> r == Err(404)
      ensures CodeTaken(old(classes), code) ==> r != Err(404) && (r.Ok? ==> r.value.classCode == code && r.value in classes)
      ensures r.Err? ==> enrolled == old(enrolled)
      ensures CodeTaken(old(classes), code) ==>
        var row := old(classes)[IndexOfCode(old(classes), code).value];
        && (row.id in EnrolledOf(old(enrolled), caller.id) ==> r == Err(400))
        && (row.id !in EnrolledOf(old(enrolled), caller.id) ==>
              r == Ok(row) && enrolled == old(enrolled)[caller.id := EnrolledOf(old(enrolled), caller.id) + [row.id]])
      ensures classes == old(classes)
    {
      var k := IndexOfCode(classes, code);
      if k.None? {
        return Err(404);
      }
      var row := classes[k.value];
      var mine := EnrolledOf(enrolled, caller.id);
      if row.id in mine {
        return Err(400);
      }
      JoinIsOnce(enrolled, caller.id, row.id);
      assert IndexOfId(classes, row.id).Some?;
      assert forall j :: 0 <= j < |mine| ==> (mine + [row.id])[j] == mine[j];
      enrolled := enrolled[caller.id := mine + [row.id]];
      r := Ok(row);
    }

    /** `regenerate_class_code`, lines 71-95: 404 for an unknown id (the
        first row with it), 403 unless the caller may edit it, and otherwise
        only that row's code changes, to one no class held before. */
    method RegenerateClassCode(caller: User, classId: int, draws: seq<seq<nat>>) returns (r: ApiResult<ClassRow>)
      requires Valid()
      requires forall k :: 0 <= k < |draws| ==> ValidDraw(draws[k])
      requires exists k :: 0 <= k < |draws| && !CodeTaken(classes, CodeFrom(draws[k]))
      modifies this
      ensures Valid() && enrolled == old(enrolled)
      ensures IndexOfId(old(classes), classId).None? ==> r == Err(404) && classes == old(classes)
      ensures IndexOfId(old(classes), classId).Some? ==>
        var k := IndexOfId(old(classes), classId).value;
        && (!MayEdit(caller, old(classes)[k]) ==> r == Err(403) && classes == old(classes))
        && (MayEdit(caller, old(classes)[k]) ==>
              && r.Ok? && classes == old(classes)[k := old(classes)[k].(classCode := r.value.classCode)]
              && r.value == classes[k]
              && IsClassCode(r.value.classCode) && !CodeTaken(old(classes), r.value.classCode))
    {
      var k := IndexOfId(classes, classId);
      if k.None? {
        return Err(404);
      }
      if !MayEdit(caller, classes[k.value]) {
        return Err(403);
      }
      var code := PickFreshCode(classes, draws);
      FreshCodeKeepsUnique(classes, k.value, code);
      SameIdsKeepEnrolments(classes, classes[k.value := classes[k.value].(classCode := code)], enrolled);
      classes := classes[k.value := classes[k.value].(classCode := code)];
      r := Ok(classes[k.value]);
    }

    /** `list_classes`, lines 97-117. */
    function ListClasses(caller: User, skip: nat, limit: nat): (r: seq<ClassRow>)
      reads this
      ensures |r| <= limit
      ensures caller.role == Teacher ==> r == Page(OwnedBy(classes, caller.id), skip, limit)
      ensures caller.role == Teacher ==> forall x :: x in r ==> x.teacherId == Some(caller.id) && x in classes
      ensures caller.role == Student ==> r == Page(RowsOf(classes, EnrolledOf(enrolled, caller.id)), skip, limit)
      ensures caller.role == Student ==> forall x :: x in r ==> x.id in EnrolledOf(enrolled, caller.id) && x in classes
      ensures caller.role == Admin ==> r == Page(classes, skip, limit)
    {
      match caller.role
      case Teacher => PageInside(OwnedBy(classes, caller.id), skip, limit)
      case Student => PageInside(RowsOf(classes, EnrolledOf(enrolled, caller.id)), skip, limit)
      case Admin => Page(classes, skip, limit)
    }

    /** `get_class`, lines 119-128. */
    function GetClass(classId: int): (r: ApiResult<ClassRow>)
      reads this
      ensures r.Err? <==> forall i :: 0 <= i < |classes| ==> classes[i].id != classId
      ensures r.Err? ==> r.status == 404
      ensures r.Ok? ==> r.value in classes && r.value.id == classId
    {
      var k := IndexOfId(classes, classId);
      if k.None? then Err(404) else Ok(classes[k.value])
    }

    /** `update_class`, lines 130-156. `userIds` are the ids the `user`
        table holds (that table is kept by the user endpoints). A new
        `teacher_id` naming no user fails the commit at line 154 on the
        foreign key of backend/app/models/class_model.py:8, a 500 with
        nothing changed. */
    method UpdateClass(caller: User, classId: int, form: ClassUpdate, userIds: set<int>) returns (r: ApiResult<ClassRow>)
      requires Valid()
      modifies this
      ensures Valid() && enrolled == old(enrolled)
      ensures IndexOfId(old(classes), classId).None? ==> r == Err(404) && classes == old(classes)
      ensures IndexOfId(old(classes), classId).Some? ==>
        var k := IndexOfId(old(classes), classId).value;
        var dangling := form.teacherId.Some? && form.teacherId.value !in userIds;
        && (!MayEdit(caller, old(classes)[k]) ==> r == Err(403) && classes == old(classes))
        && (MayEdit(caller, old(classes)[k]) && dangling ==> r == Err(500) && classes == old(classes))
        && (MayEdit(caller, old(classes)[k]) && !dangling ==>
              classes == old(classes)[k := ApplyUpdate(old(classes)[k], form)] && r == Ok(classes[k]))
    {
      var k := IndexOfId(classes, classId);
      if k.None? {
        return Err(404);
      }
      if !MayEdit(caller, classes[k.value]) {
        return Err(403);
      }
      if form.teacherId.Some? && form.teacherId.value !in userIds {
        return Err(500);
      }
      SameIdsKeepEnrolments(classes, classes[k.value := ApplyUpdate(classes[k.value], form)], enrolled);
      classes := classes[k.value := ApplyUpdate(classes[k.value], form)];
      r := Ok(classes[k.value]);
    }

    /** `delete_class`, lines 158-175: the admin check comes before the
        lookup, so a non-admin gets 403 even for an unknown id. The row and
        its enrollments go. */
    method DeleteClass(caller: User, classId: int) returns (r: ApiResult<()>)
      requires Valid()
      modifies this
      ensures Valid()
      ensures caller.role != Admin ==> r == Err(403) && classes == old(classes) && enrolled == old(enrolled)
      ensures caller.role == Admin && IndexOfId(old(classes), classId).None? ==>
        r == Err(404) && classes == old(classes) && enrolled == old(enrolled)
      ensures caller.role == Admin && IndexOfId(old(classes), classId).Some? ==>
        var k := IndexOfId(old(classes), classId).value;
        && r == Ok(())
        && classes == old(classes)[..k] + old(classes)[k + 1..]
        && enrolled == map u | u in old(enrolled) :: Without(old(enrolled)[u], classId)
    {
      if caller.role != Admin {
        return Err(403);
      }
      var k := IndexOfId(classes, classId);
      if k.None? {
        return Err(404);
      }
      DropKeepsUnique(classes, k.value);
      DropKeepsEnrolments(classes, k.value, enrolled);
      classes := classes[..k.value] + classes[k.value + 1..];
      forall u | u in enrolled
        ensures NoDuplicates(Without(enrolled[u], classId))
      {
        WithoutKeepsNoDuplicates(enrolled[u], classId);
      }
      enrolled := map u | u in enrolled :: Without(enrolled[u], classId);
      r := Ok(());
    }
  }

  /** `Page` of a list whose elements all satisfy a property keeps them. */
  function PageInside(s: seq<ClassRow>, skip: nat, limit: nat): (r: seq<ClassRow>)
    ensures r == Page(s, skip, limit)
    ensures forall x :: x in r ==> x in s
  {
    var r := Page(s, skip, limit);
    assert forall i :: 0 <= i < |r| ==> r[i] == s[skip + i];
    r
  }

  lemma DropKeepsUnique(classes: seq<ClassRow>, k: nat)
    requires k < |classes| && IdsUnique(classes) && CodesUnique(classes)
    ensures var r := classes[..k] + classes[k + 1..];
      IdsUnique(r) && CodesUnique(r) && |r| == |classes| - 1
  {
    var r := classes[..k] + classes[k + 1..];
    assert forall i :: 0 <= i < |r| ==> r[i] == classes[if i < k then i else i + 1];
  }

  /** In a consistent store a student sees every class they joined, in the
      order joined: the page is the `[skip:skip+limit]` slice of their
      enrolments, each id as its stored row. */
  lemma StudentSeesEnrolmentOrder(classes: seq<ClassRow>, enrolled: map<int, seq<int>>, userId: int, skip: nat, limit: nat)
    requires Enrolments(classes, enrolled)
    ensures var ids := EnrolledOf(enrolled, userId);
      var r := Page(RowsOf(classes, ids), skip, limit);
      && |r| == |Page(ids, skip, limit)|
      && forall i :: 0 <= i < |r| ==> r[i] == classes[IndexOfId(classes, ids[skip + i]).value]
  {
    var ids := EnrolledOf(enrolled, userId);
    assert AllStored(classes, ids);
  }

  /** A join appends the class at the end of the user's list, so it is then
      enrolled and a second join with the same code is refused; and it keeps
      the list free of duplicates. */
  lemma JoinIsOnce(enrolled: map<int, seq<int>>, userId: int, classId: int)
    requires classId !in EnrolledOf(enrolled, userId) && NoDuplicates(EnrolledOf(enrolled, userId))
    ensures var after := enrolled[userId := EnrolledOf(enrolled, userId) + [classId]];
      && classId in EnrolledOf(after, userId)
      && NoDuplicates(EnrolledOf(after, userId))
      && forall u :: u != userId ==> EnrolledOf(after, u) == EnrolledOf(enrolled, u)
  {
    var mine := EnrolledOf(enrolled, userId);
    assert forall i :: 0 <= i < |mine| ==> mine[i] in mine;
  }
}
