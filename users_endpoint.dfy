/** The user endpoints (backend/app/api/api_v1/endpoints/users.py): the
    admin-only listing, creation and deletion, the admin-or-self update, and
    the avatar upload's file name. The `user` table is a sequence in
    insertion order. Password hashing is symbolic: a row records which
    password it was given. */
module UsersEndpoint {
  import opened Common
  import opened Text

  /** `get_password_hash(password)`, kept symbolic. */
  datatype Digest = HashOf(password: string)

  /** A row of the `user` table. */
  datatype UserRow = UserRow(
    id: int,
    email: string,
    fullName: Option<string>,
    avatarUrl: Option<string>,
    hashedPassword: Digest,
    isActive: bool,
    role: Role)

  /** `schemas.UserCreate`; `role` has already defaulted to student. */
  datatype UserCreate = UserCreate(
    email: string,
    fullName: Option<string>,
    role: Role,
    isActive: Option<bool>,
    avatarUrl: Option<string>,
    password: string)

  /** `schemas.UserUpdate` */
  datatype UserUpdate = UserUpdate(
    email: Option<string>,
    fullName: Option<string>,
    password: Option<string>,
    role: Option<Role>,
    isActive: Option<bool>,
    avatarUrl: Option<string>)

  /** Python truthiness of an optional string: present and non-empty. */
  predicate TruthyString(s: Option<string>)
  {
    s.Some? && s.value != ""
  }

  /** The row `create_user` builds, lines 64-70: `is_active` defaults to
      true, and the requested `avatar_url` is dropped. */
  function NewUser(id: int, form: UserCreate): (r: UserRow)
    ensures r.id == id && r.email == form.email && r.fullName == form.fullName && r.role == form.role
    ensures r.hashedPassword == HashOf(form.password) && r.avatarUrl == None
    ensures form.isActive.None? ==> r.isActive
    ensures form.isActive.Some? ==> r.isActive == form.isActive.value
  {
    UserRow(id, form.email, form.fullName, None, HashOf(form.password),
            if form.isActive.Some? then form.isActive.value else true, form.role)
  }

  /** Lines 92-101: `email`, `full_name`, `role` and `password` are written
      when truthy (a role is never falsy, so whenever given), `is_active`
      whenever not `None`; `avatar_url` and the id never. */
  function ApplyUpdate(row: UserRow, form: UserUpdate): (r: UserRow)
    ensures r.id == row.id && r.avatarUrl == row.avatarUrl
    ensures r.email == (if TruthyString(form.email) then form.email.value else row.email)
    ensures r.fullName == (if TruthyString(form.fullName) then form.fullName else row.fullName)
    ensures r.role == (if form.role.Some? then form.role.value else row.role)
    ensures r.isActive == (if form.isActive.Some? then form.isActive.value else row.isActive)
    ensures r.hashedPassword == (if TruthyString(form.password) then HashOf(form.password.value) else row.hashedPassword)
  {
    var r1 := if TruthyString(form.email) then row.(email := form.email.value) else row;
    var r2 := if TruthyString(form.fullName) then r1.(fullName := form.fullName) else r1;
    var r3 := if form.role.Some? then r2.(role := form.role.value) else r2;
    var r4 := if form.isActive.Some? then r3.(isActive := form.isActive.value) else r3;
    if TruthyString(form.password) then r4.(hashedPassword := HashOf(form.password.value)) else r4
  }

  /** Empty strings and `None` leave a row as it is: a form cannot clear
      the name nor set an empty email or password. */
  lemma FalsyUpdateChangesNothing(row: UserRow, form: UserUpdate)
    requires !TruthyString(form.email) && !TruthyString(form.fullName) && !TruthyString(form.password)
    requires form.role.None? && form.isActive.None?
    ensures ApplyUpdate(row, form) == row
  {
  }

  /** Any user may update their own row, role included: a student can make
      themself an admin. */
  lemma SelfUpdateMayPromote(row: UserRow)
    requires row.role == Student
    ensures MayUpdate(row.id, row.role, row.id)
    ensures ApplyUpdate(row, UserUpdate(None, None, None, Some(Admin), None, None)).role == Admin
  {
  }

  /** The permission check of line 84. */
  predicate MayUpdate(callerId: int, callerRole: Role, target: int)
  {
    callerRole == Admin || callerId == target
  }

  function IndexOfId(rows: seq<UserRow>, id: int): (r: Option<nat>)
    ensures r.None? <==> forall i :: 0 <= i < |rows| ==> rows[i].id != id
    ensures r.Some? ==> r.value < |rows| && rows[r.value].id == id
  {
    if rows == [] then None
    else if rows[0].id == id then Some(0)
    else
      var t := IndexOfId(rows[1..], id);
      assert forall i :: 1 <= i < |rows| ==> rows[i] == rows[1..][i - 1];
      if t.None? then None else Some(t.value + 1)
  }

  predicate EmailTaken(rows: seq<UserRow>, email: string)
  {
    exists i :: 0 <= i < |rows| && rows[i].email == email
  }

  function IndexOfEmail(rows: seq<UserRow>, email: string): (r: Option<nat>)
    ensures r.None? <==> !EmailTaken(rows, email)
    ensures r.Some? ==> r.value < |rows| && rows[r.value].email == email
  {
    if rows == [] then None
    else if rows[0].email == email then Some(0)
    else
      var t := IndexOfEmail(rows[1..], email);
      assert forall i :: 1 <= i < |rows| ==> rows[i] == rows[1..][i - 1];
      if t.None? then None else Some(t.value + 1)
  }

  predicate IdsUnique(rows: seq<UserRow>)
  {
    forall i, j :: 0 <= i < j < |rows| ==> rows[i].id != rows[j].id
  }

  /** The `unique=True` constraint on `email`. */
  predicate EmailsUnique(rows: seq<UserRow>)
  {
    forall i, j :: 0 <= i < j < |rows| ==> rows[i].email != rows[j].email
  }

  /** Whether writing `row` at `k` would break the email constraint. */
  predicate EmailClash(rows: seq<UserRow>, k: nat, email: string)
  {
    exists i :: 0 <= i < |rows| && i != k && rows[i].email == email
  }

  /** A row written back with an email no other row holds keeps the emails
      unique. */
  lemma ReplaceKeepsUnique(rows: seq<UserRow>, k: nat, row: UserRow)
    requires k < |rows| && IdsUnique(rows) && EmailsUnique(rows)
    requires row.id == rows[k].id && !EmailClash(rows, k, row.email)
    ensures IdsUnique(rows[k := row]) && EmailsUnique(rows[k := row])
  {
    var r := rows[k := row];
    forall i, j | 0 <= i < j < |r|
      ensures r[i].email != r[j].email
    {
      if i == k {
        assert rows[j].email != row.email;
      } else if j == k {
        assert rows[i].email != row.email;
      }
    }
  }

  lemma DropKeepsUnique(rows: seq<UserRow>, k: nat)
    requires k < |rows| && IdsUnique(rows) && EmailsUnique(rows)
    ensures var r := rows[..k] + rows[k + 1..];
      IdsUnique(r) && EmailsUnique(r) && |r| == |rows| - 1
  {
    var r := rows[..k] + rows[k + 1..];
    assert forall i :: 0 <= i < |r| ==> r[i] == rows[if i < k then i else i + 1];
  }

  /** Line 139: the text after the last `.`, or "jpg" for a name without
      one. */
  function AvatarExtension(filename: string): (ext: string)
    ensures '.' !in ext
    ensures '.' !in filename ==> ext == "jpg"
    ensures '.' in filename ==> exists p :: filename == p + "." + ext
  {
    if '.' in filename then
      var ext := AfterLast(filename, '.');
      assert filename == filename[..|filename| - |ext| - 1] + "." + ext by {
        AfterLastWhole(filename, '.');
      }
      ext
    else "jpg"
  }

  /** The extension is determined by what follows the last dot, whatever
      comes before it. */
  lemma AvatarExtensionOfConcat(p: string, ext: string)
    requires '.' !in ext
    ensures AvatarExtension(p + "." + ext) == ext
  {
    AfterLastConcat(p, '.', ext);
    assert (p + "." + ext)[|p|] == '.';
  }

  /** Line 140: `static/avatars/<user id>_<timestamp>.<extension>`; the
      stored URL is that path behind a `/`. */
  function AvatarUrl(userId: int, stamp: string, filename: string): (u: string)
    ensures StartsWith(u, "/static/avatars/")
  {
    StartsWithConcat("/static/avatars/", IntToString(userId) + "_" + stamp + "." + AvatarExtension(filename));
    "/static/avatars/" + (IntToString(userId) + "_" + stamp + "." + AvatarExtension(filename))
  }

  class UserStore {
    var rows: seq<UserRow>
    var nextId: int

    ghost predicate Valid()
      reads this
    {
      && IdsUnique(rows) && EmailsUnique(rows)
      && forall i :: 0 <= i < |rows| ==> rows[i].id < nextId
    }

    constructor ()
      ensures Valid() && rows == [] && nextId == 1
    {
      rows, nextId := [], 1;
    }

    /** `list_users`, lines 15-27: admins only. */
    function ListUsers(callerRole: Role, skip: nat, limit: nat): (r: ApiResult<seq<UserRow>>)
      reads this
      ensures callerRole != Admin <==> r == Err(403)
      ensures r.Ok? ==> r.value == Page(rows, skip, limit)
    {
      if callerRole != Admin then Err(403) else Ok(Page(rows, skip, limit))
    }

    /** `get_user`, lines 38-47: any signed-in user may read any row. */
    function GetUser(userId: int): (r: ApiResult<UserRow>)
      reads this
      ensures r.Err? <==> forall i :: 0 <= i < |rows| ==> rows[i].id != userId
      ensures r.Err? ==> r.status == 404
      ensures r.Ok? ==> r.value in rows && r.value.id == userId
    {
      var k := IndexOfId(rows, userId);
      if k.None? then Err(404) else Ok(rows[k.value])
    }

    /** `create_user`, lines 49-74. */
    method CreateUser(callerRole: Role, form: UserCreate) returns (r: ApiResult<UserRow>)
      requires Valid()
      modifies this
      ensures Valid()
      ensures callerRole != Admin ==> r == Err(403) && rows == old(rows) && nextId == old(nextId)
      ensures callerRole == Admin && EmailTaken(old(rows), form.email) ==>
        r == Err(400) && rows == old(rows) && nextId == old(nextId)
      ensures callerRole == Admin && !EmailTaken(old(rows), form.email) ==>
        && r == Ok(NewUser(old(nextId), form))
        && rows == old(rows) + [r.value] && nextId == old(nextId) + 1
    {
      if callerRole != Admin {
        return Err(403);
      }
      if IndexOfEmail(rows, form.email).Some? {
        return Err(400);
      }
      var row := NewUser(nextId, form);
      rows := rows + [row];
      nextId := nextId + 1;
      r := Ok(row);
    }

    /** `update_user`, lines 76-105. An email held by another row makes the
        commit fail on the unique constraint (500), and nothing changes. */
    method UpdateUser(callerId: int, callerRole: Role, userId: int, form: UserUpdate) returns (r: ApiResult<UserRow>)
      requires Valid()
      modifies this
      ensures Valid() && nextId == old(nextId)
      ensures !MayUpdate(callerId, callerRole, userId) ==> r == Err(403) && rows == old(rows)
      ensures MayUpdate(callerId, callerRole, userId) && IndexOfId(old(rows), userId).None? ==>
        r == Err(404) && rows == old(rows)
      ensures MayUpdate(callerId, callerRole, userId) && IndexOfId(old(rows), userId).Some? ==>
        var k := IndexOfId(old(rows), userId).value;
        var row := ApplyUpdate(old(rows)[k], form);
        && (EmailClash(old(rows), k, row.email) ==> r == Err(500) && rows == old(rows))
        && (!EmailClash(old(rows), k, row.email) ==> r == Ok(row) && rows == old(rows)[k := row])
    {
      if !MayUpdate(callerId, callerRole, userId) {
        return Err(403);
      }
      var k := IndexOfId(rows, userId);
      if k.None? {
        return Err(404);
      }
      var row := ApplyUpdate(rows[k.value], form);
      var clash := exists i :: 0 <= i < |rows| && i != k.value && rows[i].email == row.email;
      if clash {
        return Err(500);
      }
      ReplaceKeepsUnique(rows, k.value, row);
      rows := rows[k.value := row];
      r := Ok(row);
    }

    /** `delete_user`, lines 107-123: the deleted row is returned.
        `hasSubmissions` says whether a row of the `submission` table (kept
        by the submission endpoints) names the user. `db.delete` then nulls
        that row's `student_id` through the `submissions` backref
        (backend/app/models/submission.py:17), but the column is NOT NULL
        (line 9 there), so the commit at line 122 fails: a 500 with nothing
        deleted. */
    method DeleteUser(callerRole: Role, userId: int, hasSubmissions: bool) returns (r: ApiResult<UserRow>)
      requires Valid()
      modifies this
      ensures Valid() && nextId == old(nextId)
      ensures callerRole != Admin ==> r == Err(403) && rows == old(rows)
      ensures callerRole == Admin && IndexOfId(old(rows), userId).None? ==> r == Err(404) && rows == old(rows)
      ensures callerRole == Admin && IndexOfId(old(rows), userId).Some? && hasSubmissions ==>
        r == Err(500) && rows == old(rows)
      ensures callerRole == Admin && IndexOfId(old(rows), userId).Some? && !hasSubmissions ==>
        var k := IndexOfId(old(rows), userId).value;
        r == Ok(old(rows)[k]) && rows == old(rows)[..k] + old(rows)[k + 1..]
      ensures r.Ok? ==> forall i :: 0 <= i < |rows| ==> rows[i].id != userId
    {
      if callerRole != Admin {
        return Err(403);
      }
      var k := IndexOfId(rows, userId);
      if k.None? {
        return Err(404);
      }
      if hasSubmissions {
        return Err(500);
      }
      r := Ok(rows[k.value]);
      DropKeepsUnique(rows, k.value);
      ghost var before := rows;
      rows := rows[..k.value] + rows[k.value + 1..];
      assert forall i :: 0 <= i < |rows| ==> rows[i] == before[if i < k.value then i else i + 1];
    }

    /** `upload_avatar`, lines 125-152, for the signed-in user's own row.
        `writeOk` says whether the file write of lines 143-144 succeeds; a
        failed write raises, a 500 with the row unchanged. Otherwise only
        the row's `avatar_url` changes, and the URL is returned. */
    method UploadAvatar(callerId: int, stamp: string, filename: string, writeOk: bool) returns (r: ApiResult<string>)
      requires Valid() && IndexOfId(rows, callerId).Some?
      modifies this
      ensures Valid() && nextId == old(nextId)
      ensures !writeOk ==> r == Err(500) && rows == old(rows)
      ensures writeOk ==>
        var k := IndexOfId(old(rows), callerId).value;
        && r == Ok(AvatarUrl(callerId, stamp, filename))
        && rows == old(rows)[k := old(rows)[k].(avatarUrl := Some(r.value))]
    {
      if !writeOk {
        return Err(500);
      }
      var k := IndexOfId(rows, callerId).value;
      var url := AvatarUrl(callerId, stamp, filename);
      var row := rows[k].(avatarUrl := Some(url));
      assert !EmailClash(rows, k, row.email);
      ReplaceKeepsUnique(rows, k, row);
      rows := rows[k := row];
      r := Ok(url);
    }
  }
}
