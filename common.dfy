/** Shared vocabulary of the model: optional values, the backend's user roles,
    the outcome of an HTTP endpoint, and SQL/Python offset-limit paging. */
module Common {

  datatype Option<+T> = None | Some(value: T)

  /** `UserRole` in backend/app/models/user.py; its values are the strings
      "teacher", "student" and "admin". */
  datatype Role = Teacher | Student | Admin

  function RoleName(r: Role): (s: string)
  {
    match r
    case Teacher => "teacher"
    case Student => "student"
    case Admin => "admin"
  }

  /** The role a string names, if any (the enum's value lookup). */
  function RoleOf(s: string): (r: Option<Role>)
    ensures r.Some? ==> RoleName(r.value) == s
    ensures r.None? ==> s != "teacher" && s != "student" && s != "admin"
  {
    if s == "teacher" then Some(Teacher)
    else if s == "student" then Some(Student)
    else if s == "admin" then Some(Admin)
    else None
  }

  lemma RoleNameRoundTrip(r: Role)
    ensures RoleOf(RoleName(r)) == Some(r)
  {
  }

  /** What an endpoint returns: its value, or the HTTPException it raises. */
  datatype ApiResult<+T> = Ok(value: T) | Err(status: nat)

  /** `.offset(skip).limit(limit)` of a query, and Python's `xs[skip:skip + limit]`
      on a list, for non-negative `skip` and `limit`. */
  function Page<T>(s: seq<T>, skip: nat, limit: nat): (r: seq<T>)
    ensures |r| <= limit
    ensures skip <= |s| ==> |r| == if skip + limit <= |s| then limit else |s| - skip
    ensures skip >= |s| ==> r == []
    ensures forall i :: 0 <= i < |r| ==> skip + i < |s| && r[i] == s[skip + i]
  {
    var lo := if skip <= |s| then skip else |s|;
    var hi := if skip + limit <= |s| then skip + limit else |s|;
    s[lo..hi]
  }

  /** Every element of `Page(s, ...)` is an element of `s`. */
  lemma PageSubset<T>(s: seq<T>, skip: nat, limit: nat, x: T)
    requires x in Page(s, skip, limit)
    ensures x in s
  {
    var r := Page(s, skip, limit);
    var i :| 0 <= i < |r| && r[i] == x;
    assert s[skip + i] == x;
  }

  /** The prefix one element longer: the prefix, then that element. */
  lemma PrefixSnoc<T>(s: seq<T>, i: nat)
    requires i < |s|
    ensures s[..i + 1] == s[..i] + [s[i]]
    ensures s[..i + 1][..|s[..i + 1]| - 1] == s[..i]
    ensures s[..i + 1][|s[..i + 1]| - 1] == s[i]
  {
    assert s[..i + 1][..i] == s[..i];
  }

  lemma AppendAssoc<T>(a: seq<T>, b: seq<T>, c: seq<T>)
    ensures (a + b) + c == a + (b + c)
  {
  }
}
