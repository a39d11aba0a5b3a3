/** The admin's user-management page (frontend/src/pages/AdminDashboard.tsx):
    the search filter, the role and status labels, the add/edit form and the
    requests it sends. Requests are recorded in order; a request's success
    or failure is a parameter, and the refetch after success is left to the
    caller (it replaces `users` via `SetUsers`). */
module AdminDashboard {
  import opened Common
  import opened Text
  import UsersEndpoint

  /** The page's `User` interface. */
  datatype ListedUser = ListedUser(id: int, email: string, fullName: string, role: string, isActive: bool)

  /** The search rule, lines 126-129: the lower-cased term occurs in the
      lower-cased name or email. */
  predicate Matches(u: ListedUser, term: string)
  {
    Contains(ToLower(u.fullName), ToLower(term)) || Contains(ToLower(u.email), ToLower(term))
  }

  /** `filteredUsers`: the matching users, in list order. */
  function FilteredUsers(users: seq<ListedUser>, term: string): (r: seq<ListedUser>)
    ensures forall u :: u in r <==> u in users && Matches(u, term)
    ensures |r| <= |users|
  {
    if users == [] then []
    else (if Matches(users[0], term) then [users[0]] else []) + FilteredUsers(users[1..], term)
  }

  /** An empty search term shows every user, in the original order. */
  lemma {:induction false} EmptyTermShowsAll(users: seq<ListedUser>)
    ensures FilteredUsers(users, "") == users
  {
    if users != [] {
      var n := ToLower(users[0].fullName);
      assert OccursAt(n, ToLower(""), 0);
      EmptyTermShowsAll(users[1..]);
    }
  }

  /** A list whose every user matches is its own filter. */
  lemma {:induction false} AllMatchingKept(users: seq<ListedUser>, term: string)
    requires forall i :: 0 <= i < |users| ==> Matches(users[i], term)
    ensures FilteredUsers(users, term) == users
  {
    if users != [] {
      assert Matches(users[0], term);
      assert forall i :: 1 <= i < |users| ==> users[i] == users[1..][i - 1];
      AllMatchingKept(users[1..], term);
    }
  }

  /** Filtering twice by the same term is filtering once. */
  lemma FilterIdempotent(users: seq<ListedUser>, term: string)
    ensures FilteredUsers(FilteredUsers(users, term), term) == FilteredUsers(users, term)
  {
    var r := FilteredUsers(users, term);
    assert forall i :: 0 <= i < |r| ==> r[i] in r;
    AllMatchingKept(r, term);
  }

  /** `getRoleBadgeVariant`, lines 131-135. */
  function RoleBadge(role: string): (b: string)
    ensures b == "destructive" <==> role == "admin"
    ensures b == "default" <==> role == "teacher"
    ensures b == "secondary" <==> role != "admin" && role != "teacher"
  {
    if role == "admin" then "destructive" else if role == "teacher" then "default" else "secondary"
  }

  const AdminLabel: string := "Quản trị"
  const TeacherLabel: string := "Giáo viên"
  const StudentLabel: string := "Học sinh"

  /** `getRoleLabel`, lines 137-141: any role but admin and teacher gets the
      student label. */
  function RoleLabel(role: string): (l: string)
    ensures l == AdminLabel <==> role == "admin"
    ensures l == TeacherLabel <==> role == "teacher"
    ensures l == StudentLabel <==> role != "admin" && role != "teacher"
  {
    assert AdminLabel != TeacherLabel && AdminLabel != StudentLabel && TeacherLabel != StudentLabel by {
      assert AdminLabel[0] == 'Q' && TeacherLabel[0] == 'G' && StudentLabel[0] == 'H';
    }
    if role == "admin" then AdminLabel else if role == "teacher" then TeacherLabel else StudentLabel
  }

  /** `getStatusLabel`, lines 143-145. */
  function StatusLabel(isActive: bool): (l: string)
    ensures isActive <==> l == "Hoạt động"
    ensures !isActive <==> l == "Tạm ngưng"
  {
    if isActive then "Hoạt động" else "Tạm ngưng"
  }

  /** `formData` */
  datatype FormData = FormData(email: string, password: string, fullName: string, role: string, isActive: bool)

  /** `resetForm`'s values, lines 57-66. */
  const DefaultForm := FormData("", "", "", "student", true)

  /** The form's inputs, by their `name`. */
  datatype Field = EmailField | PasswordField | FullNameField | RoleField | IsActiveField

  /** `handleInputChange`, lines 49-55: the named field takes the raw
      string, except `is_active`, which takes `value === 'true'`. */
  function InputChange(f: FormData, name: Field, value: string): (r: FormData)
    ensures name == IsActiveField ==> r == f.(isActive := value == "true")
    ensures name == EmailField ==> r == f.(email := value)
    ensures name == PasswordField ==> r == f.(password := value)
    ensures name == FullNameField ==> r == f.(fullName := value)
    ensures name == RoleField ==> r == f.(role := value)
  {
    match name
    case EmailField => f.(email := value)
    case PasswordField => f.(password := value)
    case FullNameField => f.(fullName := value)
    case RoleField => f.(role := value)
    case IsActiveField => f.(isActive := value == "true")
  }

  /** Only the string "true" activates; "false", "" and anything else
      deactivates. */
  lemma IsActiveOnlyFromTrue(f: FormData, value: string)
    ensures InputChange(f, IsActiveField, value).isActive <==> value == "true"
    ensures InputChange(f, IsActiveField, "True").isActive == false
  {
    assert "True" != "true" by { assert "True"[0] != "true"[0]; }
  }

  /** The body of the update request, lines 112-113: the form, less the
      password when it is empty. */
  datatype UpdatePayload = UpdatePayload(email: string, password: Option<string>, fullName: string, role: string, isActive: bool)

  function PayloadOf(f: FormData): (p: UpdatePayload)
    ensures p.password.None? <==> f.password == ""
    ensures p.password.Some? ==> p.password.value == f.password
    ensures p.email == f.email && p.fullName == f.fullName && p.role == f.role && p.isActive == f.isActive
  {
    UpdatePayload(f.email, if f.password == "" then None else Some(f.password), f.fullName, f.role, f.isActive)
  }

  /** How the backend reads that body (`schemas.UserUpdate`); a role outside
      the three would be refused by validation. */
  function AsUserUpdate(p: UpdatePayload): UsersEndpoint.UserUpdate
  {
    UsersEndpoint.UserUpdate(Some(p.email), Some(p.fullName), p.password, RoleOf(p.role), Some(p.isActive), None)
  }

  /** Editing a user without typing a password keeps their password, and
      the edit writes the form's activity flag. */
  lemma EditKeepsPassword(row: UsersEndpoint.UserRow, f: FormData)
    requires f.password == ""
    ensures UsersEndpoint.ApplyUpdate(row, AsUserUpdate(PayloadOf(f))).hashedPassword == row.hashedPassword
    ensures UsersEndpoint.ApplyUpdate(row, AsUserUpdate(PayloadOf(f))).isActive == f.isActive
  {
  }

  datatype Request = PostUser(form: FormData) | PutUser(userId: int, payload: UpdatePayload) | DeleteUser(userId: int)

  datatype AdminState = AdminState(
    users: seq<ListedUser>,
    searchTerm: string,
    showAddModal: bool,
    showEditModal: bool,
    currentUser: Option<ListedUser>,
    form: FormData,
    requests: seq<Request>)

  function Reset(st: AdminState): (r: AdminState)
    ensures r.form == DefaultForm && r.currentUser.None?
  {
    st.(form := DefaultForm, currentUser := None)
  }

  /** `handleEditClick`, lines 82-92: the user's fields, an empty password. */
  function EditClick(st: AdminState, u: ListedUser): (r: AdminState)
    ensures r.form == FormData(u.email, "", u.fullName, u.role, u.isActive)
    ensures r.currentUser == Some(u) && r.showEditModal
    ensures r.users == st.users && r.requests == st.requests
  {
    st.(currentUser := Some(u), form := FormData(u.email, "", u.fullName, u.role, u.isActive), showEditModal := true)
  }

  /** `!currentUser.id`: no user picked, or an id of 0. */
  predicate HasTarget(st: AdminState)
  {
    st.currentUser.Some? && st.currentUser.value.id != 0
  }

  /** `handleUpdateUser`, lines 107-124: nothing without a target; else the
      request is sent, and on success the modal closes and the form resets. */
  function Update(st: AdminState, succeeded: bool): (r: AdminState)
    ensures !HasTarget(st) ==> r == st
    ensures HasTarget(st) ==> r.requests == st.requests + [PutUser(st.currentUser.value.id, PayloadOf(st.form))]
    ensures HasTarget(st) && succeeded ==> !r.showEditModal && r.form == DefaultForm && r.currentUser.None?
    ensures HasTarget(st) && !succeeded ==> r == st.(requests := r.requests)
  {
    if !HasTarget(st) then st
    else
      var sent := st.(requests := st.requests + [PutUser(st.currentUser.value.id, PayloadOf(st.form))]);
      if succeeded then Reset(sent.(showEditModal := false)) else sent
  }

  /** `handleAddUser`, lines 68-80: the whole form is posted, password
      included. */
  function Add(st: AdminState, succeeded: bool): (r: AdminState)
    ensures r.requests == st.requests + [PostUser(st.form)]
    ensures succeeded ==> !r.showAddModal && r.form == DefaultForm
    ensures !succeeded ==> r == st.(requests := r.requests)
  {
    var sent := st.(requests := st.requests + [PostUser(st.form)]);
    if succeeded then Reset(sent.(showAddModal := false)) else sent
  }

  /** `handleDeleteUser`, lines 94-105: only once the dialog is confirmed. */
  function Delete(st: AdminState, userId: int, confirmed: bool): (r: AdminState)
    ensures !confirmed ==> r == st
    ensures confirmed ==> r == st.(requests := st.requests + [DeleteUser(userId)])
  {
    if confirmed then st.(requests := st.requests + [DeleteUser(userId)]) else st
  }

  /** Opening a user and saving without changes sends that user's own
      fields and no password. */
  lemma EditThenSaveSendsUser(st: AdminState, u: ListedUser, succeeded: bool)
    requires u.id != 0
    ensures var r := Update(EditClick(st, u), succeeded);
      r.requests == st.requests + [PutUser(u.id, UpdatePayload(u.email, None, u.fullName, u.role, u.isActive))]
  {
  }

  class AdminPage {
    var users: seq<ListedUser>
    var searchTerm: string
    var showAddModal: bool
    var showEditModal: bool
    var currentUser: Option<ListedUser>
    var form: FormData
    var requests: seq<Request>

    function State(): AdminState
      reads this
    {
      AdminState(users, searchTerm, showAddModal, showEditModal, currentUser, form, requests)
    }

    constructor ()
      ensures State() == AdminState([], "", false, false, None, DefaultForm, [])
    {
      users, searchTerm, showAddModal, showEditModal := [], "", false, false;
      currentUser, form, requests := None, DefaultForm, [];
    }

    /** `fetchUsers`'s response. */
    method SetUsers(fetched: seq<ListedUser>)
      modifies this
      ensures State() == old(State()).(users := fetched)
    {
      users := fetched;
    }

    method SetSearchTerm(term: string)
      modifies this
      ensures State() == old(State()).(searchTerm := term)
    {
      searchTerm := term;
    }

    method OpenAdd()
      modifies this
      ensures State() == Reset(old(State())).(showAddModal := true)
    {
      ResetForm();
      showAddModal := true;
    }

    method ResetForm()
      modifies this
      ensures State() == Reset(old(State()))
    {
      form := DefaultForm;
      currentUser := None;
    }

    method HandleEditClick(u: ListedUser)
      modifies this
      ensures State() == EditClick(old(State()), u)
    {
      currentUser := Some(u);
      form := FormData(u.email, "", u.fullName, u.role, u.isActive);
      showEditModal := true;
    }

    method HandleInputChange(name: Field, value: string)
      modifies this
      ensures State() == old(State()).(form := InputChange(old(form), name, value))
    {
      form := InputChange(form, name, value);
    }

    method HandleUpdateUser(succeeded: bool)
      modifies this
      ensures State() == Update(old(State()), succeeded)
    {
      if currentUser.None? || currentUser.value.id == 0 {
        return;
      }
      var payload := PayloadOf(form);
      requests := requests + [PutUser(currentUser.value.id, payload)];
      if succeeded {
        showEditModal := false;
        ResetForm();
      }
    }

    method HandleAddUser(succeeded: bool)
      modifies this
      ensures State() == Add(old(State()), succeeded)
    {
      requests := requests + [PostUser(form)];
      if succeeded {
        showAddModal := false;
        ResetForm();
      }
    }

    method HandleDeleteUser(userId: int, confirmed: bool)
      modifies this
      ensures State() == Delete(old(State()), userId, confirmed)
    {
      if !confirmed {
        return;
      }
      requests := requests + [DeleteUser(userId)];
    }

    /** The rows the table shows. */
    function Shown(): (r: seq<ListedUser>)
      reads this
      ensures r == FilteredUsers(users, searchTerm)
    {
      FilteredUsers(users, searchTerm)
    }
  }
}
