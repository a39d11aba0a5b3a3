/** The dashboard shell (frontend/src/layouts/DashboardLayout.tsx): the role
    it renders for, the sidebar items and which is active, the header title,
    logging out, and the inactivity timer. Time is integer milliseconds; the
    browser's timer firing at a deadline is a `Tick` at some time at or
    after it. */
module DashboardLayout {
  import opened Common
  import opened Text

  /** Line 29: the prop, else the stored role, else "student". JavaScript's
      `||` skips an empty string too; the stored string is not checked
      against the three roles. */
  function EffectiveRole(prop: Option<string>, stored: Option<string>): (r: string)
    ensures r != ""
    ensures prop.Some? && prop.value != "" ==> r == prop.value
    ensures (prop.None? || prop.value == "") && stored.Some? && stored.value != "" ==> r == stored.value
    ensures (prop.None? || prop.value == "") && (stored.None? || stored.value == "") ==> r == "student"
  {
    if prop.Some? && prop.value != "" then prop.value
    else if stored.Some? && stored.value != "" then stored.value
    else "student"
  }

  datatype SidebarItem = SidebarItem(caption: string, path: string)

  const SettingsItem := SidebarItem("Cài đặt", "/settings")

  /** `getSidebarItems`, lines 89-116: any role other than admin and
      teacher gets the student's items. */
  function SidebarItems(role: string): (r: seq<SidebarItem>)
    ensures |r| == 4 && r[3] == SettingsItem
    ensures role == "admin" ==> [r[0].path, r[1].path, r[2].path] == ["/admin-dashboard", "/admin/classes", "/admin/files"]
    ensures role == "teacher" ==> [r[0].path, r[1].path, r[2].path] == ["/teacher-dashboard", "/assignments", "/chat"]
    ensures role != "admin" && role != "teacher" ==> [r[0].path, r[1].path, r[2].path] == ["/student-dashboard", "/assignments", "/chat"]
  {
    if role == "admin" then
      [SidebarItem("Quản lý Người dùng", "/admin-dashboard"),
       SidebarItem("Quản lý Lớp học", "/admin/classes"),
       SidebarItem("Quản lý Tài liệu", "/admin/files"),
       SettingsItem]
    else if role == "teacher" then
      [SidebarItem("Lớp học", "/teacher-dashboard"),
       SidebarItem("Bài tập", "/assignments"),
       SidebarItem("Tin nhắn", "/chat"),
       SettingsItem]
    else
      [SidebarItem("Lớp học", "/student-dashboard"),
       SidebarItem("Bài tập", "/assignments"),
       SidebarItem("Tin nhắn", "/chat"),
       SettingsItem]
  }

  /** The highlight rule, line 136. */
  predicate IsActive(pathname: string, itemPath: string)
  {
    pathname == itemPath
    || (itemPath != "/teacher-dashboard" && itemPath != "/student-dashboard" && StartsWith(pathname, itemPath))
  }

  /** A dashboard item is active only on its own path; any other item is
      active on every path it prefixes, including paths that merely
      continue its last word. */
  lemma ActiveRule(itemPath: string, rest: string)
    ensures IsActive("/teacher-dashboard" + rest, "/teacher-dashboard") <==> rest == ""
    ensures itemPath != "/teacher-dashboard" && itemPath != "/student-dashboard" ==> IsActive(itemPath + rest, itemPath)
  {
    StartsWithConcat(itemPath, rest);
    if rest != "" {
      assert "/teacher-dashboard" + rest != "/teacher-dashboard" by {
        assert |"/teacher-dashboard" + rest| > |"/teacher-dashboard"|;
      }
    }
  }

  /** Item `k` is the first active one. */
  predicate FirstActiveAt(items: seq<SidebarItem>, pathname: string, k: int)
  {
    && 0 <= k < |items| && IsActive(pathname, items[k].path)
    && forall i :: 0 <= i < k ==> !IsActive(pathname, items[i].path)
  }

  /** `sidebarItems.find(...)` with the rule above. */
  function FirstActive(items: seq<SidebarItem>, pathname: string): (r: Option<SidebarItem>)
    ensures r.None? <==> forall i :: 0 <= i < |items| ==> !IsActive(pathname, items[i].path)
    ensures r.Some? ==> exists k :: FirstActiveAt(items, pathname, k) && items[k] == r.value
  {
    if items == [] then None
    else if IsActive(pathname, items[0].path) then
      assert FirstActiveAt(items, pathname, 0);
      Some(items[0])
    else
      var t := FirstActive(items[1..], pathname);
      assert forall i :: 1 <= i < |items| ==> items[i] == items[1..][i - 1];
      if t.Some? then
        var k :| FirstActiveAt(items[1..], pathname, k) && items[1..][k] == t.value;
        assert FirstActiveAt(items, pathname, k + 1);
        t
      else None
  }

  const ClassDetailTitle: string := "Chi tiết Lớp học"
  const DefaultTitle: string := "Bảng điều khiển"

  /** The header title, lines 163-165. */
  function HeaderTitle(pathname: string, items: seq<SidebarItem>): (t: string)
    ensures StartsWith(pathname, "/class/") ==> t == ClassDetailTitle
    ensures !StartsWith(pathname, "/class/") && FirstActive(items, pathname).Some? && FirstActive(items, pathname).value.caption != "" ==>
      t == FirstActive(items, pathname).value.caption
    ensures !StartsWith(pathname, "/class/") && FirstActive(items, pathname).None? ==> t == DefaultTitle
  {
    if StartsWith(pathname, "/class/") then ClassDetailTitle
    else
      var f := FirstActive(items, pathname);
      if f.Some? && f.value.caption != "" then f.value.caption else DefaultTitle
  }

  /** On a sub-page of the teacher's dashboard no item is active, so the
      title is the default one. */
  lemma TeacherSubpageTitle()
    ensures HeaderTitle("/teacher-dashboard/x", SidebarItems("teacher")) == DefaultTitle
  {
    var items := SidebarItems("teacher");
    var p := "/teacher-dashboard/x";
    assert p == "/teacher-dashboard" + "/x";
    ActiveRule("/teacher-dashboard", "/x");
    assert !StartsWith(p, "/class/") by { assert p[1] != "/class/"[1]; }
    forall i | 1 <= i < 4
      ensures !IsActive(p, items[i].path)
    {
      assert p[1] != items[i].path[1];
    }
    assert FirstActive(items, p).None?;
  }

  /** On the settings page the title is the settings caption, for every
      role. */
  lemma SettingsTitle(role: string)
    ensures HeaderTitle("/settings", SidebarItems(role)) == SettingsItem.caption
  {
    var items := SidebarItems(role);
    var s := "/settings";
    assert !StartsWith(s, "/class/") by { assert s[2] != "/class/"[2]; }
    forall i | 0 <= i < 3
      ensures !IsActive(s, items[i].path)
    {
      assert s[3] != items[i].path[3];
    }
    assert IsActive(s, items[3].path);
    assert FirstActiveAt(items, s, 3);
  }

  /** What the layout keeps: `sessionStorage`, the location, whether it is
      mounted, and the pending timeout's deadline. */
  datatype LayoutState = LayoutState(storage: map<string, string>, location: string, mounted: bool, deadline: Option<nat>)

  /** `INACTIVITY_LIMIT`, line 49. */
  const InactivityLimit: nat := 5 * 60 * 1000

  const TrackedEvents: set<string> := {"mousedown", "mousemove", "keypress", "scroll", "touchstart"}

  /** `handleLogout`, lines 40-44. */
  function Logout(st: LayoutState): (r: LayoutState)
    ensures r.location == "/login"
    ensures "access_token" !in r.storage && "userRole" !in r.storage
    ensures forall k :: k in st.storage && k != "access_token" && k != "userRole" ==> k in r.storage && r.storage[k] == st.storage[k]
    ensures forall k :: k in r.storage ==> k in st.storage
  {
    st.(storage := st.storage - {"access_token", "userRole"}, location := "/login")
  }

  datatype Event = Mount(at: nat) | Activity(name: string, at: nat) | Tick(at: nat) | LogoutClick | Unmount

  /** The effect of lines 47-76 and the logout button. Mounting arms the
      timer; a tracked event on a mounted layout re-arms it; a tick at or
      past the deadline logs out, and leaving for the login page unmounts
      the layout, whose cleanup clears the timer. */
  function Step(st: LayoutState, e: Event): LayoutState
  {
    match e
    case Mount(t) => st.(mounted := true, deadline := Some(t + InactivityLimit))
    case Activity(name, t) =>
      if st.mounted && name in TrackedEvents then st.(deadline := Some(t + InactivityLimit)) else st
    case Tick(t) =>
      if st.mounted && st.deadline.Some? && t >= st.deadline.value
      then Logout(st).(mounted := false, deadline := None)
      else st
    case LogoutClick => Logout(st).(mounted := false, deadline := None)
    case Unmount => st.(mounted := false, deadline := None)
  }

  function Run(st: LayoutState, es: seq<Event>): LayoutState
  {
    if es == [] then st else Step(Run(st, es[..|es| - 1]), es[|es| - 1])
  }

  /** The time of the last tracked activity among `es`, or `since`. */
  function LastActive(since: nat, es: seq<Event>): nat
  {
    if es == [] then since
    else
      var e := es[|es| - 1];
      if e.Activity? && e.name in TrackedEvents then e.at else LastActive(since, es[..|es| - 1])
  }

  predicate AllActivity(es: seq<Event>)
  {
    forall i :: 0 <= i < |es| ==> es[i].Activity?
  }

  /** Each tracked event restarts the countdown, other events leave it: the
      deadline is the last activity plus the limit. */
  lemma {:induction false} ActivityRearms(st: LayoutState, t0: nat, es: seq<Event>)
    requires st.mounted && st.deadline == Some(t0 + InactivityLimit)
    requires AllActivity(es)
    ensures Run(st, es).deadline == Some(LastActive(t0, es) + InactivityLimit)
    ensures Run(st, es).mounted && Run(st, es).location == st.location && Run(st, es).storage == st.storage
  {
    if es != [] {
      var init := es[..|es| - 1];
      assert AllActivity(init) by {
        assert forall i :: 0 <= i < |init| ==> init[i] == es[i];
      }
      ActivityRearms(st, t0, init);
    }
  }

  /** A tick logs out exactly when it comes at or after the deadline of a
      mounted layout, and changes nothing otherwise. */
  lemma TickRule(st: LayoutState, t: nat)
    ensures var r := Step(st, Tick(t));
      && (st.mounted && st.deadline.Some? && t >= st.deadline.value ==> r.location == "/login" && !r.mounted)
      && (!(st.mounted && st.deadline.Some? && t >= st.deadline.value) ==> r == st)
  {
  }

  /** After mounting at `t0` and any activity, a tick at `t` logs out iff no
      tracked event came in the last 300000 ms before it. */
  lemma LogoutOnlyAfterInactivity(st: LayoutState, t0: nat, es: seq<Event>, t: nat)
    requires AllActivity(es)
    ensures var r := Run(st, [Mount(t0)] + es + [Tick(t)]);
      r.location == "/login" <==> t >= LastActive(t0, es) + InactivityLimit || st.location == "/login"
  {
    var m := Step(st, Mount(t0));
    var all := [Mount(t0)] + es + [Tick(t)];
    PrefixRun(st, [Mount(t0)], es);
    assert all[..|all| - 1] == [Mount(t0)] + es;
    assert Run(st, [Mount(t0)]) == m by {
      assert [Mount(t0)][..0] == [];
    }
    ActivityRearms(m, t0, es);
  }

  /** Running `a + b` is running `a`, then `b`. */
  lemma {:induction false} PrefixRun(st: LayoutState, a: seq<Event>, b: seq<Event>)
    ensures Run(st, a + b) == Run(Run(st, a), b)
  {
    if b != [] {
      assert (a + b)[..|a + b| - 1] == a + b[..|b| - 1];
      PrefixRun(st, a, b[..|b| - 1]);
    } else {
      assert a + b == a;
    }
  }

  /** The layout as a component instance. */
  class Layout {
    var storage: map<string, string>
    var location: string
    var mounted: bool
    var deadline: Option<nat>

    function State(): LayoutState
      reads this
    {
      LayoutState(storage, location, mounted, deadline)
    }

    constructor (storage: map<string, string>, location: string)
      ensures State() == LayoutState(storage, location, false, None)
    {
      this.storage, this.location := storage, location;
      mounted, deadline := false, None;
    }

    /** `resetTimer`: clear the pending timeout and start a new one. */
    method ResetTimer(now: nat)
      modifies this
      ensures State() == old(State()).(deadline := Some(now + InactivityLimit))
    {
      deadline := Some(now + InactivityLimit);
    }

    method HandleLogout()
      modifies this
      ensures State() == Logout(old(State()))
    {
      storage := storage - {"access_token", "userRole"};
      location := "/login";
    }

    method Handle(e: Event)
      modifies this
      ensures State() == Step(old(State()), e)
    {
      match e {
        case Mount(t) =>
          mounted := true;
          ResetTimer(t);
        case Activity(name, t) =>
          if mounted && name in TrackedEvents {
            ResetTimer(t);
          }
        case Tick(t) =>
          if mounted && deadline.Some? && t >= deadline.value {
            HandleLogout();
            mounted, deadline := false, None;
          }
        case LogoutClick =>
          HandleLogout();
          mounted, deadline := false, None;
        case Unmount =>
          mounted, deadline := false, None;
      }
    }
  }
}
