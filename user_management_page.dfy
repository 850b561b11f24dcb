/** The administrator's user table (UserManagement.tsx): search and role
    filter, newest-first order, one page of rows at a time, and the edit,
    delete and activate/deactivate actions. */
module UserManagementPage {
  import opened Common
  import opened UserDb
  import UC = UserContext

  // -----------------------------------------------------------------------
  // Filter, order and paging

  /** A user is listed when the name or email contains the search text (all
      lower-cased) and the role is the chosen one (`None`: "all"). */
  predicate Listed(u: UC.User, search: string, role: Option<Role>)
  {
    && (Contains(ToLower(u.name), ToLower(search)) || Contains(ToLower(u.email), ToLower(search)))
    && (role.None? || u.role == role.value)
  }

  function FilteredUsers(us: seq<UC.User>, search: string, role: Option<Role>): (r: seq<UC.User>)
    ensures forall i :: 0 <= i < |r| ==> r[i] in us && Listed(r[i], search, role)
    ensures forall i :: 0 <= i < |us| && Listed(us[i], search, role) ==> us[i] in r
  {
    Filter(us, (u: UC.User) => Listed(u, search, role))
  }

  /** Most recent join date first. */
  predicate NewestFirst(us: seq<UC.User>)
  {
    forall i, j :: 0 <= i < j < |us| ==> us[i].joinDate >= us[j].joinDate
  }

  /** Puts `u` before the first user who joined no later, so that among
      equal join dates the earlier element stays first. */
  function InsertByJoin(u: UC.User, us: seq<UC.User>): (r: seq<UC.User>)
    requires NewestFirst(us)
    ensures NewestFirst(r)
    ensures multiset(r) == multiset(us) + multiset{u}
    decreases |us|
  {
    if us == [] || us[0].joinDate <= u.joinDate then [u] + us
    else
      assert us == [us[0]] + us[1..];
      var t := InsertByJoin(u, us[1..]);
      BelowHead(u, us, t);
      [us[0]] + t
  }

  /** Whatever the tail holds, with `u` added, joined no later than the head. */
  lemma BelowHead(u: UC.User, us: seq<UC.User>, t: seq<UC.User>)
    requires NewestFirst(us) && |us| > 0 && u.joinDate < us[0].joinDate
    requires multiset(t) == multiset(us[1..]) + multiset{u}
    ensures forall j :: 0 <= j < |t| ==> t[j].joinDate <= us[0].joinDate
  {
    forall j | 0 <= j < |t|
      ensures t[j].joinDate <= us[0].joinDate
    {
      assert t[j] in multiset(t);
      if t[j] != u {
        assert t[j] in multiset(us[1..]);
        var k :| 0 <= k < |us[1..]| && us[1..][k] == t[j];
        assert us[k + 1] == t[j];
      }
    }
  }

  /** `[...users].sort((a, b) => b.joinDate - a.joinDate)`, a stable sort. */
  function SortedByJoin(us: seq<UC.User>): (r: seq<UC.User>)
    ensures NewestFirst(r)
    ensures multiset(r) == multiset(us)
    decreases |us|
  {
    if us == [] then []
    else
      assert us == [us[0]] + us[1..];
      InsertByJoin(us[0], SortedByJoin(us[1..]))
  }

  /** `slice(page * rowsPerPage, page * rowsPerPage + rowsPerPage)`: the
      slice bounds are clipped to the list. */
  function PageRows(us: seq<UC.User>, page: nat, rowsPerPage: nat): (r: seq<UC.User>)
    ensures |r| <= rowsPerPage
    ensures forall i :: 0 <= i < |r| ==> page * rowsPerPage + i < |us| && r[i] == us[page * rowsPerPage + i]
    ensures page * rowsPerPage + rowsPerPage <= |us| ==> |r| == rowsPerPage
  {
    var start := if page * rowsPerPage <= |us| then page * rowsPerPage else |us|;
    var end := if page * rowsPerPage + rowsPerPage <= |us| then page * rowsPerPage + rowsPerPage else |us|;
    us[start..end]
  }

  /** The rows the table shows. */
  function Shown(us: seq<UC.User>, search: string, role: Option<Role>, page: nat, rowsPerPage: nat): seq<UC.User>
  {
    PageRows(SortedByJoin(FilteredUsers(us, search, role)), page, rowsPerPage)
  }

  // -----------------------------------------------------------------------
  // Actions

  function Flip(s: UC.UserStatus): UC.UserStatus
  {
    if s == UC.Active then UC.Inactive else UC.Active
  }

  /** `handleToggleStatus` sends only the opposite status. */
  function TogglePatch(u: UC.User): (r: UC.UserPatch)
    ensures r.status == Some(Flip(u.status))
    ensures r.name.None? && r.email.None? && r.role.None? && r.id.None?
  {
    UC.UserPatch(None, None, None, None, Some(Flip(u.status)), None, None, None, None)
  }

  datatype Alert = Alert(message: string)

  function ToggleAlert(newStatus: UC.UserStatus): Alert
  {
    Alert("User " + (if newStatus == UC.Active then "activated" else "deactivated") + " successfully")
  }

  /** `handleEditClick`: the edit form holds the user's name, email, role,
      status, phone and address. */
  function EditForm(u: UC.User): UC.UserPatch
  {
    UC.UserPatch(None, Some(u.name), Some(u.email), Some(u.role), Some(u.status), None, None, u.phone, u.address)
  }

  class UserAdminPage {
    const list: UC.UserList
    var page: nat
    var rowsPerPage: nat
    var selected: Option<UC.User>
    var editForm: UC.UserPatch
    var editOpen: bool
    var alert: Option<Alert>

    constructor (list: UC.UserList)
      ensures this.list == list && page == 0 && rowsPerPage == 10
      ensures selected.None? && !editOpen && alert.None?
    {
      this.list := list;
      page := 0;
      rowsPerPage := 10;
      selected := None;
      editForm := UC.UserPatch(None, None, None, None, None, None, None, None, None);
      editOpen := false;
      alert := None;
    }

    method ChangePage(p: nat)
      modifies this
      ensures page == p && rowsPerPage == old(rowsPerPage)
    {
      page := p;
    }

    /** A new page size always goes back to the first page. */
    method ChangeRowsPerPage(n: nat)
      modifies this
      ensures rowsPerPage == n && page == 0
    {
      rowsPerPage := n;
      page := 0;
    }

    method EditClick(u: UC.User)
      modifies this
      ensures selected == Some(u) && editForm == EditForm(u) && editOpen
      ensures page == old(page) && rowsPerPage == old(rowsPerPage)
    {
      selected := Some(u);
      editForm := EditForm(u);
      editOpen := true;
    }

    /** `handleEditSubmit`: the form, as a patch, for the selected user. */
    method EditSubmit()
      modifies this, list, list.store
      ensures old(selected).None? ==>
        list.users == old(list.users) && list.store.entries == old(list.store.entries) && editOpen == old(editOpen)
      ensures old(selected).Some? ==>
        && list.users == UC.UpdatedUsers(old(list.users), old(selected).value.id, old(editForm))
        && list.store.entries == Some(UC.Persisted(list.users, old(list.store.entries)))
        && !editOpen && alert == Some(Alert("User updated successfully"))
      ensures page == old(page) && rowsPerPage == old(rowsPerPage)
    {
      if selected.Some? {
        list.UpdateUser(selected.value.id, editForm);
        alert := Some(Alert("User updated successfully"));
        editOpen := false;
      }
    }

    /** `handleDeleteUser`; `confirmed` is the answer to the browser's
        confirmation prompt. */
    method DeleteUser(id: string, confirmed: bool)
      modifies this, list, list.store
      ensures !confirmed ==> list.users == old(list.users) && list.store.entries == old(list.store.entries) && alert == old(alert)
      ensures confirmed ==>
        && list.users == UC.WithoutUser(old(list.users), id)
        && list.store.entries == Some(UC.Persisted(list.users, old(list.store.entries)))
        && alert == Some(Alert("User deleted successfully"))
      ensures page == old(page) && rowsPerPage == old(rowsPerPage)
    {
      if confirmed {
        list.DeleteUser(id);
        alert := Some(Alert("User deleted successfully"));
      }
    }

    method ToggleStatus(u: UC.User)
      modifies this, list, list.store
      ensures list.users == UC.UpdatedUsers(old(list.users), u.id, TogglePatch(u))
      ensures list.store.entries == Some(UC.Persisted(list.users, old(list.store.entries)))
      ensures alert == Some(ToggleAlert(Flip(u.status)))
      ensures page == old(page) && rowsPerPage == old(rowsPerPage) && selected == old(selected)
    {
      list.UpdateUser(u.id, TogglePatch(u));
      alert := Some(ToggleAlert(Flip(u.status)));
    }
  }

  // -----------------------------------------------------------------------
  // Properties

  /** The table lists exactly the matching users, newest first: the order is
      a rearrangement of the filtered list. */
  lemma SortedListsMatching(us: seq<UC.User>, search: string, role: Option<Role>)
    ensures var s := SortedByJoin(FilteredUsers(us, search, role));
      NewestFirst(s)
      && (forall i :: 0 <= i < |s| ==> s[i] in us && Listed(s[i], search, role))
      && (forall i :: 0 <= i < |us| && Listed(us[i], search, role) ==> us[i] in s)
  {
    var f := FilteredUsers(us, search, role);
    var s := SortedByJoin(f);
    forall i | 0 <= i < |s|
      ensures s[i] in us && Listed(s[i], search, role)
    {
      assert s[i] in multiset(s);
      assert s[i] in multiset(f);
    }
    forall i | 0 <= i < |us| && Listed(us[i], search, role)
      ensures us[i] in s
    {
      assert us[i] in multiset(f);
      assert us[i] in multiset(s);
    }
  }

  /** The users who joined at time `d`. */
  function JoinedAt(d: int): UC.User -> bool
  {
    (x: UC.User) => x.joinDate == d
  }

  lemma {:induction false} InsertKeepsTies(u: UC.User, t: seq<UC.User>, d: int)
    requires NewestFirst(t)
    ensures Filter(InsertByJoin(u, t), JoinedAt(d))
      == if u.joinDate == d then [u] + Filter(t, JoinedAt(d)) else Filter(t, JoinedAt(d))
    decreases |t|
  {
    if t == [] || t[0].joinDate <= u.joinDate {
      assert ([u] + t)[1..] == t;
    } else {
      var rest := InsertByJoin(u, t[1..]);
      InsertKeepsTies(u, t[1..], d);
      assert ([t[0]] + rest)[1..] == rest;
    }
  }

  /** The sort is stable: the users who joined at the same time keep their
      relative order. */
  lemma {:induction false} SortIsStable(us: seq<UC.User>, d: int)
    ensures Filter(SortedByJoin(us), JoinedAt(d)) == Filter(us, JoinedAt(d))
    decreases |us|
  {
    if us != [] {
      SortIsStable(us[1..], d);
      InsertKeepsTies(us[0], SortedByJoin(us[1..]), d);
    }
  }

  /** Sorting an already newest-first list changes nothing. */
  lemma {:induction false} SortedIsIdentityOnSorted(us: seq<UC.User>)
    requires NewestFirst(us)
    ensures SortedByJoin(us) == us
    decreases |us|
  {
    if us != [] {
      SortedIsIdentityOnSorted(us[1..]);
      assert SortedByJoin(us[1..]) == us[1..];
    }
  }

  /** Each row of the list is on exactly one page: row `k` is row
      `k % rowsPerPage` of page `k / rowsPerPage`. */
  lemma RowOnItsPage(us: seq<UC.User>, rowsPerPage: nat, k: nat)
    requires rowsPerPage > 0 && k < |us|
    ensures var p := k / rowsPerPage;
      k % rowsPerPage < |PageRows(us, p, rowsPerPage)| && PageRows(us, p, rowsPerPage)[k % rowsPerPage] == us[k]
  {
    var p := k / rowsPerPage;
    assert p * rowsPerPage + k % rowsPerPage == k;
  }

  /** Toggling twice gives back the original status, and the toggle changes
      nothing but the status of that one user. */
  lemma ToggleTwice(u: UC.User)
    ensures UC.Merge(UC.Merge(u, TogglePatch(u)), TogglePatch(UC.Merge(u, TogglePatch(u)))) == u
    ensures UC.Merge(u, TogglePatch(u)) == u.(status := Flip(u.status))
    ensures UC.Merge(u, TogglePatch(u)).status != u.status
  {
  }

  /** Saving the edit form unchanged gives back the user. */
  lemma EditRoundTrip(u: UC.User)
    ensures UC.Merge(u, EditForm(u)) == u
  {
  }
}
