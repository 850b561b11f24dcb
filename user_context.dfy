/** The administrator's user list (UserContext.tsx). The list lives in page
    state; every change is also written to the shared user database keyed
    by email, and a refresh rebuilds the list from that database. */
module UserContext {
  import opened Common
  import opened UserDb
  import NC = NotificationContext

  datatype UserStatus = Active | Inactive

  datatype User = User(
    id: string, name: string, email: string, role: Role, status: UserStatus,
    joinDate: int, lastLogin: int, phone: Option<string>, address: Option<string>)

  /** The argument of `addUser`. */
  datatype UserData = UserData(name: string, email: string, role: Role, phone: Option<string>, address: Option<string>)

  /** The argument of `updateUser`: a `Partial<User>`. */
  datatype UserPatch = UserPatch(
    id: Option<string>, name: Option<string>, email: Option<string>, role: Option<Role>,
    status: Option<UserStatus>, joinDate: Option<int>, lastLogin: Option<int>,
    phone: Option<string>, address: Option<string>)

  const DayMs := 86400000

  /** Start of the UTC day containing `t`: a date-only ISO string read back. */
  function DayStart(t: int): (r: int)
    ensures r <= t < r + DayMs && r % DayMs == 0
  {
    t - t % DayMs
  }

  function RoleText(r: Role): string
  {
    match r
    case Admin => "admin"
    case Student => "student"
    case Visitor => "visitor"
  }

  // -----------------------------------------------------------------------
  // persistUsers

  /** The database record `persistUsers` writes for a user; the status and
      the id are not stored. */
  function Record(u: User): DbRecord
  {
    DbRecord(u.name, u.role, "preserved", u.phone, u.address, Some(u.joinDate), Some(u.lastLogin))
  }

  /** The map the first `forEach` of `persistUsers` builds: one `set` per
      user, in list order. */
  function Collected(us: seq<User>): seq<Entry>
  {
    if us == [] then [] else Set(Collected(us[..|us| - 1]), us[|us| - 1].email, Record(us[|us| - 1]))
  }

  /** The second `forEach`: the password of each key already stored is
      copied over. */
  function KeepPassword(e: Entry, existing: seq<Entry>): Entry
  {
    var prior := Get(existing, e.email);
    if prior.Some? then Entry(e.email, e.rec.(password := prior.value.password)) else e
  }

  function WithPasswords(db: seq<Entry>, existing: seq<Entry>): (r: seq<Entry>)
    ensures |r| == |db|
    ensures forall i :: 0 <= i < |db| ==> r[i] == KeepPassword(db[i], existing)
  {
    Map(db, (e: Entry) => KeepPassword(e, existing))
  }

  /** What `persistUsers(us)` stores when `stored` was there before. */
  function Persisted(us: seq<User>, stored: Option<seq<Entry>>): seq<Entry>
  {
    if stored.Some? then WithPasswords(Collected(us), stored.value) else Collected(us)
  }

  // -----------------------------------------------------------------------
  // refreshUsers

  /** The user `refreshUsers` rebuilds from an entry: the email becomes the
      id, the status is always active, missing dates default to `now`. */
  function Rebuilt(e: Entry, now: int): User
  {
    User(e.email, e.rec.name, e.email, e.rec.role, Active,
      if e.rec.joinDate.Some? then e.rec.joinDate.value else now,
      if e.rec.lastLogin.Some? then e.rec.lastLogin.value else now,
      e.rec.phone, e.rec.address)
  }

  function Refreshed(db: seq<Entry>, now: int): (r: seq<User>)
    ensures |r| == |db|
    ensures forall i :: 0 <= i < |db| ==> r[i] == Rebuilt(db[i], now)
  {
    Map(db, (e: Entry) => Rebuilt(e, now))
  }

  // -----------------------------------------------------------------------
  // List operations

  function NewUser(d: UserData, id: string, now: int): User
  {
    User(id, d.name, d.email, d.role, Active, DayStart(now), now, d.phone, d.address)
  }

  function NewUserNotice(d: UserData): NC.NotificationData
  {
    NC.NotificationData("admin", "New User Registration",
      "New " + RoleText(d.role) + " registered: " + d.name + " (" + d.email + ")", NC.Info)
  }

  /** `{...user, ...updates}`. */
  function Merge(u: User, p: UserPatch): User
  {
    User(
      if p.id.Some? then p.id.value else u.id,
      if p.name.Some? then p.name.value else u.name,
      if p.email.Some? then p.email.value else u.email,
      if p.role.Some? then p.role.value else u.role,
      if p.status.Some? then p.status.value else u.status,
      if p.joinDate.Some? then p.joinDate.value else u.joinDate,
      if p.lastLogin.Some? then p.lastLogin.value else u.lastLogin,
      if p.phone.Some? then p.phone else u.phone,
      if p.address.Some? then p.address else u.address)
  }

  function UpdatedUsers(us: seq<User>, id: string, p: UserPatch): (r: seq<User>)
    ensures |r| == |us|
    ensures forall i :: 0 <= i < |us| ==> r[i] == if us[i].id == id then Merge(us[i], p) else us[i]
  {
    Map(us, (u: User) => if u.id == id then Merge(u, p) else u)
  }

  function WithoutUser(us: seq<User>, id: string): (r: seq<User>)
    ensures forall i :: 0 <= i < |r| ==> r[i].id != id && r[i] in us
    ensures forall i :: 0 <= i < |us| && us[i].id != id ==> us[i] in r
  {
    Filter(us, (u: User) => u.id != id)
  }

  function UsersByRole(us: seq<User>, role: Role): (r: seq<User>)
    ensures forall i :: 0 <= i < |r| ==> r[i].role == role && r[i] in us
    ensures forall i :: 0 <= i < |us| && us[i].role == role ==> us[i] in r
  {
    Filter(us, (u: User) => u.role == role)
  }

  /** `getRecentUsers(days)`: users who joined at or after `days` days
      before `now`. */
  function RecentUsers(us: seq<User>, days: int, now: int): (r: seq<User>)
    ensures forall i :: 0 <= i < |r| ==> r[i].joinDate >= now - days * DayMs && r[i] in us
    ensures forall i :: 0 <= i < |us| && us[i].joinDate >= now - days * DayMs ==> us[i] in r
  {
    Filter(us, (u: User) => u.joinDate >= now - days * DayMs)
  }

  /** `users.find(u => u.id === id)`: the first user with the id. */
  function FindUser(us: seq<User>, id: string): (r: Option<User>)
    ensures r.None? <==> forall i :: 0 <= i < |us| ==> us[i].id != id
    ensures r.Some? ==> FirstWithId(us, id, r.value)
  {
    if us == [] then None
    else if us[0].id == id then Some(us[0])
    else
      var r := FindUser(us[1..], id);
      if r.Some? then FirstWithIdCons(us, id, r.value); r else r
  }

  /** `u` is the user with the id that comes first in `us`. */
  ghost predicate FirstWithId(us: seq<User>, id: string, u: User)
  {
    exists i :: 0 <= i < |us| && us[i] == u && u.id == id && forall j :: 0 <= j < i ==> us[j].id != id
  }

  lemma FirstWithIdCons(us: seq<User>, id: string, u: User)
    requires |us| > 0 && us[0].id != id && FirstWithId(us[1..], id, u)
    ensures FirstWithId(us, id, u)
  {
    var i :| 0 <= i < |us[1..]| && us[1..][i] == u && u.id == id && forall j :: 0 <= j < i ==> us[1..][j].id != id;
    assert us[i + 1] == u;
    forall j | 0 <= j < i + 1
      ensures us[j].id != id
    {
      if j > 0 {
        assert us[j] == us[1..][j - 1];
      }
    }
  }

  class UserList {
    var users: seq<User>
    const store: UserStore
    const feed: NC.NotificationFeed

    constructor (saved: seq<User>, store: UserStore, feed: NC.NotificationFeed)
      ensures users == saved && this.store == store && this.feed == feed
    {
      users := saved;
      this.store := store;
      this.feed := feed;
    }

    /** Writes `updated` to the database, keyed by email, keeping the stored
        passwords, and makes it the list. */
    method PersistUsers(updated: seq<User>)
      modifies this, store
      ensures store.entries == Some(Persisted(updated, old(store.entries)))
      ensures users == updated
    {
      var userMap: seq<Entry> := [];
      var i := 0;
      while i < |updated|
        invariant 0 <= i <= |updated|
        invariant userMap == Collected(updated[..i])
      {
        assert updated[..i + 1][..i] == updated[..i];
        userMap := Set(userMap, updated[i].email, Record(updated[i]));
        i := i + 1;
      }
      assert updated[..|updated|] == updated;
      if store.entries.Some? {
        var existing := store.entries.value;
        ghost var collected := userMap;
        var j := 0;
        while j < |userMap|
          invariant 0 <= j <= |userMap| == |collected|
          invariant forall k :: 0 <= k < j ==> userMap[k] == KeepPassword(collected[k], existing)
          invariant forall k :: j <= k < |userMap| ==> userMap[k] == collected[k]
        {
          var key := userMap[j].email;
          if Has(existing, key) {
            userMap := userMap[j := Entry(key, userMap[j].rec.(password := Get(existing, key).value.password))];
          }
          j := j + 1;
        }
        assert userMap == WithPasswords(collected, existing);
      }
      store.entries := Some(userMap);
      users := updated;
    }

    method RefreshUsers(now: int)
      modifies this
      ensures users == if store.entries.Some? then Refreshed(store.entries.value, now) else old(users)
    {
      if store.entries.Some? {
        users := Refreshed(store.entries.value, now);
      }
    }

    method AddUser(d: UserData, id: string, noticeId: string, now: int) returns (u: User)
      modifies this, store, feed
      ensures u == NewUser(d, id, now)
      ensures users == old(users) + [u]
      ensures store.entries == Some(Persisted(old(users) + [u], old(store.entries)))
      ensures feed.notifications == NC.Posted(old(feed.notifications), NewUserNotice(d), noticeId, now)
    {
      u := NewUser(d, id, now);
      PersistUsers(users + [u]);
      feed.AddNotification(NewUserNotice(d), noticeId, now);
    }

    method UpdateUser(id: string, p: UserPatch)
      modifies this, store
      ensures users == UpdatedUsers(old(users), id, p)
      ensures store.entries == Some(Persisted(UpdatedUsers(old(users), id, p), old(store.entries)))
    {
      PersistUsers(UpdatedUsers(users, id, p));
    }

    method DeleteUser(id: string)
      modifies this, store
      ensures users == WithoutUser(old(users), id)
      ensures store.entries == Some(Persisted(WithoutUser(old(users), id), old(store.entries)))
    {
      PersistUsers(WithoutUser(users, id));
    }

    function GetUser(id: string): Option<User>
      reads this
    {
      FindUser(users, id)
    }

    function GetUsersByRole(role: Role): seq<User>
      reads this
    {
      UsersByRole(users, role)
    }

    function GetRecentUsers(days: int, now: int): seq<User>
      reads this
    {
      RecentUsers(users, days, now)
    }

    function GetTotalUsers(): nat
      reads this
    {
      |users|
    }
  }

  // -----------------------------------------------------------------------
  // Properties

  /** The last user with a given email, if any. */
  function LastWithEmail(us: seq<User>, email: string): (r: Option<nat>)
    ensures r.None? <==> forall i :: 0 <= i < |us| ==> us[i].email != email
    ensures r.Some? ==>
      r.value < |us| && us[r.value].email == email && (forall i :: r.value < i < |us| ==> us[i].email != email)
  {
    if us == [] then None
    else if us[|us| - 1].email == email then Some(|us| - 1)
    else LastWithEmail(us[..|us| - 1], email)
  }

  /** The database `persistUsers` builds has one entry per distinct email;
      when several users share an email, the last of them wins. */
  lemma {:induction false} CollectedLastWins(us: seq<User>, email: string)
    ensures KeysUnique(Collected(us))
    ensures var k := LastWithEmail(us, email);
      Get(Collected(us), email) == if k.None? then None else Some(Record(us[k.value]))
  {
    if us != [] {
      var init := us[..|us| - 1];
      var last := us[|us| - 1];
      CollectedLastWins(init, email);
      SetGet(Collected(init), last.email, Record(last), email);
      if last.email != email {
        assert LastWithEmail(us, email) == LastWithEmail(init, email);
      }
    }
  }

  /** With distinct emails, the database lists the users in order, one entry
      each. */
  lemma {:induction false} CollectedInOrder(us: seq<User>)
    requires forall i, j :: 0 <= i < j < |us| ==> us[i].email != us[j].email
    ensures |Collected(us)| == |us|
    ensures forall i :: 0 <= i < |us| ==> Collected(us)[i] == Entry(us[i].email, Record(us[i]))
  {
    if us != [] {
      var init := us[..|us| - 1];
      CollectedInOrder(init);
      assert forall j :: 0 <= j < |init| ==> Collected(init)[j].email == init[j].email == us[j].email;
    }
  }

  /** Passwords survive: a key that was stored keeps its stored password,
      a new key gets the placeholder "preserved". */
  lemma PasswordsPreserved(us: seq<User>, existing: seq<Entry>, i: nat)
    requires i < |Collected(us)|
    ensures var e := Persisted(us, Some(existing))[i];
      && e.email == Collected(us)[i].email
      && e.rec.password == if Has(existing, e.email) then Get(existing, e.email).value.password else "preserved"
  {
    CollectedPasswords(us);
  }

  lemma {:induction false} CollectedPasswords(us: seq<User>)
    ensures forall i :: 0 <= i < |Collected(us)| ==> Collected(us)[i].rec.password == "preserved"
  {
    if us != [] {
      CollectedPasswords(us[..|us| - 1]);
    }
  }

  /** The round trip through the database is lossy: with distinct emails,
      persisting and then refreshing gives back every user with the email as
      id and the status reset to active, so a deactivated user comes back
      active. */
  lemma PersistRefreshRoundTrip(us: seq<User>, stored: Option<seq<Entry>>, now: int)
    requires forall i, j :: 0 <= i < j < |us| ==> us[i].email != us[j].email
    ensures var r := Refreshed(Persisted(us, stored), now);
      |r| == |us| && forall i :: 0 <= i < |us| ==> r[i] == us[i].(id := us[i].email, status := Active)
  {
    CollectedInOrder(us);
  }

  /** `addUser` gives the new user the active status and a join date at the
      start of the current day. */
  lemma AddUserShape(d: UserData, id: string, now: int)
    ensures var u := NewUser(d, id, now);
      && u.status == Active && u.joinDate <= now < u.joinDate + DayMs && u.joinDate % DayMs == 0
      && u.lastLogin == now && u.email == d.email && u.role == d.role
  {
  }

  /** `getUsersByRole` splits the list: every user has exactly one role, so
      the three role lists together are as long as the list. */
  lemma {:induction false} RolesPartition(us: seq<User>)
    ensures |UsersByRole(us, Admin)| + |UsersByRole(us, Student)| + |UsersByRole(us, Visitor)| == |us|
  {
    if us != [] {
      RolesPartition(us[1..]);
    }
  }

  /** A longer window never returns fewer users. */
  lemma {:induction false} RecentUsersMonotone(us: seq<User>, d1: int, d2: int, now: int)
    requires d1 <= d2
    ensures |RecentUsers(us, d1, now)| <= |RecentUsers(us, d2, now)|
  {
    if us != [] {
      RecentUsersMonotone(us[1..], d1, d2, now);
    }
  }

  /** `deleteUser` keeps the other users in order and leaves none with the
      id; `updateUser` of an unknown id changes nothing. */
  lemma DeleteAndUpdate(us: seq<User>, more: seq<User>, id: string, p: UserPatch)
    ensures WithoutUser(us + more, id) == WithoutUser(us, id) + WithoutUser(more, id)
    ensures (forall i :: 0 <= i < |us| ==> us[i].id != id) ==> UpdatedUsers(us, id, p) == us
  {
    FilterConcat(us, more, (u: User) => u.id != id);
  }
}
