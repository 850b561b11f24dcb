/** Sign-in and registration (AuthContext.tsx) over the mock user
    database. The database is loaded once into memory when the module
    starts; registration writes it back to storage. The administrator
    account is hard-coded and never stored. */
module AuthContext {
  import opened Common
  import opened UserDb

  const AdminEmail := "admin@farmmanagement.com"
  const AdminPassword := "admin123"

  /** The signed-in user kept in the session. */
  datatype Session = Session(id: string, name: string, email: string, role: Role)

  datatype RegisterData = RegisterData(
    name: string, email: string, password: string, role: Role,
    phone: Option<string>, address: Option<string>)

  /** How a `register` or `login` promise settles. */
  datatype Outcome = Resolved | RejectedWith(message: string)

  const AdminSession := Session("admin1", "System Administrator", AdminEmail, Admin)

  /** The result of `register(d)` against the in-memory database; the
      guards run in this order. */
  function RegisterOutcome(db: seq<Entry>, d: RegisterData): Outcome
  {
    if d.email == AdminEmail then RejectedWith("This email is reserved for system use")
    else if d.role == Admin then RejectedWith("Admin accounts cannot be created through registration")
    else if Has(db, d.email) then RejectedWith("Email is already registered")
    else Resolved
  }

  /** The record registration stores: no dates yet. */
  function RegisteredRecord(d: RegisterData): DbRecord
  {
    DbRecord(d.name, d.role, d.password, d.phone, d.address, None, None)
  }

  function RegisteredDb(db: seq<Entry>, d: RegisterData): seq<Entry>
  {
    if RegisterOutcome(db, d).Resolved? then Set(db, d.email, RegisteredRecord(d)) else db
  }

  /** The session `login(email, password)` opens, if any; `sessionId` is the
      clock-made id of a regular user's session. */
  function LoginSession(db: seq<Entry>, email: string, password: string, sessionId: string): Option<Session>
  {
    if email == AdminEmail then
      (if password == AdminPassword then Some(AdminSession) else None)
    else
      var rec := Get(db, email);
      if rec.None? || rec.value.password != password then None
      else Some(Session(sessionId, rec.value.name, email, rec.value.role))
  }

  class Auth {
    /** The module-level in-memory database. */
    var db: seq<Entry>
    var user: Option<Session>
    var isAuthenticated: bool
    const store: UserStore

    /** Loads the database from storage (an empty one when nothing is
        stored) and the saved session. */
    constructor (store: UserStore, savedUser: Option<Session>)
      ensures db == (if store.entries.Some? then store.entries.value else [])
      ensures user == savedUser && isAuthenticated == savedUser.Some? && this.store == store
    {
      db := if store.entries.Some? then store.entries.value else [];
      user := savedUser;
      isAuthenticated := savedUser.Some?;
      this.store := store;
    }

    method Register(d: RegisterData) returns (r: Outcome)
      modifies this, store
      ensures r == RegisterOutcome(old(db), d)
      ensures db == RegisteredDb(old(db), d)
      ensures store.entries == if r.Resolved? then Some(db) else old(store.entries)
      ensures user == old(user) && isAuthenticated == old(isAuthenticated)
    {
      if d.email == AdminEmail {
        return RejectedWith("This email is reserved for system use");
      }
      if d.role == Admin {
        return RejectedWith("Admin accounts cannot be created through registration");
      }
      if Has(db, d.email) {
        return RejectedWith("Email is already registered");
      }
      db := Set(db, d.email, RegisteredRecord(d));
      store.entries := Some(db);
      r := Resolved;
    }

    /** Every failure is reported as "Login failed" and leaves the session
        as it was. */
    method Login(email: string, password: string, sessionId: string) returns (r: Outcome)
      modifies this
      ensures var s := LoginSession(old(db), email, password, sessionId);
        && (s.Some? ==> r == Resolved && user == s && isAuthenticated)
        && (s.None? ==> r == RejectedWith("Login failed") && user == old(user) && isAuthenticated == old(isAuthenticated))
      ensures db == old(db)
    {
      if email == AdminEmail {
        if password == AdminPassword {
          user := Some(AdminSession);
          isAuthenticated := true;
          return Resolved;
        }
        return RejectedWith("Login failed");
      }
      var rec := Get(db, email);
      if rec.None? || rec.value.password != password {
        return RejectedWith("Login failed");
      }
      user := Some(Session(sessionId, rec.value.name, email, rec.value.role));
      isAuthenticated := true;
      r := Resolved;
    }

    method Logout()
      modifies this
      ensures user.None? && !isAuthenticated && db == old(db)
    {
      user := None;
      isAuthenticated := false;
    }
  }

  // -----------------------------------------------------------------------
  // Properties

  /** Registration fails for the reserved email, then for the admin role,
      then for an email already present, and succeeds otherwise; a failure
      leaves the database as it was. */
  lemma RegisterRules(db: seq<Entry>, d: RegisterData)
    ensures RegisterOutcome(db, d).Resolved? <==> d.email != AdminEmail && d.role != Admin && !Has(db, d.email)
    ensures d.email == AdminEmail ==> RegisterOutcome(db, d) == RejectedWith("This email is reserved for system use")
    ensures d.email != AdminEmail && d.role == Admin
      ==> RegisterOutcome(db, d) == RejectedWith("Admin accounts cannot be created through registration")
    ensures d.email != AdminEmail && d.role != Admin && Has(db, d.email)
      ==> RegisterOutcome(db, d) == RejectedWith("Email is already registered")
    ensures RegisterOutcome(db, d).RejectedWith? ==> RegisteredDb(db, d) == db
  {
  }

  /** A successful registration adds exactly one entry, keyed by the email,
      at the end, and changes no other entry. */
  lemma RegisterAddsOne(db: seq<Entry>, d: RegisterData, other: string)
    requires KeysUnique(db) && RegisterOutcome(db, d).Resolved?
    ensures RegisteredDb(db, d) == db + [Entry(d.email, RegisteredRecord(d))]
    ensures KeysUnique(RegisteredDb(db, d))
    ensures other != d.email ==> Get(RegisteredDb(db, d), other) == Get(db, other)
  {
    SetGet(db, d.email, RegisteredRecord(d), other);
  }

  /** The administrator signs in exactly with the hard-coded password,
      whatever the database holds. */
  lemma AdminLogin(db: seq<Entry>, password: string, sessionId: string)
    ensures LoginSession(db, AdminEmail, password, sessionId).Some? <==> password == AdminPassword
    ensures password == AdminPassword ==> LoginSession(db, AdminEmail, password, sessionId) == Some(AdminSession)
  {
  }

  /** Any other user signs in exactly when a record exists and its password
      matches; the session then carries the record's name and role. */
  lemma UserLogin(db: seq<Entry>, email: string, password: string, sessionId: string)
    requires email != AdminEmail
    ensures var s := LoginSession(db, email, password, sessionId);
      && (s.Some? <==> Has(db, email) && Get(db, email).value.password == password)
      && (s.Some? ==> s.value.name == Get(db, email).value.name && s.value.role == Get(db, email).value.role
                      && s.value.email == email)
  {
  }

  /** Whoever registers can then sign in with the same password, and gets
      the role chosen at registration (never admin). */
  lemma RegisterThenLogin(db: seq<Entry>, d: RegisterData, sessionId: string)
    requires KeysUnique(db) && RegisterOutcome(db, d).Resolved?
    ensures LoginSession(RegisteredDb(db, d), d.email, d.password, sessionId)
      == Some(Session(sessionId, d.name, d.email, d.role))
    ensures d.role != Admin
  {
    SetGet(db, d.email, RegisteredRecord(d), d.email);
  }

  /** A second registration with the same email is refused. */
  lemma RegisterTwiceRefused(db: seq<Entry>, d: RegisterData, d2: RegisterData)
    requires KeysUnique(db) && RegisterOutcome(db, d).Resolved? && d2.email == d.email
    ensures RegisterOutcome(RegisteredDb(db, d), d2).RejectedWith?
    ensures d2.role != Admin ==> RegisterOutcome(RegisteredDb(db, d), d2) == RejectedWith("Email is already registered")
  {
    SetGet(db, d.email, RegisteredRecord(d), d.email);
  }
}
