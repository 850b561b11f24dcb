/** The sign-up form (Register.tsx): an ordered chain of checks that stops
    at the first failure, then registration with the sign-in store followed
    by the new entry in the user list. Both stores write the same mock user
    database. */
module RegisterPage {
  import opened Common
  import opened UserDb
  import Auth = AuthContext
  import UC = UserContext
  import NC = NotificationContext

  /** The form; the role select starts empty (`None`). */
  datatype RegisterForm = RegisterForm(
    name: string, email: string, password: string, confirmPassword: string,
    role: Option<Role>, phone: string, address: string)

  datatype Message =
    | FillAllFields | InvalidEmail | PasswordTooShort | PasswordsDiffer | RegistrationFailed

  function MessageText(m: Message): string
  {
    match m
    case FillAllFields => "Please fill in all fields"
    case InvalidEmail => "Please enter a valid email address"
    case PasswordTooShort => "Password must be at least 6 characters long"
    case PasswordsDiffer => "Passwords do not match"
    case RegistrationFailed => "Registration failed. Please try again."
  }

  const MinPasswordLength := 6

  /** Every required field is filled; phone and address are optional. */
  predicate Filled(f: RegisterForm)
  {
    f.name != "" && f.email != "" && f.password != "" && f.confirmPassword != "" && f.role.Some?
  }

  /** `validateForm`: the first failing check's message, or `None` when the
      form passes. */
  function FormError(f: RegisterForm): (r: Option<Message>)
    ensures r.None? <==>
      Filled(f) && '@' in f.email && |f.password| >= MinPasswordLength && f.password == f.confirmPassword
    ensures r.Some? ==> r.value != RegistrationFailed
  {
    if !Filled(f) then Some(FillAllFields)
    else if '@' !in f.email then Some(InvalidEmail)
    else if |f.password| < MinPasswordLength then Some(PasswordTooShort)
    else if f.password != f.confirmPassword then Some(PasswordsDiffer)
    else None
  }

  /** What `register(formData)` receives; the optional fields are passed as
      typed, even when empty. */
  function RegisterDataOf(f: RegisterForm): (r: Auth.RegisterData)
    requires f.role.Some?
    ensures r.email == f.email && r.password == f.password && r.role == f.role.value
  {
    Auth.RegisterData(f.name, f.email, f.password, f.role.value, Some(f.phone), Some(f.address))
  }

  /** What `addUser` receives: the form without the passwords. */
  function UserDataOf(f: RegisterForm): (r: UC.UserData)
    requires f.role.Some?
    ensures r.email == f.email && r.name == f.name && r.role == f.role.value
  {
    UC.UserData(f.name, f.email, f.role.value, Some(f.phone), Some(f.address))
  }

  class RegisterView {
    const auth: Auth.Auth
    const users: UC.UserList
    var form: RegisterForm
    var error: Option<Message>
    var showSuccess: bool

    constructor (auth: Auth.Auth, users: UC.UserList)
      ensures this.auth == auth && this.users == users
      ensures form == RegisterForm("", "", "", "", None, "", "") && error.None? && !showSuccess
    {
      this.auth := auth;
      this.users := users;
      form := RegisterForm("", "", "", "", None, "", "");
      error := None;
      showSuccess := false;
    }

    /** `handleSubmit`: an invalid form only shows its message; a valid one
        is registered, and only when registration succeeds is the user added
        to the list. A refused registration shows the generic failure. */
    method Submit(id: string, noticeId: string, now: int)
      requires auth.store == users.store
      modifies this, auth, users, users.store, users.feed
      ensures form == old(form)
      ensures auth.user == old(auth.user) && auth.isAuthenticated == old(auth.isAuthenticated)
      ensures FormError(old(form)).Some? ==>
        && error == FormError(old(form)) && showSuccess == old(showSuccess)
        && auth.db == old(auth.db) && users.users == old(users.users)
        && users.store.entries == old(users.store.entries) && users.feed.notifications == old(users.feed.notifications)
      ensures FormError(old(form)).None? && Auth.RegisterOutcome(old(auth.db), RegisterDataOf(old(form))).RejectedWith? ==>
        && error == Some(RegistrationFailed) && showSuccess == old(showSuccess)
        && auth.db == old(auth.db) && users.users == old(users.users)
        && users.store.entries == old(users.store.entries) && users.feed.notifications == old(users.feed.notifications)
      ensures FormError(old(form)).None? && Auth.RegisterOutcome(old(auth.db), RegisterDataOf(old(form))).Resolved? ==>
        && auth.db == Auth.RegisteredDb(old(auth.db), RegisterDataOf(old(form)))
        && users.users == old(users.users) + [UC.NewUser(UserDataOf(old(form)), id, now)]
        && users.store.entries == Some(UC.Persisted(users.users, Some(auth.db)))
        && users.feed.notifications == NC.Posted(old(users.feed.notifications), UC.NewUserNotice(UserDataOf(old(form))), noticeId, now)
        && error.None? && showSuccess
    {
      error := None;
      var invalid := FormError(form);
      if invalid.Some? {
        error := invalid;
        return;
      }
      var outcome := auth.Register(RegisterDataOf(form));
      if outcome.RejectedWith? {
        error := Some(RegistrationFailed);
        return;
      }
      var u := users.AddUser(UserDataOf(form), id, noticeId, now);
      showSuccess := true;
    }
  }

  // -----------------------------------------------------------------------
  // Properties

  /** The checks run in order and the first failure is reported: an
      unfilled form is reported as such whatever else is wrong, an email
      without '@' before a short password, a short password before a
      mismatch. */
  lemma ChecksInOrder(f: RegisterForm)
    ensures !Filled(f) ==> FormError(f) == Some(FillAllFields)
    ensures Filled(f) && '@' !in f.email ==> FormError(f) == Some(InvalidEmail)
    ensures FormError(f) == Some(PasswordTooShort) <==>
      Filled(f) && '@' in f.email && |f.password| < MinPasswordLength
    ensures FormError(f) == Some(PasswordsDiffer) <==>
      Filled(f) && '@' in f.email && |f.password| >= MinPasswordLength && f.password != f.confirmPassword
  {
  }

  /** Only '@' is asked of the email: "a@" passes this form although the
      other forms' pattern needs a dot after the '@'. */
  lemma AtSignIsEnough()
    ensures FormError(RegisterForm("n", "a@", "secret", "secret", Some(Student), "", "")).None?
    ensures !MatchesEmailPattern("a@")
  {
    assert "a@"[1] == '@';
    EmailMatchFromIff("a@", 0);
  }

  /** After a successful sign-up the database holds the account under its
      email with the typed password: the user list's write-back finds the
      entry registration stored and keeps its password, while name and role
      come from the new list entry. */
  lemma {:induction false} PasswordSurvivesAddUser(us: seq<UC.User>, db: seq<Entry>, f: RegisterForm, id: string, now: int)
    requires KeysUnique(db) && f.role.Some?
    requires Auth.RegisterOutcome(db, RegisterDataOf(f)).Resolved?
    ensures var stored := UC.Persisted(us + [UC.NewUser(UserDataOf(f), id, now)], Some(Auth.RegisteredDb(db, RegisterDataOf(f))));
      && Get(stored, f.email).Some?
      && Get(stored, f.email).value.password == f.password
      && Get(stored, f.email).value.name == f.name
      && Get(stored, f.email).value.role == f.role.value
  {
    var d := RegisterDataOf(f);
    var u := UC.NewUser(UserDataOf(f), id, now);
    var existing := Auth.RegisteredDb(db, d);
    SetGet(db, f.email, Auth.RegisteredRecord(d), f.email);
    assert Get(existing, f.email) == Some(Auth.RegisteredRecord(d));
    var all := us + [u];
    assert all[..|all| - 1] == us;
    var c := UC.Collected(all);
    UC.CollectedLastWins(us, f.email);
    SetGet(UC.Collected(us), u.email, UC.Record(u), f.email);
    assert Get(c, f.email) == Some(UC.Record(u));
    var i := IndexOfKey(c, f.email).value;
    var w := UC.WithPasswords(c, existing);
    assert forall k :: 0 <= k < |w| ==> w[k].email == c[k].email;
    assert KeysUnique(w);
    GetAt(w, i);
    GetAt(c, i);
    assert w[i].rec == UC.Record(u).(password := f.password);
  }
}
