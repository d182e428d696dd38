/**
 * The authentication routes of the application draft (app.js): GET and
 * POST /register, GET and POST /login, /logout and the root redirect.
 * This draft writes the identity into the top-level session fields.
 */
module AppAuth {
  import opened Base
  import opened JsText
  import opened EmailFormat
  import opened Models
  import opened Http

  const MinPasswordLength := 6

  const MsgAllFields := "All fields are required."
  const MsgShortPassword := "Password must be at least 6 characters."
  const MsgBadEmail := "Invalid email address."
  const MsgTaken := "Username or Email already exists"
  const MsgRegisterFailed := "Registration failed."
  const MsgLoginFields := "Email and password are required"

  /** The form passes every check made before the store is consulted. */
  ghost predicate FormAcceptable(f: RegisterForm)
  {
    FieldsPresent(f) && |f.password.value| >= MinPasswordLength && MatchesPattern(f.email.value)
  }

  /** The checks made before anything is written, in the handler's order; the message of the first that fails. */
  function Rejection(users: seq<User>, f: RegisterForm): (r: Option<string>)
    ensures !FieldsPresent(f) ==> r == Some(MsgAllFields)
    ensures FieldsPresent(f) && |f.password.value| < MinPasswordLength ==> r == Some(MsgShortPassword)
    ensures FieldsPresent(f) && |f.password.value| >= MinPasswordLength && !MatchesPattern(f.email.value) ==> r == Some(MsgBadEmail)
    ensures FormAcceptable(f) && Taken(users, f.username.value, f.email.value) ==> r == Some(MsgTaken)
    ensures r.None? <==> FormAcceptable(f) && !Taken(users, f.username.value, f.email.value)
  {
    if !FieldsPresent(f) then Some(MsgAllFields)
    else if |f.password.value| < MinPasswordLength then Some(MsgShortPassword)
    else
      ShapeIffPattern(f.email.value);
      ByUsernameOrEmailFinds(users, f.username.value, f.email.value);
      if !EmailShape(f.email.value) then Some(MsgBadEmail)
      else if ByUsernameOrEmail(users, f.username.value, f.email.value).Some? then Some(MsgTaken)
      else None
  }

  /**
   * The handler after its checks: save the document and send the client to
   * the login page; a duplicate-key refusal gets the same message as the
   * pre-check, any other failure the generic one. The session is not touched.
   */
  function Commit(st: State, f: RegisterForm, newId: UserId, h: Hasher): (r: (State, Outcome))
    requires FieldsPresent(f)
    ensures r.1 == Redirect("/login") <==> Storable(st.users, NewUser(f, newId, h))
    ensures r.1 == Redirect("/login") ==> r.0 == st.(users := st.users + [NewUser(f, newId, h)])
    ensures r.1 != Redirect("/login") ==> r.0 == st
    ensures RequiredPresent(NewUser(f, newId, h)) && !Storable(st.users, NewUser(f, newId, h))
            ==> r.1 == Render(RegisterPage, Some(MsgTaken))
    ensures !RequiredPresent(NewUser(f, newId, h)) ==> r.1 == Render(RegisterPage, Some(MsgRegisterFailed))
    ensures ValidUsers(st.users) ==> ValidUsers(r.0.users)
  {
    var u := NewUser(f, newId, h);
    assert ValidUsers(st.users) && Save(st.users, u).Ok? ==> ValidUsers(Save(st.users, u).value) by {
      if ValidUsers(st.users) && Save(st.users, u).Ok? { SavePreservesValid(st.users, u); }
    }
    match Save(st.users, u)
    case Ok(users) => (st.(users := users), Redirect("/login"))
    case Err(DuplicateKey) => (st, Render(RegisterPage, Some(MsgTaken)))
    case Err(ValidationError) => (st, Render(RegisterPage, Some(MsgRegisterFailed)))
  }

  /**
   * POST /register: field, length and e-mail checks, the uniqueness
   * pre-check, then the save. Exactly one user is added on success; every
   * rejection leaves the state as it was.
   */
  function PostRegister(st: State, f: RegisterForm, newId: UserId, h: Hasher): (r: (State, Outcome))
    ensures r.0.tasks == st.tasks && r.0.session == st.session
    ensures r.1 != Redirect("/login") ==> r.0 == st && r.1.Render? && r.1.view == RegisterPage
    ensures !FieldsPresent(f) ==> r.1 == Render(RegisterPage, Some(MsgAllFields))
    ensures FieldsPresent(f) && |f.password.value| < MinPasswordLength ==> r.1 == Render(RegisterPage, Some(MsgShortPassword))
    ensures FieldsPresent(f) && |f.password.value| >= MinPasswordLength && !MatchesPattern(f.email.value)
            ==> r.1 == Render(RegisterPage, Some(MsgBadEmail))
    ensures FormAcceptable(f) && Taken(st.users, f.username.value, f.email.value) ==> r.1 == Render(RegisterPage, Some(MsgTaken))
    ensures r.1 == Redirect("/login") <==>
            FormAcceptable(f) && !Taken(st.users, f.username.value, f.email.value) && Storable(st.users, NewUser(f, newId, h))
    ensures r.1 == Redirect("/login") ==>
            r.0.users == st.users + [User(newId, Trim(f.username.value), NormEmail(f.email.value), h.hash(f.password.value))]
    ensures ValidUsers(st.users) ==> ValidUsers(r.0.users)
  {
    match Rejection(st.users, f)
    case Some(msg) => (st, Render(RegisterPage, Some(msg)))
    case None => Commit(st, f, newId, h)
  }

  /** The session after the application draft's login: the identity in the top-level fields. */
  function WithIdentity(s: Session, u: User): Session
  {
    s.(userId := Some(u.id), username := Some(u.username), email := Some(u.email))
  }

  /**
   * POST /login: an unknown e-mail and a wrong password give the same
   * response and change nothing; a match writes the user's id, username
   * and e-mail into the top-level session fields.
   */
  function PostLogin(st: State, f: LoginForm, h: Hasher): (r: (State, Outcome))
    ensures r.0.users == st.users && r.0.tasks == st.tasks
    ensures r.1 != Redirect("/dashboard") ==> r.0 == st
    ensures !(Truthy(f.email) && Truthy(f.password)) ==> r.1 == Render(LoginPage, Some(MsgLoginFields))
    ensures Truthy(f.email) && Truthy(f.password) && !KnownEmail(st.users, f.email.value) ==> r.1 == InvalidCredentials
    ensures Truthy(f.email) && Truthy(f.password) && Unique(st.users) &&
            KnownEmail(st.users, f.email.value) && !CredentialsMatch(st.users, f.email.value, f.password.value, h)
            ==> r.1 == InvalidCredentials
    ensures r.1 == Redirect("/dashboard") ==>
            exists i :: 0 <= i < |st.users| && st.users[i].email == NormEmail(f.email.value)
                        && h.compare(f.password.value, st.users[i].password)
                        && r.0.session == WithIdentity(st.session, st.users[i])
    ensures Unique(st.users) ==>
            (r.1 == Redirect("/dashboard") <==>
             Truthy(f.email) && Truthy(f.password) && CredentialsMatch(st.users, f.email.value, f.password.value, h))
  {
    if !Truthy(f.email) || !Truthy(f.password) then (st, Render(LoginPage, Some(MsgLoginFields)))
    else
      var key := f.email.value;
      ByEmailFinds(st.users, key);
      assert Unique(st.users) ==>
             (CredentialsMatch(st.users, key, f.password.value, h) <==>
              ByEmail(st.users, key).Some? && h.compare(f.password.value, st.users[ByEmail(st.users, key).value].password)) by {
        if Unique(st.users) { LookupDecides(st.users, key, f.password.value, h); }
      }
      match ByEmail(st.users, f.email.value)
      case None => (st, InvalidCredentials)
      case Some(i) =>
        if !h.compare(f.password.value, st.users[i].password) then (st, InvalidCredentials)
        else (st.(session := WithIdentity(st.session, st.users[i])), Redirect("/dashboard"))
  }

  /** GET /register of this draft carries no guard: the form is shown to any session. */
  function GetRegister(st: State): (r: (State, Outcome))
    ensures r.0 == st && r.1 == Render(RegisterPage, None)
  {
    (st, Render(RegisterPage, None))
  }

  /** GET /login of this draft carries no guard: the form is shown to any session. */
  function GetLogin(st: State): (r: (State, Outcome))
    ensures r.0 == st && r.1 == Render(LoginPage, None)
  {
    (st, Render(LoginPage, None))
  }

  /** GET /: the dashboard when the top-level `userId` is truthy, the login page otherwise. */
  function Home(st: State): (r: (State, Outcome))
    ensures r.0 == st
    ensures r.1 == Redirect("/dashboard") <==> Truthy(st.session.userId)
    ensures r.1 != Redirect("/dashboard") ==> r.1 == Redirect("/login")
  {
    if !Truthy(st.session.userId) then (st, Redirect("/login")) else (st, Redirect("/dashboard"))
  }
}
