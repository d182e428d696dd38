/**
 * The authentication router (routes/auth.js): the forms are guarded by
 * `preventLoggedInAccess`, registration logs the new user in at once, and
 * both registration and login write the identity under `session.user`.
 */
module RouterAuth {
  import opened Base
  import opened JsText
  import opened Models
  import opened Http
  import opened Guards

  const MsgAllFields := "All fields required"
  const MsgTaken := "Username or email already exists"
  const MsgRegisterFailed := "Registration failed"
  const MsgLoginFields := "Email & password required"

  /** What the router stores under `session.user` for a user document. */
  function Identity(u: User): SessionUser
  {
    SessionUser(u.id, u.username, u.email)
  }

  /** GET /register behind `preventLoggedInAccess`. */
  function GetRegister(st: State): (r: (State, Outcome))
    ensures r.0 == st
    ensures r.1 == Redirect("/dashboard") <==> st.session.user.Some?
    ensures st.session.user.None? ==> r.1 == Render(RegisterPage, None)
  {
    var (s1, g) := PreventLoggedInAccess(st.session);
    if g != Proceed then (st.(session := s1), g) else (st, Render(RegisterPage, None))
  }

  /** GET /login behind `preventLoggedInAccess`. */
  function GetLogin(st: State): (r: (State, Outcome))
    ensures r.0 == st
    ensures r.1 == Redirect("/dashboard") <==> st.session.user.Some?
    ensures st.session.user.None? ==> r.1 == Render(LoginPage, None)
  {
    var (s1, g) := PreventLoggedInAccess(st.session);
    if g != Proceed then (st.(session := s1), g) else (st, Render(LoginPage, None))
  }

  /**
   * POST /register (not guarded): presence check, uniqueness pre-check,
   * save; on success the new user is logged in under `session.user`. No
   * password-length or e-mail check, and every store failure, a
   * duplicate key included, gets the generic message.
   */
  function PostRegister(st: State, f: RegisterForm, newId: UserId, h: Hasher): (r: (State, Outcome))
    ensures r.0.tasks == st.tasks
    ensures r.1 != Redirect("/dashboard") ==> r.0 == st && r.1.Render? && r.1.view == RegisterPage
    ensures !FieldsPresent(f) ==> r.1 == Render(RegisterPage, Some(MsgAllFields))
    ensures FieldsPresent(f) && Taken(st.users, f.username.value, f.email.value) ==> r.1 == Render(RegisterPage, Some(MsgTaken))
    ensures FieldsPresent(f) && !Taken(st.users, f.username.value, f.email.value) && r.1 != Redirect("/dashboard")
            ==> r.1 == Render(RegisterPage, Some(MsgRegisterFailed))
    ensures r.1 == Redirect("/dashboard") <==>
            && FieldsPresent(f) && !Taken(st.users, f.username.value, f.email.value)
            && Storable(st.users, NewUser(f, newId, h))
    ensures r.1 == Redirect("/dashboard") ==>
            && r.0.users == st.users + [User(newId, Trim(f.username.value), NormEmail(f.email.value), h.hash(f.password.value))]
            && r.0.session == st.session.(user := Some(SessionUser(newId, Trim(f.username.value), NormEmail(f.email.value))))
    ensures ValidUsers(st.users) ==> ValidUsers(r.0.users)
  {
    if !FieldsPresent(f) then (st, Render(RegisterPage, Some(MsgAllFields)))
    else
      ByUsernameOrEmailFinds(st.users, f.username.value, f.email.value);
      if ByUsernameOrEmail(st.users, f.username.value, f.email.value).Some? then (st, Render(RegisterPage, Some(MsgTaken)))
      else
        var u := NewUser(f, newId, h);
        assert ValidUsers(st.users) && Save(st.users, u).Ok? ==> ValidUsers(Save(st.users, u).value) by {
          if ValidUsers(st.users) && Save(st.users, u).Ok? { SavePreservesValid(st.users, u); }
        }
        match Save(st.users, u)
        case Ok(users) => (st.(users := users, session := st.session.(user := Some(Identity(u)))), Redirect("/dashboard"))
        case Err(_) => (st, Render(RegisterPage, Some(MsgRegisterFailed)))
  }

  /**
   * POST /login (not guarded): the lookup uses the lower-cased e-mail; an
   * unknown e-mail and a wrong password give the same response and change
   * nothing; a match sets `session.user`.
   */
  function PostLogin(st: State, f: LoginForm, h: Hasher): (r: (State, Outcome))
    ensures r.0.users == st.users && r.0.tasks == st.tasks
    ensures r.1 != Redirect("/dashboard") ==> r.0 == st
    ensures !(Truthy(f.email) && Truthy(f.password)) ==> r.1 == Render(LoginPage, Some(MsgLoginFields))
    ensures Truthy(f.email) && Truthy(f.password) && !KnownEmail(st.users, Lower(f.email.value)) ==> r.1 == InvalidCredentials
    ensures Truthy(f.email) && Truthy(f.password) && Unique(st.users) &&
            KnownEmail(st.users, Lower(f.email.value)) && !CredentialsMatch(st.users, Lower(f.email.value), f.password.value, h)
            ==> r.1 == InvalidCredentials
    ensures r.1 == Redirect("/dashboard") ==>
            exists i :: 0 <= i < |st.users| && st.users[i].email == NormEmail(Lower(f.email.value))
                        && h.compare(f.password.value, st.users[i].password)
                        && r.0.session == st.session.(user := Some(SessionUser(st.users[i].id, st.users[i].username, st.users[i].email)))
    ensures Unique(st.users) ==>
            (r.1 == Redirect("/dashboard") <==>
             Truthy(f.email) && Truthy(f.password) && CredentialsMatch(st.users, Lower(f.email.value), f.password.value, h))
  {
    if !Truthy(f.email) || !Truthy(f.password) then (st, Render(LoginPage, Some(MsgLoginFields)))
    else
      var key := Lower(f.email.value);
      ByEmailFinds(st.users, key);
      assert Unique(st.users) ==>
             (CredentialsMatch(st.users, key, f.password.value, h) <==>
              ByEmail(st.users, key).Some? && h.compare(f.password.value, st.users[ByEmail(st.users, key).value].password)) by {
        if Unique(st.users) { LookupDecides(st.users, key, f.password.value, h); }
      }
      match ByEmail(st.users, key)
      case None => (st, InvalidCredentials)
      case Some(i) =>
        if !h.compare(f.password.value, st.users[i].password) then (st, InvalidCredentials)
        else (st.(session := st.session.(user := Some(Identity(st.users[i])))), Redirect("/dashboard"))
  }

  /** The router's extra lower-casing selects the same document as the plain lookup. */
  lemma LowercasedLookupAgrees(users: seq<User>, email: string)
    ensures ByEmail(users, Lower(email)) == ByEmail(users, email)
  {
    NormEmailAbsorbsLower(email);
  }
}
