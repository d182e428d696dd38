/**
 * Properties that span both drafts of the authentication code and the
 * task routes: where the session shapes meet and fail to meet, whole
 * register-then-login runs, the duplicate-registration race, and the
 * guarantees shared by every task mutation.
 */
module Drafts {
  import opened Base
  import opened JsText
  import opened EmailFormat
  import opened Models
  import opened Http
  import opened Guards
  import AppAuth
  import AppTasks
  import RouterAuth

  /**
   * The application draft's login writes only the top-level fields, so a
   * session without `user` still fails `requireLogin` afterwards, and every
   * task route of the same file sends the client back to /login.
   */
  lemma AppLoginLeavesGuardShut(st: State, f: LoginForm, h: Hasher, url: string, id: TaskId)
    requires st.session.user.None?
    ensures var st1 := AppAuth.PostLogin(st, f, h).0;
            && !LoggedIn(st1.session)
            && AppTasks.ListTasks(st1, url).1 == Redirect("/login")
            && AppTasks.PostToggleStatus(st1, url, id).1 == Redirect("/login")
            && AppTasks.PostToggleStatus(st1, url, id).0.tasks == st1.tasks
  {
  }

  /**
   * The router's login writes only `session.user`, so `requireLogin`
   * admits the session but the task handlers, which read the top-level
   * `userId`, fail: the list is an error page, nothing can be added, and no
   * task can be changed.
   */
  lemma RouterLoginTripsTaskHandlers(st: State, f: LoginForm, h: Hasher, url: string, id: TaskId, tf: TaskForm)
    requires st.session == EmptySession
    requires forall i :: 0 <= i < |st.users| ==> st.users[i].id != ""
    requires RouterAuth.PostLogin(st, f, h).1 == Redirect("/dashboard")
    ensures var st1 := RouterAuth.PostLogin(st, f, h).0;
            && LoggedIn(st1.session)
            && st1.session.userId.None?
            && AppTasks.ListTasks(st1, url) == (st1, Send(AppTasks.MsgTasksError))
            && AppTasks.PostAddTask(st1, url, tf).0 == st1
            && AppTasks.PostEditTask(st1, url, id, tf).0 == st1
            && AppTasks.PostDeleteTask(st1, url, id).0 == st1
            && AppTasks.PostToggleStatus(st1, url, id).0 == st1
  {
  }

  /**
   * Registering through the application draft and then logging in with
   * the same e-mail and password succeeds, given that the hashing library
   * accepts a password against its own digest, and binds the top-level
   * session fields to the new user.
   */
  lemma AppRegisterThenLogin(st: State, f: RegisterForm, newId: UserId, h: Hasher)
    requires FieldsPresent(f) && |f.password.value| >= AppAuth.MinPasswordLength
    requires EmailShape(f.email.value) && !Taken(st.users, f.username.value, f.email.value)
    requires Storable(st.users, NewUser(f, newId, h))
    requires h.compare(f.password.value, h.hash(f.password.value))
    ensures var st1 := AppAuth.PostRegister(st, f, newId, h).0;
            var u := NewUser(f, newId, h);
            AppAuth.PostLogin(st1, LoginForm(f.email, f.password), h) == (st1.(session := AppAuth.WithIdentity(st.session, u)), Redirect("/dashboard"))
  {
    var u := NewUser(f, newId, h);
    var key := f.email.value;
    ShapeIffPattern(key);
    var st1 := AppAuth.PostRegister(st, f, newId, h).0;
    assert AppAuth.PostRegister(st, f, newId, h).1 == Redirect("/login");
    assert st1.users == st.users + [u];
    forall j | 0 <= j < |st.users|
      ensures st.users[j].email != NormEmail(key)
    {
    }
    ByEmailAppended(st.users, u, key);
    assert st1.users[|st.users|] == u;
  }

  /**
   * Registering through the router logs the new user in at once: the
   * guard admits the session and the login form is no longer shown.
   */
  lemma RouterRegisterLogsIn(st: State, f: RegisterForm, newId: UserId, h: Hasher, url: string)
    requires newId != ""
    requires FieldsPresent(f) && !Taken(st.users, f.username.value, f.email.value)
    requires Storable(st.users, NewUser(f, newId, h))
    ensures var st1 := RouterAuth.PostRegister(st, f, newId, h).0;
            && st1.session.user == Some(RouterAuth.Identity(NewUser(f, newId, h)))
            && RequireLogin(st1.session, url).1 == Proceed
            && RouterAuth.GetLogin(st1).1 == Redirect("/dashboard")
  {
  }

  /**
   * Registering through the router, logging out and logging back in with
   * the same credentials restores the same `session.user`.
   */
  lemma RouterRegisterLogoutLogin(st: State, f: RegisterForm, newId: UserId, h: Hasher)
    requires FieldsPresent(f) && !Taken(st.users, f.username.value, f.email.value)
    requires Storable(st.users, NewUser(f, newId, h))
    requires h.compare(f.password.value, h.hash(f.password.value))
    ensures var st1 := RouterAuth.PostRegister(st, f, newId, h).0;
            var st2 := Logout(st1).0;
            var r := RouterAuth.PostLogin(st2, LoginForm(f.email, f.password), h);
            r.1 == Redirect("/dashboard") && r.0.session == EmptySession.(user := st1.session.user)
  {
    var u := NewUser(f, newId, h);
    RouterRegisterSaves(st, f, newId, h);
    RouterLoginFirstMatch(State(st.users + [u], st.tasks, EmptySession), LoginForm(f.email, f.password), h, |st.users|);
  }

  /** A registration the router accepts appends the document and sets `session.user` to it. */
  lemma RouterRegisterSaves(st: State, f: RegisterForm, newId: UserId, h: Hasher)
    requires FieldsPresent(f) && !Taken(st.users, f.username.value, f.email.value)
    requires Storable(st.users, NewUser(f, newId, h))
    ensures var u := NewUser(f, newId, h);
            RouterAuth.PostRegister(st, f, newId, h)
            == (st.(users := st.users + [u], session := st.session.(user := Some(RouterAuth.Identity(u)))), Redirect("/dashboard"))
  {
    var u := NewUser(f, newId, h);
    assert RouterAuth.PostRegister(st, f, newId, h).1 == Redirect("/dashboard");
  }

  /**
   * The router's login binds `session.user` to the first document under
   * the address when the password matches; its extra lower-casing does not
   * change which document that is.
   */
  lemma RouterLoginFirstMatch(st: State, f: LoginForm, h: Hasher, i: nat)
    requires Truthy(f.email) && Truthy(f.password)
    requires i < |st.users| && st.users[i].email == NormEmail(f.email.value)
    requires forall j :: 0 <= j < i ==> st.users[j].email != NormEmail(f.email.value)
    requires h.compare(f.password.value, st.users[i].password)
    ensures RouterAuth.PostLogin(st, f, h) == (st.(session := st.session.(user := Some(RouterAuth.Identity(st.users[i])))), Redirect("/dashboard"))
  {
    NormEmailAbsorbsLower(f.email.value);
    ByEmailFirst(st.users, Lower(f.email.value), i);
  }

  /**
   * Two registrations that both passed the pre-check against the same
   * snapshot, then save one after the other: when they share a username or
   * an e-mail, the unique index refuses the second, which gets the same
   * message as the pre-check would have given, and nothing changes.
   */
  lemma DuplicateRaceResolvedByIndex(st: State, fa: RegisterForm, fb: RegisterForm, ida: UserId, idb: UserId, h: Hasher)
    requires FieldsPresent(fa) && FieldsPresent(fb)
    requires !Taken(st.users, fa.username.value, fa.email.value) && !Taken(st.users, fb.username.value, fb.email.value)
    requires Storable(st.users, NewUser(fa, ida, h)) && RequiredPresent(NewUser(fb, idb, h))
    requires Trim(fa.username.value) == Trim(fb.username.value) || NormEmail(fa.email.value) == NormEmail(fb.email.value)
    ensures var st1 := AppAuth.Commit(st, fa, ida, h).0;
            AppAuth.Commit(st1, fb, idb, h) == (st1, Render(RegisterPage, Some(AppAuth.MsgTaken)))
  {
    var ua := NewUser(fa, ida, h);
    var ub := NewUser(fb, idb, h);
    var st1 := AppAuth.Commit(st, fa, ida, h).0;
    assert st1.users == st.users + [ua];
    assert st1.users[|st.users|] == ua;
    assert Collides(ua, ub);
    assert !Storable(st1.users, ub);
  }

  /**
   * A task owned by someone other than the session's `userId` comes out
   * of edit, delete and status toggle unchanged, whatever the form says,
   * and a logged-in session is sent back to the list instead of being
   * shown its edit form.
   */
  lemma ForeignTaskUntouched(st: State, url: string, id: TaskId, f: TaskForm)
    requires id in st.tasks.rows && st.session.userId != Some(st.tasks.rows[id].userId)
    ensures AppTasks.EditForm(st, url, id).0.tasks == st.tasks
    ensures LoggedIn(st.session) ==> AppTasks.EditForm(st, url, id) == (st, Redirect("/tasks"))
    ensures AppTasks.PostEditTask(st, url, id, f).0.tasks == st.tasks
    ensures AppTasks.PostDeleteTask(st, url, id).0.tasks == st.tasks
    ensures AppTasks.PostToggleStatus(st, url, id).0.tasks == st.tasks
  {
  }

  /**
   * After logout no guard admits the session, the router shows its login
   * form again and the root sends the client to the login page.
   */
  lemma LogoutEndsSession(st: State, url: string)
    ensures var s := Logout(st).0.session;
            RequireLogin(s, url).1 == Redirect("/login") && PreventLoggedInAccess(s).1 == Proceed
    ensures RouterAuth.GetLogin(Logout(st).0).1 == Render(LoginPage, None)
    ensures AppAuth.Home(Logout(st).0).1 == Redirect("/login")
  {
  }

  /**
   * Only the router guards the authentication forms: with `session.user`
   * set it redirects to the dashboard, while the application draft shows
   * the forms to any session.
   */
  lemma FormsGuardedOnlyInRouter(st: State)
    requires st.session.user.Some?
    ensures RouterAuth.GetLogin(st).1 == Redirect("/dashboard") && RouterAuth.GetRegister(st).1 == Redirect("/dashboard")
    ensures AppAuth.GetLogin(st).1 == Render(LoginPage, None) && AppAuth.GetRegister(st).1 == Render(RegisterPage, None)
  {
  }

  /** The router's POST handlers are not guarded: their response does not depend on the session. */
  lemma RouterPostsIgnoreSession(st: State, s: Session, rf: RegisterForm, lf: LoginForm, newId: UserId, h: Hasher)
    ensures RouterAuth.PostLogin(st, lf, h).1 == RouterAuth.PostLogin(st.(session := s), lf, h).1
    ensures RouterAuth.PostRegister(st, rf, newId, h).1 == RouterAuth.PostRegister(st.(session := s), rf, newId, h).1
  {
  }
}
