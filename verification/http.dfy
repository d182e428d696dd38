/**
 * What a request handler sees and produces: the client-held session, the
 * parsed request body, the response, and the application state the
 * handlers move between.
 */
module Http {
  import opened Base
  import opened JsText
  import opened Models

  /** The identity the router draft stores under `session.user`. */
  datatype SessionUser = SessionUser(userId: string, username: string, email: string)

  /**
   * The payload of the session cookie. The two drafts disagree on where the
   * identity lives: the application draft writes top-level `userId`,
   * `username` and `email`; the router draft and the guards use `user`.
   * Both shapes are kept so each handler reads exactly what its source reads.
   */
  datatype Session = Session(
    userId: Option<string>,
    username: Option<string>,
    email: Option<string>,
    user: Option<SessionUser>,
    redirectTo: Option<string>)

  /** The payload after `session.reset()`. */
  const EmptySession := Session(None, None, None, None, None)

  /** The form templates a handler re-renders. */
  datatype View = RegisterPage | LoginPage | TaskFormPage

  /** The response of a handler, or `Proceed` when a guard passes the request on. */
  datatype Outcome =
    | Proceed
    | Redirect(path: string)
    | Render(view: View, error: Option<string>)
    | ShowDashboard(total: nat, completed: nat, pending: nat)
    | ShowTasks(tasks: map<TaskId, Task>)
    | ShowEditForm(id: TaskId, task: Task)
    | Send(body: string)

  /** The users collection, the tasks table and the requesting client's session. */
  datatype State = State(users: seq<User>, tasks: TaskTable, session: Session)

  /**
   * GET /logout, written the same way in both drafts and guarded in
   * neither: `session.reset()` empties the session whatever it held, the
   * stores are untouched, and the client is sent to the login page.
   */
  function Logout(st: State): (r: (State, Outcome))
    ensures r.0.session == EmptySession
    ensures r.0.users == st.users && r.0.tasks == st.tasks
    ensures r.1 == Redirect("/login")
  {
    (st.(session := EmptySession), Redirect("/login"))
  }

  /** The password hashing library: `hash(password)` and `compare(password, digest)`. */
  datatype Hasher = Hasher(hash: string -> string, compare: (string, string) -> bool)

  /** The one response of both login handlers for an unknown e-mail and for a wrong password alike. */
  const InvalidCredentials := Render(LoginPage, Some("Invalid credentials"))

  /** Some stored document under this address (after the setters) accepts the password. */
  predicate CredentialsMatch(users: seq<User>, email: string, password: string, h: Hasher)
  {
    exists i :: 0 <= i < |users| && users[i].email == NormEmail(email) && h.compare(password, users[i].password)
  }

  /**
   * What the login handlers conclude from `findOne({ email })` followed by
   * `compare` under the unique e-mail index: the found document accepts the
   * password exactly when some document under the address does.
   */
  lemma LookupDecides(users: seq<User>, email: string, password: string, h: Hasher)
    requires Unique(users)
    ensures CredentialsMatch(users, email, password, h) <==>
            ByEmail(users, email).Some? && h.compare(password, users[ByEmail(users, email).value].password)
  {
    ByEmailUnique(users, email);
  }

  /** Request bodies; a field the client did not send is `None`. */
  datatype RegisterForm = RegisterForm(username: Option<string>, email: Option<string>, password: Option<string>)
  datatype LoginForm = LoginForm(email: Option<string>, password: Option<string>)
  datatype TaskForm = TaskForm(title: Option<string>, description: Option<string>, dueDate: Option<string>, status: Option<string>)

  /** `username`, `email` and `password` are all truthy: the presence check both registration handlers start with. */
  predicate FieldsPresent(f: RegisterForm)
  {
    Truthy(f.username) && Truthy(f.email) && Truthy(f.password)
  }

  /** The document both registration handlers save: the setters applied, the password replaced by its digest. */
  function NewUser(f: RegisterForm, newId: UserId, h: Hasher): User
    requires FieldsPresent(f)
  {
    Build(newId, f.username.value, f.email.value, h.hash(f.password.value))
  }
}
