/**
 * The task routes of the application draft (app.js). Every route sits
 * behind `requireLogin`; the handlers then take the owner from the
 * top-level `session.userId` (`req.session.userId.toString()`), which
 * throws when that field is unset. Edit, delete and status toggle act only
 * on a task whose `userId` equals that owner; a missing or foreign task
 * sends the client back to /tasks with nothing changed.
 */
module AppTasks {
  import opened Base
  import opened JsText
  import opened Models
  import opened Http
  import opened Guards

  const MsgTitleRequired := "Title is required"
  const MsgAddFailed := "Failed to add task"
  const MsgUpdateFailed := "Failed to update task"
  const MsgDashboardError := "Error loading dashboard"
  const MsgTasksError := "Error loading tasks"

  /** The response of `requireLogin` when it turns the request away. */
  predicate Bounced(st: State, url: string, r: (State, Outcome))
  {
    r == (st.(session := st.session.(redirectTo := Some(url))), Redirect("/login"))
  }

  /** The task exists and its `userId` equals the top-level `session.userId`. */
  predicate OwnedBySession(st: State, id: TaskId)
  {
    id in st.tasks.rows && st.session.userId == Some(st.tasks.rows[id].userId)
  }

  /** Taking one more key into account grows each count by one exactly when that row qualifies. */
  lemma CountStep(rows: map<TaskId, Task>, seen: set<TaskId>, id: TaskId, uid: string)
    requires id in rows && id !in seen
    ensures |OwnedAmong(rows, seen + {id}, uid)| == |OwnedAmong(rows, seen, uid)| + (if rows[id].userId == uid then 1 else 0)
    ensures forall status :: |StatusAmong(rows, seen + {id}, uid, status)| ==
              |StatusAmong(rows, seen, uid, status)| + (if rows[id].userId == uid && rows[id].status == Some(status) then 1 else 0)
  {
    if rows[id].userId == uid {
      assert OwnedAmong(rows, seen + {id}, uid) == OwnedAmong(rows, seen, uid) + {id};
    } else {
      assert OwnedAmong(rows, seen + {id}, uid) == OwnedAmong(rows, seen, uid);
    }
    forall status
      ensures |StatusAmong(rows, seen + {id}, uid, status)| ==
              |StatusAmong(rows, seen, uid, status)| + (if rows[id].userId == uid && rows[id].status == Some(status) then 1 else 0)
    {
      if rows[id].userId == uid && rows[id].status == Some(status) {
        assert StatusAmong(rows, seen + {id}, uid, status) == StatusAmong(rows, seen, uid, status) + {id};
      } else {
        assert StatusAmong(rows, seen + {id}, uid, status) == StatusAmong(rows, seen, uid, status);
      }
    }
  }

  /** Counts the owner's tasks, and those among them completed and pending, in one pass over the table. */
  method CountTasks(rows: map<TaskId, Task>, uid: string) returns (total: nat, completed: nat, pending: nat)
    ensures total == |Owned(rows, uid)|
    ensures completed == |StatusAmong(rows, rows.Keys, uid, "completed")|
    ensures pending == |StatusAmong(rows, rows.Keys, uid, "pending")|
  {
    var todo := rows.Keys;
    var seen: set<TaskId> := {};
    total, completed, pending := 0, 0, 0;
    while todo != {}
      invariant todo !! seen && todo + seen == rows.Keys
      invariant total == |OwnedAmong(rows, seen, uid)|
      invariant completed == |StatusAmong(rows, seen, uid, "completed")|
      invariant pending == |StatusAmong(rows, seen, uid, "pending")|
      decreases todo
    {
      var id :| id in todo;
      var t := rows[id];
      CountStep(rows, seen, id, uid);
      if t.userId == uid {
        total := total + 1;
        if t.status == Some("completed") {
          completed := completed + 1;
        } else if t.status == Some("pending") {
          pending := pending + 1;
        }
      }
      seen := seen + {id};
      todo := todo - {id};
    }
    assert seen == rows.Keys;
  }

  /**
   * GET /dashboard: the number of the owner's tasks, and of those whose
   * status is exactly 'completed' and exactly 'pending'. Any other status
   * counts towards the total only.
   */
  method Dashboard(st: State, url: string) returns (st': State, out: Outcome)
    ensures !LoggedIn(st.session) ==> Bounced(st, url, (st', out))
    ensures LoggedIn(st.session) ==> st' == st
    ensures LoggedIn(st.session) && st.session.userId.None? ==> out == Send(MsgDashboardError)
    ensures LoggedIn(st.session) && st.session.userId.Some? ==>
            var uid := st.session.userId.value;
            && out.ShowDashboard?
            && out.total == |Owned(st.tasks.rows, uid)|
            && out.completed == |StatusAmong(st.tasks.rows, st.tasks.rows.Keys, uid, "completed")|
            && out.pending == |StatusAmong(st.tasks.rows, st.tasks.rows.Keys, uid, "pending")|
            && out.completed + out.pending <= out.total
  {
    var (s1, g) := RequireLogin(st.session, url);
    if g != Proceed {
      return st.(session := s1), g;
    }
    if st.session.userId.None? {
      return st, Send(MsgDashboardError);
    }
    var uid := st.session.userId.value;
    var total, completed, pending := CountTasks(st.tasks.rows, uid);
    StatusCountsBounded(st.tasks.rows, uid);
    return st, ShowDashboard(total, completed, pending);
  }

  /** GET /tasks: exactly the owner's tasks, nothing of anyone else's. */
  function ListTasks(st: State, url: string): (r: (State, Outcome))
    ensures !LoggedIn(st.session) ==> Bounced(st, url, r)
    ensures LoggedIn(st.session) ==> r.0 == st
    ensures LoggedIn(st.session) && st.session.userId.None? ==> r.1 == Send(MsgTasksError)
    ensures LoggedIn(st.session) && st.session.userId.Some? ==>
            && r.1.ShowTasks?
            && (forall id :: id in r.1.tasks <==> OwnedBySession(st, id))
            && (forall id :: id in r.1.tasks ==> r.1.tasks[id] == st.tasks.rows[id])
  {
    var (s1, g) := RequireLogin(st.session, url);
    if g != Proceed then (st.(session := s1), g)
    else match st.session.userId
      case None => (st, Send(MsgTasksError))
      case Some(uid) =>
        (st, ShowTasks(map id | id in st.tasks.rows && st.tasks.rows[id].userId == uid :: st.tasks.rows[id]))
  }

  /** GET /tasks/add: the empty task form, for a logged-in session. */
  function NewTaskForm(st: State, url: string): (r: (State, Outcome))
    ensures !LoggedIn(st.session) ==> Bounced(st, url, r)
    ensures LoggedIn(st.session) ==> r == (st, Render(TaskFormPage, None))
  {
    var (s1, g) := RequireLogin(st.session, url);
    if g != Proceed then (st.(session := s1), g) else (st, Render(TaskFormPage, None))
  }

  /** `title` is missing, empty, or whitespace only. */
  predicate BlankTitle(f: TaskForm)
  {
    !Truthy(f.title) || AllSpace(f.title.value)
  }

  /** The handler's test `!title || title.trim() === ''` is exactly a blank title. */
  lemma BlankTitleIsTrimEmpty(f: TaskForm)
    ensures BlankTitle(f) <==> !Truthy(f.title) || Trim(f.title.value) == ""
  {
    if f.title.Some? {
      TrimEmptyIffAllSpace(f.title.value);
    }
  }

  /** `x || null` on a form field. */
  function OrNull(o: Option<string>): (r: Option<string>)
    ensures r.Some? <==> Truthy(o)
    ensures r.Some? ==> r == o
  {
    if Truthy(o) then o else None
  }

  /** The row `Task.create` is given: trimmed title, `status || 'pending'`, `dueDate || null`, the session's owner. */
  function AddedTask(f: TaskForm, uid: string): (t: Task)
    requires f.title.Some?
    ensures t.title == Trim(f.title.value) && t.userId == uid && t.description == f.description
    ensures t.dueDate.None? <==> !Truthy(f.dueDate)
    ensures Truthy(f.dueDate) ==> t.dueDate == f.dueDate
    ensures Truthy(f.status) ==> t.status == f.status
    ensures !Truthy(f.status) ==> t.status == Some(DefaultStatus)
  {
    NewTask(Trim(f.title.value), f.description, OrNull(f.dueDate), Some(if Truthy(f.status) then f.status.value else DefaultStatus), uid)
  }

  /** The `Task.create` call of POST /tasks/add and its failure path. */
  function CreateTask(st: State, f: TaskForm, uid: string): (r: (State, Outcome))
    requires f.title.Some?
    ensures r.0.session == st.session && r.0.users == st.users
    ensures r.1 == Redirect("/tasks") <==> FitsColumns(AddedTask(f, uid))
    ensures r.1 != Redirect("/tasks") ==> r == (st, Render(TaskFormPage, Some(MsgAddFailed)))
    ensures r.1 == Redirect("/tasks") && TableValid(st.tasks) ==>
            exists id: TaskId :: id !in st.tasks.rows && r.0.tasks.rows == st.tasks.rows[id := Stored(AddedTask(f, uid))]
    ensures TableValid(st.tasks) ==> TableValid(r.0.tasks)
  {
    match Insert(st.tasks, AddedTask(f, uid))
    case Ok((table, id)) => (st.(tasks := table), Redirect("/tasks"))
    case Err(_) => (st, Render(TaskFormPage, Some(MsgAddFailed)))
  }

  /**
   * POST /tasks/add: a blank title adds nothing; otherwise exactly one
   * task owned by the session's `userId` is added, under a fresh key.
   */
  function PostAddTask(st: State, url: string, f: TaskForm): (r: (State, Outcome))
    ensures !LoggedIn(st.session) ==> Bounced(st, url, r)
    ensures LoggedIn(st.session) ==> r.0.session == st.session && r.0.users == st.users
    ensures r.1 != Redirect("/tasks") ==> r.0.tasks == st.tasks
    ensures LoggedIn(st.session) && BlankTitle(f) ==> r == (st, Render(TaskFormPage, Some(MsgTitleRequired)))
    ensures LoggedIn(st.session) && !BlankTitle(f) && st.session.userId.None? ==> r == (st, Render(TaskFormPage, Some(MsgAddFailed)))
    ensures r.1 == Redirect("/tasks") <==>
            LoggedIn(st.session) && !BlankTitle(f) && st.session.userId.Some? && FitsColumns(AddedTask(f, st.session.userId.value))
    ensures r.1 == Redirect("/tasks") && TableValid(st.tasks) ==>
            && f.title.Some? && st.session.userId.Some? && Trim(f.title.value) != ""
            && exists id: TaskId :: id !in st.tasks.rows && r.0.tasks.rows == st.tasks.rows[id := Stored(AddedTask(f, st.session.userId.value))]
    ensures TableValid(st.tasks) ==> TableValid(r.0.tasks)
  {
    var (s1, g) := RequireLogin(st.session, url);
    if g != Proceed then (st.(session := s1), g)
    else if !Truthy(f.title) || Trim(f.title.value) == "" then
      BlankTitleIsTrimEmpty(f);
      (st, Render(TaskFormPage, Some(MsgTitleRequired)))
    else
      BlankTitleIsTrimEmpty(f);
      match st.session.userId
      case None => (st, Render(TaskFormPage, Some(MsgAddFailed)))
      case Some(uid) => CreateTask(st, f, uid)
  }

  /** GET /tasks/edit/:id: the form for one of the owner's tasks; for any other id, back to the list. */
  function EditForm(st: State, url: string, id: TaskId): (r: (State, Outcome))
    ensures !LoggedIn(st.session) ==> Bounced(st, url, r)
    ensures LoggedIn(st.session) ==> r.0 == st
    ensures LoggedIn(st.session) && OwnedBySession(st, id) ==> r.1 == ShowEditForm(id, st.tasks.rows[id])
    ensures LoggedIn(st.session) && !OwnedBySession(st, id) ==> r.1 == Redirect("/tasks")
  {
    var (s1, g) := RequireLogin(st.session, url);
    if g != Proceed then (st.(session := s1), g)
    else if id !in st.tasks.rows then (st, Redirect("/tasks"))
    else match st.session.userId
      case None => (st, Redirect("/tasks"))
      case Some(uid) =>
        if st.tasks.rows[id].userId != uid then (st, Redirect("/tasks"))
        else (st, ShowEditForm(id, st.tasks.rows[id]))
  }

  /**
   * The row after `task.update({ title: title.trim(), description,
   * dueDate: dueDate || null, status })`: an absent `description` or
   * `status` is left out of the update and keeps its value.
   */
  function EditedTask(t: Task, f: TaskForm): (e: Task)
    requires f.title.Some?
    ensures e.userId == t.userId
    ensures e.title == Trim(f.title.value) && Trimmed(e.title)
    ensures f.description.Some? ==> e.description == f.description
    ensures f.description.None? ==> e.description == t.description
    ensures e.dueDate.Some? <==> Truthy(f.dueDate)
    ensures e.dueDate.Some? ==> e.dueDate == f.dueDate
    ensures f.status.Some? ==> e.status == f.status
    ensures f.status.None? ==> e.status == t.status
  {
    t.(title := Trim(f.title.value),
       description := if f.description.Some? then f.description else t.description,
       dueDate := OrNull(f.dueDate),
       status := if f.status.Some? then f.status else t.status)
  }

  /**
   * POST /tasks/edit/:id: updates only a task the session owns; the title
   * is trimmed but, unlike on creation, not required to be non-blank.
   */
  function PostEditTask(st: State, url: string, id: TaskId, f: TaskForm): (r: (State, Outcome))
    ensures !LoggedIn(st.session) ==> Bounced(st, url, r)
    ensures LoggedIn(st.session) ==> r.0.session == st.session && r.0.users == st.users
    ensures !OwnedBySession(st, id) ==> r.0.tasks == st.tasks
    ensures LoggedIn(st.session) && !OwnedBySession(st, id) && (id !in st.tasks.rows || st.session.userId.Some?)
            ==> r.1 == Redirect("/tasks")
    ensures LoggedIn(st.session) && id in st.tasks.rows && st.session.userId.None?
            ==> r.1 == Render(TaskFormPage, Some(MsgUpdateFailed))
    ensures LoggedIn(st.session) && OwnedBySession(st, id) && f.title.None?
            ==> r == (st, Render(TaskFormPage, Some(MsgUpdateFailed)))
    ensures r.0.tasks != st.tasks ==> LoggedIn(st.session) && OwnedBySession(st, id) && f.title.Some?
    ensures LoggedIn(st.session) && OwnedBySession(st, id) && f.title.Some? ==>
            var edited := EditedTask(st.tasks.rows[id], f);
            && (r.1 == Redirect("/tasks") <==> FitsColumns(edited))
            && (FitsColumns(edited) ==> r.0 == st.(tasks := st.tasks.(rows := st.tasks.rows[id := Stored(edited)])))
            && (!FitsColumns(edited) ==> r == (st, Render(TaskFormPage, Some(MsgUpdateFailed))))
    ensures TableValid(st.tasks) ==> TableValid(r.0.tasks)
  {
    var (s1, g) := RequireLogin(st.session, url);
    if g != Proceed then (st.(session := s1), g)
    else if id !in st.tasks.rows then (st, Redirect("/tasks"))
    else match st.session.userId
      case None => (st, Render(TaskFormPage, Some(MsgUpdateFailed)))
      case Some(uid) =>
        if st.tasks.rows[id].userId != uid then (st, Redirect("/tasks"))
        else match f.title
          case None => (st, Render(TaskFormPage, Some(MsgUpdateFailed)))
          case Some(_) =>
            match Update(st.tasks, id, EditedTask(st.tasks.rows[id], f))
            case Ok(table) => (st.(tasks := table), Redirect("/tasks"))
            case Err(_) => (st, Render(TaskFormPage, Some(MsgUpdateFailed)))
  }

  /** Editing a row again with the same form leaves it as the first edit did. */
  lemma EditedTaskIdempotent(t: Task, f: TaskForm)
    requires f.title.Some?
    ensures EditedTask(EditedTask(t, f), f) == EditedTask(t, f)
  {
    TrimIdempotent(f.title.value);
  }

  /** Writing the same edit over the row an accepted edit stored is accepted again and stores the same row. */
  lemma StoredEditIdempotent(t: Task, f: TaskForm)
    requires f.title.Some? && FitsColumns(EditedTask(t, f))
    ensures FitsColumns(EditedTask(Stored(EditedTask(t, f)), f))
    ensures Stored(EditedTask(Stored(EditedTask(t, f)), f)) == Stored(EditedTask(t, f))
  {
    var e := EditedTask(t, f);
    CutIdempotent(e.userId);
    if e.status.Some? {
      CutIdempotent(e.status.value);
    }
  }

  /** Submitting the same edit twice gives the same state and response as submitting it once. */
  lemma EditTwiceSameAsOnce(st: State, url: string, id: TaskId, f: TaskForm)
    ensures PostEditTask(PostEditTask(st, url, id, f).0, url, id, f) == PostEditTask(st, url, id, f)
  {
    if LoggedIn(st.session) && OwnedBySession(st, id) && f.title.Some? && FitsColumns(EditedTask(st.tasks.rows[id], f)) {
      AcceptedEditRepeats(st, url, id, f);
    } else if LoggedIn(st.session) {
      assert PostEditTask(st, url, id, f).0 == st;
    }
  }

  /** An accepted edit, submitted again, is accepted again or redirected, and changes nothing more. */
  lemma AcceptedEditRepeats(st: State, url: string, id: TaskId, f: TaskForm)
    requires LoggedIn(st.session) && OwnedBySession(st, id) && f.title.Some?
    requires FitsColumns(EditedTask(st.tasks.rows[id], f))
    ensures PostEditTask(PostEditTask(st, url, id, f).0, url, id, f) == PostEditTask(st, url, id, f)
  {
    var r := PostEditTask(st, url, id, f);
    var stored := Stored(EditedTask(st.tasks.rows[id], f));
    StoredEditIdempotent(st.tasks.rows[id], f);
    assert r.0 == st.(tasks := st.tasks.(rows := st.tasks.rows[id := stored]));
    if OwnedBySession(r.0, id) {
      assert r.0.tasks.rows[id := Stored(EditedTask(r.0.tasks.rows[id], f))] == r.0.tasks.rows;
    }
  }

  /** POST /tasks/delete/:id: removes the task when the session owns it; always back to the list. */
  function PostDeleteTask(st: State, url: string, id: TaskId): (r: (State, Outcome))
    ensures !LoggedIn(st.session) ==> Bounced(st, url, r)
    ensures LoggedIn(st.session) ==> r.1 == Redirect("/tasks") && r.0.session == st.session && r.0.users == st.users
    ensures !OwnedBySession(st, id) ==> r.0.tasks == st.tasks
    ensures LoggedIn(st.session) && OwnedBySession(st, id) ==>
            && r.0.tasks.rows.Keys == st.tasks.rows.Keys - {id}
            && r.0.tasks.nextId == st.tasks.nextId
            && (forall k :: k in r.0.tasks.rows ==> r.0.tasks.rows[k] == st.tasks.rows[k])
    ensures TableValid(st.tasks) ==> TableValid(r.0.tasks)
  {
    var (s1, g) := RequireLogin(st.session, url);
    if g != Proceed then (st.(session := s1), g)
    else if id in st.tasks.rows && st.session.userId.Some? && st.tasks.rows[id].userId == st.session.userId.value then
      (st.(tasks := Destroy(st.tasks, id)), Redirect("/tasks"))
    else (st, Redirect("/tasks"))
  }

  /** `task.status === 'pending' ? 'completed' : 'pending'`. */
  function Flip(status: Option<string>): (r: string)
    ensures r == "completed" <==> status == Some("pending")
    ensures r != "completed" ==> r == "pending"
  {
    if status == Some("pending") then "completed" else "pending"
  }

  /** Flipping twice restores 'pending' and 'completed'; any other status ends up 'completed'. */
  lemma FlipTwice(status: Option<string>)
    ensures status == Some("pending") || status == Some("completed") ==> Flip(Some(Flip(status))) == status.value
    ensures status != Some("pending") && status != Some("completed") ==> Flip(Some(Flip(status))) == "completed"
  {
  }

  /** POST /tasks/status/:id: flips the status of a task the session owns, touching nothing else. */
  function PostToggleStatus(st: State, url: string, id: TaskId): (r: (State, Outcome))
    ensures !LoggedIn(st.session) ==> Bounced(st, url, r)
    ensures LoggedIn(st.session) ==> r.1 == Redirect("/tasks") && r.0.session == st.session && r.0.users == st.users
    ensures !OwnedBySession(st, id) ==> r.0.tasks == st.tasks
    ensures LoggedIn(st.session) && OwnedBySession(st, id) ==>
            && r.0.tasks.nextId == st.tasks.nextId
            && r.0.tasks.rows.Keys == st.tasks.rows.Keys
            && (forall k :: k in st.tasks.rows && k != id ==> r.0.tasks.rows[k] == st.tasks.rows[k])
            && r.0.tasks.rows[id] == st.tasks.rows[id].(status := r.0.tasks.rows[id].status)
            && (r.0.tasks.rows[id].status == Some("completed") <==> st.tasks.rows[id].status == Some("pending"))
            && (r.0.tasks.rows[id].status != Some("completed") ==> r.0.tasks.rows[id].status == Some("pending"))
    ensures TableValid(st.tasks) ==> TableValid(r.0.tasks)
  {
    var (s1, g) := RequireLogin(st.session, url);
    if g != Proceed then (st.(session := s1), g)
    else if id !in st.tasks.rows then (st, Redirect("/tasks"))
    else match st.session.userId
      case None => (st, Redirect("/tasks"))
      case Some(uid) =>
        if st.tasks.rows[id].userId != uid then (st, Redirect("/tasks"))
        else
          var t := st.tasks.rows[id];
          (st.(tasks := st.tasks.(rows := st.tasks.rows[id := t.(status := Some(Flip(t.status)))])), Redirect("/tasks"))
  }

  /** Toggling a 'pending' or 'completed' task twice gives back the state it started from. */
  lemma ToggleTwiceRestores(st: State, url: string, id: TaskId)
    requires LoggedIn(st.session) && OwnedBySession(st, id)
    requires st.tasks.rows[id].status == Some("pending") || st.tasks.rows[id].status == Some("completed")
    ensures PostToggleStatus(PostToggleStatus(st, url, id).0, url, id).0 == st
  {
    var st1 := PostToggleStatus(st, url, id).0;
    assert OwnedBySession(st1, id);
    var st2 := PostToggleStatus(st1, url, id).0;
    assert st2.tasks.rows == st.tasks.rows;
  }
}
