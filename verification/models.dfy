/**
 * The two persisted record kinds and their stores: the users collection
 * (a document store with unique indexes on `_id`, `username` and `email`)
 * and the tasks table (a relational table with an auto-incremented key).
 */
module Models {
  import opened Base
  import opened JsText

  type UserId = string

  /** A stored user document; each field holds the value after the schema's setters ran. */
  datatype User = User(id: UserId, username: string, email: string, password: string)

  /** The `trim: true, lowercase: true` setters of the `email` field. */
  function NormEmail(e: string): string
  {
    Lower(Trim(e))
  }

  /** A normalised e-mail address is a fixed point of normalisation. */
  lemma NormEmailFixedPoint(e: string)
    ensures NormEmail(NormEmail(e)) == NormEmail(e)
  {
    var t := Trim(e);
    TrimLowerCommute(t);
    TrimIdempotent(e);
    LowerIdempotent(t);
  }

  /** Lower-casing before normalising changes nothing. */
  lemma NormEmailAbsorbsLower(e: string)
    ensures NormEmail(Lower(e)) == NormEmail(e)
  {
    TrimLowerCommute(e);
    LowerIdempotent(Trim(e));
  }

  /** The stored username and e-mail are values their setters produce. */
  predicate Normalised(u: User)
  {
    Trimmed(u.username) && Trimmed(u.email) && Lower(u.email) == u.email
  }

  /** A normalised document is a fixed point of its setters. */
  lemma NormalisedIsFixed(u: User)
    requires Normalised(u)
    ensures Trim(u.username) == u.username && NormEmail(u.email) == u.email
  {
    TrimmedIsFixed(u.username);
    TrimmedIsFixed(u.email);
  }

  /** Building a document from a stored document's own fields gives that document back. */
  lemma RebuildIsIdentity(u: User)
    requires Normalised(u)
    ensures Build(u.id, u.username, u.email, u.password) == u
  {
    NormalisedIsFixed(u);
  }

  /** `new User({ username, email, password })`: the setters run as the document is built. */
  function Build(id: UserId, username: string, email: string, password: string): (u: User)
    ensures Normalised(u)
    ensures u.id == id && u.password == password
    ensures u.username == Trim(username) && u.email == NormEmail(email)
  {
    LowerIdempotent(Trim(email));
    LowerKeepsTrimmed(Trim(email));
    User(id, Trim(username), NormEmail(email), password)
  }

  /** The `required: true` validators: a string field passes when it is non-empty. */
  predicate RequiredPresent(u: User)
  {
    u.username != "" && u.email != "" && u.password != ""
  }

  /** Two documents that one of the unique indexes would not let coexist. */
  predicate Collides(u: User, v: User)
  {
    u.id == v.id || u.username == v.username || u.email == v.email
  }

  /** The unique indexes hold over the whole collection. */
  predicate Unique(users: seq<User>)
  {
    forall i, j :: 0 <= i < j < |users| ==> !Collides(users[i], users[j])
  }

  /** Saving `u` passes validation and every unique index. */
  predicate Storable(users: seq<User>, u: User)
  {
    RequiredPresent(u) && forall j :: 0 <= j < |users| ==> !Collides(users[j], u)
  }

  /** Every document passes the schema and the indexes hold. */
  predicate ValidUsers(users: seq<User>)
  {
    && (forall i :: 0 <= i < |users| ==> RequiredPresent(users[i]) && Normalised(users[i]))
    && Unique(users)
  }

  /** Why a `save` was refused: a schema validator, or a unique index (error code 11000). */
  datatype SaveError = ValidationError | DuplicateKey

  /**
   * `user.save()`: validation runs first, then the insert is refused when a
   * unique index would be violated; otherwise the document is appended.
   */
  function Save(users: seq<User>, u: User): (r: Result<seq<User>, SaveError>)
    ensures r == Err(ValidationError) <==> !RequiredPresent(u)
    ensures r == Err(DuplicateKey) <==> RequiredPresent(u) && exists j :: 0 <= j < |users| && Collides(users[j], u)
    ensures r.Ok? <==> Storable(users, u)
    ensures r.Ok? ==> r.value == users + [u]
  {
    if !RequiredPresent(u) then Err(ValidationError)
    else if exists j | 0 <= j < |users| :: Collides(users[j], u) then Err(DuplicateKey)
    else Ok(users + [u])
  }

  /** A successful save of a normalised document keeps the collection valid. */
  lemma SavePreservesValid(users: seq<User>, u: User)
    requires ValidUsers(users) && Normalised(u) && Save(users, u).Ok?
    ensures ValidUsers(Save(users, u).value)
  {
    AppendValid(users, u);
  }

  lemma AppendValid(users: seq<User>, u: User)
    requires ValidUsers(users) && Normalised(u) && RequiredPresent(u)
    requires forall j :: 0 <= j < |users| ==> !Collides(users[j], u)
    ensures ValidUsers(users + [u])
  {
    AppendWellFormed(users, u);
    AppendUnique(users, u);
  }

  lemma AppendWellFormed(users: seq<User>, u: User)
    requires forall i :: 0 <= i < |users| ==> RequiredPresent(users[i]) && Normalised(users[i])
    requires RequiredPresent(u) && Normalised(u)
    ensures forall i :: 0 <= i < |users + [u]| ==> RequiredPresent((users + [u])[i]) && Normalised((users + [u])[i])
  {
    var us := users + [u];
    forall i | 0 <= i < |us|
      ensures RequiredPresent(us[i]) && Normalised(us[i])
    {
      if i < |users| {
        assert us[i] == users[i];
      } else {
        assert us[i] == u;
      }
    }
  }

  lemma AppendUnique(users: seq<User>, u: User)
    requires Unique(users)
    requires forall j :: 0 <= j < |users| ==> !Collides(users[j], u)
    ensures Unique(users + [u])
  {
    var us := users + [u];
    forall i, j | 0 <= i < j < |us|
      ensures !Collides(us[i], us[j])
    {
      if j < |users| {
        assert us[i] == users[i] && us[j] == users[j];
      } else {
        assert us[i] == users[i] && us[j] == u;
      }
    }
  }

  /**
   * `findOne(filter)`: the first document in natural (insertion) order
   * that satisfies the filter.
   */
  function FindFirst(users: seq<User>, p: User -> bool): (r: Option<nat>)
    ensures r.Some? ==> r.value < |users| && p(users[r.value])
    ensures r.Some? ==> forall j :: 0 <= j < r.value ==> !p(users[j])
    ensures r.None? ==> forall j :: 0 <= j < |users| ==> !p(users[j])
  {
    if users == [] then None
    else if p(users[0]) then Some(0)
    else match FindFirst(users[1..], p)
      case None => None
      case Some(i) => Some(i + 1)
  }

  /** `findOne({ email })`; query casting applies the field's setters to the filter value. */
  function ByEmail(users: seq<User>, email: string): Option<nat>
  {
    FindFirst(users, (u: User) => u.email == NormEmail(email))
  }

  /** The first document matching the filter is the appended one when none before it matches. */
  lemma {:induction false} FindAppended(users: seq<User>, u: User, p: User -> bool)
    requires forall j :: 0 <= j < |users| ==> !p(users[j])
    requires p(u)
    ensures FindFirst(users + [u], p) == Some(|users|)
  {
    var us := users + [u];
    assert us[|users|] == u;
  }

  /** The e-mail lookup finds the first document carrying the normalised address. */
  lemma ByEmailFirst(users: seq<User>, email: string, i: nat)
    requires i < |users| && users[i].email == NormEmail(email)
    requires forall j :: 0 <= j < i ==> users[j].email != NormEmail(email)
    ensures ByEmail(users, email) == Some(i)
  {
  }

  /** A document saved under an address no earlier document has is the one the e-mail lookup finds. */
  lemma ByEmailAppended(users: seq<User>, u: User, email: string)
    requires forall j :: 0 <= j < |users| ==> users[j].email != NormEmail(email)
    requires u.email == NormEmail(email)
    ensures ByEmail(users + [u], email) == Some(|users|)
  {
    FindAppended(users, u, (v: User) => v.email == NormEmail(email));
  }

  /** `findOne({ $or: [{ email }, { username }] })`, with the setters applied to both values. */
  function ByUsernameOrEmail(users: seq<User>, username: string, email: string): Option<nat>
  {
    FindFirst(users, (u: User) => u.username == Trim(username) || u.email == NormEmail(email))
  }

  /** Some stored document has this username or this e-mail, after normalisation. */
  predicate Taken(users: seq<User>, username: string, email: string)
  {
    exists i :: 0 <= i < |users| && (users[i].username == Trim(username) || users[i].email == NormEmail(email))
  }

  /** The `$or` lookup finds a document exactly when the username or the e-mail is taken. */
  lemma ByUsernameOrEmailFinds(users: seq<User>, username: string, email: string)
    ensures ByUsernameOrEmail(users, username, email).Some? <==> Taken(users, username, email)
  {
  }

  /** Some stored document has this e-mail, after normalisation. */
  predicate KnownEmail(users: seq<User>, email: string)
  {
    exists i :: 0 <= i < |users| && users[i].email == NormEmail(email)
  }

  /** The e-mail lookup finds a document exactly when the address is known. */
  lemma ByEmailFinds(users: seq<User>, email: string)
    ensures ByEmail(users, email).Some? <==> KnownEmail(users, email)
  {
  }

  /** Under the unique e-mail index, the e-mail lookup finds exactly the document carrying that address. */
  lemma ByEmailUnique(users: seq<User>, email: string)
    requires Unique(users)
    ensures forall i :: 0 <= i < |users| ==> (ByEmail(users, email) == Some(i) <==> users[i].email == NormEmail(email))
  {
    forall i | 0 <= i < |users|
      ensures ByEmail(users, email) == Some(i) <==> users[i].email == NormEmail(email)
    {
      ByEmailAt(users, email, i);
    }
  }

  lemma ByEmailAt(users: seq<User>, email: string, i: nat)
    requires Unique(users)
    requires i < |users|
    ensures ByEmail(users, email) == Some(i) <==> users[i].email == NormEmail(email)
  {
    var r := ByEmail(users, email);
    if users[i].email == NormEmail(email) {
      assert r.Some?;
      if r.value != i {
        assert r.value > i;
        assert Collides(users[i], users[r.value]);
      }
    }
  }

  type TaskId = nat

  /** Sequelize's `STRING` columns are `VARCHAR(255)`. */
  const VarcharLimit := 255

  /** The `status` value the schema stores when none is given. */
  const DefaultStatus := "pending"

  /**
   * A row of the tasks table. `title` and `userId` are declared
   * `allowNull: false`, so they are plain strings; the other columns are
   * nullable. `status` has no enumeration: any string can be stored.
   */
  datatype Task = Task(title: string, description: Option<string>, dueDate: Option<string>, status: Option<string>, userId: string)

  /** `Task.create(...)` fills an absent `status` with the schema default. */
  function NewTask(title: string, description: Option<string>, dueDate: Option<string>, status: Option<string>, userId: string): (t: Task)
    ensures t.status.Some?
    ensures status.Some? ==> t.status == status
    ensures status.None? ==> t.status == Some(DefaultStatus)
    ensures t.title == title && t.userId == userId && t.description == description && t.dueDate == dueDate
  {
    Task(title, description, dueDate, Some(if status.Some? then status.value else DefaultStatus), userId)
  }

  /**
   * PostgreSQL accepts a value for a `VARCHAR(255)` column when it is at
   * most 255 characters long, or when every character past the 255th is a
   * space (section 8.3 of the PostgreSQL manual); anything else is refused.
   */
  predicate Fits(s: string)
  {
    |s| <= VarcharLimit || forall i :: VarcharLimit <= i < |s| ==> s[i] == ' '
  }

  /** What the column keeps of an accepted value: the excess spaces are cut off. */
  function Cut(s: string): (r: string)
    requires Fits(s)
    ensures |r| <= VarcharLimit && |r| <= |s| && r == s[..|r|]
    ensures |s| <= VarcharLimit ==> r == s
    ensures |s| > VarcharLimit ==> |r| == VarcharLimit
    ensures forall i :: |r| <= i < |s| ==> s[i] == ' '
  {
    if |s| <= VarcharLimit then s else s[..VarcharLimit]
  }

  /** A value the column has cut is kept as it is when written again. */
  lemma CutIdempotent(s: string)
    requires Fits(s)
    ensures Fits(Cut(s)) && Cut(Cut(s)) == Cut(s)
  {
  }

  /** A value within the limit followed by any run of spaces is accepted, and the column keeps at least the value. */
  lemma SpacePaddedAccepted(p: string, pad: string)
    requires |p| <= VarcharLimit
    requires forall i :: 0 <= i < |pad| ==> pad[i] == ' '
    ensures Fits(p + pad) && p <= Cut(p + pad)
  {
    var s := p + pad;
    forall i | VarcharLimit <= i < |s|
      ensures s[i] == ' '
    {
      assert s[i] == pad[i - |p|];
    }
  }

  /** A value without trailing whitespace, such as a trimmed title, is accepted only when it is within the limit, and is then stored whole. */
  lemma TrimmedFitsWithinLimit(s: string)
    requires Trimmed(s)
    ensures Fits(s) <==> |s| <= VarcharLimit
    ensures Fits(s) ==> Cut(s) == s
  {
    if |s| > VarcharLimit {
      assert !IsSpace(s[|s| - 1]);
    }
  }

  /** Every `VARCHAR(255)` column of the row is accepted. */
  predicate FitsColumns(t: Task)
  {
    Fits(t.title) && Fits(t.userId) && (t.status.Some? ==> Fits(t.status.value))
  }

  /** Every `VARCHAR(255)` column of the row is within the limit. */
  predicate WithinLimit(t: Task)
  {
    |t.title| <= VarcharLimit && |t.userId| <= VarcharLimit && (t.status.Some? ==> |t.status.value| <= VarcharLimit)
  }

  /** The row as the table holds it after an accepted write: each `VARCHAR(255)` value cut to the limit, the other columns as given. */
  function Stored(t: Task): (s: Task)
    requires FitsColumns(t)
    ensures WithinLimit(s) && FitsColumns(s)
    ensures s.title == Cut(t.title) && s.userId == Cut(t.userId)
    ensures s.status.Some? <==> t.status.Some?
    ensures t.status.Some? ==> s.status.value == Cut(t.status.value)
    ensures s.description == t.description && s.dueDate == t.dueDate
  {
    t.(title := Cut(t.title), userId := Cut(t.userId),
       status := if t.status.Some? then Some(Cut(t.status.value)) else None)
  }

  /** A row within the limit is stored unchanged. */
  lemma StoredWithinLimit(t: Task)
    requires WithinLimit(t)
    ensures FitsColumns(t) && Stored(t) == t
  {
  }

  /** The tasks table: rows by primary key and the next value of the key's sequence. */
  datatype TaskTable = TaskTable(rows: map<TaskId, Task>, nextId: TaskId)

  /** Every key in use was drawn from the sequence already. */
  predicate TableValid(t: TaskTable)
  {
    forall id :: id in t.rows ==> id < t.nextId
  }

  /** The database refused the statement (a value too long for its column, not padded with spaces). */
  datatype StoreError = ValueTooLong

  /** `INSERT`: the row receives the next key of the sequence. */
  function Insert(table: TaskTable, t: Task): (r: Result<(TaskTable, TaskId), StoreError>)
    ensures r.Ok? <==> FitsColumns(t)
    ensures r.Ok? ==> r.value.0.rows == table.rows[r.value.1 := Stored(t)]
    ensures r.Ok? && TableValid(table) ==> r.value.1 !in table.rows && TableValid(r.value.0)
  {
    if FitsColumns(t) then Ok((TaskTable(table.rows[table.nextId := Stored(t)], table.nextId + 1), table.nextId))
    else Err(ValueTooLong)
  }

  /** `UPDATE ... WHERE id = ...` of one existing row. */
  function Update(table: TaskTable, id: TaskId, t: Task): (r: Result<TaskTable, StoreError>)
    requires id in table.rows
    ensures r.Ok? <==> FitsColumns(t)
    ensures r.Ok? ==> r.value.rows.Keys == table.rows.Keys && r.value.rows[id] == Stored(t)
    ensures r.Ok? ==> forall k :: k in table.rows && k != id ==> r.value.rows[k] == table.rows[k]
    ensures r.Ok? && TableValid(table) ==> TableValid(r.value)
  {
    if FitsColumns(t) then Ok(table.(rows := table.rows[id := Stored(t)])) else Err(ValueTooLong)
  }

  /** `DELETE ... WHERE id = ...`. */
  function Destroy(table: TaskTable, id: TaskId): (r: TaskTable)
    ensures id !in r.rows && r.rows.Keys == table.rows.Keys - {id}
    ensures forall k :: k in r.rows ==> r.rows[k] == table.rows[k]
    ensures TableValid(table) ==> TableValid(r)
  {
    table.(rows := table.rows - {id})
  }

  /** The keys of the rows among `ids` whose `userId` is `uid`. */
  function OwnedAmong(rows: map<TaskId, Task>, ids: set<TaskId>, uid: string): set<TaskId>
  {
    set id | id in ids && id in rows && rows[id].userId == uid
  }

  /** The keys of the rows among `ids` owned by `uid` whose `status` is `status`. */
  function StatusAmong(rows: map<TaskId, Task>, ids: set<TaskId>, uid: string, status: string): set<TaskId>
  {
    set id | id in ids && id in rows && rows[id].userId == uid && rows[id].status == Some(status)
  }

  /** `Task.findAll({ where: { userId } })`, as keys. */
  function Owned(rows: map<TaskId, Task>, uid: string): set<TaskId>
  {
    OwnedAmong(rows, rows.Keys, uid)
  }

  /** A subset has no more elements than its superset. */
  lemma SubsetCard<T>(a: set<T>, b: set<T>)
    requires a <= b
    ensures |a| <= |b|
  {
    assert b == a + (b - a);
  }

  /** Tasks counted as completed and tasks counted as pending are disjoint owned tasks. */
  lemma StatusCountsBounded(rows: map<TaskId, Task>, uid: string)
    ensures |StatusAmong(rows, rows.Keys, uid, "completed")| + |StatusAmong(rows, rows.Keys, uid, "pending")| <= |Owned(rows, uid)|
  {
    var c := StatusAmong(rows, rows.Keys, uid, "completed");
    var p := StatusAmong(rows, rows.Keys, uid, "pending");
    assert c * p == {};
    SubsetCard(c + p, Owned(rows, uid));
  }
}
