/**
 * The serializers: which columns a task or a user shows in a response, which
 * fields the add-task form reads and how it validates them, and the user
 * serializer's `create`, which goes through the user manager.
 */
module Serializers {
  import opened Wrappers
  import opened Models
  import Manager

  /** A JSON value of a response field. */
  datatype Json = JInt(n: int) | JStr(s: string)

  /** A serialized row: field name to value. */
  type Record = map<string, Json>

  const TaskSerializerFields: set<string> :=
    {"id", "title", "description", "status", "employer", "employee", "created_at", "updated_at"}
  const AddTaskSerializerFields: set<string> :=
    {"id", "title", "description", "status", "employee", "created_at", "updated_at"}
  /** The auto-filled task columns: the primary key and both time stamps. */
  const TaskReadOnlyFields: set<string> := {"id", "created_at", "updated_at"}
  const UserSerializerFields: set<string> := {"id", "phone_number", "password", "role"}
  const UserWriteOnlyFields: set<string> := {"password"}

  /** Column `f` of task `t` stored under `id`. */
  function TaskColumn(f: string, id: TaskId, t: Task): Json {
    if f == "id" then JInt(id)
    else if f == "title" then JStr(t.title)
    else if f == "description" then JStr(t.description)
    else if f == "status" then JStr(t.status)
    else if f == "employer" then JInt(t.employer)
    else if f == "employee" then JInt(t.employee)
    else if f == "created_at" then JInt(t.createdAt)
    else JInt(t.updatedAt)
  }

  /** Column `f` of user `u` stored under `id`, for the fields a response shows. */
  function UserColumn(f: string, id: UserId, u: User): Json {
    if f == "id" then JInt(id)
    else if f == "phone_number" then JStr(u.phone)
    else JStr(RoleName(u.role))
  }

  /** `TaskSerializer` output: exactly its eight fields, holding the row's values. */
  function SerializeTask(id: TaskId, t: Task): (r: Record)
    ensures r.Keys == TaskSerializerFields
    ensures r["id"] == JInt(id) && r["employer"] == JInt(t.employer) && r["employee"] == JInt(t.employee)
  {
    map f | f in TaskSerializerFields :: TaskColumn(f, id, t)
  }

  /** `AddTaskSerializer` output after a save: its fields, so no `employer`. */
  function SerializeAddedTask(id: TaskId, t: Task): (r: Record)
    ensures r.Keys == AddTaskSerializerFields && "employer" !in r
    ensures forall f :: f in r ==> r[f] == SerializeTask(id, t)[f]
  {
    map f | f in AddTaskSerializerFields :: TaskColumn(f, id, t)
  }

  /** `UserSerializer` output: the declared fields without the write-only password. */
  function SerializeUser(id: UserId, u: User): (r: Record)
    ensures r.Keys == UserSerializerFields - UserWriteOnlyFields
    ensures r.Keys == {"id", "phone_number", "role"}
    ensures r["id"] == JInt(id) && r["phone_number"] == JStr(u.phone) && r["role"] == JStr(RoleName(u.role))
  {
    map f | f in UserSerializerFields - UserWriteOnlyFields :: UserColumn(f, id, u)
  }

  /** Reads a task back from its serialized form. */
  function DeserializeTask(r: Record): Option<(TaskId, Task)> {
    if TaskSerializerFields <= r.Keys
       && r["id"].JInt? && r["title"].JStr? && r["description"].JStr? && r["status"].JStr?
       && r["employer"].JInt? && r["employee"].JInt? && r["created_at"].JInt? && r["updated_at"].JInt?
    then Some((r["id"].n, Task(r["title"].s, r["description"].s, r["status"].s, r["employer"].n,
                               r["employee"].n, r["created_at"].n, r["updated_at"].n)))
    else None
  }

  /** `TaskSerializer` loses nothing: the row and its id can be read back. */
  lemma SerializeTaskRoundTrip(id: TaskId, t: Task)
    ensures DeserializeTask(SerializeTask(id, t)) == Some((id, t))
  {
  }

  /** The user output does not depend on the password: a response never
    * reveals it. */
  lemma SerializeUserHidesPassword(id: UserId, u: User, p: PasswordHash)
    ensures SerializeUser(id, u) == SerializeUser(id, u.(password := p))
  {
    var a, b := SerializeUser(id, u), SerializeUser(id, u.(password := p));
    assert forall f :: f in a ==> a[f] == b[f];
  }

  /** The fields the add-task form reads from a request: the declared ones less
    * the read-only ones. `employer` is not among them. */
  function AddTaskInputFields(): (fs: set<string>)
    ensures fs == {"title", "description", "status", "employee"}
    ensures "employer" !in fs
  {
    AddTaskSerializerFields - TaskReadOnlyFields
  }

  /** The task fields a request carries: title, description, status and employee.
    * There is no `employer` field. */
  datatype TaskForm = TaskForm(
    title: Option<string>,
    description: Option<string>,
    status: Option<string>,
    employee: Option<UserId>)

  /** The longest title the column admits. */
  const TitleMaxLength: nat := 255

  /** `AddTaskSerializer.is_valid`: title and description present and non-blank
    * (the title within its length), the status one of the choices when given,
    * and the employee the key of an existing user. */
  predicate TaskFormValid(users: map<UserId, User>, form: TaskForm) {
    && form.title.Some? && form.title.value != "" && |form.title.value| <= TitleMaxLength
    && form.description.Some? && form.description.value != ""
    && (form.status.None? || form.status.value in StatusChoices)
    && form.employee.Some? && form.employee.value in users
  }

  /** The task the add-task form saves for `employer` at time `now`; a missing
    * status takes the default. */
  function FormTask(form: TaskForm, employer: UserId, now: int): (t: Task)
    requires form.title.Some? && form.description.Some? && form.employee.Some?
    ensures t.title == form.title.value && t.description == form.description.value
    ensures t.employer == employer && t.employee == form.employee.value
    ensures t.status == form.status.GetOr(DefaultStatus)
    ensures t.createdAt == t.updatedAt == now
  {
    Task(form.title.value, form.description.value, form.status.GetOr(DefaultStatus),
         employer, form.employee.value, now, now)
  }

  /** A valid form stores a status among the choices. */
  lemma FormTaskStatusIsChoice(users: map<UserId, User>, form: TaskForm, employer: UserId, now: int)
    requires TaskFormValid(users, form)
    ensures FormTask(form, employer, now).status in StatusChoices
  {
  }

  /** The user serializer's validated input: `role` may be absent. */
  datatype UserForm = UserForm(phone: string, password: string, role: Option<Role>)

  /** `UserSerializer.create`: delegates to `create_user`, so the stored
    * password is the digest. */
  method CreateFromUserForm(db: Database, form: UserForm) returns (r: Manager.CreateResult)
    requires db.Valid()
    modifies db
    ensures db.Valid()
    ensures !r.Created? ==> unchanged(db)
    ensures r.ValueError? <==> form.phone == ""
    ensures form.phone != "" ==> (r.IntegrityError? <==> PhoneTaken(old(db.users), form.phone))
    ensures r.Created? ==>
      && r.id == old(db.nextUserId) && r.id !in old(db.users)
      && db.users == old(db.users)[r.id := User(form.phone, Hashed(db.hash(form.password)), form.role.GetOr(DefaultRole), None, false, false)]
      && db.tasks == old(db.tasks) && db.tokens == old(db.tokens)
      && db.nextUserId == old(db.nextUserId) + 1 && db.nextTaskId == old(db.nextTaskId)
  {
    r := Manager.CreateUser(db, form.phone, Some(form.password), form.role.GetOr(DefaultRole), None);
  }
}
