/**
 * The request handlers. Each takes the id of the logged-in user (None for an
 * anonymous request) and the request's fields, checks the view's permission
 * classes, and reads or changes the database.
 */
module Views {
  import opened Wrappers
  import opened Models
  import opened Permission
  import opened Serializers
  import Manager

  /** A response, by kind: success with its body, or one of the error replies. */
  datatype Reply<T> = Ok(value: T) | BadRequest | NotFound | Unauthorized | Forbidden | ServerError

  /** The outcome of the permission classes `[IsAuthenticated, IsEmployer]` or
    * `[IsAuthenticated, IsEmployee]`. */
  datatype Gate = Admitted(id: UserId) | NotAuthenticated | PermissionDenied

  function RequesterOf(users: map<UserId, User>, caller: Option<UserId>): Requester
    requires caller.Some? ==> caller.value in users
  {
    match caller
    case None => Anonymous
    case Some(u) => Member(u, users[u].role)
  }

  /** Runs the permission classes requiring role `need`: an anonymous request is
    * turned away as unauthenticated, a user of the other role as denied. */
  function Admit(users: map<UserId, User>, caller: Option<UserId>, need: Role): (g: Gate)
    requires caller.Some? ==> caller.value in users
    ensures g.NotAuthenticated? <==> caller.None?
    ensures g.Admitted? <==> caller.Some? && users[caller.value].role == need
    ensures g.Admitted? ==> g.id == caller.value
  {
    var who := RequesterOf(users, caller);
    if !IsAuthenticated(who) then NotAuthenticated
    else if !(if need == Employer then IsEmployer(who) else IsEmployee(who)) then PermissionDenied
    else Admitted(who.id)
  }

  function Refusal<T>(g: Gate): Reply<T>
    requires !g.Admitted?
  {
    if g.NotAuthenticated? then Unauthorized else Forbidden
  }

  /** A request field is truthy: present and not the empty string. */
  predicate Given(s: Option<string>) {
    s.Some? && s.value != ""
  }

  /** A request id is truthy: present and not zero. */
  predicate GivenId(k: Option<int>) {
    k.Some? && k.value != 0
  }

  // ---------------------------------------------------------------------------
  // Listing rows
  // ---------------------------------------------------------------------------

  predicate Increasing(s: seq<int>) {
    forall i, j :: 0 <= i < j < |s| ==> s[i] < s[j]
  }

  /** Serializes every task that `keep` selects, each once, by ascending id;
    * `ids` are the selected tasks' ids, in the same order. All ids lie below
    * `bound`, the next id the table hands out. */
  method CollectTasks(tasks: map<TaskId, Task>, bound: int, keep: Task -> bool)
    returns (records: seq<Record>, ids: seq<TaskId>)
    requires forall id :: id in tasks ==> 1 <= id < bound
    ensures |records| == |ids| && Increasing(ids)
    ensures forall i :: 0 <= i < |ids| ==> ids[i] in tasks && records[i] == SerializeTask(ids[i], tasks[ids[i]])
    ensures forall id :: id in tasks ==> (id in ids <==> keep(tasks[id]))
  {
    records, ids := [], [];
    var k := 1;
    while k < bound
      invariant |records| == |ids| && Increasing(ids)
      invariant forall i :: 0 <= i < |ids| ==>
        ids[i] < k && ids[i] in tasks && records[i] == SerializeTask(ids[i], tasks[ids[i]])
      invariant forall id :: id in tasks && id < k ==> (id in ids <==> keep(tasks[id]))
    {
      if k in tasks && keep(tasks[k]) {
        records, ids := records + [SerializeTask(k, tasks[k])], ids + [k];
      }
      k := k + 1;
    }
  }

  /** Serializes every user that `keep` selects, each once, by ascending id. */
  method CollectUsers(users: map<UserId, User>, bound: int, keep: User -> bool)
    returns (records: seq<Record>, ids: seq<UserId>)
    requires forall id :: id in users ==> 1 <= id < bound
    ensures |records| == |ids| && Increasing(ids)
    ensures forall i :: 0 <= i < |ids| ==> ids[i] in users && records[i] == SerializeUser(ids[i], users[ids[i]])
    ensures forall id :: id in users ==> (id in ids <==> keep(users[id]))
  {
    records, ids := [], [];
    var k := 1;
    while k < bound
      invariant |records| == |ids| && Increasing(ids)
      invariant forall i :: 0 <= i < |ids| ==>
        ids[i] < k && ids[i] in users && records[i] == SerializeUser(ids[i], users[ids[i]])
      invariant forall id :: id in users && id < k ==> (id in ids <==> keep(users[id]))
    {
      if k in users && keep(users[k]) {
        records, ids := records + [SerializeUser(k, users[k])], ids + [k];
      }
      k := k + 1;
    }
  }

  // ---------------------------------------------------------------------------
  // Tasks
  // ---------------------------------------------------------------------------

  /** `add_task`: an employer creates a task from the add-task form; the
    * employer is always the caller. */
  method AddTask(db: Database, caller: Option<UserId>, form: TaskForm, now: int) returns (reply: Reply<Record>)
    requires db.Valid() && (caller.Some? ==> caller.value in db.users)
    modifies db
    ensures db.Valid()
    ensures var g := Admit(old(db.users), caller, Employer);
      && (!g.Admitted? ==> reply == Refusal(g) && unchanged(db))
      && (g.Admitted? && !TaskFormValid(old(db.users), form) ==> reply == BadRequest && unchanged(db))
      && (g.Admitted? && TaskFormValid(old(db.users), form) ==>
            var id := old(db.nextTaskId);
            && id !in old(db.tasks)
            && db.tasks == old(db.tasks)[id := FormTask(form, g.id, now)]
            && db.tasks[id].employer == g.id
            && reply == Ok(SerializeAddedTask(id, db.tasks[id]))
            && db.users == old(db.users) && db.tokens == old(db.tokens)
            && db.nextTaskId == id + 1 && db.nextUserId == old(db.nextUserId))
  {
    var g := Admit(db.users, caller, Employer);
    if !g.Admitted? {
      return Refusal(g);
    }
    if !TaskFormValid(db.users, form) {
      return BadRequest;
    }
    var id := db.InsertTask(FormTask(form, g.id, now), now);
    reply := Ok(SerializeAddedTask(id, db.tasks[id]));
  }

  predicate OwnsTask(tasks: map<TaskId, Task>, id: TaskId, employer: UserId) {
    id in tasks && tasks[id].employer == employer
  }

  predicate AssignedTask(tasks: map<TaskId, Task>, id: TaskId, employee: UserId) {
    id in tasks && tasks[id].employee == employee
  }

  /** All four fields an edit needs are truthy. */
  predicate EditComplete(form: TaskForm) {
    Given(form.title) && Given(form.description) && Given(form.status) && GivenId(form.employee)
  }

  /** The task with all four edited fields replaced; the status is taken as sent. */
  function Edited(t: Task, form: TaskForm): (r: Task)
    requires EditComplete(form)
    ensures r.title == form.title.value && r.description == form.description.value
    ensures r.status == form.status.value && r.employee == form.employee.value
    ensures r.employer == t.employer && r.createdAt == t.createdAt && r.updatedAt == t.updatedAt
  {
    t.(title := form.title.value, description := form.description.value,
       status := form.status.value, employee := form.employee.value)
  }

  /** `edit_task`: the owning employer replaces title, description, status and
    * employee together, or nothing changes. The employee only has to exist. */
  method EditTask(db: Database, caller: Option<UserId>, taskId: TaskId, form: TaskForm, now: int) returns (reply: Reply<()>)
    requires db.Valid() && (caller.Some? ==> caller.value in db.users)
    modifies db
    ensures db.Valid()
    ensures db.nextUserId == old(db.nextUserId) && db.nextTaskId == old(db.nextTaskId)
    ensures !reply.Ok? ==> unchanged(db)
    ensures var g := Admit(old(db.users), caller, Employer);
      && (!g.Admitted? ==> reply == Refusal(g))
      && (g.Admitted? && !OwnsTask(old(db.tasks), taskId, g.id) ==> reply == NotFound)
      && (g.Admitted? && OwnsTask(old(db.tasks), taskId, g.id) ==>
            if EditComplete(form) && form.employee.value in old(db.users) then
              && reply == Ok(())
              && db.tasks == old(db.tasks)[taskId := Touched(Edited(old(db.tasks)[taskId], form), now)]
              && db.users == old(db.users) && db.tokens == old(db.tokens)
            else reply == BadRequest)
    ensures reply.Ok? ==> db.tasks[taskId].createdAt == old(db.tasks)[taskId].createdAt
  {
    var g := Admit(db.users, caller, Employer);
    if !g.Admitted? {
      return Refusal(g);
    }
    if !OwnsTask(db.tasks, taskId, g.id) {
      return NotFound;
    }
    if !EditComplete(form) || form.employee.value !in db.users {
      return BadRequest;
    }
    db.SaveTask(taskId, Edited(db.tasks[taskId], form), now);
    reply := Ok(());
  }

  /** `delete_task` as written: the handler catches `UserProfile.DoesNotExist`,
    * so a missing or foreign task escapes as a server error. */
  method DeleteTaskAsWritten(db: Database, caller: Option<UserId>, taskId: TaskId) returns (reply: Reply<()>)
    requires db.Valid() && (caller.Some? ==> caller.value in db.users)
    modifies db
    ensures db.Valid()
    ensures db.nextUserId == old(db.nextUserId) && db.nextTaskId == old(db.nextTaskId)
    ensures !reply.Ok? ==> unchanged(db)
    ensures var g := Admit(old(db.users), caller, Employer);
      && (!g.Admitted? ==> reply == Refusal(g))
      && (g.Admitted? && !OwnsTask(old(db.tasks), taskId, g.id) ==> reply == ServerError)
      && (g.Admitted? && OwnsTask(old(db.tasks), taskId, g.id) ==>
            && reply == Ok(())
            && db.tasks == old(db.tasks) - {taskId}
            && db.users == old(db.users) && db.tokens == old(db.tokens))
  {
    var g := Admit(db.users, caller, Employer);
    if !g.Admitted? {
      return Refusal(g);
    }
    if !OwnsTask(db.tasks, taskId, g.id) {
      return ServerError;
    }
    db.DeleteTask(taskId);
    reply := Ok(());
  }

  /** `delete_task`: the owning employer deletes one task. A missing or foreign
    * task is reported as not found (the handler as written catches the user's
    * exception instead of the task's; see `DeleteTaskAsWritten`). */
  method DeleteTask(db: Database, caller: Option<UserId>, taskId: TaskId) returns (reply: Reply<()>)
    requires db.Valid() && (caller.Some? ==> caller.value in db.users)
    modifies db
    ensures db.Valid()
    ensures db.nextUserId == old(db.nextUserId) && db.nextTaskId == old(db.nextTaskId)
    ensures !reply.Ok? ==> unchanged(db)
    ensures var g := Admit(old(db.users), caller, Employer);
      && (!g.Admitted? ==> reply == Refusal(g))
      && (g.Admitted? && !OwnsTask(old(db.tasks), taskId, g.id) ==> reply == NotFound)
      && (g.Admitted? && OwnsTask(old(db.tasks), taskId, g.id) ==>
            && reply == Ok(())
            && db.tasks == old(db.tasks) - {taskId}
            && db.users == old(db.users) && db.tokens == old(db.tokens))
  {
    var g := Admit(db.users, caller, Employer);
    if !g.Admitted? {
      return Refusal(g);
    }
    if !OwnsTask(db.tasks, taskId, g.id) {
      return NotFound;
    }
    db.DeleteTask(taskId);
    reply := Ok(());
  }

  /** On a task the employer does not own, the handler as written and the
    * intended one part ways: a server error against the 404, and neither
    * changes the store. */
  method DeleteTaskMissCompared(db: Database, employer: UserId, taskId: TaskId)
    returns (asWritten: Reply<()>, intended: Reply<()>)
    requires db.Valid() && employer in db.users && db.users[employer].role == Employer
    requires !OwnsTask(db.tasks, taskId, employer)
    modifies db
    ensures asWritten == ServerError && intended == NotFound
    ensures unchanged(db)
  {
    asWritten := DeleteTaskAsWritten(db, Some(employer), taskId);
    intended := DeleteTask(db, Some(employer), taskId);
  }

  /** `view_tasks`: exactly the tasks whose employer is the caller; `ids` are
    * the listed rows' ids, in order. */
  method ViewTasks(db: Database, caller: Option<UserId>) returns (reply: Reply<seq<Record>>, ids: seq<TaskId>)
    requires db.Valid() && (caller.Some? ==> caller.value in db.users)
    ensures var g := Admit(db.users, caller, Employer);
      && (!g.Admitted? ==> reply == Refusal(g))
      && (g.Admitted? ==>
            && reply.Ok? && |reply.value| == |ids| && Increasing(ids)
            && (forall i :: 0 <= i < |ids| ==> ids[i] in db.tasks && reply.value[i] == SerializeTask(ids[i], db.tasks[ids[i]]))
            && (forall id :: id in db.tasks ==> (id in ids <==> db.tasks[id].employer == g.id)))
  {
    var g := Admit(db.users, caller, Employer);
    if !g.Admitted? {
      return Refusal(g), [];
    }
    var records: seq<Record>;
    records, ids := CollectTasks(db.tasks, db.nextTaskId, (t: Task) => t.employer == g.id);
    reply := Ok(records);
  }

  /** `view_employee_tasks`: exactly the tasks whose employee is the caller. */
  method ViewEmployeeTasks(db: Database, caller: Option<UserId>) returns (reply: Reply<seq<Record>>, ids: seq<TaskId>)
    requires db.Valid() && (caller.Some? ==> caller.value in db.users)
    ensures var g := Admit(db.users, caller, Employee);
      && (!g.Admitted? ==> reply == Refusal(g))
      && (g.Admitted? ==>
            && reply.Ok? && |reply.value| == |ids| && Increasing(ids)
            && (forall i :: 0 <= i < |ids| ==> ids[i] in db.tasks && reply.value[i] == SerializeTask(ids[i], db.tasks[ids[i]]))
            && (forall id :: id in db.tasks ==> (id in ids <==> db.tasks[id].employee == g.id)))
  {
    var g := Admit(db.users, caller, Employee);
    if !g.Admitted? {
      return Refusal(g), [];
    }
    var records: seq<Record>;
    records, ids := CollectTasks(db.tasks, db.nextTaskId, (t: Task) => t.employee == g.id);
    reply := Ok(records);
  }

  /** `update_task_status`: the assigned employee sets the status to whatever
    * the request sends, whatever the current status; nothing else changes. */
  method UpdateTaskStatus(db: Database, caller: Option<UserId>, taskId: TaskId, status: Option<string>, now: int)
    returns (reply: Reply<()>)
    requires db.Valid() && (caller.Some? ==> caller.value in db.users)
    modifies db
    ensures db.Valid()
    ensures db.nextUserId == old(db.nextUserId) && db.nextTaskId == old(db.nextTaskId)
    ensures !reply.Ok? ==> unchanged(db)
    ensures var g := Admit(old(db.users), caller, Employee);
      && (!g.Admitted? ==> reply == Refusal(g))
      && (g.Admitted? && !AssignedTask(old(db.tasks), taskId, g.id) ==> reply == NotFound)
      && (g.Admitted? && AssignedTask(old(db.tasks), taskId, g.id) && status.None? ==> reply == BadRequest)
      && (g.Admitted? && AssignedTask(old(db.tasks), taskId, g.id) && status.Some? ==>
            && reply == Ok(())
            && db.tasks == old(db.tasks)[taskId := Touched(old(db.tasks)[taskId].(status := status.value), now)]
            && db.users == old(db.users) && db.tokens == old(db.tokens))
  {
    var g := Admit(db.users, caller, Employee);
    if !g.Admitted? {
      return Refusal(g);
    }
    if !AssignedTask(db.tasks, taskId, g.id) {
      return NotFound;
    }
    if status.None? {
      return BadRequest;
    }
    db.SaveTask(taskId, db.tasks[taskId].(status := status.value), now);
    reply := Ok(());
  }

  // ---------------------------------------------------------------------------
  // Login
  // ---------------------------------------------------------------------------

  /** The body of a successful login. */
  datatype LoginInfo = LoginInfo(token: Key, userId: UserId, role: Role)

  /** User `u` holds this phone number and this password. */
  predicate Credentials(users: map<UserId, User>, hash: string -> Digest, u: UserId, phone: string, password: string) {
    u in users && users[u].phone == phone && CheckPassword(hash, users[u].password, password)
  }

  /** `authenticate`: the user with this phone number, when both fields are
    * present and the password matches its stored digest. */
  method Authenticate(db: Database, phone: Option<string>, password: Option<string>) returns (u: Option<UserId>)
    requires db.Valid()
    ensures u.Some? ==> phone.Some? && password.Some? && Credentials(db.users, db.hash, u.value, phone.value, password.value)
    ensures u.None? ==> !(phone.Some? && password.Some? && exists x :: Credentials(db.users, db.hash, x, phone.value, password.value))
  {
    if phone.None? || password.None? || !PhoneTaken(db.users, phone.value) {
      return None;
    }
    var x :| x in db.users && db.users[x].phone == phone.value;
    if CheckPassword(db.hash, db.users[x].password, password.value) {
      return Some(x);
    }
    return None;
  }

  /** `login`: valid credentials get the user's token, created with `freshKey`
    * on the first login and the same one on every later login; invalid ones
    * get 401 and no token. */
  method Login(db: Database, phone: Option<string>, password: Option<string>, freshKey: Key) returns (reply: Reply<LoginInfo>)
    requires db.Valid() && freshKey !in db.tokens.Values
    modifies db
    ensures db.Valid()
    ensures db.nextUserId == old(db.nextUserId) && db.nextTaskId == old(db.nextTaskId)
    ensures db.users == old(db.users) && db.tasks == old(db.tasks)
    ensures reply.Ok? || reply.Unauthorized?
    ensures reply.Unauthorized? <==>
      !(phone.Some? && password.Some? && exists x :: Credentials(db.users, db.hash, x, phone.value, password.value))
    ensures reply.Unauthorized? ==> unchanged(db)
    ensures reply.Ok? ==>
      var u := reply.value.userId;
      && phone.Some? && password.Some? && Credentials(db.users, db.hash, u, phone.value, password.value)
      && reply.value.role == db.users[u].role
      && reply.value.token == (if u in old(db.tokens) then old(db.tokens)[u] else freshKey)
      && db.tokens == old(db.tokens)[u := reply.value.token]
  {
    var u := Authenticate(db, phone, password);
    if u.None? {
      return Unauthorized;
    }
    var key, _ := db.GetOrCreateToken(u.value, freshKey);
    reply := Ok(LoginInfo(key, u.value, db.users[u.value].role));
  }

  /** Two logins in a row with the same credentials give the same reply: the
    * second finds the token the first created. */
  method LoginTwice(db: Database, phone: Option<string>, password: Option<string>, key1: Key, key2: Key)
    returns (first: Reply<LoginInfo>, second: Reply<LoginInfo>)
    requires db.Valid() && key1 !in db.tokens.Values && key2 !in db.tokens.Values && key1 != key2
    modifies db
    ensures first == second
    ensures db.users == old(db.users) && db.tasks == old(db.tasks)
    ensures db.nextUserId == old(db.nextUserId) && db.nextTaskId == old(db.nextTaskId)
  {
    first := Login(db, phone, password, key1);
    second := Login(db, phone, password, key2);
    if first.Ok? {
      assert Credentials(db.users, db.hash, first.value.userId, phone.value, password.value);
    }
  }

  // ---------------------------------------------------------------------------
  // Employees
  // ---------------------------------------------------------------------------

  /** `id` is an employee of `employer`. */
  predicate OwnsEmployee(users: map<UserId, User>, id: UserId, employer: UserId) {
    id in users && users[id].employer == Some(employer) && users[id].role == Employee
  }

  /** `add_employee`: with a truthy phone and password and a phone nobody holds,
    * adds one employee of the caller; otherwise 400 and nothing changes. */
  method AddEmployee(db: Database, caller: Option<UserId>, phone: Option<string>, password: Option<string>)
    returns (reply: Reply<()>)
    requires db.Valid() && (caller.Some? ==> caller.value in db.users)
    modifies db
    ensures db.Valid()
    ensures !reply.Ok? ==> unchanged(db)
    ensures var g := Admit(old(db.users), caller, Employer);
      && (!g.Admitted? ==> reply == Refusal(g))
      && (g.Admitted? && (!Given(phone) || !Given(password)) ==> reply == BadRequest)
      && (g.Admitted? && Given(phone) && Given(password) && PhoneTaken(old(db.users), phone.value) ==> reply == BadRequest)
      && (g.Admitted? && Given(phone) && Given(password) && !PhoneTaken(old(db.users), phone.value) ==>
            var id := old(db.nextUserId);
            && reply == Ok(())
            && id !in old(db.users)
            && db.users == old(db.users)[id := User(phone.value, Hashed(db.hash(password.value)), Employee, Some(g.id), false, false)]
            && db.tasks == old(db.tasks) && db.tokens == old(db.tokens)
            && db.nextUserId == id + 1 && db.nextTaskId == old(db.nextTaskId))
  {
    var g := Admit(db.users, caller, Employer);
    if !g.Admitted? {
      return Refusal(g);
    }
    if !Given(phone) || !Given(password) {
      return BadRequest;
    }
    if PhoneTaken(db.users, phone.value) {
      return BadRequest;
    }
    var _ := Manager.CreateUser(db, phone.value, password, Employee, Some(g.id));
    reply := Ok(());
  }

  /** `delete_employee`: deletes an employee of the caller, with everything the
    * cascade reaches; any other target is not found. */
  method DeleteEmployee(db: Database, caller: Option<UserId>, employeeId: UserId) returns (reply: Reply<()>)
    requires db.Valid() && (caller.Some? ==> caller.value in db.users)
    modifies db
    ensures db.Valid()
    ensures db.nextUserId == old(db.nextUserId) && db.nextTaskId == old(db.nextTaskId)
    ensures !reply.Ok? ==> unchanged(db)
    ensures var g := Admit(old(db.users), caller, Employer);
      && (!g.Admitted? ==> reply == Refusal(g))
      && (g.Admitted? && !OwnsEmployee(old(db.users), employeeId, g.id) ==> reply == NotFound)
      && (g.Admitted? && OwnsEmployee(old(db.users), employeeId, g.id) ==>
            && reply == Ok(())
            && db.users == SurvivingUsers(old(db.users), employeeId)
            && db.tasks == SurvivingTasks(old(db.users), old(db.tasks), employeeId)
            && db.tokens == SurvivingTokens(old(db.users), old(db.tokens), employeeId))
  {
    var g := Admit(db.users, caller, Employer);
    if !g.Admitted? {
      return Refusal(g);
    }
    if !OwnsEmployee(db.users, employeeId, g.id) {
      return NotFound;
    }
    db.DeleteUser(employeeId);
    reply := Ok(());
  }

  /** The employee after an edit: a truthy phone replaces the phone, a truthy
    * password replaces the stored digest, an omitted field keeps its value. */
  function EditedEmployee(hash: string -> Digest, u: User, phone: Option<string>, password: Option<string>): (r: User)
    ensures r.(phone := u.phone, password := u.password) == u
    ensures r.phone == (if Given(phone) then phone.value else u.phone)
    ensures !Given(password) ==> r.password == u.password
    ensures Given(password) ==> CheckPassword(hash, r.password, password.value)
  {
    u.(phone := if Given(phone) then phone.value else u.phone,
       password := if Given(password) then MakePassword(hash, password) else u.password)
  }

  /** `edit_employee`: the caller's employee gets a new phone (refused when
    * another user holds it) and/or a new password. */
  method EditEmployee(db: Database, caller: Option<UserId>, employeeId: UserId, phone: Option<string>, password: Option<string>)
    returns (reply: Reply<()>)
    requires db.Valid() && (caller.Some? ==> caller.value in db.users)
    modifies db
    ensures db.Valid()
    ensures db.nextUserId == old(db.nextUserId) && db.nextTaskId == old(db.nextTaskId)
    ensures !reply.Ok? ==> unchanged(db)
    ensures var g := Admit(old(db.users), caller, Employer);
      && (!g.Admitted? ==> reply == Refusal(g))
      && (g.Admitted? && !OwnsEmployee(old(db.users), employeeId, g.id) ==> reply == NotFound)
      && (g.Admitted? && OwnsEmployee(old(db.users), employeeId, g.id) ==>
            if Given(phone) && PhoneTakenByOther(old(db.users), phone.value, employeeId) then
              reply == BadRequest
            else
              && reply == Ok(())
              && db.users == old(db.users)[employeeId := EditedEmployee(db.hash, old(db.users)[employeeId], phone, password)]
              && db.tasks == old(db.tasks) && db.tokens == old(db.tokens))
  {
    var g := Admit(db.users, caller, Employer);
    if !g.Admitted? {
      return Refusal(g);
    }
    if !OwnsEmployee(db.users, employeeId, g.id) {
      return NotFound;
    }
    if Given(phone) && PhoneTakenByOther(db.users, phone.value, employeeId) {
      return BadRequest;
    }
    db.SaveUser(employeeId, EditedEmployee(db.hash, db.users[employeeId], phone, password));
    reply := Ok(());
  }

  /** `view_employees`: exactly the caller's employees, without passwords. */
  method ViewEmployees(db: Database, caller: Option<UserId>) returns (reply: Reply<seq<Record>>, ids: seq<UserId>)
    requires db.Valid() && (caller.Some? ==> caller.value in db.users)
    ensures var g := Admit(db.users, caller, Employer);
      && (!g.Admitted? ==> reply == Refusal(g))
      && (g.Admitted? ==>
            && reply.Ok? && |reply.value| == |ids| && Increasing(ids)
            && (forall i :: 0 <= i < |ids| ==> ids[i] in db.users && reply.value[i] == SerializeUser(ids[i], db.users[ids[i]]))
            && (forall id :: id in db.users ==> (id in ids <==> OwnsEmployee(db.users, id, g.id))))
  {
    var g := Admit(db.users, caller, Employer);
    if !g.Admitted? {
      return Refusal(g), [];
    }
    var records: seq<Record>;
    records, ids := CollectUsers(db.users, db.nextUserId, (u: User) => u.employer == Some(g.id) && u.role == Employee);
    reply := Ok(records);
  }
}
