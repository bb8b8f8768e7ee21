/**
 * The two tables of the task manager (users and tasks), the token table they
 * share with the authentication layer, and the rules the database enforces on
 * them: the unique phone number, the role and status choices with their
 * defaults, the cascading foreign keys and the two task time stamps.
 */
module Models {
  import opened Wrappers

  type UserId = int
  type TaskId = int
  /** An authentication token's key. */
  type Key = string
  /** What the password hasher returns; the hasher itself is a parameter of the database. */
  type Digest = string

  datatype Role = Employer | Employee

  /** A user created without an explicit role is an employee. */
  const DefaultRole: Role := Employee

  function RoleName(r: Role): string {
    match r
    case Employer => "employer"
    case Employee => "employee"
  }

  /** The stored password: either the hasher's digest of the raw password, or
    * the marker stored when no password was given, which no password matches. */
  datatype PasswordHash = Unusable | Hashed(digest: Digest)

  datatype User = User(
    phone: string,
    password: PasswordHash,
    role: Role,
    employer: Option<UserId>,
    isStaff: bool,
    isSuperuser: bool)

  const Started: string := "started"
  const Finished: string := "finished"
  const Blocked: string := "blocked"
  const StatusChoices: set<string> := {Started, Finished, Blocked}
  const DefaultStatus: string := Started

  /** A task. `status` is a plain string: the choices are declared on the
    * column but a save does not check them, so any string can be stored. */
  datatype Task = Task(
    title: string,
    description: string,
    status: string,
    employer: UserId,
    employee: UserId,
    createdAt: int,
    updatedAt: int)

  /** Setting a password stores its digest; setting none stores the unusable marker. */
  function MakePassword(hash: string -> Digest, raw: Option<string>): (p: PasswordHash)
    ensures p.Hashed? <==> raw.Some?
  {
    match raw
    case None => Unusable
    case Some(r) => Hashed(hash(r))
  }

  /** A raw password matches a stored one when hashing it gives the stored digest. */
  predicate CheckPassword(hash: string -> Digest, stored: PasswordHash, raw: string) {
    stored.Hashed? && stored.digest == hash(raw)
  }

  /** Setting a password and checking the same password again succeeds; the
    * unusable marker never matches. */
  lemma CheckMadePassword(hash: string -> Digest, raw: string, other: string)
    ensures CheckPassword(hash, MakePassword(hash, Some(raw)), raw)
    ensures !CheckPassword(hash, MakePassword(hash, None), other)
  {
  }

  /** A task is saved: `updated_at` takes the current time, nothing else changes. */
  function Touched(t: Task, now: int): (r: Task)
    ensures r.updatedAt == now && r.createdAt == t.createdAt
    ensures r.(updatedAt := t.updatedAt) == t
  {
    t.(updatedAt := now)
  }

  // ---------------------------------------------------------------------------
  // Table constraints
  // ---------------------------------------------------------------------------

  predicate PhoneTaken(users: map<UserId, User>, phone: string) {
    exists u :: u in users && users[u].phone == phone
  }

  predicate PhoneTakenByOther(users: map<UserId, User>, phone: string, self: UserId) {
    exists u :: u in users && u != self && users[u].phone == phone
  }

  /** `phone_number` is a unique column. */
  ghost predicate PhonesUnique(users: map<UserId, User>) {
    forall a, b :: a in users && b in users && a != b ==> users[a].phone != users[b].phone
  }

  /** The self-referencing `employer` key points at an existing user, and since
    * ids are handed out in increasing order, at one created earlier. */
  ghost predicate EmployersExist(users: map<UserId, User>) {
    forall u :: u in users && users[u].employer.Some? ==>
      users[u].employer.value in users && 0 <= users[u].employer.value < u
  }

  /** Both foreign keys of every task point at existing users. */
  ghost predicate TasksReferenceUsers(users: map<UserId, User>, tasks: map<TaskId, Task>) {
    forall t :: t in tasks ==> tasks[t].employer in users && tasks[t].employee in users
  }

  /** The token key is the token table's primary key. */
  ghost predicate TokenKeysDistinct(tokens: map<UserId, Key>) {
    forall a, b :: a in tokens && b in tokens && a != b ==> tokens[a] != tokens[b]
  }

  // ---------------------------------------------------------------------------
  // Cascade on delete
  // ---------------------------------------------------------------------------

  /** `x` is `root` or, following `employer` links upward, reaches `root`:
    * deleting `root` deletes `x` through the cascading `employer` key. */
  predicate Under(users: map<UserId, User>, x: UserId, root: UserId)
    decreases x
  {
    x == root ||
    (x in users && users[x].employer.Some? && 0 <= users[x].employer.value < x &&
     Under(users, users[x].employer.value, root))
  }

  function SurvivingUsers(users: map<UserId, User>, root: UserId): map<UserId, User> {
    map x | x in users && !Under(users, x, root) :: users[x]
  }

  function SurvivingTasks(users: map<UserId, User>, tasks: map<TaskId, Task>, root: UserId): map<TaskId, Task> {
    map t | t in tasks && !Under(users, tasks[t].employer, root) && !Under(users, tasks[t].employee, root) :: tasks[t]
  }

  function SurvivingTokens(users: map<UserId, User>, tokens: map<UserId, Key>, root: UserId): map<UserId, Key> {
    map x | x in tokens && !Under(users, x, root) :: tokens[x]
  }

  /** Deleting `root` removes it, every user whose employer it is, and every task
    * it is the employer or the employee of, and its token. */
  lemma CascadeRemovesDependents(users: map<UserId, User>, tasks: map<TaskId, Task>, tokens: map<UserId, Key>, root: UserId)
    requires EmployersExist(users)
    ensures root !in SurvivingUsers(users, root) && root !in SurvivingTokens(users, tokens, root)
    ensures forall x :: x in SurvivingUsers(users, root) ==> SurvivingUsers(users, root)[x].employer != Some(root)
    ensures forall t :: t in SurvivingTasks(users, tasks, root) ==>
      SurvivingTasks(users, tasks, root)[t].employer != root && SurvivingTasks(users, tasks, root)[t].employee != root
  {
    forall x | x in users && users[x].employer == Some(root)
      ensures Under(users, x, root)
    {
      assert Under(users, root, root);
    }
  }

  /** The deleted users are exactly what the cascade reaches: any set that holds
    * `root` and every user whose employer it holds contains all of them. */
  lemma {:induction false} CascadeIsLeast(users: map<UserId, User>, root: UserId, s: set<UserId>, x: UserId)
    requires root in s
    requires forall y :: y in users && users[y].employer.Some? && users[y].employer.value in s ==> y in s
    requires Under(users, x, root)
    ensures x in s
    decreases x
  {
    if x != root {
      CascadeIsLeast(users, root, s, users[x].employer.value);
    }
  }

  /** After the cascade no surviving user or task refers to a deleted user. */
  lemma CascadeKeepsReferences(users: map<UserId, User>, tasks: map<TaskId, Task>, root: UserId)
    requires EmployersExist(users) && TasksReferenceUsers(users, tasks)
    ensures EmployersExist(SurvivingUsers(users, root))
    ensures TasksReferenceUsers(SurvivingUsers(users, root), SurvivingTasks(users, tasks, root))
  {
    var rest := SurvivingUsers(users, root);
    forall x | x in rest && rest[x].employer.Some?
      ensures rest[x].employer.value in rest && 0 <= rest[x].employer.value < x
    {
      var e := users[x].employer.value;
      assert Under(users, e, root) ==> Under(users, x, root);
    }
  }

  // ---------------------------------------------------------------------------
  // The database
  // ---------------------------------------------------------------------------

  /** The three tables and the id counters, with the row-level operations the
    * ORM offers (insert, save, delete with cascade, token get-or-create). */
  class Database {
    var users: map<UserId, User>
    var tasks: map<TaskId, Task>
    var tokens: map<UserId, Key>
    var nextUserId: UserId
    var nextTaskId: TaskId
    /** The one-way password hasher. */
    const hash: string -> Digest

    ghost predicate Valid()
      reads this
    {
      && 1 <= nextUserId && 1 <= nextTaskId
      && (forall u :: u in users ==> 1 <= u < nextUserId)
      && (forall t :: t in tasks ==> 1 <= t < nextTaskId)
      && PhonesUnique(users)
      && EmployersExist(users)
      && TasksReferenceUsers(users, tasks)
      && tokens.Keys <= users.Keys
      && TokenKeysDistinct(tokens)
    }

    constructor (hash: string -> Digest)
      ensures Valid() && this.hash == hash
      ensures users == map[] && tasks == map[] && tokens == map[]
    {
      this.hash := hash;
      users, tasks, tokens := map[], map[], map[];
      nextUserId, nextTaskId := 1, 1;
    }

    /** Inserts a user row; the unique phone and the employer foreign key are
      * checked by the database, which refuses the row (None) when either fails. */
    method InsertUser(u: User) returns (id: Option<UserId>)
      requires Valid()
      modifies this
      ensures Valid()
      ensures id.None? <==> PhoneTaken(old(users), u.phone) || (u.employer.Some? && u.employer.value !in old(users))
      ensures id.None? ==> unchanged(this)
      ensures id.Some? ==>
        && id.value == old(nextUserId) && id.value !in old(users)
        && users == old(users)[id.value := u]
        && tasks == old(tasks) && tokens == old(tokens)
        && nextUserId == old(nextUserId) + 1 && nextTaskId == old(nextTaskId)
    {
      if PhoneTaken(users, u.phone) || (u.employer.Some? && u.employer.value !in users) {
        return None;
      }
      id := Some(nextUserId);
      users := users[nextUserId := u];
      nextUserId := nextUserId + 1;
    }

    /** Saves an existing user row with new column values; the caller has
      * checked that the phone is free and the employer stays the same. */
    method SaveUser(id: UserId, u: User)
      requires Valid() && id in users
      requires !PhoneTakenByOther(users, u.phone, id)
      requires u.employer == users[id].employer
      modifies this
      ensures Valid()
      ensures users == old(users)[id := u]
      ensures tasks == old(tasks) && tokens == old(tokens)
      ensures nextUserId == old(nextUserId) && nextTaskId == old(nextTaskId)
    {
      users := users[id := u];
    }

    /** Inserts a task row; `created_at` and `updated_at` both take the current time. */
    method InsertTask(t: Task, now: int) returns (id: TaskId)
      requires Valid() && t.employer in users && t.employee in users
      modifies this
      ensures Valid()
      ensures id == old(nextTaskId) && id !in old(tasks)
      ensures tasks == old(tasks)[id := t.(createdAt := now, updatedAt := now)]
      ensures users == old(users) && tokens == old(tokens)
      ensures nextTaskId == old(nextTaskId) + 1 && nextUserId == old(nextUserId)
    {
      id := nextTaskId;
      tasks := tasks[id := t.(createdAt := now, updatedAt := now)];
      nextTaskId := nextTaskId + 1;
    }

    /** Saves an existing task row; `updated_at` takes the current time. */
    method SaveTask(id: TaskId, t: Task, now: int)
      requires Valid() && id in tasks && t.employer in users && t.employee in users
      modifies this
      ensures Valid()
      ensures tasks == old(tasks)[id := Touched(t, now)]
      ensures users == old(users) && tokens == old(tokens)
      ensures nextUserId == old(nextUserId) && nextTaskId == old(nextTaskId)
    {
      tasks := tasks[id := Touched(t, now)];
    }

    /** Deletes one task row; nothing refers to tasks, so nothing cascades. */
    method DeleteTask(id: TaskId)
      requires Valid() && id in tasks
      modifies this
      ensures Valid()
      ensures tasks == old(tasks) - {id}
      ensures users == old(users) && tokens == old(tokens)
      ensures nextUserId == old(nextUserId) && nextTaskId == old(nextTaskId)
    {
      tasks := tasks - {id};
    }

    /** Deletes a user row with every row that reaches it through a cascading
      * key: users below it, their tasks (as employer or employee) and tokens. */
    method DeleteUser(id: UserId)
      requires Valid() && id in users
      modifies this
      ensures Valid()
      ensures users == SurvivingUsers(old(users), id)
      ensures tasks == SurvivingTasks(old(users), old(tasks), id)
      ensures tokens == SurvivingTokens(old(users), old(tokens), id)
      ensures nextUserId == old(nextUserId) && nextTaskId == old(nextTaskId)
    {
      CascadeKeepsReferences(users, tasks, id);
      var u, t, k := SurvivingUsers(users, id), SurvivingTasks(users, tasks, id), SurvivingTokens(users, tokens, id);
      users, tasks, tokens := u, t, k;
    }

    /** Returns the user's token key, creating the token with `freshKey` when the
      * user has none yet. */
    method GetOrCreateToken(id: UserId, freshKey: Key) returns (key: Key, created: bool)
      requires Valid() && id in users && freshKey !in tokens.Values
      modifies this
      ensures Valid()
      ensures created <==> id !in old(tokens)
      ensures key == if created then freshKey else old(tokens)[id]
      ensures tokens == old(tokens)[id := key]
      ensures users == old(users) && tasks == old(tasks)
      ensures nextUserId == old(nextUserId) && nextTaskId == old(nextTaskId)
    {
      created := id !in tokens;
      if created {
        key := freshKey;
        tokens := tokens[id := key];
      } else {
        key := tokens[id];
      }
    }
  }
}
