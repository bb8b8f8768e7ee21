/**
 * The user manager: `create_user` refuses an empty phone number, stores the
 * hashed password and the extra attributes as given, and saves the row;
 * `create_superuser` then raises the staff and superuser flags.
 */
module Manager {
  import opened Wrappers
  import opened Models

  /** What `create_user` ends in: the new user's id, the `ValueError` raised for
    * an empty phone number, or the database's integrity error on save. */
  datatype CreateResult = Created(id: UserId) | ValueError | IntegrityError

  /** The row `create_user` saves. */
  function NewUser(hash: string -> Digest, phone: string, password: Option<string>, role: Role, employer: Option<UserId>): User {
    User(phone, MakePassword(hash, password), role, employer, false, false)
  }

  method CreateUser(db: Database, phone: string, password: Option<string>, role: Role, employer: Option<UserId>)
    returns (r: CreateResult)
    requires db.Valid()
    modifies db
    ensures db.Valid()
    ensures r.ValueError? <==> phone == ""
    ensures phone != "" ==>
      (r.IntegrityError? <==> PhoneTaken(old(db.users), phone) || (employer.Some? && employer.value !in old(db.users)))
    ensures !r.Created? ==> unchanged(db)
    ensures r.Created? ==>
      && r.id == old(db.nextUserId) && r.id !in old(db.users)
      && db.users == old(db.users)[r.id := NewUser(db.hash, phone, password, role, employer)]
      && db.tasks == old(db.tasks) && db.tokens == old(db.tokens)
      && db.nextUserId == old(db.nextUserId) + 1 && db.nextTaskId == old(db.nextTaskId)
  {
    if phone == "" {
      return ValueError;
    }
    var id := db.InsertUser(NewUser(db.hash, phone, password, role, employer));
    match id
    case None => r := IntegrityError;
    case Some(k) => r := Created(k);
  }

  method CreateSuperuser(db: Database, phone: string, password: string) returns (r: CreateResult)
    requires db.Valid()
    modifies db
    ensures db.Valid()
    ensures r.ValueError? <==> phone == ""
    ensures phone != "" ==> (r.IntegrityError? <==> PhoneTaken(old(db.users), phone))
    ensures !r.Created? ==> unchanged(db)
    ensures r.Created? ==>
      && r.id == old(db.nextUserId) && r.id !in old(db.users)
      && db.users == old(db.users)[r.id := User(phone, Hashed(db.hash(password)), DefaultRole, None, true, true)]
      && db.tasks == old(db.tasks) && db.tokens == old(db.tokens)
      && db.nextUserId == old(db.nextUserId) + 1 && db.nextTaskId == old(db.nextTaskId)
  {
    r := CreateUser(db, phone, Some(password), DefaultRole, None);
    if r.Created? {
      var u := db.users[r.id];
      db.SaveUser(r.id, u.(isStaff := true, isSuperuser := true));
    }
  }
}
