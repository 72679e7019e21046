/** Users (app/crud/user_crud.py): registration with a unique username and email, lookups,
    an update that keeps both unique, and deletion. The password hashing of the security
    module is the parameter `hash`: bcrypt draws a fresh salt on every call, so each call
    supplies its own function. */
module UserCrud {
  import opened Errors
  import opened Models
  import opened Schemas
  import opened Tables
  import opened Database
  import opened Attributes

  function Serialize(id: int, u: User): UserRead
  {
    UserRead(id, u.username, u.email)
  }

  /** Some stored user already has `username` or `email`. */
  predicate Conflicts(users: map<int, User>, username: string, email: string)
  {
    exists id :: id in users && (users[id].username == username || users[id].email == email)
  }

  /** Some stored user other than `userId` already has `username` or `email`. */
  predicate ConflictsWithOther(users: map<int, User>, userId: int, username: string, email: string)
  {
    exists id :: id in users && id != userId && (users[id].username == username || users[id].email == email)
  }

  /** `crud_create_user`: refused when the username or the email is taken; otherwise stores the
      hash of the password under a fresh id. */
  method CreateUser(db: Store, username: string, email: string, password: string, hash: string -> string)
    returns (r: Result<UserRead>)
    requires db.Valid()
    modifies db`users, db`nextUserId
    ensures db.Valid()
    ensures r.Err? <==> Conflicts(old(db.users), username, email)
    ensures r.Err? ==> r.error == UserAlreadyExists && db.users == old(db.users) && db.nextUserId == old(db.nextUserId)
    ensures r.Ok? ==>
      && r.value.id !in old(db.users)
      && db.users == old(db.users)[r.value.id := User(username, email, hash(password))]
      && r == ReadUserById(db.users, r.value.id)
  {
    if Conflicts(db.users, username, email) {
      return Err(UserAlreadyExists);
    }
    var hashedPassword := hash(password);
    var id := db.nextUserId;
    db.users := db.users[id := User(username, email, hashedPassword)];
    db.nextUserId := id + 1;
    r := Ok(Serialize(id, db.users[id]));
  }

  /** `crud_read_user_by_id`: the public fields of user `id`, or UserNotFound. */
  function ReadUserById(users: map<int, User>, id: int): (r: Result<UserRead>)
    ensures r.Ok? <==> id in users
    ensures r.Err? ==> r.error == UserNotFound
    ensures r.Ok? ==> r.value.id == id && r.value.username == users[id].username && r.value.email == users[id].email
  {
    if id in users then Ok(Serialize(id, users[id])) else Err(UserNotFound)
  }

  /** `crud_read_user_by_username`: a stored user (id and row) with that username, or
      UserNotFound. Once usernames are unique, it is the only one. */
  method ReadUserByUsername(users: map<int, User>, username: string) returns (r: Result<(int, User)>)
    ensures r.Ok? <==> exists id :: id in users && users[id].username == username
    ensures r.Err? ==> r.error == UserNotFound
    ensures r.Ok? ==> r.value.0 in users && users[r.value.0] == r.value.1 && r.value.1.username == username
    ensures r.Ok? && UniqueUsernames(users) ==>
      forall id :: id in users && users[id].username == username ==> id == r.value.0
  {
    if id :| id in users && users[id].username == username {
      r := Ok((id, users[id]));
    } else {
      r := Err(UserNotFound);
    }
  }

  /** `crud_read_all_users`: one record per stored user, each as read by id. */
  method ReadAllUsers(users: map<int, User>) returns (r: seq<UserRead>)
    ensures |r| == |users|
    ensures forall i :: 0 <= i < |r| ==> ReadUserById(users, r[i].id) == Ok(r[i])
    ensures forall id :: id in users ==> Serialize(id, users[id]) in r
    ensures forall i, j :: 0 <= i < j < |r| ==> r[i].id != r[j].id
  {
    var ids := Enumerate(users);
    r := seq(|ids|, i requires 0 <= i < |ids| => Serialize(ids[i], users[ids[i]]));
    forall id | id in users
      ensures Serialize(id, users[id]) in r
    {
      var i :| 0 <= i < |ids| && ids[i] == id;
      assert r[i] == Serialize(id, users[id]);
    }
  }

  /** One `setattr` of the update loop. */
  datatype UserField = SetUsername(username: string) | SetEmail(email: string) | SetPassword(password: string)

  function SetUserAttr(u: User, f: UserField): User
  {
    match f
    case SetUsername(v) => u.(username := v)
    case SetEmail(v) => u.(email := v)
    case SetPassword(v) => u.(password := v)
  }

  /** The update is a no-op when username, email and password are all falsy. */
  predicate NothingToUpdate(username: string, email: string, password: Option<string>)
  {
    username == "" && email == "" && !TruthyText(password)
  }

  /** The `update_data` dict: username and email always, the new hash only for a truthy
      password; the password itself is never assigned. */
  function UserUpdateData(username: string, email: string, password: Option<string>, hash: string -> string): (data: seq<UserField>)
    ensures |data| == if TruthyText(password) then 3 else 2
    ensures data[0] == SetUsername(username) && data[1] == SetEmail(email)
    ensures forall i :: 0 <= i < |data| && data[i].SetPassword? ==>
      TruthyText(password) && data[i].password == hash(password.value)
  {
    [SetUsername(username), SetEmail(email)] + if TruthyText(password) then [SetPassword(hash(password.value))] else []
  }

  /** Running the update loop sets the username and email to the given values and replaces
      the password hash exactly when a truthy password was given. */
  lemma UserUpdateAssigns(u: User, username: string, email: string, password: Option<string>, hash: string -> string)
    ensures SetAttrs(u, UserUpdateData(username, email, password, hash), SetUserAttr)
         == User(username, email, if TruthyText(password) then hash(password.value) else u.password)
  {
    var newPassword := if TruthyText(password) then [SetPassword(hash(password.value))] else [];
    assert UserUpdateData(username, email, password, hash) == [SetUsername(username)] + [SetEmail(email)] + newPassword;
    SetAttrsThree(u, [SetUsername(username)], [SetEmail(email)], newPassword, SetUserAttr);
  }

  /** `crud_update_user`. Checked in this order: the user exists; no OTHER user has the new
      username or email (keeping one's own is allowed); then a no-op when username, email and
      password are all falsy. Otherwise the loop sets username and email, and the password hash
      when a password is given. */
  method UpdateUser(db: Store, userId: int, username: string, email: string, password: Option<string>, hash: string -> string)
    returns (r: Result<UserRead>)
    requires db.Valid()
    modifies db`users
    ensures db.Valid()
    ensures userId !in old(db.users) ==> r == Err(UserNotFound)
    ensures userId in old(db.users) && ConflictsWithOther(old(db.users), userId, username, email)
      ==> r == Err(UserAlreadyExists)
    ensures r.Ok? <==> userId in old(db.users) && !ConflictsWithOther(old(db.users), userId, username, email)
    ensures r.Err? || NothingToUpdate(username, email, password) ==> db.users == old(db.users)
    ensures r.Ok? && !NothingToUpdate(username, email, password) ==>
      db.users == old(db.users)[userId := User(username, email,
        if TruthyText(password) then hash(password.value) else old(db.users)[userId].password)]
    ensures r.Ok? ==> r == ReadUserById(db.users, userId)
  {
    if userId !in db.users {
      return Err(UserNotFound);
    }
    if ConflictsWithOther(db.users, userId, username, email) {
      return Err(UserAlreadyExists);
    }
    if NothingToUpdate(username, email, password) {
      return Ok(Serialize(userId, db.users[userId]));
    }
    var data := UserUpdateData(username, email, password, hash);
    var original := db.users[userId];
    var user := AssignAll(original, data, SetUserAttr);
    UserUpdateAssigns(original, username, email, password, hash);
    db.users := db.users[userId := user];
    r := Ok(Serialize(userId, user));
  }

  /** `crud_delete_user`: removes exactly user `userId` and returns what it held. */
  method DeleteUser(db: Store, userId: int) returns (r: Result<UserRead>)
    requires db.Valid()
    modifies db`users
    ensures db.Valid()
    ensures r == ReadUserById(old(db.users), userId)
    ensures db.users == old(db.users) - {userId}
  {
    if userId !in db.users {
      return Err(UserNotFound);
    }
    var user := db.users[userId];
    db.users := db.users - {userId};
    r := Ok(Serialize(userId, user));
  }
}
