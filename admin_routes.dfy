/**
 * The admin routes: `POST /create-admin` makes the user with the lower-cased address an admin, creating
 * a verified one when there is none, and is open to any caller; `GET /users` lists every user without
 * the token fields.
 */
module AdminRoutes {
  import opened Outcomes
  import opened Text
  import opened Collections
  import opened Users

  const MissingFields: string := "Email and name are required"
  const UpdatedMessage: string := "User updated to admin successfully"
  const CreatedMessage: string := "Admin user created successfully"

  /** The collection after `create-admin`: the target user is an admin with the given name. */
  function AdminEnsured(db: UserDb, email: string, name: string): (db': UserDb)
    requires DbValid(db)
    ensures DbValid(db')
    ensures var id := TargetFor(db, email);
      && db'.users.Keys == db.users.Keys + {id}
      && (forall k :: k in db.users && k != id ==> db'.users[k] == db.users[k])
      && db'.users[id].role == Admin && db'.users[id].name == name && db'.users[id].email == ToLower(email)
    ensures var id := TargetFor(db, email);
      id in db.users ==> db'.users[id] == db.users[id].(role := Admin, name := name)
    ensures var id := TargetFor(db, email);
      id !in db.users ==>
        && db'.nextId == db.nextId + 1
        && db'.users[id].isVerified
        && db'.users[id].magicLinkToken.None? && db'.users[id].magicLinkExpires.None? && db'.users[id].lastLogin.None?
  {
    var key := ToLower(email);
    match FindByEmail(db, key)
    case Some(id) =>
      UserDb(db.users[id := db.users[id].(role := Admin, name := name)], db.nextId)
    case None =>
      UserDb(db.users[db.nextId := User(db.nextId, key, name, Admin, None, None, true, None)], db.nextId + 1)
  }

  datatype AdminReply = AdminReply(message: string, user: UserSummary)

  /**
   * `POST /create-admin`. There is no requester parameter: the route has no guard, so whoever calls it
   * ends with the target user an admin.
   */
  method CreateAdmin(store: UserStore, email: string, name: string) returns (r: Reply<AdminReply>)
    requires store.Valid()
    modifies store
    ensures store.Valid()
    ensures email == "" || name == "" ==> r == Fail(400, MissingFields) && store.Db() == old(store.Db())
    ensures email != "" && name != "" ==>
      && store.Db() == AdminEnsured(old(store.Db()), email, name)
      && r.Ok?
      && r.body.user == Summary(store.users[TargetFor(old(store.Db()), email)])
      && r.body.user.role == Admin
      && r.body.message == (if TargetFor(old(store.Db()), email) in old(store.users) then UpdatedMessage else CreatedMessage)
  {
    if email == "" || name == "" {
      return Fail(400, MissingFields);
    }
    var key := ToLower(email);
    var found := FindByEmail(store.Db(), key);
    if found.Some? {
      var user := store.users[found.value];
      user := user.(role := Admin);
      user := user.(name := name);
      store.Save(user);
      r := Ok(AdminReply(UpdatedMessage, Summary(user)));
    } else {
      var user := User(store.nextId, key, name, Admin, None, None, true, None);
      var id := store.Insert(user);
      r := Ok(AdminReply(CreatedMessage, Summary(store.users[id])));
    }
  }

  /** Calling `create-admin` twice with the same inputs leaves the collection as the first call left it. */
  lemma AdminIdempotent(db: UserDb, email: string, name: string)
    requires DbValid(db)
    ensures AdminEnsured(AdminEnsured(db, email, name), email, name) == AdminEnsured(db, email, name)
  {
    var db1 := AdminEnsured(db, email, name);
    var id := TargetFor(db, email);
    assert TargetFor(db1, email) == id;
    assert db1.users[id].(role := Admin, name := name) == db1.users[id];
  }

  /** A listed user: the document without `magicLinkToken` and `magicLinkExpires`. */
  datatype ListedUser = ListedUser(id: UserId, email: string, name: string, role: Role, isVerified: bool, lastLogin: Option<Time>)

  function Listed(u: User): ListedUser
  {
    ListedUser(u.id, u.email, u.name, u.role, u.isVerified, u.lastLogin)
  }

  /** `GET /users`: every user once, in insertion order, with the token fields left out. */
  function ListUsers(db: UserDb): (r: seq<ListedUser>)
    requires DbValid(db)
    ensures forall i :: 0 <= i < |r| ==> r[i].id in db.users && r[i] == Listed(db.users[r[i].id])
    ensures forall k :: k in db.users ==> exists i :: 0 <= i < |r| && r[i].id == k
    ensures forall i, j :: 0 <= i < j < |r| ==> r[i].id < r[j].id
  {
    var ks := KeysInOrder(db.users, db.nextId);
    var r := seq(|ks|, i requires 0 <= i < |ks| => Listed(db.users[ks[i]]));
    forall k | k in db.users
      ensures exists i :: 0 <= i < |r| && r[i].id == k
    {
      assert k in ks;
      var i :| 0 <= i < |ks| && ks[i] == k;
      assert r[i].id == k;
    }
    r
  }
}
