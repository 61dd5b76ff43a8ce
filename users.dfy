/**
 * The user collection the authentication and admin routes work on. The database is an in-memory map
 * from id to user document; ids are handed out in insertion order, and `findOne` returns the first
 * document in that order that matches its filter.
 */
module Users {
  import opened Outcomes
  import opened Text

  type UserId = nat

  /** Milliseconds since the epoch, as `Date.now()` gives them. */
  type Time = nat

  /** The `role` field: `'user'` or `'admin'`. */
  datatype Role = RegularUser | Admin

  /** A user document. `null` token and expiry fields are `None`. */
  datatype User = User(
    id: UserId,
    email: string,
    name: string,
    role: Role,
    magicLinkToken: Option<string>,
    magicLinkExpires: Option<Time>,
    isVerified: bool,
    lastLogin: Option<Time>)

  /** The whole collection, with the id the next inserted document receives. */
  datatype UserDb = UserDb(users: map<UserId, User>, nextId: UserId)

  /**
   * What every route keeps true of the collection: each document sits under its own id, below
   * `nextId`; stored e-mail addresses are lower-case; no two users share an address.
   */
  ghost predicate DbValid(db: UserDb)
  {
    && (forall id :: id in db.users ==> id < db.nextId && db.users[id].id == id && HasNoUpper(db.users[id].email))
    && (forall a, b :: a in db.users && b in db.users && db.users[a].email == db.users[b].email ==> a == b)
  }

  /** The first document, in insertion order below `n`, that satisfies `p`. */
  function First(users: map<UserId, User>, n: nat, p: User -> bool): (r: Option<UserId>)
    ensures r.Some? ==> r.value < n && r.value in users && p(users[r.value])
    ensures r.Some? ==> forall k :: 0 <= k < r.value && k in users ==> !p(users[k])
    ensures r.None? ==> forall k :: 0 <= k < n && k in users ==> !p(users[k])
    decreases n
  {
    if n == 0 then None
    else
      match First(users, n - 1, p)
      case Some(k) => Some(k)
      case None => if n - 1 in users && p(users[n - 1]) then Some(n - 1) else None
  }

  /** `User.findOne({ email })`. */
  function FindByEmail(db: UserDb, email: string): (r: Option<UserId>)
    requires DbValid(db)
    ensures r.Some? ==> r.value in db.users && db.users[r.value].email == email
    ensures r.None? <==> forall k :: k in db.users ==> db.users[k].email != email
  {
    First(db.users, db.nextId, (u: User) => u.email == email)
  }

  /**
   * The user a find-or-create by e-mail lands on: the one whose stored address is the lower-cased
   * `email`, or else the id the next new user receives.
   */
  function TargetFor(db: UserDb, email: string): (id: UserId)
    requires DbValid(db)
    ensures id in db.users <==> exists k :: k in db.users && db.users[k].email == ToLower(email)
    ensures id in db.users ==> db.users[id].email == ToLower(email)
    ensures id !in db.users ==> id == db.nextId
  {
    match FindByEmail(db, ToLower(email))
    case Some(id) => id
    case None => db.nextId
  }

  /** A stored user is addressed by its own stored e-mail, which is already lower-case. */
  lemma TargetOfStoredEmail(db: UserDb, id: UserId)
    requires DbValid(db) && id in db.users
    ensures TargetFor(db, db.users[id].email) == id
  {
    ToLowerOfLower(db.users[id].email);
  }

  /** The `user` object of the replies: id, e-mail, name and role, nothing about tokens. */
  datatype UserSummary = UserSummary(id: UserId, email: string, name: string, role: Role)

  function Summary(u: User): UserSummary
  {
    UserSummary(u.id, u.email, u.name, u.role)
  }

  /** The collection as the routes see it; they read it, change one document and save it back. */
  class UserStore {
    var users: map<UserId, User>
    var nextId: UserId

    function Db(): UserDb
      reads this
    {
      UserDb(users, nextId)
    }

    ghost predicate Valid()
      reads this
    {
      DbValid(Db())
    }

    constructor ()
      ensures Valid() && users == map[] && nextId == 0
    {
      users := map[];
      nextId := 0;
    }

    /**
     * `user.save()` on a document already in the collection: it replaces the stored one. The routes
     * only save documents that keep the collection valid, so the store keeps `Valid()`.
     */
    method Save(u: User)
      requires u.id in users && DbValid(UserDb(users[u.id := u], nextId))
      modifies this
      ensures Valid()
      ensures users == old(users)[u.id := u] && nextId == old(nextId)
    {
      users := users[u.id := u];
    }

    /** `user.save()` on a new document: it is stored under the next id. */
    method Insert(u: User) returns (id: UserId)
      requires Valid() && HasNoUpper(u.email)
      requires forall k :: k in users ==> users[k].email != u.email
      modifies this
      ensures Valid()
      ensures id == old(nextId) && id !in old(users)
      ensures users == old(users)[id := u.(id := id)] && nextId == old(nextId) + 1
    {
      id := nextId;
      users := users[id := u.(id := id)];
      nextId := nextId + 1;
    }
  }
}
