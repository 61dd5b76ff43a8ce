/**
 * The magic-link routes: `POST /request-magic-link` finds or creates the user by lower-cased e-mail,
 * overwrites the pending token and sets it to expire fifteen minutes later, saves, then mails the link;
 * `GET /verify` finds the first user whose token matches and has not expired, clears the token, marks
 * the user verified, stamps the login time and issues the session claims.
 *
 * The pure functions `LinkRequested` and `Redeemed` say what the collection becomes; the route methods
 * change a `UserStore` field by field and are proved to end in that state; the lemmas relate several
 * requests (a stale token after a re-request, single use, strict expiry).
 */
module AuthRoutes {
  import opened Outcomes
  import opened Text
  import opened Users
  import opened EmailService

  /** `15 * 60 * 1000`: a magic link is good for fifteen minutes. */
  const LinkLifetime: nat := 15 * 60 * 1000

  /** `expiresIn: '7d'` of the session token, in milliseconds. */
  const SessionLifetime: nat := 7 * 24 * 60 * 60 * 1000

  const MissingFields: string := "Email and name are required"
  const SendError: string := "Error sending magic link"
  const LinkSent: string := "Magic link sent to your email"
  const TokenRequired: string := "Token is required"
  const InvalidToken: string := "Invalid or expired token"

  /** The filter of `/verify`: the token matches and its expiry is strictly later than now. */
  predicate Redeemable(u: User, token: string, now: Time)
  {
    u.magicLinkToken == Some(token) && u.magicLinkExpires.Some? && u.magicLinkExpires.value > now
  }

  /** `User.findOne({ magicLinkToken: token, magicLinkExpires: { $gt: now } })`. */
  function FindRedeemable(db: UserDb, token: string, now: Time): (r: Option<UserId>)
    requires DbValid(db)
    ensures r.Some? ==> r.value in db.users && Redeemable(db.users[r.value], token, now)
    ensures r.None? <==> forall k :: k in db.users ==> !Redeemable(db.users[k], token, now)
  {
    First(db.users, db.nextId, (u: User) => Redeemable(u, token, now))
  }

  /** The collection after a link request: the target user carries the new token and expiry and the given name. */
  function LinkRequested(db: UserDb, email: string, name: string, token: string, now: Time): (db': UserDb)
    requires DbValid(db)
    ensures DbValid(db')
    ensures var id := TargetFor(db, email);
      && db'.users.Keys == db.users.Keys + {id}
      && (id in db.users <==> exists k :: k in db.users && db.users[k].email == ToLower(email))
      && (forall k :: k in db.users && k != id ==> db'.users[k] == db.users[k])
    ensures var u := db'.users[TargetFor(db, email)];
      && u.email == ToLower(email) && u.name == name
      && u.magicLinkToken == Some(token) && u.magicLinkExpires == Some(now + LinkLifetime)
    ensures var id := TargetFor(db, email);
      id in db.users ==>
        && db'.users[id].role == db.users[id].role
        && db'.users[id].isVerified == db.users[id].isVerified
        && db'.users[id].lastLogin == db.users[id].lastLogin
    ensures var id := TargetFor(db, email);
      id !in db.users ==> db'.users[id].role == RegularUser && !db'.users[id].isVerified && db'.users[id].lastLogin.None?
  {
    var key := ToLower(email);
    var expires := Some(now + LinkLifetime);
    match FindByEmail(db, key)
    case Some(id) =>
      UserDb(db.users[id := db.users[id].(name := name, magicLinkToken := Some(token), magicLinkExpires := expires)], db.nextId)
    case None =>
      var u := User(db.nextId, key, name, RegularUser, Some(token), expires, false, None);
      UserDb(db.users[db.nextId := u], db.nextId + 1)
  }

  /** The collection after user `id` redeems its token: token and expiry cleared, verified, login stamped. */
  function Redeemed(db: UserDb, id: UserId, now: Time): (db': UserDb)
    requires DbValid(db) && id in db.users
    ensures DbValid(db') && db'.users.Keys == db.users.Keys
    ensures forall k :: k in db.users && k != id ==> db'.users[k] == db.users[k]
    ensures var u, u' := db.users[id], db'.users[id];
      && u'.magicLinkToken.None? && u'.magicLinkExpires.None? && u'.isVerified && u'.lastLogin == Some(now)
      && u'.id == u.id && u'.email == u.email && u'.name == u.name && u'.role == u.role
  {
    var u := db.users[id];
    UserDb(db.users[id := u.(magicLinkToken := None, magicLinkExpires := None, isVerified := true, lastLogin := Some(now))], db.nextId)
  }

  /** The payload of the session token. */
  datatype Claims = Claims(userId: UserId, email: string, role: Role, issuedAt: Time, expiresAt: Time)

  datatype Login = Login(claims: Claims, user: UserSummary)

  function SessionFor(u: User, now: Time): Login
  {
    Login(Claims(u.id, u.email, u.role, now, now + SessionLifetime), Summary(u))
  }

  /**
   * `POST /request-magic-link`. The token comes from the given random bytes; the new token and expiry
   * are saved before the mail is sent, so a failed send (500) leaves them stored. The mail is sent to the
   * address as given, while the store is keyed by its lower-case form. `sent` is the mail attempt; the
   * reply itself is a fixed message and never carries the token.
   */
  method RequestMagicLink(store: UserStore, email: string, name: string, randomBytes: seq<Byte>, now: Time,
                          config: MailConfig, frontendUrl: string, providerFails: bool)
    returns (r: Reply<string>, sent: Option<Delivery>)
    requires store.Valid() && |randomBytes| == TokenByteCount
    modifies store
    ensures store.Valid()
    ensures email == "" || name == "" ==> r == Fail(400, MissingFields) && sent.None? && store.Db() == old(store.Db())
    ensures email != "" && name != "" ==>
      store.Db() == LinkRequested(old(store.Db()), email, name, MagicLinkToken(randomBytes), now)
    ensures email != "" && name != "" ==>
      && sent == Some(SendMagicLink(config, frontendUrl, email, MagicLinkToken(randomBytes), name, providerFails))
      && (sent.value.Delivered? ==> r == Ok(LinkSent))
      && (sent.value.Failed? ==> r == Fail(500, SendError))
  {
    sent := None;
    if email == "" || name == "" {
      return Fail(400, MissingFields), sent;
    }
    var key := ToLower(email);
    var found := FindByEmail(store.Db(), key);
    var user: User;
    if found.Some? {
      user := store.users[found.value].(name := name);
    } else {
      user := User(store.nextId, key, name, RegularUser, None, None, false, None);
    }
    var token := MagicLinkToken(randomBytes);
    user := user.(magicLinkToken := Some(token), magicLinkExpires := Some(now + LinkLifetime));
    if found.Some? {
      store.Save(user);
    } else {
      var _ := store.Insert(user);
    }
    var delivery := SendMagicLink(config, frontendUrl, email, token, name, providerFails);
    sent := Some(delivery);
    if delivery.Delivered? {
      r := Ok(LinkSent);
    } else {
      r := Fail(500, SendError);
    }
  }

  /**
   * `GET /verify`. An empty token is refused; otherwise the first user holding the token with an
   * expiry strictly after now is redeemed and receives claims carrying its id, e-mail and role.
   */
  method Verify(store: UserStore, token: string, now: Time) returns (r: Reply<Login>)
    requires store.Valid()
    modifies store
    ensures store.Valid()
    ensures token == "" ==> r == Fail(400, TokenRequired) && store.Db() == old(store.Db())
    ensures token != "" && FindRedeemable(old(store.Db()), token, now).None? ==>
      r == Fail(400, InvalidToken) && store.Db() == old(store.Db())
    ensures token != "" && FindRedeemable(old(store.Db()), token, now).Some? ==>
      var id := FindRedeemable(old(store.Db()), token, now).value;
      && store.Db() == Redeemed(old(store.Db()), id, now)
      && r == Ok(SessionFor(store.users[id], now))
    ensures r.Ok? ==>
      var c := r.body.claims;
      && c.userId in old(store.users)
      && Redeemable(old(store.users)[c.userId], token, now)
      && c.email == old(store.users)[c.userId].email && c.role == old(store.users)[c.userId].role
      && c.expiresAt == now + SessionLifetime
  {
    if token == "" {
      return Fail(400, TokenRequired);
    }
    var found := FindRedeemable(store.Db(), token, now);
    if found.None? {
      return Fail(400, InvalidToken);
    }
    var id := found.value;
    var user := store.users[id];
    user := user.(magicLinkToken := None, magicLinkExpires := None);
    user := user.(isVerified := true, lastLogin := Some(now));
    store.Save(user);
    r := Ok(SessionFor(user, now));
  }

  /** An expiry equal to now no longer counts: the comparison is strict. */
  lemma ExpiryIsStrict(u: User, token: string, now: Time)
    requires u.magicLinkExpires == Some(now)
    ensures !Redeemable(u, token, now)
  {
  }

  /**
   * Requesting a link and redeeming it before it expires finds the requested user, whose stored
   * address is the lower-cased request address; from the expiry on, the same token is refused.
   */
  lemma LinkThenVerify(db: UserDb, email: string, name: string, token: string, now: Time, at: Time)
    requires DbValid(db)
    requires forall k :: k in db.users ==> db.users[k].magicLinkToken != Some(token)
    ensures var db' := LinkRequested(db, email, name, token, now);
      at < now + LinkLifetime ==>
        FindRedeemable(db', token, at) == Some(TargetFor(db, email))
        && db'.users[TargetFor(db, email)].email == ToLower(email)
    ensures at >= now + LinkLifetime ==> FindRedeemable(LinkRequested(db, email, name, token, now), token, at).None?
  {
    var db' := LinkRequested(db, email, name, token, now);
    var id := TargetFor(db, email);
    assert forall k :: k in db'.users && k != id ==> db'.users[k].magicLinkToken != Some(token);
    if at < now + LinkLifetime {
      var found := FindRedeemable(db', token, at);
      assert Redeemable(db'.users[id], token, at);
      assert found.Some? && found.value == id;
    }
  }

  /**
   * Single use: once the only holder of a token has redeemed it, no later verify of that token
   * finds anyone.
   */
  lemma RedeemIsSingleUse(db: UserDb, token: string, now: Time, later: Time)
    requires DbValid(db) && FindRedeemable(db, token, now).Some?
    requires forall k :: k in db.users && k != FindRedeemable(db, token, now).value ==> db.users[k].magicLinkToken != Some(token)
    ensures FindRedeemable(Redeemed(db, FindRedeemable(db, token, now).value, now), token, later).None?
  {
    var id := FindRedeemable(db, token, now).value;
    var db' := Redeemed(db, id, now);
    assert forall k :: k in db'.users ==> !Redeemable(db'.users[k], token, later);
  }

  /**
   * A second request for the same address (in any case) overwrites the first token: redeeming the first
   * token then fails at any time, before its fifteen minutes are up as well.
   */
  lemma ReRequestStalesOldToken(db: UserDb, email: string, email2: string, name: string, name2: string,
                                token1: string, token2: string, now1: Time, now2: Time, at: Time)
    requires DbValid(db) && ToLower(email2) == ToLower(email) && token1 != token2
    requires forall k :: k in db.users ==> db.users[k].magicLinkToken != Some(token1)
    ensures var db1 := LinkRequested(db, email, name, token1, now1);
      FindRedeemable(LinkRequested(db1, email2, name2, token2, now2), token1, at).None?
  {
    var db1 := LinkRequested(db, email, name, token1, now1);
    var id := TargetFor(db, email);
    assert db1.users[id].email == ToLower(email2);
    assert TargetFor(db1, email2) == id;
    var db2 := LinkRequested(db1, email2, name2, token2, now2);
    assert forall k :: k in db2.users ==> db2.users[k].magicLinkToken != Some(token1);
  }

  /**
   * Requests for the same address in different cases reach the same user: the collection ends the same,
   * and an address already present never produces a second user.
   */
  lemma RequestIgnoresCase(db: UserDb, email: string, email2: string, name: string, token: string, now: Time)
    requires DbValid(db) && ToLower(email2) == ToLower(email)
    ensures LinkRequested(db, email, name, token, now) == LinkRequested(db, email2, name, token, now)
    ensures (exists k :: k in db.users && db.users[k].email == ToLower(email)) ==>
      LinkRequested(db, email, name, token, now).users.Keys == db.users.Keys
  {
  }

  /**
   * The scenario of a first login: a new address gets one unverified user with the default role and a
   * pending token; redeeming it in time verifies the user, clears the token and issues role `user`;
   * requesting again with a new token makes the first one useless.
   */
  lemma FirstLoginScenario(db: UserDb, email: string, name: string, t1: string, t2: string, now: Time, later: Time)
    requires DbValid(db) && t1 != t2 && now <= later < now + LinkLifetime
    requires forall k :: k in db.users ==> db.users[k].email != ToLower(email) && db.users[k].magicLinkToken != Some(t1)
    ensures var db1 := LinkRequested(db, email, name, t1, now);
      && db1.users.Keys == db.users.Keys + {db.nextId}
      && !db1.users[db.nextId].isVerified && db1.users[db.nextId].role == RegularUser
      && FindRedeemable(db1, t1, later) == Some(db.nextId)
    ensures var db2 := Redeemed(LinkRequested(db, email, name, t1, now), db.nextId, later);
      && db2.users[db.nextId].isVerified && db2.users[db.nextId].magicLinkToken.None?
      && SessionFor(db2.users[db.nextId], later).claims.role == RegularUser
      && FindRedeemable(LinkRequested(db2, email, name, t2, later), t1, later).None?
  {
    var db1 := LinkRequested(db, email, name, t1, now);
    assert FindByEmail(db, ToLower(email)).None?;
    LinkThenVerify(db, email, name, t1, now, later);
    var db2 := Redeemed(db1, db.nextId, later);
    assert forall k :: k in db2.users ==> db2.users[k].magicLinkToken != Some(t1);
    var db3 := LinkRequested(db2, email, name, t2, later);
    assert forall k :: k in db3.users ==> db3.users[k].magicLinkToken != Some(t1);
  }
}
