/**
 * The wiring of src/routes/user.ts: `/signup`, `/login` and `/get-all-users` call their
 * handler directly; `/update`, `/my-profile` and `/remove` run `authMiddleware` first and
 * reach their handler only when it calls `next`, with the `req.user` it set. The lemmas
 * below relate several requests in sequence.
 */
module Routes {
  import opened Wrappers
  import opened Validation
  import opened UserModel
  import opened Auth
  import opened UserCtrl

  /** PATCH /update: the gate, then `UpdateUserProfile`. The table is not a parameter of any step. */
  method PatchUpdate(table: UserTable, req: Request, verify: string -> Option<Claims>) returns (reply: Reply)
    modifies req
    ensures var g := Gate(req.authorization, verify);
            && req.user == (if g.Proceed? then Some(g.claims) else old(req.user))
            && req.nextCalls == old(req.nextCalls) + (if g.Proceed? then 1 else 0)
    ensures match Gate(req.authorization, verify)
            case Reject(m) => reply == Thrown(m)
            case Idle => reply == NoResponse
            case Proceed(c) => reply == NoResponse && req.user == Some(c)
  {
    var calls := req.nextCalls;
    var thrown := AuthMiddleware(req, verify);
    if thrown.Some? {
      return Thrown(thrown.value);
    }
    if req.nextCalls == calls {
      return NoResponse;
    }
    reply := table.UpdateUserProfile(req.user);
  }

  /** GET /my-profile: the gate, then `userProfile` with the claims the gate decoded. */
  method GetMyProfile(table: UserTable, req: Request, verify: string -> Option<Claims>, fault: Option<Fault>)
    returns (reply: Reply)
    requires table.Valid()
    modifies req
    ensures var g := Gate(req.authorization, verify);
            && req.user == (if g.Proceed? then Some(g.claims) else old(req.user))
            && req.nextCalls == old(req.nextCalls) + (if g.Proceed? then 1 else 0)
    ensures match Gate(req.authorization, verify)
            case Reject(m) => reply == Thrown(m)
            case Idle => reply == NoResponse
            case Proceed(c) => reply == ProfileReply(table.rows, Some(c), fault)
  {
    var calls := req.nextCalls;
    var thrown := AuthMiddleware(req, verify);
    if thrown.Some? {
      return Thrown(thrown.value);
    }
    if req.nextCalls == calls {
      return NoResponse;
    }
    reply := table.UserProfile(req.user, fault);
  }

  /** DELETE /remove: the gate, then `removeProfile`; a request the gate stops leaves the table as it was. */
  method DeleteRemove(table: UserTable, req: Request, verify: string -> Option<Claims>, fault: Option<Fault>)
    returns (reply: Reply)
    requires table.Valid()
    modifies req, table
    ensures table.Valid()
    ensures var g := Gate(req.authorization, verify);
            && req.user == (if g.Proceed? then Some(g.claims) else old(req.user))
            && req.nextCalls == old(req.nextCalls) + (if g.Proceed? then 1 else 0)
    ensures match Gate(req.authorization, verify)
            case Reject(m) => reply == Thrown(m) && table.rows == old(table.rows)
            case Idle => reply == NoResponse && table.rows == old(table.rows)
            case Proceed(c) => Effect(reply, table.rows) == RemoveOutcome(old(table.rows), table.isEmail, Some(c), fault)
  {
    var calls := req.nextCalls;
    var thrown := AuthMiddleware(req, verify);
    if thrown.Some? {
      return Thrown(thrown.value);
    }
    if req.nextCalls == calls {
      return NoResponse;
    }
    reply := table.RemoveProfile(req.user, fault);
  }

  /** A gated handler never sees an unset `req.user`, so none of them answers with `UndefinedUser`. */
  lemma GatedHandlersHaveUser(t: Table, authorization: Option<string>, verify: string -> Option<Claims>,
                              fault: Option<Fault>)
    requires KeysMatch(t)
    requires Gate(authorization, verify).Proceed?
    ensures var c := Gate(authorization, verify).claims;
            && UpdateProfileReply(Some(c)) == NoResponse
            && ProfileReply(t, Some(c), fault).payload != ServerError(UndefinedUser, MyProfileRoute)
  {
  }

  /** The body a client sends to log in with the email and password it registered with. */
  function LoginBodyFor(body: RequestBody): RequestBody {
    RequestBody(body.email, body.password, None, None, {})
  }

  /**
   * After a successful registration, logging in with the same email and password
   * succeeds, provided bcrypt's `compare` accepts a password against its own hash.
   */
  lemma RegisterThenLogin(t: Table, isEmail: string -> bool, body: RequestBody, id: string, salt: string, crypto: Crypto)
    requires TableInvariant(t, isEmail) && id !in t
    requires RegisterOutcome(t, isEmail, body, id, salt, crypto, None).reply.status == 201
    requires crypto.compare(Text(body.password), crypto.hash(Text(body.password), salt))
    ensures var t' := RegisterOutcome(t, isEmail, body, id, salt, crypto, None).table;
            LoginReply(t', LoginBodyFor(body), crypto, None)
              == Respond(201, LoggedIn(LoginMessage, crypto.sign(Claims(id, Text(body.email)))))
  {
    var u := Registered(id, body, salt, crypto);
    var t' := t[id := u];
    assert RegisterOutcome(t, isEmail, body, id, salt, crypto, None).table == t';
    assert Text(LoginBodyFor(body).email) == u.email && Text(LoginBodyFor(body).password) == Text(body.password);
    assert ValidateLogin(LoginBodyFor(body)).None?;
    InsertKeepsInvariant(t, isEmail, u);
    assert FindByEmail(t', u.email) == Some(u);
  }

  /**
   * Registering the same email twice: the second request is refused with
   * "User already exist", the table keeps the first row, and that email is held by
   * exactly one row.
   */
  lemma RegisterTwice(t: Table, isEmail: string -> bool, body: RequestBody, body2: RequestBody,
                      id: string, id2: string, salt: string, salt2: string, crypto: Crypto)
    requires TableInvariant(t, isEmail) && id !in t
    requires RegisterOutcome(t, isEmail, body, id, salt, crypto, None).reply.status == 201
    requires id2 != id && id2 !in t
    requires ValidateRegistration(body2).None? && body2.password.Some? && Text(body2.email) == Text(body.email)
    ensures var t' := RegisterOutcome(t, isEmail, body, id, salt, crypto, None).table;
            var e := RegisterOutcome(t', isEmail, body2, id2, salt2, crypto, None);
            && e.reply == Respond(400, Msg(AlreadyExistsMessage))
            && e.table == t'
            && (forall k :: k in e.table && e.table[k].email == Text(body.email) ==> k == id)
  {
    var u := Registered(id, body, salt, crypto);
    var t' := t[id := u];
    assert RegisterOutcome(t, isEmail, body, id, salt, crypto, None).table == t';
    InsertKeepsInvariant(t, isEmail, u);
    assert HasEmail(t', Text(body2.email)) by { assert t'[id].email == Text(body2.email); }
    forall k | k in t' && t'[k].email == Text(body.email) ensures k == id {
      InvariantMeansKeys(t', isEmail, k, id);
    }
  }

  /** Each successful registration adds one to the count that `getAllUsers` reports. */
  lemma RegisterGrowsCount(t: Table, isEmail: string -> bool, body: RequestBody, id: string, salt: string,
                           crypto: Crypto, fault: Option<Fault>)
    requires TableInvariant(t, isEmail) && id !in t
    requires RegisterOutcome(t, isEmail, body, id, salt, crypto, fault).reply.status == 201
    ensures var t' := RegisterOutcome(t, isEmail, body, id, salt, crypto, fault).table;
            && AllUsersReply(t', None).payload.count == AllUsersReply(t, None).payload.count + 1
            && AllUsersReply(t', None).payload.users == AllUsersReply(t, None).payload.users + {Registered(id, body, salt, crypto)}
  {
    var u := Registered(id, body, salt, crypto);
    var e := RegisterOutcome(t, isEmail, body, id, salt, crypto, fault);
    assert e.table == t[id := u];
    ValuesAfterInsert(t, id, u);
    assert |t[id := u]| == |t| + 1;
  }

  /**
   * A removed profile is gone: once `removeProfile` has answered 200, the same
   * caller's `userProfile` answers 404, even though the caller's token still passes the
   * gate (tokens are not revoked).
   */
  lemma RemoveThenProfile(t: Table, isEmail: string -> bool, c: Claims, fault: Option<Fault>)
    requires TableInvariant(t, isEmail)
    requires RemoveOutcome(t, isEmail, Some(c), fault).reply.status == 200
    ensures var t' := RemoveOutcome(t, isEmail, Some(c), fault).table;
            && ProfileReply(t', Some(c), None) == Respond(404, NotFoundError(UserNotFoundMessage))
            && RemoveOutcome(t', isEmail, Some(c), None).reply == Respond(404, NotFoundError(UserNotFoundMessage))
  {
  }

  /** Logging in never looks past the one row holding the email: other rows may change freely. */
  lemma LoginDependsOnOwnRow(t: Table, t2: Table, body: RequestBody, crypto: Crypto, fault: Option<Fault>)
    requires KeysMatch(t) && EmailsUnique(t) && KeysMatch(t2) && EmailsUnique(t2)
    requires FindByEmail(t, Text(body.email)) == FindByEmail(t2, Text(body.email))
    ensures LoginReply(t, body, crypto, fault) == LoginReply(t2, body, crypto, fault)
  {
  }

  /** A client of the store: register, log in, fetch the profile, remove it, fetch it again. */
  method AccountLifecycle(isEmail: string -> bool, body: RequestBody, id: string, salt: string, crypto: Crypto)
    returns (created: Reply, loggedIn: Reply, profile: Reply, removed: Reply, gone: Reply)
    requires ValidateRegistration(body).None? && body.password.Some?
    requires RowValid(Registered(id, body, salt, crypto), isEmail)
    requires crypto.compare(Text(body.password), crypto.hash(Text(body.password), salt))
    ensures created == Respond(201, UserCreated(CreatedMessage, crypto.sign(Claims(id, Text(body.email))), Registered(id, body, salt, crypto)))
    ensures loggedIn == Respond(201, LoggedIn(LoginMessage, crypto.sign(Claims(id, Text(body.email)))))
    ensures profile == Respond(200, Profile(WithoutPassword(Registered(id, body, salt, crypto))))
    ensures removed == Respond(200, Msg(RemovedMessage))
    ensures gone == Respond(404, NotFoundError(UserNotFoundMessage))
  {
    var store := new UserTable(isEmail);
    assert !HasEmail(store.rows, Text(body.email));
    created := store.Register(body, id, salt, crypto, None);
    RegisterThenLogin(map[], isEmail, body, id, salt, crypto);
    loggedIn := store.Login(LoginBodyFor(body), crypto, None);
    var me := Some(Claims(id, Text(body.email)));
    profile := store.UserProfile(me, None);
    removed := store.RemoveProfile(me, None);
    gone := store.UserProfile(me, None);
  }
}
