/**
 * The handlers of src/controllers/userCtrl.ts. Each handler is specified by a pure
 * function of the table before the request (and, for the two that write, the table
 * after it), and implemented as a method of `UserTable` that makes the store calls in
 * the order the source makes them.
 *
 * Library calls are parameters: `Crypto` holds bcrypt's `hash`/`compare` and
 * jsonwebtoken's `sign`; the salt from `genSalt` and the id from `uuidv4` are passed
 * in. Any store or library call may throw: `fault` names the one call, if any, that
 * throws on this request, with its message; every such throw is caught and answered
 * with 500 and the handler's route tag.
 */
module UserCtrl {
  import opened Wrappers
  import opened Validation
  import opened UserModel
  import opened Auth

  /** The calls of the handlers that can throw. */
  datatype Step =
    | Hashing          // bcrypt.genSalt / bcrypt.hash
    | FindingByEmail   // UserInstance.findOne({ where: { email } })
    | Inserting        // UserInstance.create
    | Rereading        // the second findOne in Register
    | Comparing        // bcrypt.compare
    | Signing          // jwt.sign
    | Listing          // UserInstance.findAndCountAll
    | FindingById      // UserInstance.findOne({ where: { id } })
    | Destroying       // UserInstance.destroy

  datatype Fault = Fault(step: Step, message: string)

  predicate ThrowsAt(fault: Option<Fault>, step: Step) {
    fault.Some? && fault.value.step == step
  }

  datatype Crypto = Crypto(
    hash: (string, string) -> string,   // bcrypt.hash(password, salt)
    compare: (string, string) -> bool,  // bcrypt.compare(password, stored)
    sign: Claims -> string)             // jwt.sign(claims, App_secret, { expiresIn })

  /** The `Error` field of a 500 reply. */
  datatype ErrorText =
    | Message(text: string)                     // the message of a thrown error
    | ConstraintViolations(messages: seq<string>) // the column rules `create` refused
    | MissingBcryptArgument                     // bcrypt called with an undefined password
    | UndefinedUser                             // destructuring `req.user` when it is unset

  /** The JSON bodies the handlers send. */
  datatype Payload =
    | ValidationFailed(failure: ValidationError)                  // { Error: details[0].message }
    | Msg(msg: string)                                           // { msg }
    | UserCreated(msg: string, signature: string, user: User)    // { msg, signature, User }
    | LoggedIn(msg: string, signature: string)                   // { msg, signature }
    | AllUsers(message: string, count: nat, users: set<User>)    // { message, Count, Users }
    | NotFoundError(reason: string)                              // { error }
    | Profile(profile: PublicUser)                               // { msg: user }
    | ServerError(cause: ErrorText, route: string)               // { Error, route }

  /** What a request on a route gets; the handlers themselves never produce `Thrown`. */
  datatype Reply =
    | Respond(status: nat, payload: Payload)
    | NoResponse                 // the request is left without a reply
    | Thrown(message: string)    // the middleware threw before any handler ran

  const CreatedMessage := "User created successfully"
  const AlreadyExistsMessage := "User already exist"
  const UserNotFoundMessage := "User not found"
  const PasswordIncorrectMessage := "Password incorrect"
  const LoginMessage := "Login successfully"
  const AllUsersMessage := "You have successfully retrieved all users"
  const RemovedMessage := "Your profile as been removed from the database"

  const SignupRoute := "/signup"
  const LoginRoute := "/login"
  const GetAllUsersRoute := "/get-all-users"
  const UpdateRoute := "/update"
  const MyProfileRoute := "/my-profile"

  function ServerFailure(error: ErrorText, route: string): Reply {
    Respond(500, ServerError(error, route))
  }

  function FaultReply(fault: Option<Fault>, route: string): Reply
    requires fault.Some?
  {
    ServerFailure(Message(fault.value.message), route)
  }

  /** A string-valued body key; the schemas have already refused anything else. */
  function Text(v: Option<Json>): string {
    if v.Some? && v.value.JString? then v.value.s else ""
  }

  /** The reply of a handler together with the table it leaves behind. */
  datatype Effect = Effect(reply: Reply, table: Table)

  // ---------------------------------------------------------------- Register

  /** The row `Register` creates: the fresh id, the bcrypt hash of the password, role "user". */
  function Registered(id: string, body: RequestBody, salt: string, crypto: Crypto): User {
    User(id, Text(body.email), crypto.hash(Text(body.password), salt),
         Text(body.firstName), Text(body.lastName), "user")
  }

  /** The conditions under which `Register` reaches `UserInstance.create` and it succeeds. */
  predicate Inserts(t: Table, isEmail: string -> bool, body: RequestBody, id: string, salt: string,
                    crypto: Crypto, fault: Option<Fault>) {
    && ValidateRegistration(body).None?
    && body.password.Some?
    && !HasEmail(t, Text(body.email))
    && RowValid(Registered(id, body, salt, crypto), isEmail)
    && !ThrowsAt(fault, Hashing) && !ThrowsAt(fault, FindingByEmail) && !ThrowsAt(fault, Inserting)
  }

  function RegisterOutcome(t: Table, isEmail: string -> bool, body: RequestBody, id: string,
                           salt: string, crypto: Crypto, fault: Option<Fault>): (e: Effect)
    requires TableInvariant(t, isEmail)
    requires id !in t
    ensures TableInvariant(e.table, isEmail)
    ensures e.reply.Respond? && e.reply.status in {201, 400, 500}
    // the table gains exactly the one new row, or stays as it was
    ensures Inserts(t, isEmail, body, id, salt, crypto, fault) ==> e.table == t[id := Registered(id, body, salt, crypto)]
    ensures !Inserts(t, isEmail, body, id, salt, crypto, fault) ==> e.table == t
    // a body the schema refuses is answered before any hashing or table access
    ensures ValidateRegistration(body).Some? ==>
              e.reply == Respond(400, ValidationFailed(ValidateRegistration(body).value))
    // salting and hashing come first: a throw there, or a missing password, is a 500
    ensures ValidateRegistration(body).None? && ThrowsAt(fault, Hashing) ==>
              e.reply == FaultReply(fault, SignupRoute)
    ensures ValidateRegistration(body).None? && !ThrowsAt(fault, Hashing) && body.password.None? ==>
              e.reply == ServerFailure(MissingBcryptArgument, SignupRoute)
    ensures ValidateRegistration(body).None? && body.password.Some? && ThrowsAt(fault, FindingByEmail) ==>
              e.reply == FaultReply(fault, SignupRoute)
    // an email already in the table, and only then
    ensures e.reply == Respond(400, Msg(AlreadyExistsMessage)) <==>
              && ValidateRegistration(body).None? && body.password.Some? && HasEmail(t, Text(body.email))
              && !ThrowsAt(fault, Hashing) && !ThrowsAt(fault, FindingByEmail)
    // `create` throws, or refuses the row on its column rules
    ensures ValidateRegistration(body).None? && body.password.Some? && !HasEmail(t, Text(body.email))
            && ThrowsAt(fault, Inserting) ==>
              e.reply == FaultReply(fault, SignupRoute)
    ensures ValidateRegistration(body).None? && body.password.Some? && !HasEmail(t, Text(body.email))
            && !ThrowsAt(fault, Hashing) && !ThrowsAt(fault, FindingByEmail) && !ThrowsAt(fault, Inserting)
            && !RowValid(Registered(id, body, salt, crypto), isEmail) ==>
              e.reply == ServerFailure(ConstraintViolations(ColumnViolations(Registered(id, body, salt, crypto), isEmail)), SignupRoute)
    // the row is stored, then re-reading it or signing the token throws
    ensures Inserts(t, isEmail, body, id, salt, crypto, fault) && (ThrowsAt(fault, Rereading) || ThrowsAt(fault, Signing)) ==>
              e.reply == FaultReply(fault, SignupRoute)
    ensures e.reply.status == 400 ==> e.table == t
    // success: a token over the new row's { id, email } and the stored row itself
    ensures e.reply.status == 201 <==>
              Inserts(t, isEmail, body, id, salt, crypto, fault) && !ThrowsAt(fault, Rereading) && !ThrowsAt(fault, Signing)
    ensures e.reply.status == 201 ==>
              var u := Registered(id, body, salt, crypto);
              && e.reply.payload == UserCreated(CreatedMessage, crypto.sign(Claims(id, u.email)), u)
              && u.password == crypto.hash(Text(body.password), salt) && u.role == "user"
    ensures e.reply.status == 500 ==> e.reply.payload.ServerError? && e.reply.payload.route == SignupRoute
  {
    var v := ValidateRegistration(body);
    if v.Some? then Effect(Respond(400, ValidationFailed(v.value)), t)
    else if ThrowsAt(fault, Hashing) then Effect(FaultReply(fault, SignupRoute), t)
    else if body.password.None? then Effect(ServerFailure(MissingBcryptArgument, SignupRoute), t)
    else
      var u := Registered(id, body, salt, crypto);
      if ThrowsAt(fault, FindingByEmail) then Effect(FaultReply(fault, SignupRoute), t)
      else if FindByEmail(t, u.email).Some? then Effect(Respond(400, Msg(AlreadyExistsMessage)), t)
      else if ThrowsAt(fault, Inserting) then Effect(FaultReply(fault, SignupRoute), t)
      else if ColumnViolations(u, isEmail) != [] then
        Effect(ServerFailure(ConstraintViolations(ColumnViolations(u, isEmail)), SignupRoute), t)
      else
        InsertKeepsInvariant(t, isEmail, u);
        var t' := t[id := u];
        if ThrowsAt(fault, Rereading) || ThrowsAt(fault, Signing) then Effect(FaultReply(fault, SignupRoute), t')
        else Effect(Respond(201, UserCreated(CreatedMessage, crypto.sign(Claims(u.id, u.email)), u)), t')
  }

  // ---------------------------------------------------------------- Login

  /** Some stored row has this email and a password `compare` accepts for `password`. */
  predicate CredentialsMatch(t: Table, crypto: Crypto, email: string, password: string) {
    exists id :: id in t && t[id].email == email && crypto.compare(password, t[id].password)
  }

  function LoginReply(t: Table, body: RequestBody, crypto: Crypto, fault: Option<Fault>): (r: Reply)
    requires KeysMatch(t) && EmailsUnique(t)
    ensures r.Respond? && r.status in {201, 400, 404, 500}
    ensures ValidateLogin(body).Some? ==> r == Respond(400, ValidationFailed(ValidateLogin(body).value))
    ensures ValidateLogin(body).None? && ThrowsAt(fault, FindingByEmail) ==> r == FaultReply(fault, LoginRoute)
    ensures r == Respond(404, Msg(UserNotFoundMessage)) <==>
              ValidateLogin(body).None? && !ThrowsAt(fault, FindingByEmail) && !HasEmail(t, Text(body.email))
    // a stored email: bcrypt.compare throws on a missing password, or throws itself
    ensures ValidateLogin(body).None? && !ThrowsAt(fault, FindingByEmail) && HasEmail(t, Text(body.email))
            && body.password.None? ==>
              r == ServerFailure(MissingBcryptArgument, LoginRoute)
    ensures ValidateLogin(body).None? && !ThrowsAt(fault, FindingByEmail) && HasEmail(t, Text(body.email))
            && body.password.Some? && ThrowsAt(fault, Comparing) ==>
              r == FaultReply(fault, LoginRoute)
    // the credentials match and signing the token throws
    ensures ValidateLogin(body).None? && body.password.Some? && CredentialsMatch(t, crypto, Text(body.email), Text(body.password))
            && ThrowsAt(fault, Signing) ==>
              r == FaultReply(fault, LoginRoute)
    ensures r == Respond(404, Msg(PasswordIncorrectMessage)) <==>
              && ValidateLogin(body).None? && body.password.Some?
              && !ThrowsAt(fault, FindingByEmail) && !ThrowsAt(fault, Comparing)
              && HasEmail(t, Text(body.email))
              && !CredentialsMatch(t, crypto, Text(body.email), Text(body.password))
    ensures r.status == 201 <==>
              && ValidateLogin(body).None? && body.password.Some?
              && !ThrowsAt(fault, FindingByEmail) && !ThrowsAt(fault, Comparing) && !ThrowsAt(fault, Signing)
              && CredentialsMatch(t, crypto, Text(body.email), Text(body.password))
    ensures r.status == 201 ==>
              exists id :: id in t && t[id].email == Text(body.email) &&
                           r.payload == LoggedIn(LoginMessage, crypto.sign(Claims(id, Text(body.email))))
    ensures r.status == 500 ==> r.payload.ServerError? && r.payload.route == LoginRoute
  {
    var v := ValidateLogin(body);
    if v.Some? then Respond(400, ValidationFailed(v.value))
    else if ThrowsAt(fault, FindingByEmail) then FaultReply(fault, LoginRoute)
    else match FindByEmail(t, Text(body.email))
      case None => Respond(404, Msg(UserNotFoundMessage))
      case Some(u) =>
        assert t[u.id] == u;
        if body.password.None? then ServerFailure(MissingBcryptArgument, LoginRoute)
        else if ThrowsAt(fault, Comparing) then FaultReply(fault, LoginRoute)
        else if !crypto.compare(Text(body.password), u.password) then
          assert !CredentialsMatch(t, crypto, Text(body.email), Text(body.password)) by {
            forall id | id in t && t[id].email == Text(body.email)
              ensures !crypto.compare(Text(body.password), t[id].password)
            {
              assert t[id] in t.Values;
            }
          }
          Respond(404, Msg(PasswordIncorrectMessage))
        else if ThrowsAt(fault, Signing) then FaultReply(fault, LoginRoute)
        else Respond(201, LoggedIn(LoginMessage, crypto.sign(Claims(u.id, u.email))))
  }

  // ---------------------------------------------------------------- getAllUsers

  function AllUsersReply(t: Table, fault: Option<Fault>): (r: Reply)
    requires KeysMatch(t)
    ensures ThrowsAt(fault, Listing) ==> r == ServerFailure(Message(fault.value.message), GetAllUsersRoute)
    ensures !ThrowsAt(fault, Listing) ==>
              && r.Respond? && r.status == 200 && r.payload.AllUsers?
              && r.payload.users == t.Values          // every row, password column included
              && r.payload.count == |t|               // one per stored id
              && r.payload.count == |r.payload.users|
  {
    if ThrowsAt(fault, Listing) then FaultReply(fault, GetAllUsersRoute)
    else
      RowCount(t);
      Respond(200, AllUsers(AllUsersMessage, |t|, t.Values))
  }

  // ---------------------------------------------------------------- UpdateUserProfile

  /** Reads `req.user.id` and stops: no reply on the path that does not throw. */
  function UpdateProfileReply(user: Option<Claims>): (r: Reply)
    ensures r.NoResponse? <==> user.Some?
    ensures user.None? ==> r == ServerFailure(UndefinedUser, UpdateRoute)
  {
    if user.None? then ServerFailure(UndefinedUser, UpdateRoute) else NoResponse
  }

  // ---------------------------------------------------------------- userProfile

  function ProfileReply(t: Table, user: Option<Claims>, fault: Option<Fault>): (r: Reply)
    requires KeysMatch(t)
    ensures r.Respond? && r.status in {200, 404, 500}
    ensures r.status == 200 <==> user.Some? && !ThrowsAt(fault, FindingById) && user.value.id in t
    ensures r.status == 200 ==>
              r.payload.Profile? && r.payload.profile == WithoutPassword(t[user.value.id]) &&
              r.payload.profile.id == user.value.id
    ensures r.status == 404 <==> user.Some? && !ThrowsAt(fault, FindingById) && user.value.id !in t
    ensures r.status == 404 ==> r.payload == NotFoundError(UserNotFoundMessage)
    ensures r.status == 500 ==> r.payload.ServerError? && r.payload.route == MyProfileRoute
    ensures user.None? ==> r == ServerFailure(UndefinedUser, MyProfileRoute)
    ensures user.Some? && ThrowsAt(fault, FindingById) ==> r == FaultReply(fault, MyProfileRoute)
  {
    if user.None? then ServerFailure(UndefinedUser, MyProfileRoute)
    else if ThrowsAt(fault, FindingById) then FaultReply(fault, MyProfileRoute)
    else match FindById(t, user.value.id)
      case None => Respond(404, NotFoundError(UserNotFoundMessage))
      case Some(u) => Respond(200, Profile(WithoutPassword(u)))
  }

  // ---------------------------------------------------------------- removeProfile

  function RemoveOutcome(t: Table, isEmail: string -> bool, user: Option<Claims>, fault: Option<Fault>): (e: Effect)
    requires TableInvariant(t, isEmail)
    ensures TableInvariant(e.table, isEmail)
    ensures e.reply.Respond? && e.reply.status in {200, 404, 500}
    ensures e.reply.status == 200 <==>
              user.Some? && user.value.id in t && !ThrowsAt(fault, FindingById) && !ThrowsAt(fault, Destroying)
    ensures e.reply.status == 200 ==>
              && e.reply.payload == Msg(RemovedMessage)
              && e.table == t - {user.value.id}
              && user.value.id in t && |e.table| == |t| - 1
    ensures e.reply.status != 200 ==> e.table == t
    ensures e.reply.status == 404 <==> user.Some? && !ThrowsAt(fault, FindingById) && user.value.id !in t
    ensures e.reply.status == 404 ==> e.reply.payload == NotFoundError(UserNotFoundMessage)
    ensures e.reply.status == 500 ==> e.reply.payload.ServerError? && e.reply.payload.route == MyProfileRoute
    ensures user.None? ==> e.reply == ServerFailure(UndefinedUser, MyProfileRoute)
    ensures user.Some? && ThrowsAt(fault, FindingById) ==> e.reply == FaultReply(fault, MyProfileRoute)
    ensures user.Some? && user.value.id in t && ThrowsAt(fault, Destroying) ==>
              e.reply == FaultReply(fault, MyProfileRoute)
  {
    if user.None? then Effect(ServerFailure(UndefinedUser, MyProfileRoute), t)
    else if ThrowsAt(fault, FindingById) then Effect(FaultReply(fault, MyProfileRoute), t)
    else match FindById(t, user.value.id)
      case None => Effect(Respond(404, NotFoundError(UserNotFoundMessage)), t)
      case Some(_) =>
        if ThrowsAt(fault, Destroying) then Effect(FaultReply(fault, MyProfileRoute), t)
        else
          DestroyKeepsInvariant(t, isEmail, user.value.id);
          Effect(Respond(200, Msg(RemovedMessage)), t - {user.value.id})
  }

  // ---------------------------------------------------------------- the store

  /** The `user` table and the handlers that act on it. */
  class UserTable {
    var rows: Table
    /** The address-format check of the `isEmail` column validator. */
    const isEmail: string -> bool

    ghost predicate Valid()
      reads this
    {
      TableInvariant(rows, isEmail)
    }

    constructor (isEmail: string -> bool)
      ensures Valid() && rows == map[] && this.isEmail == isEmail
    {
      rows := map[];
      this.isEmail := isEmail;
    }

    /** `Register`: `id` is the value `uuidv4()` produced, not yet used as a key. */
    method Register(body: RequestBody, id: string, salt: string, crypto: Crypto, fault: Option<Fault>)
      returns (reply: Reply)
      requires Valid()
      requires id !in rows
      modifies this
      ensures Valid()
      ensures Effect(reply, rows) == RegisterOutcome(old(rows), isEmail, body, id, salt, crypto, fault)
    {
      var validation := ValidateRegistration(body);
      if validation.Some? {
        return Respond(400, ValidationFailed(validation.value));
      }
      if ThrowsAt(fault, Hashing) {
        return FaultReply(fault, SignupRoute);
      }
      if body.password.None? {
        return ServerFailure(MissingBcryptArgument, SignupRoute);
      }
      var email := Text(body.email);
      var userPassword := crypto.hash(Text(body.password), salt);
      if ThrowsAt(fault, FindingByEmail) {
        return FaultReply(fault, SignupRoute);
      }
      var existing := FindByEmail(rows, email);
      if existing.Some? {
        return Respond(400, Msg(AlreadyExistsMessage));
      }
      if ThrowsAt(fault, Inserting) {
        return FaultReply(fault, SignupRoute);
      }
      var record := User(id, email, userPassword, Text(body.firstName), Text(body.lastName), "user");
      var violations := ColumnViolations(record, isEmail);
      if violations != [] {
        return ServerFailure(ConstraintViolations(violations), SignupRoute);
      }
      InsertKeepsInvariant(rows, isEmail, record);
      rows := rows[id := record];
      if ThrowsAt(fault, Rereading) {
        return FaultReply(fault, SignupRoute);
      }
      var created := FindByEmail(rows, email);
      if ThrowsAt(fault, Signing) {
        return FaultReply(fault, SignupRoute);
      }
      var signature := crypto.sign(Claims(created.value.id, created.value.email));
      reply := Respond(201, UserCreated(CreatedMessage, signature, created.value));
    }

    /** `Login`: reads the table and never writes it. */
    method Login(body: RequestBody, crypto: Crypto, fault: Option<Fault>) returns (reply: Reply)
      requires Valid()
      ensures reply == LoginReply(rows, body, crypto, fault)
    {
      var validation := ValidateLogin(body);
      if validation.Some? {
        return Respond(400, ValidationFailed(validation.value));
      }
      if ThrowsAt(fault, FindingByEmail) {
        return FaultReply(fault, LoginRoute);
      }
      var found := FindByEmail(rows, Text(body.email));
      if found.None? {
        return Respond(404, Msg(UserNotFoundMessage));
      }
      if body.password.None? {
        return ServerFailure(MissingBcryptArgument, LoginRoute);
      }
      if ThrowsAt(fault, Comparing) {
        return FaultReply(fault, LoginRoute);
      }
      var validPassword := crypto.compare(Text(body.password), found.value.password);
      if !validPassword {
        return Respond(404, Msg(PasswordIncorrectMessage));
      }
      if ThrowsAt(fault, Signing) {
        return FaultReply(fault, LoginRoute);
      }
      var signature := crypto.sign(Claims(found.value.id, found.value.email));
      reply := Respond(201, LoggedIn(LoginMessage, signature));
    }

    /** `getAllUsers`. */
    method GetAllUsers(fault: Option<Fault>) returns (reply: Reply)
      requires Valid()
      ensures reply == AllUsersReply(rows, fault)
    {
      if ThrowsAt(fault, Listing) {
        return FaultReply(fault, GetAllUsersRoute);
      }
      var users := rows.Values;
      reply := Respond(200, AllUsers(AllUsersMessage, |rows|, users));
    }

    /** `UpdateUserProfile`: takes `req.user`; the table is not consulted. */
    method UpdateUserProfile(user: Option<Claims>) returns (reply: Reply)
      ensures reply == UpdateProfileReply(user)
    {
      if user.None? {
        return ServerFailure(UndefinedUser, UpdateRoute);
      }
      var id := user.value.id;
      reply := NoResponse;
    }

    /** `userProfile`: the caller's row without its password. */
    method UserProfile(user: Option<Claims>, fault: Option<Fault>) returns (reply: Reply)
      requires Valid()
      ensures reply == ProfileReply(rows, user, fault)
    {
      if user.None? {
        return ServerFailure(UndefinedUser, MyProfileRoute);
      }
      var id := user.value.id;
      if ThrowsAt(fault, FindingById) {
        return FaultReply(fault, MyProfileRoute);
      }
      var found := FindById(rows, id);
      if found.None? {
        return Respond(404, NotFoundError(UserNotFoundMessage));
      }
      reply := Respond(200, Profile(WithoutPassword(found.value)));
    }

    /** `removeProfile`: looks the caller's row up, then destroys it. */
    method RemoveProfile(user: Option<Claims>, fault: Option<Fault>) returns (reply: Reply)
      requires Valid()
      modifies this
      ensures Valid()
      ensures Effect(reply, rows) == RemoveOutcome(old(rows), isEmail, user, fault)
    {
      if user.None? {
        return ServerFailure(UndefinedUser, MyProfileRoute);
      }
      var id := user.value.id;
      if ThrowsAt(fault, FindingById) {
        return FaultReply(fault, MyProfileRoute);
      }
      var found := FindById(rows, id);
      if found.None? {
        return Respond(404, NotFoundError(UserNotFoundMessage));
      }
      if ThrowsAt(fault, Destroying) {
        return FaultReply(fault, MyProfileRoute);
      }
      DestroyKeepsInvariant(rows, isEmail, id);
      rows := rows - {id};
      reply := Respond(200, Msg(RemovedMessage));
    }
  }
}
