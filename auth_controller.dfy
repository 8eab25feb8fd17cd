/** `AuthController.register` and `AuthController.login` of
    src/controllers/authController.ts: each maps a request body, the users
    table and the oracles to one status and JSON body. */
module AuthController {
  import opened Common
  import opened Hashing
  import opened AuthService
  import opened Users

  /** `req.body`: each of `email` and `password` may be absent. */
  datatype Body = Body(email: Option<string>, password: Option<string>)

  /** `!email || !password` */
  predicate MissingFields(body: Body)
  {
    !Truthy(body.email) || !Truthy(body.password)
  }

  /** `register`. Missing fields are rejected before the table is touched;
      otherwise `createUser` runs, and its thrown message comes back as a
      400. `id`, `createdAt` and `dbError` are passed through to it. */
  method Register(users: UserService, body: Body, b: Bcrypt, id: string, createdAt: string, dbError: bool)
    returns (res: Response)
    requires users.Valid()
    modifies users
    ensures users.Valid()
    ensures MissingFields(body) ==>
      res == ErrorResponse(400, RequiredMessage) && users.rows == old(users.rows)
    ensures !MissingFields(body) && InsertAccepted(old(users.rows), body.email.value, id, dbError) ==>
      res == Response(201, map["message" := RegisteredMessage]) &&
      users.rows == old(users.rows) + [RegisteredRow(body, b, id, createdAt)]
    ensures !MissingFields(body) && !InsertAccepted(old(users.rows), body.email.value, id, dbError) ==>
      res == ErrorResponse(400, AlreadyExistsMessage) && users.rows == old(users.rows)
  {
    if MissingFields(body) {
      return ErrorResponse(400, RequiredMessage);
    }
    var error := users.CreateUser(body.email.value, body.password.value, b, id, createdAt, dbError);
    if error.Some? {
      return ErrorResponse(400, error.value);
    }
    return Response(201, map["message" := RegisteredMessage]);
  }

  /** `login` over a snapshot of the table. `dbError` stands for the lookup
      query throwing; like a token that cannot be generated, it ends in the
      catch-all 500. */
  function Login(rows: seq<User>, body: Body, b: Bcrypt, auth: AuthService, dbError: bool): (r: Response)
    ensures MissingFields(body) ==> r == ErrorResponse(400, RequiredMessage)
    ensures r.status == 400 <==> MissingFields(body)
    ensures !MissingFields(body) && dbError ==> r == ErrorResponse(500, InternalErrorMessage)
    ensures r.status == 200 <==>
      !MissingFields(body) && !dbError && SecretDefined(auth) &&
      FindUserByEmail(rows, body.email.value).Some? &&
      ValidatePassword(b, body.password.value, FindUserByEmail(rows, body.email.value).value.password)
    ensures r.status == 200 ==>
      r.body == map["token" := GenerateToken(auth, FindUserByEmail(rows, body.email.value).value.id).value]
    ensures r.status in {200, 400, 401, 500}
    ensures r.status == 401 ==> r == ErrorResponse(401, InvalidCredentialsMessage)
    ensures r.status == 500 ==> r == ErrorResponse(500, InternalErrorMessage)
  {
    if MissingFields(body) then ErrorResponse(400, RequiredMessage)
    else if dbError then ErrorResponse(500, InternalErrorMessage)
    else
      var user := FindUserByEmail(rows, body.email.value);
      if user.None? then ErrorResponse(401, InvalidCredentialsMessage)
      else if !ValidatePassword(b, body.password.value, user.value.password) then
        ErrorResponse(401, InvalidCredentialsMessage)
      else
        match GenerateToken(auth, user.value.id)
        case None => ErrorResponse(500, InternalErrorMessage)
        case Some(token) => Response(200, map["token" := token])
  }

  /** An unknown email and a wrong password for a known one get the same
      status and the same body. */
  lemma UnknownEmailLooksLikeWrongPassword(
      rows1: seq<User>, body1: Body, rows2: seq<User>, body2: Body,
      b: Bcrypt, auth: AuthService)
    requires !MissingFields(body1) && !EmailTaken(rows1, body1.email.value)
    requires !MissingFields(body2)
    requires FindUserByEmail(rows2, body2.email.value).Some?
    requires !b.compare(body2.password.value, FindUserByEmail(rows2, body2.email.value).value.password)
    ensures Login(rows1, body1, b, auth, false) == Login(rows2, body2, b, auth, false)
    ensures Login(rows1, body1, b, auth, false) == ErrorResponse(401, InvalidCredentialsMessage)
  {
  }

  /** A successful login hands out the token generated for the id of the
      one row holding that email. */
  lemma LoginTokenIsForTheAccount(rows: seq<User>, u: User, password: string, b: Bcrypt, auth: AuthService)
    requires UniqueKeys(rows) && u in rows
    requires Login(rows, Body(Some(u.email), Some(password)), b, auth, false).status == 200
    ensures Login(rows, Body(Some(u.email), Some(password)), b, auth, false).body
      == map["token" := GenerateToken(auth, u.id).value]
  {
  }

  /** Without a secret no login succeeds: a correct password meets the
      catch-all 500. */
  lemma LoginWithoutSecretFails(rows: seq<User>, body: Body, b: Bcrypt, auth: AuthService)
    requires !SecretDefined(auth)
    requires !MissingFields(body)
    requires FindUserByEmail(rows, body.email.value).Some?
    requires b.compare(body.password.value, FindUserByEmail(rows, body.email.value).value.password)
    ensures Login(rows, body, b, auth, false) == ErrorResponse(500, InternalErrorMessage)
  {
  }

  /** The row a successful registration adds. */
  function RegisteredRow(body: Body, b: Bcrypt, id: string, createdAt: string): (u: User)
    requires !MissingFields(body)
    ensures u.email == body.email.value && u.id == id
    ensures u.password == b.hash(body.password.value)
  {
    User(id, body.email.value, b.hash(body.password.value), createdAt)
  }

  /** Register, then log in with the same credentials: given the hasher's
      law, the login yields the token generated for the new row's id. */
  lemma RegisterThenLogin(
      rows: seq<User>, body: Body, b: Bcrypt, auth: AuthService, id: string, createdAt: string)
    requires Sound(b) && SecretDefined(auth)
    requires UniqueKeys(rows) && !MissingFields(body)
    requires InsertAccepted(rows, body.email.value, id, false)
    ensures Login(rows + [RegisteredRow(body, b, id, createdAt)], body, b, auth, false)
      == Response(200, map["token" := GenerateToken(auth, id).value])
  {
  }

  /** Once an email is in the table, every further insert with it is
      refused, whatever id it would get; since inserts only append, this
      holds for every later registration. */
  lemma SecondRegistrationRefused(rows: seq<User>, u: User, id2: string, dbError: bool)
    requires u in rows
    ensures !InsertAccepted(rows, u.email, id2, dbError)
  {
  }
}
