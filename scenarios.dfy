/** End-to-end properties that chain registration, login and the profile
    route, assuming only the hasher's law and that a token the library
    signed checks back (within its lifetime) to the same subject. */
module Scenarios {
  import opened Common
  import opened Hashing
  import opened AuthService
  import opened Users
  import opened AuthController
  import opened AuthMiddleware
  import opened UserController

  /** Register, log in, present the token as a bearer header: the profile
      comes back with the registered email and new id, and no password. */
  lemma RegisterLoginProfile(
      rows: seq<User>, body: Body, b: Bcrypt, auth: AuthService, id: string, createdAt: string)
    requires Sound(b) && SignThenCheck(auth)
    requires UniqueKeys(rows) && !MissingFields(body)
    requires InsertAccepted(rows, body.email.value, id, false)
    ensures
      var rows' := rows + [RegisteredRow(body, b, id, createdAt)];
      var login := Login(rows', body, b, auth, false);
      login.status == 200 && "token" in login.body &&
      ProfileRoute(rows', Some(BearerPrefix + login.body["token"]), auth, false)
        == Response(200, map["id" := id, "email" := body.email.value, "created_at" := createdAt])
  {
  }

  /** The same sequence run against the table object: a fresh table, the
      registration and login of the profile tests (`test@example.com`,
      `password123`), and a profile request with the token it returned. */
  method RegisterLoginProfileScenario(b: Bcrypt, auth: AuthService, id: string, createdAt: string)
    returns (registered: Response, loggedIn: Response, profile: Response)
    requires Sound(b) && SignThenCheck(auth)
    ensures registered == Response(201, map["message" := RegisteredMessage])
    ensures loggedIn.status == 200 && "token" in loggedIn.body
    ensures profile == Response(200, map["id" := id, "email" := "test@example.com", "created_at" := createdAt])
  {
    var users := new UserService();
    var body := Body(Some("test@example.com"), Some("password123"));
    registered := Register(users, body, b, id, createdAt, false);
    assert users.rows == [RegisteredRow(body, b, id, createdAt)];
    loggedIn := Login(users.rows, body, b, auth, false);
    RegisterLoginProfile([], body, b, auth, id, createdAt);
    profile := ProfileRoute(users.rows, Some(BearerPrefix + loggedIn.body["token"]), auth, false);
  }

  /** Registering the same email twice, one after the other: exactly one
      success and one "User already exists", and a single row. */
  method DuplicateRegistrationScenario(
      b: Bcrypt, body: Body, id1: string, id2: string, createdAt: string)
    returns (first: Response, second: Response, users: UserService)
    requires !MissingFields(body)
    ensures first == Response(201, map["message" := RegisteredMessage])
    ensures second == ErrorResponse(400, AlreadyExistsMessage)
    ensures |users.rows| == 1 && users.rows[0].email == body.email.value
  {
    users := new UserService();
    first := Register(users, body, b, id1, createdAt, false);
    SecondRegistrationRefused(users.rows, users.rows[0], id2, false);
    second := Register(users, body, b, id2, createdAt, false);
  }
}
