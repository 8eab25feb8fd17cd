# Authentication service: a Dafny model

This project models the decision logic of a small Express authentication
service. The service registers accounts with bcrypt-hashed passwords and
logs users in with a JSON Web Token. A bearer-token gate protects a
`GET /profile` route, which returns the account without its password.

The model has one module per component:

- `Common` (common.dfy): optional values, responses (a status and a JSON object of strings), the fixed messages, and JavaScript's `startsWith` and truthiness for string fields.
- `Hashing` (bcrypt.dfy): the `bcrypt` library as two oracles, `hash` and `compare`. Its one law, `compare(p, hash(p))`, is the predicate `Sound`.
- `AuthService` (auth_service.dfy): `generateToken` and `verifyToken`. The `JWT_SECRET` check is modelled explicitly. Signing and checking are the library's oracles. `SignThenCheck` states that a token signed with the secret checks back to the same subject.
- `Users` (user_service.dfy): the `users` table as a sequence of rows `{id, email, password, created_at}`. Distinct rows have distinct emails and distinct ids, as the schema's `UNIQUE` and `PRIMARY KEY` columns require. The class `UserService` holds the rows, and its `CreateUser` method inserts one. The finders are pure functions over the rows. `ValidatePassword` is a pure function of the hasher and its two arguments; it does not read the table.
- `AuthMiddleware` (auth_middleware.dfy): the gate, a function from the optional `Authorization` header and the token service to `Rejected(reason)` or `Authenticated(claim)`.
- `AuthController` (auth_controller.dfy): `Register` is a method that changes the table through `CreateUser`. `Login` is a function of a table snapshot, the body and the oracles. Lemmas cover the identical 401 responses and register-then-login.
- `UserController` (user_controller.dfy): `GetProfile`, plus the `/profile` route of src/routes/profile.ts, which puts the gate in front of it.
- `Scenarios` (scenarios.dfy): register, then login, then fetch the profile with the returned token. It also covers a duplicate registration.

The environment enters as parameters:

- The database's defaults arrive as parameters: `id` is what `gen_random_uuid()` produced, and `createdAt` is what `now()` produced.
- A query that throws is the flag `dbError`.
- A colliding id is an insert failure, as the primary key makes it.

Three facts about the code shape the model:

- Every insert failure, not only a duplicate email, is reported as 400 "User already exists" (src/services/userService.ts:14-16).
- The signing secret is read on every call (src/services/authService.ts:5-8, 14-17). A missing secret makes a login with correct credentials answer 500, and makes the gate answer 401 "Invalid token" to every bearer header.
- No dummy comparison is made for an unknown email (src/controllers/authController.ts:40-44).

## Model

| member | source | states |
|---|---|---|
| `AuthService.GenerateToken` | src/services/authService.ts:4-11 | fails exactly when the secret is undefined or empty; otherwise the token is the library's signature over the user id with the secret |
| `AuthService.VerifyToken` | src/services/authService.ts:13-20 | a missing secret always fails verification; otherwise the verdict is the library's check of the token with the secret |
| `AuthService.GeneratedTokenVerifies` | src/services/authService.ts:10-19 | given the library's sign/check law, a generated token verifies to a claim on the same user id |
| `AuthMiddleware.RejectionResponse` | src/middleware/authMiddleware.ts:12-23 | every rejection is a 401 whose body has only `error`: "No valid token provided" or "Invalid token" |
| `AuthMiddleware.Gate` | src/middleware/authMiddleware.ts:4-25 | rejected with NoTokenProvided iff the header is absent or lacks the exact prefix; rejected with InvalidToken iff the prefix is there and verifying the header minus 7 characters fails; otherwise authenticated with exactly the decoded claim |
| `AuthMiddleware.ExtractedTokenFollowsPrefix` | src/middleware/authMiddleware.ts:11-15 | when the prefix check passes, `"Bearer " + header.substring(7) == header` |
| `AuthMiddleware.BearerHeaderCarriesToken` | src/middleware/authMiddleware.ts:11-21 | a header `"Bearer " + t` passes the prefix check and the outcome is decided by verifying `t` alone |
| `AuthMiddleware.NoBearerNeverVerifies` | src/middleware/authMiddleware.ts:9-13 | without a bearer header the outcome is NoTokenProvided for every token service, so no verification happens |
| `AuthMiddleware.VerifiesOnlyExtractedToken` | src/middleware/authMiddleware.ts:15-21 | two token services that agree on the extracted token give the same outcome: exactly one token is verified |
| `AuthMiddleware.MissingSecretRejectsAll` | src/middleware/authMiddleware.ts:17-24 | with no secret, a bearer header is always InvalidToken and any other header NoTokenProvided; nobody is authenticated |
| `AuthMiddleware.PrefixIsExact` | src/middleware/authMiddleware.ts:11 | the prefix check is case-sensitive; `"Bearer"` followed by anything but a space (or by nothing) fails it; a bare token not starting with `B` fails it |
| `Users.RowObject` | src/services/userService.ts:19-27 | a row as a query returns it has exactly the keys id, email, password, created_at |
| `Users.FindUserByEmail` | src/services/userService.ts:19-22 | the result is a row of the table with that email; it is null iff no row has that email |
| `Users.FindUserById` | src/services/userService.ts:24-27 | the result is a row of the table with that id; it is null iff no row has that id |
| `Users.ValidatePassword` | src/services/userService.ts:29-31 | with a sound hasher, a password always validates against its own hash |
| `Users.FindUserByEmailIsTheRow` | src/services/userService.ts:19-22 | in a table with unique emails, the lookup returns the single row holding that email |
| `Users.FindUserByIdIsTheRow` | src/services/userService.ts:24-27 | in a table with unique ids, the lookup returns the single row holding that id |
| `Users.InsertKeepsKeysUnique` | src/services/userService.ts:9-16 | adding a row whose email and id are both new keeps emails and ids unique |
| `Users.UserService.CreateUser` | src/services/userService.ts:6-17 | succeeds iff email and id are new and the database does not fail; on success exactly one row is appended, holding the hash of the password; on any failure the table is unchanged and the error is "User already exists"; uniqueness is preserved |
| `AuthController.Register` | src/controllers/authController.ts:14-29 | missing or empty email or password gives 400 "Email and password are required" and leaves the table unchanged; an accepted insert gives 201 "User registered successfully" and the new row; any rejected insert gives 400 "User already exists" and leaves the table unchanged |
| `AuthController.Login` | src/controllers/authController.ts:31-57 | status 400 iff a field is missing or empty, and then the body is "Email and password are required"; with the fields present, a failed lookup gives 500 "Internal server error"; status 200 iff fields present, lookup works, the email exists, the password matches its hash and a token is generated; then the body is exactly `{token}` for that row's id; every 401 is "Invalid credentials" and every 500 "Internal server error" |
| `AuthController.UnknownEmailLooksLikeWrongPassword` | src/controllers/authController.ts:40-50 | an unknown email and a wrong password give the identical 401 "Invalid credentials" response |
| `AuthController.LoginTokenIsForTheAccount` | src/controllers/authController.ts:40-53 | in a table with unique emails, a successful login returns the token generated for the id of the one account with that email |
| `AuthController.LoginWithoutSecretFails` | src/controllers/authController.ts:52-56 | with correct credentials but no secret, login answers 500 "Internal server error" |
| `AuthController.RegisterThenLogin` | src/controllers/authController.ts:23-53 | given the hasher's law and a secret, logging in after a successful registration with the same credentials yields 200 with the token for the new id |
| `AuthController.SecondRegistrationRefused` | src/services/userService.ts:9-16 | once a row holds an email, no insert with that email is accepted, whatever its id; as inserts only append, this covers every later registration |
| `UserController.WithoutPassword` | src/controllers/userController.ts:21 | the projection drops exactly the `password` key and keeps every other key and value |
| `UserController.GetProfile` | src/controllers/userController.ts:11-26 | a failed lookup gives 500; no row with the claim's id gives 404 "User not found"; otherwise 200 with that row's id, email and created_at; no response has a password key |
| `UserController.ProfileRoute` | src/routes/profile.ts:8 | no bearer header gives 401 "No valid token provided"; a bearer header whose token fails verification gives 401 "Invalid token"; otherwise `getProfile` runs on the decoded claim; the status is 401 exactly when the gate rejects |
| `UserController.ProfileOfAccount` | src/controllers/userController.ts:15-22 | in a table with unique ids, an account's profile is its id, email and created_at, unchanged |
| `UserController.RejectedNeverLooksUp` | src/routes/profile.ts:8 | a rejected request's 401 response does not depend on the table or the database: the lookup is never reached |
| `UserController.ProfileNeverExposesPassword` | src/controllers/userController.ts:21-22 | no response of the profile route, for any table, header or token service, carries a `password` key |
| `Scenarios.RegisterLoginProfile` | tests/profile.test.ts:34-61 | register, log in, then present the token as a bearer header: the profile is exactly the new id, the registered email and created_at |
| `Scenarios.RegisterLoginProfileScenario` | tests/profile.test.ts:34-60 | against a fresh table object, with the tests' credentials `test@example.com` / `password123`: 201, then 200 with a token, then the profile `{id, email: "test@example.com", created_at}` |
| `Scenarios.DuplicateRegistrationScenario` | tests/auth.test.ts:44-58 | registering one email twice gives 201 then 400 "User already exists", leaving one row |

## Left out

- Salting, the cost factor and constant-time comparison in bcrypt: `hash` and `compare` are oracles, and only `compare(p, hash(p))` is assumed.
- `bcrypt.hash` throwing: `hash` is total here. In the source such an error would reach the register handler as a 400 with bcrypt's own message.
- `bcrypt.compare` throwing on a malformed hash: `compare` is total here. In the source such an error would be a login 500.
- The `jsonwebtoken` library: signing, signature checking and the one-hour expiry are oracles. `SignThenCheck` assumes a token is checked within its lifetime, so expiry is not modelled.
- Non-object token payloads: `jwt.verify` can return a string payload, but every verified claim here carries an `id`.
- The Postgres pool and SQL text are replaced by the in-memory table.
- `gen_random_uuid()` and `now()` are parameters.
- A non-UUID id in a claim would make Postgres throw, giving a 500. It is covered only by the general `dbError` flag.
- Request bodies whose fields are not strings (numbers, booleans, objects) are not modelled, nor is a missing `req.body`. Fields are optional strings, and "falsy" means absent or empty.
- `created_at` is an opaque string, standing for its JSON serialisation.
- FindUserById compares ids as strings, while Postgres compares the `id UUID` column as a UUID. A claim id in upper case or without hyphens finds the row in the source but gets 404 in the model.
- `sign` is a deterministic oracle of the user id and the secret. `jwt.sign` also puts the issue time into the token, so in the source two logins in different seconds give different tokens (`iat` counts whole seconds).
- Concurrency: concurrent duplicate registrations rely on the database's unique constraint. Only sequential calls are modelled.
- Express routing, middleware chaining beyond the one `/profile` composition, and all `async`/Promise machinery.
- Timing of the login branches: no dummy hash is added and no timing equality is claimed.
- The test harness: the database setup and teardown and the HTTP client.
