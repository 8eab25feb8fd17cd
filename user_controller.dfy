/** `UserController.getProfile` of src/controllers/userController.ts, and the
    `GET /profile` route of src/routes/profile.ts that puts the credential
    gate in front of it. */
module UserController {
  import opened Common
  import opened AuthService
  import opened Users
  import opened AuthMiddleware

  /** `const { password, ...userProfile } = user`: the row without its
      `password` key. */
  function WithoutPassword(row: JsonObject): (profile: JsonObject)
    ensures "password" !in profile
    ensures forall k :: k in row && k != "password" ==> k in profile && profile[k] == row[k]
    ensures profile.Keys == row.Keys - {"password"}
  {
    row - {"password"}
  }

  /** `getProfile` for the claim the gate attached as `req.user`; the id
      looked up is the claim's `id`. `dbError` stands for the lookup query
      throwing. */
  function GetProfile(rows: seq<User>, user: Claim, dbError: bool): (r: Response)
    ensures "password" !in r.body
    ensures dbError ==> r == ErrorResponse(500, InternalErrorMessage)
    ensures !dbError && !IdTaken(rows, user.id) ==> r == ErrorResponse(404, NotFoundMessage)
    ensures r.status == 200 <==> !dbError && IdTaken(rows, user.id)
    ensures r.status == 200 ==>
      var u := FindUserById(rows, user.id).value;
      u in rows && u.id == user.id &&
      r.body == map["id" := u.id, "email" := u.email, "created_at" := u.createdAt]
  {
    if dbError then ErrorResponse(500, InternalErrorMessage)
    else
      var found := FindUserById(rows, user.id);
      if found.None? then ErrorResponse(404, NotFoundMessage)
      else
        var profile := WithoutPassword(RowObject(found.value));
        assert profile == map["id" := found.value.id, "email" := found.value.email, "created_at" := found.value.createdAt];
        Response(200, profile)
  }

  /** `router.get("/profile", authMiddleware, userController.getProfile)`:
      the handler runs only after the gate called `next`. */
  function ProfileRoute(rows: seq<User>, authHeader: Option<string>, auth: AuthService, dbError: bool): (r: Response)
    ensures !HasBearer(authHeader) ==> r == ErrorResponse(401, NoTokenMessage)
    ensures HasBearer(authHeader) && VerifyToken(auth, authHeader.value[7..]).None? ==>
      r == ErrorResponse(401, InvalidTokenMessage)
    ensures HasBearer(authHeader) && VerifyToken(auth, authHeader.value[7..]).Some? ==>
      r == GetProfile(rows, VerifyToken(auth, authHeader.value[7..]).value, dbError)
    ensures r.status == 401 <==> Gate(authHeader, auth).Rejected?
  {
    match Gate(authHeader, auth)
    case Rejected(reason) => RejectionResponse(reason)
    case Authenticated(user) => GetProfile(rows, user, dbError)
  }

  /** For an account in a table with unique ids, its profile is its row with
      every field but `password`, each unchanged. */
  lemma ProfileOfAccount(rows: seq<User>, u: User, user: Claim)
    requires UniqueKeys(rows) && u in rows && user.id == u.id
    ensures GetProfile(rows, user, false) ==
      Response(200, map["id" := u.id, "email" := u.email, "created_at" := u.createdAt])
  {
  }

  /** A rejected request never reaches the lookup: its response is the
      same whatever the table holds and whether or not the database works. */
  lemma RejectedNeverLooksUp(
      rows1: seq<User>, rows2: seq<User>, authHeader: Option<string>, auth: AuthService, d1: bool, d2: bool)
    requires Gate(authHeader, auth).Rejected?
    ensures ProfileRoute(rows1, authHeader, auth, d1) == ProfileRoute(rows2, authHeader, auth, d2)
    ensures ProfileRoute(rows1, authHeader, auth, d1).status == 401
  {
  }

  /** No response of the profile route, for any table, header or service,
      carries a `password` key. */
  lemma ProfileNeverExposesPassword(rows: seq<User>, authHeader: Option<string>, auth: AuthService, dbError: bool)
    ensures "password" !in ProfileRoute(rows, authHeader, auth, dbError).body
  {
  }
}
