/** The credential gate of src/middleware/authMiddleware.ts. Each request
    ends in exactly one of two ways: a 401 response is written, or the
    decoded claim is attached as `req.user` and `next()` runs. */
module AuthMiddleware {
  import opened Common
  import opened AuthService

  const BearerPrefix := "Bearer "

  datatype RejectReason = NoTokenProvided | InvalidToken

  datatype GateOutcome = Rejected(reason: RejectReason) | Authenticated(user: Claim)

  /** The response the gate writes for a rejection. */
  function RejectionResponse(reason: RejectReason): (r: Response)
    ensures r.status == 401 && r.body.Keys == {"error"}
    ensures r.body["error"] == if reason == NoTokenProvided then NoTokenMessage else InvalidTokenMessage
  {
    match reason
    case NoTokenProvided => ErrorResponse(401, NoTokenMessage)
    case InvalidToken => ErrorResponse(401, InvalidTokenMessage)
  }

  /** Whether the header passes `!authHeader || !authHeader.startsWith('Bearer ')`. */
  predicate HasBearer(authHeader: Option<string>)
  {
    authHeader.Some? && StartsWith(authHeader.value, BearerPrefix)
  }

  /** `authMiddleware` on a request whose `Authorization` header is
      `authHeader`: the token is the header from its eighth character on,
      verified once. */
  function Gate(authHeader: Option<string>, auth: AuthService): (o: GateOutcome)
    ensures o == Rejected(NoTokenProvided) <==> !HasBearer(authHeader)
    ensures o == Rejected(InvalidToken) <==>
      HasBearer(authHeader) && VerifyToken(auth, authHeader.value[7..]).None?
    ensures o.Authenticated? ==>
      HasBearer(authHeader) && VerifyToken(auth, authHeader.value[7..]) == Some(o.user)
  {
    if authHeader.None? || !StartsWith(authHeader.value, BearerPrefix) then
      Rejected(NoTokenProvided)
    else
      var token := authHeader.value[7..];
      match VerifyToken(auth, token)
      case None => Rejected(InvalidToken)
      case Some(decoded) => Authenticated(decoded)
  }

  /** The token handed to verification is exactly what follows the prefix:
      `substring(7)` removes precisely `"Bearer "`. */
  lemma ExtractedTokenFollowsPrefix(authHeader: string)
    requires StartsWith(authHeader, BearerPrefix)
    ensures BearerPrefix + authHeader[7..] == authHeader
  {
  }

  /** Presenting `"Bearer " + token` hands verification exactly `token`. */
  lemma BearerHeaderCarriesToken(token: string, auth: AuthService)
    ensures HasBearer(Some(BearerPrefix + token))
    ensures Gate(Some(BearerPrefix + token), auth) ==
      match VerifyToken(auth, token)
      case None => Rejected(InvalidToken)
      case Some(decoded) => Authenticated(decoded)
  {
  }

  /** Without a bearer header the outcome does not depend on the token
      service at all: no token is verified. */
  lemma NoBearerNeverVerifies(authHeader: Option<string>, a1: AuthService, a2: AuthService)
    requires !HasBearer(authHeader)
    ensures Gate(authHeader, a1) == Gate(authHeader, a2) == Rejected(NoTokenProvided)
  {
  }

  /** With a bearer header the outcome depends on the token service only
      through its verdict on the one extracted token. */
  lemma VerifiesOnlyExtractedToken(authHeader: string, a1: AuthService, a2: AuthService)
    requires StartsWith(authHeader, BearerPrefix)
    requires VerifyToken(a1, authHeader[7..]) == VerifyToken(a2, authHeader[7..])
    ensures Gate(Some(authHeader), a1) == Gate(Some(authHeader), a2)
  {
  }

  /** A service with no secret admits nobody; every bearer header is an
      invalid token. */
  lemma MissingSecretRejectsAll(authHeader: Option<string>, auth: AuthService)
    requires !SecretDefined(auth)
    ensures Gate(authHeader, auth) ==
      if HasBearer(authHeader) then Rejected(InvalidToken) else Rejected(NoTokenProvided)
  {
  }

  /** The prefix check is case-sensitive, needs the space right after
      `Bearer` (so `"Bearer"`, `"Bearerxyz"` and `"Bearer\tx"` all fail),
      and a bare token fails it. */
  lemma PrefixIsExact(token: string)
    ensures !HasBearer(Some("bearer " + token))
    ensures token == [] || token[0] != ' ' ==> !HasBearer(Some("Bearer" + token))
    ensures token != "" && token[0] != 'B' ==> !HasBearer(Some(token))
  {
    var h := "Bearer" + token;
    if |h| >= 7 && (token == [] || token[0] != ' ') {
      assert h[6] == token[0];
      assert h[..7][6] != BearerPrefix[6];
    }
  }
}
