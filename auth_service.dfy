/** The token service of src/services/authService.ts. Signing and checking a
    JSON Web Token (signature, structure, the one-hour expiry) belong to the
    `jsonwebtoken` library and are oracles here; what this module models is
    the code around them: the process-wide secret must be defined before
    either operation runs. */
module AuthService {
  import opened Common

  /** The decoded payload `jwt.verify` returns: the subject id the token was
      signed for, with the issue and expiry instants the library adds. The
      two instants only mirror the payload's `iat` and `exp`: the service
      never reads them, and expiry is the library's check. */
  datatype Claim = Claim(id: string, issuedAt: int, expiresAt: int)

  /** `process.env.JWT_SECRET` together with the library's two operations:
      `sign(userId, secret)` and `check(token, secret)`, the latter `None`
      for every token `jwt.verify` throws on. */
  datatype AuthService = AuthService(
    secret: Option<string>,
    sign: (string, string) -> string,
    check: (string, string) -> Option<Claim>)

  /** `if (!secret)`: an undefined or empty secret is missing. */
  predicate SecretDefined(a: AuthService)
  {
    Truthy(a.secret)
  }

  /** `generateToken(userId)`; `None` is the thrown "JWT_SECRET is not defined". */
  function GenerateToken(a: AuthService, userId: string): (r: Option<string>)
    ensures r.None? <==> !SecretDefined(a)
    ensures r.Some? ==> r.value == a.sign(userId, a.secret.value)
  {
    if !SecretDefined(a) then None else Some(a.sign(userId, a.secret.value))
  }

  /** `verifyToken(token)`; `None` is any exception, the missing secret included. */
  function VerifyToken(a: AuthService, token: string): (r: Option<Claim>)
    ensures !SecretDefined(a) ==> r.None?
    ensures SecretDefined(a) ==> r == a.check(token, a.secret.value)
  {
    if !SecretDefined(a) then None else a.check(token, a.secret.value)
  }

  /** What `jsonwebtoken` promises within the token's lifetime: a token it
      signed with the secret checks back to a claim on the same subject.
      Only the end-to-end lemmas assume it. */
  ghost predicate SignThenCheck(a: AuthService)
  {
    SecretDefined(a) &&
    forall id: string {:trigger a.sign(id, a.secret.value)} ::
      a.check(a.sign(id, a.secret.value), a.secret.value).Some? &&
      a.check(a.sign(id, a.secret.value), a.secret.value).value.id == id
  }

  /** A generated token verifies, under the same service, to a claim on the
      subject it was generated for. */
  lemma GeneratedTokenVerifies(a: AuthService, userId: string)
    requires SignThenCheck(a)
    ensures GenerateToken(a, userId).Some?
    ensures VerifyToken(a, GenerateToken(a, userId).value).Some?
    ensures VerifyToken(a, GenerateToken(a, userId).value).value.id == userId
  {
  }
}
