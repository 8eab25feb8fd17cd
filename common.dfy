/** Values shared by every part of the service: optional values, HTTP
    responses with JSON-object bodies, and the fixed messages the
    handlers answer with. */
module Common {

  datatype Option<+T> = None | Some(value: T)

  /** A JSON object whose values are all strings, as `res.json(...)` sends it. */
  type JsonObject = map<string, string>

  /** What a handler writes: a status code and a JSON body. */
  datatype Response = Response(status: nat, body: JsonObject)

  const RequiredMessage := "Email and password are required"
  const RegisteredMessage := "User registered successfully"
  const AlreadyExistsMessage := "User already exists"
  const InvalidCredentialsMessage := "Invalid credentials"
  const InternalErrorMessage := "Internal server error"
  const NoTokenMessage := "No valid token provided"
  const InvalidTokenMessage := "Invalid token"
  const NotFoundMessage := "User not found"

  /** `res.status(status).json({ error: message })` */
  function ErrorResponse(status: nat, message: string): (r: Response)
    ensures r.status == status && r.body.Keys == {"error"} && r.body["error"] == message
  {
    Response(status, map["error" := message])
  }

  /** JavaScript's `s.startsWith(p)`: case-sensitive, character by character. */
  predicate StartsWith(s: string, p: string)
  {
    |p| <= |s| && s[..|p|] == p
  }

  /** A string value in the sense of JavaScript truthiness: present and non-empty. */
  predicate Truthy(v: Option<string>)
  {
    v.Some? && v.value != ""
  }
}
