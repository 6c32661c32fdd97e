/** What the Express handlers exchange: JSON replies with a status code, the
    claims carried by a session token, and the cryptographic calls the
    handlers make, which this model treats as uninterpreted oracles. */
module Http {
  import opened Wrappers

  /** A one-key JSON object: `{message: ...}` (authMiddleware and most
      routes) or `{error: ...}` (routes/citas.js). The key matters to the
      browser, which reads only `data.error`. */
  datatype Body = Message(message: string) | Error(error: string)

  /** An HTTP reply: a status with a JSON payload of type `T`, or a status
      with a one-key error body. */
  datatype Reply<+T> = Ok(status: nat, value: T) | Err(status: nat, body: Body)

  /** The payload of a session token: `{id, rol, id_inquilino}`. */
  datatype Claims = Claims(id: int, rol: string, idInquilino: int)

  /** `jwt.verify(token, secret)`: the decoded claims, or `None` when it throws
      (bad signature, expired, malformed). */
  type Verifier = (string, string) -> Option<Claims>

  /** `jwt.sign(payload, secret, {expiresIn})`: the token, or `None` when it throws. */
  type Signer = (Claims, string, string) -> Option<string>

  /** `bcrypt.compare(password, hash)`: whether they match, or `None` when it throws. */
  type PasswordCheck = (string, string) -> Option<bool>

  /** JavaScript truthiness of an optional string: defined and non-empty. */
  predicate Truthy(s: Option<string>)
  {
    s.Some? && s.value != ""
  }

  const InternalError := "Error interno del servidor"
}
