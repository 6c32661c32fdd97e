/** middleware/authMiddleware.js: the guard in front of every tenant-scoped
    route. It reads the `Authorization` header, strips the first "Bearer ",
    and either answers 401 or hands the decoded claims to the next handler. */
module AuthMiddleware {
  import opened Wrappers
  import opened Strings
  import opened Http

  const BearerPrefix := "Bearer "
  const MissingTokenMessage := "Acceso denegado. No se proporcionó token."
  const InvalidTokenMessage := "Token inválido."

  /** The middleware's outcome: a 401 reply (and `next` is not called), or
      `next` called once with `req.user` set to the claims. */
  datatype Decision = Deny(status: nat, body: Body) | Next(user: Claims)

  /** `req.header('Authorization')?.replace('Bearer ', '')`: an absent header
      stays absent; otherwise the first "Bearer " is cut out wherever it lies. */
  function ExtractToken(header: Option<string>): (t: Option<string>)
    ensures header.None? <==> t.None?
    ensures header.Some? && IndexOf(header.value, BearerPrefix).None? ==> t == header
    ensures header.Some? && IndexOf(header.value, BearerPrefix).Some? ==>
      var i := IndexOf(header.value, BearerPrefix).value;
      OccursAt(header.value, BearerPrefix, i) &&
      t.value == header.value[..i] + header.value[i + |BearerPrefix|..]
  {
    match header
    case None => None
    case Some(h) => Some(RemoveFirst(h, BearerPrefix))
  }

  /** The whole middleware. It consults only the header, the secret and
      `jwt.verify`; nothing else is in scope. */
  function Authenticate(header: Option<string>, secret: string, verify: Verifier): (d: Decision)
    ensures d.Deny? ==> d.status == 401
    ensures d == Deny(401, Message(MissingTokenMessage)) <==> !Truthy(ExtractToken(header))
    ensures d == Deny(401, Message(InvalidTokenMessage)) <==>
      Truthy(ExtractToken(header)) && verify(ExtractToken(header).value, secret).None?
    ensures d.Next? <==>
      Truthy(ExtractToken(header)) && verify(ExtractToken(header).value, secret).Some?
    ensures d.Next? ==> d.user == verify(ExtractToken(header).value, secret).value
  {
    var token := ExtractToken(header);
    if !Truthy(token) then Deny(401, Message(MissingTokenMessage))
    else match verify(token.value, secret)
      case None => Deny(401, Message(InvalidTokenMessage))
      case Some(claims) => Next(claims)
  }

  /** A well-formed `Bearer <token>` header yields exactly `<token>`, even if
      the token itself contains "Bearer ". */
  lemma BearerHeaderYieldsToken(token: string)
    ensures ExtractToken(Some(BearerPrefix + token)) == Some(token)
  {
    RemoveFirstPrefix(BearerPrefix, token);
  }

  /** The header "Bearer " alone leaves the empty token, which is refused as
      missing, not as invalid. */
  lemma BareBearerIsMissingToken(secret: string, verify: Verifier)
    ensures Authenticate(Some(BearerPrefix), secret, verify) == Deny(401, Message(MissingTokenMessage))
  {
    BearerHeaderYieldsToken("");
    assert BearerPrefix + "" == BearerPrefix;
  }

  /** "Bearer " is cut out wherever it first occurs, not only at the start:
      the scheme word in front of it survives. */
  lemma BearerRemovedMidHeader()
    ensures ExtractToken(Some("Token Bearer abc")) == Some("Token abc")
  {
    var h := "Token Bearer abc";
    assert OccursAt(h, BearerPrefix, 6);
    forall j | 0 <= j < 6 ensures !OccursAt(h, BearerPrefix, j) {
      assert h[j] != 'B';
    }
    assert IndexOf(h, BearerPrefix) == Some(6);
    assert h[..6] + h[13..] == "Token abc";
  }
}
