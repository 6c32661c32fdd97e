/** routes/auth.js: `POST /login`. The account is looked up by e-mail, the
    password is checked against its bcrypt hash, and a one-hour token carrying
    `{id, rol, id_inquilino}` is signed. Nothing is written anywhere. */
module AuthRoutes {
  import opened Wrappers
  import opened Http
  import AuthMiddleware

  /** A row of the `usuarios` table; `password` holds the bcrypt hash. */
  datatype Usuario = Usuario(id: int, email: string, password: string, rol: string, idInquilino: int)

  /** The request body `{email, password}`. */
  datatype LoginBody = LoginBody(email: string, password: string)

  /** The `user` object of the 200 reply: the account without its hash. */
  datatype PublicUser = PublicUser(id: int, rol: string, idInquilino: int, email: string)

  /** The 200 payload `{token, user}`. */
  datatype LoginSuccess = LoginSuccess(token: string, user: PublicUser)

  const InvalidCredentialsMessage := "Credenciales inválidas"
  const TokenLifetime := "1h"

  /** The index of the first row whose e-mail equals `email` exactly
      (`SELECT * ... WHERE email = $1` followed by `rows[0]`). */
  function FirstIndexByEmail(usuarios: seq<Usuario>, email: string): (r: Option<nat>)
    ensures r.Some? ==> r.value < |usuarios| && usuarios[r.value].email == email
    ensures r.Some? ==> forall j :: 0 <= j < r.value ==> usuarios[j].email != email
    ensures r.None? <==> forall u :: u in usuarios ==> u.email != email
  {
    if usuarios == [] then None
    else if usuarios[0].email == email then Some(0)
    else match FirstIndexByEmail(usuarios[1..], email)
      case None => None
      case Some(i) => Some(i + 1)
  }

  /** The user the login works with: the first matching row, if any. */
  function FindByEmail(usuarios: seq<Usuario>, email: string): (r: Option<Usuario>)
    ensures r.Some? ==> r.value in usuarios && r.value.email == email
    ensures r.None? <==> forall u :: u in usuarios ==> u.email != email
  {
    match FirstIndexByEmail(usuarios, email)
    case None => None
    case Some(i) => Some(usuarios[i])
  }

  /** The claims put into the token: exactly id, rol and id_inquilino. */
  function ClaimsOf(u: Usuario): Claims
  {
    Claims(u.id, u.rol, u.idInquilino)
  }

  /** The `user` object of the reply. */
  function PublicOf(u: Usuario): PublicUser
  {
    PublicUser(u.id, u.rol, u.idInquilino, u.email)
  }

  /** The handler. `queryFails` says the `usuarios` query throws; `check` and
      `sign` stand for bcrypt and jsonwebtoken. Every reply is 200, 401 with
      the one credentials message, or 500. */
  function Login(usuarios: seq<Usuario>, queryFails: bool, body: LoginBody,
                 check: PasswordCheck, sign: Signer, secret: string): (r: Reply<LoginSuccess>)
    ensures r.Ok? <==>
      !queryFails && FindByEmail(usuarios, body.email).Some? &&
      check(body.password, FindByEmail(usuarios, body.email).value.password) == Some(true) &&
      sign(ClaimsOf(FindByEmail(usuarios, body.email).value), secret, TokenLifetime).Some?
    ensures r.Ok? ==>
      var u := FindByEmail(usuarios, body.email).value;
      r.status == 200 && u.email == body.email &&
      r.value == LoginSuccess(sign(ClaimsOf(u), secret, TokenLifetime).value, PublicOf(u))
    ensures r.Err? ==> r.status in {401, 500}
    ensures r.Err? && r.status == 401 ==> r.body == Message(InvalidCredentialsMessage)
    ensures r.Err? && r.status == 500 ==> r.body == Message(InternalError)
    ensures r == Err(401, Message(InvalidCredentialsMessage)) <==>
      !queryFails &&
      (FindByEmail(usuarios, body.email).None? ||
       check(body.password, FindByEmail(usuarios, body.email).value.password) == Some(false))
    ensures r == Err(500, Message(InternalError)) <==>
      queryFails ||
      (FindByEmail(usuarios, body.email).Some? &&
       var u := FindByEmail(usuarios, body.email).value;
       check(body.password, u.password).None? ||
       (check(body.password, u.password) == Some(true) && sign(ClaimsOf(u), secret, TokenLifetime).None?))
  {
    if queryFails then Err(500, Message(InternalError))
    else match FindByEmail(usuarios, body.email)
      case None => Err(401, Message(InvalidCredentialsMessage))
      case Some(user) =>
        match check(body.password, user.password)
        case None => Err(500, Message(InternalError))
        case Some(false) => Err(401, Message(InvalidCredentialsMessage))
        case Some(true) =>
          match sign(ClaimsOf(user), secret, TokenLifetime)
          case None => Err(500, Message(InternalError))
          case Some(token) => Ok(200, LoginSuccess(token, PublicOf(user)))
  }

  /** An unknown e-mail and a wrong password give the same reply, so a caller
      cannot tell whether the account exists. */
  lemma UnknownEmailLooksLikeWrongPassword(
    usuarios: seq<Usuario>, known: LoginBody, unknown: LoginBody,
    check: PasswordCheck, sign: Signer, secret: string)
    requires forall u :: u in usuarios ==> u.email != unknown.email
    requires FindByEmail(usuarios, known.email).Some?
    requires check(known.password, FindByEmail(usuarios, known.email).value.password) == Some(false)
    ensures Login(usuarios, false, unknown, check, sign, secret)
         == Login(usuarios, false, known, check, sign, secret)
         == Err(401, Message(InvalidCredentialsMessage))
  {
  }

  /** When a duplicate e-mail exists, the earlier row wins. */
  lemma {:induction false} FirstRowWins(usuarios: seq<Usuario>, i: nat, email: string)
    requires i < |usuarios| && usuarios[i].email == email
    requires forall j :: 0 <= j < i ==> usuarios[j].email != email
    ensures FindByEmail(usuarios, email) == Some(usuarios[i])
  {
    if i > 0 {
      FirstRowWins(usuarios[1..], i - 1, email);
    }
  }

  /** A token issued by `Login` passes `authMiddleware` with the account's
      claims, provided `jwt.verify` accepts what `jwt.sign` produced with the
      same secret (a property of the library, stated as a precondition). */
  lemma LoginTokenAuthenticates(
    usuarios: seq<Usuario>, body: LoginBody,
    check: PasswordCheck, sign: Signer, verify: Verifier, secret: string)
    requires forall c: Claims, tok :: sign(c, secret, TokenLifetime) == Some(tok) ==>
      tok != "" && verify(tok, secret) == Some(c)
    requires Login(usuarios, false, body, check, sign, secret).Ok?
    ensures var r := Login(usuarios, false, body, check, sign, secret);
      var u := FindByEmail(usuarios, body.email).value;
      AuthMiddleware.Authenticate(Some(AuthMiddleware.BearerPrefix + r.value.token), secret, verify)
        == AuthMiddleware.Next(Claims(u.id, u.rol, u.idInquilino))
  {
    var r := Login(usuarios, false, body, check, sign, secret);
    AuthMiddleware.BearerHeaderYieldsToken(r.value.token);
  }
}
