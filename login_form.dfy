/** src/components/LoginForm.tsx: the login form's state and `handleSubmit`.
    The submit runs in two halves around the awaited POST: before it,
    `loading` is raised and `error` cleared; after it, the outcome is
    recorded and `loading` dropped (the `finally` block). The HTTP outcome
    is an input. */
module LoginForm {
  import opened Wrappers
  import opened Http
  import AuthRoutes

  /** The body posted to `/api/login`. */
  datatype LoginRequest = LoginRequest(email: string, password: string)

  /** How the awaited `axios.post` ends: a 2xx reply whose `data.token` may be
      absent; a non-2xx reply whose `data.error` may be absent; or no reply. */
  datatype HttpOutcome = Answered(token: Option<string>) | Rejected(dataError: Option<string>) | NoResponse

  const TokenKey := "token"
  const WrongCredentialsText := "Email o contraseña incorrectos."
  const NoServerText := "Error al conectar con el servidor."

  /** The `error` text the catch block sets, or `None` when it does not run. */
  function CaughtError(outcome: HttpOutcome): (e: Option<string>)
    ensures outcome.Answered? <==> e.None?
    ensures outcome.Rejected? && Truthy(outcome.dataError) ==> e == outcome.dataError
    ensures outcome.Rejected? && !Truthy(outcome.dataError) ==> e == Some(WrongCredentialsText)
    ensures outcome.NoResponse? ==> e == Some(NoServerText)
  {
    match outcome
    case Answered(_) => None
    case Rejected(dataError) => Some(if Truthy(dataError) then dataError.value else WrongCredentialsText)
    case NoResponse => Some(NoServerText)
  }

  /** How the browser sees a reply of `POST /login`: axios resolves on 2xx and
      rejects otherwise, handing over the JSON body. A reply is `Ok` exactly
      when its status is 2xx. */
  function Received(reply: Reply<AuthRoutes.LoginSuccess>): (outcome: HttpOutcome)
    requires reply.Ok? <==> 200 <= reply.status < 300
    ensures outcome.Answered? <==> reply.Ok?
    ensures reply.Ok? ==> outcome.token == Some(reply.value.token)
    ensures reply.Err? ==> outcome.Rejected?
    ensures reply.Err? ==> (outcome.dataError.Some? <==> reply.body.Error?)
    ensures reply.Err? && reply.body.Error? ==> outcome.dataError == Some(reply.body.error)
    ensures !outcome.NoResponse?
  {
    match reply
    case Ok(_, success) => Answered(Some(success.token))
    case Err(_, Message(_)) => Rejected(None)
    case Err(_, Error(e)) => Rejected(Some(e))
  }

  /** Every refusal of `POST /login` (401 or 500) carries its text under
      `message`, which the form does not read: the user always sees the
      form's own wrong-credentials text, even for a server error. */
  lemma LoginFailureShowsOwnText(
    usuarios: seq<AuthRoutes.Usuario>, queryFails: bool, body: AuthRoutes.LoginBody,
    check: PasswordCheck, sign: Signer, secret: string)
    requires AuthRoutes.Login(usuarios, queryFails, body, check, sign, secret).Err?
    ensures CaughtError(Received(AuthRoutes.Login(usuarios, queryFails, body, check, sign, secret)))
         == Some(WrongCredentialsText)
  {
    var r := AuthRoutes.Login(usuarios, queryFails, body, check, sign, secret);
    assert r.body.Message?;
  }

  class Form {
    var email: string
    var password: string
    var loading: bool
    var error: Option<string>
    /** `localStorage`. */
    var storage: map<string, string>
    /** How many times `onLoginSuccess` has been called. */
    var successCalls: nat

    /** A fresh form over the browser's current storage. */
    constructor (storage: map<string, string>)
      ensures this.storage == storage
      ensures email == "" && password == "" && !loading && error == None && successCalls == 0
    {
      this.storage := storage;
      email, password := "", "";
      loading, error := false, None;
      successCalls := 0;
    }

    /** The e-mail input's `onChange`. */
    method SetEmail(value: string)
      modifies this`email
      ensures email == value
    {
      email := value;
    }

    /** The password input's `onChange`. */
    method SetPassword(value: string)
      modifies this`password
      ensures password == value
    {
      password := value;
    }

    /** `handleSubmit` up to the `await`: raises `loading`, clears `error`,
        and posts exactly the current e-mail and password. */
    method BeginSubmit() returns (request: LoginRequest)
      modifies this`loading, this`error
      ensures loading && error == None
      ensures request == LoginRequest(email, password)
    {
      loading := true;
      error := None;
      request := LoginRequest(email, password);
    }

    /** `handleSubmit` after the `await`: the try/catch/finally. A truthy token
        is stored under "token" and `onLoginSuccess` runs once; a failure sets
        `error`; `loading` ends false in every case. */
    method FinishSubmit(outcome: HttpOutcome)
      modifies this`loading, this`error, this`storage, this`successCalls
      ensures !loading
      ensures outcome.Answered? && Truthy(outcome.token) ==>
        storage == old(storage)[TokenKey := outcome.token.value] &&
        successCalls == old(successCalls) + 1 && error == old(error)
      ensures outcome.Answered? && !Truthy(outcome.token) ==>
        storage == old(storage) && successCalls == old(successCalls) && error == old(error)
      ensures !outcome.Answered? ==>
        storage == old(storage) && successCalls == old(successCalls) && error == CaughtError(outcome)
    {
      match outcome {
        case Answered(token) =>
          if Truthy(token) {
            storage := storage[TokenKey := token.value];
            successCalls := successCalls + 1;
          }
        case _ =>
          error := CaughtError(outcome);
      }
      loading := false;
    }

    /** The whole `handleSubmit` for a given outcome of the request. */
    method HandleSubmit(outcome: HttpOutcome) returns (request: LoginRequest)
      modifies this`loading, this`error, this`storage, this`successCalls
      ensures request == LoginRequest(email, password)
      ensures !loading && error == CaughtError(outcome)
      ensures Succeeded(outcome) ==> storage == old(storage)[TokenKey := outcome.token.value]
      ensures !Succeeded(outcome) ==> storage == old(storage)
      ensures successCalls == old(successCalls) + (if Succeeded(outcome) then 1 else 0)
    {
      request := BeginSubmit();
      FinishSubmit(outcome);
    }
  }

  /** The request succeeded with a usable token. */
  predicate Succeeded(outcome: HttpOutcome)
  {
    outcome.Answered? && Truthy(outcome.token)
  }
}
