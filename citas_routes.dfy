/** routes/citas.js: its own token check `verifyToken`, the appointment list
    (an inner join with `pacientes` plus a display name) and appointment
    creation. Neither route looks at the caller's tenant. */
module CitasRoutes {
  import opened Wrappers
  import opened Strings
  import opened Collections
  import opened Http
  import opened Tables
  import AuthMiddleware

  const NoTokenMessage := "No se proporcionó el token de autenticación."
  const BadTokenMessage := "Token inválido o expirado."
  /** This file's 500 message ends with a full stop, unlike the other routes'. */
  const InternalErrorDot := "Error interno del servidor."

  // ---------------------------------------------------------------------------
  // verifyToken

  /** `req.headers.authorization?.split(' ')[1]`: the second space-separated
      piece of the header, whatever the first piece says. */
  function SecondWord(header: Option<string>): (t: Option<string>)
    ensures header.None? ==> t.None?
    ensures header.Some? ==> (t.Some? <==> ' ' in header.value)
    ensures t.Some? ==> ' ' !in t.value
  {
    match header
    case None => None
    case Some(h) =>
      var parts := Split(h, ' ');
      if |parts| >= 2 then Some(parts[1]) else None
  }

  /** The middleware of this file. Its 401 bodies use the `error` key. */
  function VerifyToken(header: Option<string>, secret: string, verify: Verifier): (d: AuthMiddleware.Decision)
    ensures d.Deny? ==> d.status == 401
    ensures d == AuthMiddleware.Deny(401, Error(NoTokenMessage)) <==> !Truthy(SecondWord(header))
    ensures d == AuthMiddleware.Deny(401, Error(BadTokenMessage)) <==>
      Truthy(SecondWord(header)) && verify(SecondWord(header).value, secret).None?
    ensures d.Next? <==> Truthy(SecondWord(header)) && verify(SecondWord(header).value, secret).Some?
    ensures d.Next? ==> d.user == verify(SecondWord(header).value, secret).value
  {
    var token := SecondWord(header);
    if !Truthy(token) then AuthMiddleware.Deny(401, Error(NoTokenMessage))
    else match verify(token.value, secret)
      case None => AuthMiddleware.Deny(401, Error(BadTokenMessage))
      case Some(claims) => AuthMiddleware.Next(claims)
  }

  /** After a first word without spaces and one space, the token is the text
      up to the next space; the first word is never examined. */
  lemma SecondWordAfterScheme(scheme: string, rest: string)
    requires ' ' !in scheme
    ensures SecondWord(Some(scheme + " " + rest)) == Some(Split(rest, ' ')[0])
  {
    SplitAround(scheme, rest, ' ');
  }

  /** "Token abc" is accepted exactly like "Bearer abc". */
  lemma AnySchemeWord(scheme: string, token: string)
    requires ' ' !in scheme && ' ' !in token
    ensures SecondWord(Some(scheme + " " + token)) == Some(token)
  {
    SecondWordAfterScheme(scheme, token);
  }

  /** Two spaces after the scheme word leave an empty token: the missing-token 401. */
  lemma DoubleSpaceIsMissingToken(scheme: string, rest: string, secret: string, verify: Verifier)
    requires ' ' !in scheme
    ensures VerifyToken(Some(scheme + "  " + rest), secret, verify) == AuthMiddleware.Deny(401, Error(NoTokenMessage))
  {
    assert scheme + "  " + rest == scheme + " " + (" " + rest);
    SecondWordAfterScheme(scheme, " " + rest);
    SplitAround("", rest, ' ');
  }

  /** On a well-formed "Bearer <token>" header with a space-free token, this
      check and `authMiddleware` read the same token. */
  lemma GuardsAgreeOnBearerHeader(token: string)
    requires ' ' !in token
    ensures SecondWord(Some(AuthMiddleware.BearerPrefix + token)) == Some(token)
    ensures AuthMiddleware.ExtractToken(Some(AuthMiddleware.BearerPrefix + token)) == Some(token)
  {
    assert AuthMiddleware.BearerPrefix + token == "Bearer" + " " + token;
    AnySchemeWord("Bearer", token);
    AuthMiddleware.BearerHeaderYieldsToken(token);
  }

  // ---------------------------------------------------------------------------
  // GET /

  /** A row of the `SELECT ... FROM citas JOIN pacientes` result. */
  datatype JoinedRow = JoinedRow(
    id: int, nombrePaciente: Option<string>, apellidoPaciente: Option<string>,
    diaYHora: Timestamp, estado: string)

  /** A row of the reply: the joined row spread, plus `paciente_nombre`. */
  datatype CitaListada = CitaListada(row: JoinedRow, pacienteNombre: string)

  /** A column value interpolated into a template literal: NULL prints "null". */
  function TemplateText(v: Option<string>): (text: string)
    ensures v.Some? ==> text == v.value
    ensures v.None? ==> text == "null"
  {
    match v
    case None => "null"
    case Some(s) => s
  }

  /** The selected columns of one cita joined with one patient. */
  function JoinRow(c: Cita, p: Paciente): JoinedRow
  {
    JoinedRow(c.id, p.nombrePaciente, p.apellidoPaciente, c.diaYHora, c.estado)
  }

  /** `citas.id_paciente = pacientes.id` for a fixed cita. */
  function IdIs(id: int): Paciente -> bool
  {
    (p: Paciente) => p.id == id
  }

  /** The joined rows one cita contributes: one per patient with its id. */
  function RowsFor(c: Cita, pacientes: seq<Paciente>): (r: seq<JoinedRow>)
    ensures |r| == |Filter(pacientes, IdIs(c.idPaciente))|
    ensures forall x :: x in r <==> exists p :: p in pacientes && p.id == c.idPaciente && x == JoinRow(c, p)
  {
    if pacientes == [] then []
    else
      var rest := RowsFor(c, pacientes[1..]);
      if pacientes[0].id == c.idPaciente then [JoinRow(c, pacientes[0])] + rest else rest
  }

  /** `FROM citas JOIN pacientes ON citas.id_paciente = pacientes.id`, with no
      `WHERE`: rows of every tenant, only for citas whose patient exists. */
  function Joined(citas: seq<Cita>, pacientes: seq<Paciente>): (r: seq<JoinedRow>)
    ensures forall x :: x in r <==>
      exists c, p :: c in citas && p in pacientes && p.id == c.idPaciente && x == JoinRow(c, p)
  {
    if citas == [] then []
    else
      var r := RowsFor(citas[0], pacientes) + Joined(citas[1..], pacientes);
      assert forall x :: x in r ==>
        exists c, p :: c in citas && p in pacientes && p.id == c.idPaciente && x == JoinRow(c, p);
      r
  }

  /** `result.rows.map(cita => ({...cita, paciente_nombre: `${nombre} ${apellido}`}))`. */
  function WithFullName(rows: seq<JoinedRow>): (r: seq<CitaListada>)
    ensures |r| == |rows|
    ensures forall i :: 0 <= i < |rows| ==>
      r[i].row == rows[i] &&
      r[i].pacienteNombre == TemplateText(rows[i].nombrePaciente) + " " + TemplateText(rows[i].apellidoPaciente)
  {
    if rows == [] then []
    else
      [CitaListada(rows[0], TemplateText(rows[0].nombrePaciente) + " " + TemplateText(rows[0].apellidoPaciente))]
      + WithFullName(rows[1..])
  }

  /** Every listed row carries a joined row, and every joined row is listed. */
  lemma WithFullNameCovers(rows: seq<JoinedRow>)
    ensures forall x :: x in WithFullName(rows) ==> x.row in rows
    ensures forall y :: y in rows ==> exists x :: x in WithFullName(rows) && x.row == y
  {
    var listed := WithFullName(rows);
    forall y | y in rows ensures exists x :: x in listed && x.row == y {
      var i :| 0 <= i < |rows| && rows[i] == y;
      assert listed[i] in listed;
    }
  }

  /** The handler's reply: on success, the join result (every tenant's rows)
      with the display name added to each row. */
  function ListCitas(db: Database, header: Option<string>, secret: string, verify: Verifier,
                     fault: DbFault): (r: Reply<seq<CitaListada>>)
    reads db
    ensures VerifyToken(header, secret, verify).Deny? ==>
      r == Err(401, VerifyToken(header, secret, verify).body)
    ensures VerifyToken(header, secret, verify).Next? && fault == FailsOnStatement(1) ==>
      r == Err(500, Error(InternalErrorDot))
    ensures VerifyToken(header, secret, verify).Next? && fault != FailsOnStatement(1) ==>
      r.Ok? && r.status == 200 &&
      (forall x :: x in r.value ==>
         x.row in Joined(db.citas, db.pacientes) &&
         x.pacienteNombre == TemplateText(x.row.nombrePaciente) + " " + TemplateText(x.row.apellidoPaciente)) &&
      (forall y :: y in Joined(db.citas, db.pacientes) ==> exists x :: x in r.value && x.row == y)
  {
    match VerifyToken(header, secret, verify)
    case Deny(status, body) => Err(status, body)
    case Next(_) =>
      if fault == FailsOnStatement(1) then Err(500, Error(InternalErrorDot))
      else
        var rows := Joined(db.citas, db.pacientes);
        WithFullNameCovers(rows);
        Ok(200, WithFullName(rows))
  }

  /** A cita whose patient is missing contributes no row (inner join). */
  lemma {:induction false} UnmatchedCitaOmitted(c: Cita, pacientes: seq<Paciente>)
    requires forall p :: p in pacientes ==> p.id != c.idPaciente
    ensures RowsFor(c, pacientes) == []
  {
    if pacientes != [] {
      UnmatchedCitaOmitted(c, pacientes[1..]);
    }
  }

  /** When patient ids are unique, each cita with an existing patient yields
      exactly one row. */
  lemma {:induction false} OneRowPerMatchedCita(c: Cita, pacientes: seq<Paciente>, k: nat)
    requires k < |pacientes| && pacientes[k].id == c.idPaciente
    requires KeysDistinct(pacientes, PacienteKey())
    ensures RowsFor(c, pacientes) == [JoinRow(c, pacientes[k])]
  {
    assert forall i, j :: 0 <= i < j < |pacientes| ==> pacientes[i].id != pacientes[j].id;
    if k == 0 {
      forall q | q in pacientes[1..] ensures q.id != c.idPaciente {
        var j :| 0 <= j < |pacientes[1..]| && pacientes[1..][j] == q;
        assert pacientes[j + 1] == q;
      }
      UnmatchedCitaOmitted(c, pacientes[1..]);
    } else {
      OneRowPerMatchedCita(c, pacientes[1..], k - 1);
    }
  }

  /** In a database whose invariant holds, patient and cita ids are unique,
      so every stored cita whose patient exists appears in the join exactly
      once: its own patients give one row, and no other cita's row can
      equal it, because joined rows carry the cita's id. */
  lemma MatchedCitaJoinedOnce(db: Database, c: Cita, k: nat)
    requires db.Valid()
    requires c in db.citas
    requires k < |db.pacientes| && db.pacientes[k].id == c.idPaciente
    ensures RowsFor(c, db.pacientes) == [JoinRow(c, db.pacientes[k])]
    ensures multiset(Joined(db.citas, db.pacientes))[JoinRow(c, db.pacientes[k])] == 1
  {
    OneRowPerMatchedCita(c, db.pacientes, k);
    JoinedOnce(db.citas, db.pacientes, c, k);
  }

  /** Induction over the citas for `MatchedCitaJoinedOnce`. */
  lemma {:induction false} JoinedOnce(citas: seq<Cita>, pacientes: seq<Paciente>, c: Cita, k: nat)
    requires c in citas && KeysDistinct(citas, CitaKey())
    requires k < |pacientes| && pacientes[k].id == c.idPaciente
    requires KeysDistinct(pacientes, PacienteKey())
    ensures multiset(Joined(citas, pacientes))[JoinRow(c, pacientes[k])] == 1
  {
    var row := JoinRow(c, pacientes[k]);
    var head, rest := RowsFor(citas[0], pacientes), Joined(citas[1..], pacientes);
    assert Joined(citas, pacientes) == head + rest;
    TailKeysDistinct(citas, CitaKey());
    if citas[0] == c {
      OneRowPerMatchedCita(c, pacientes, k);
      forall c' | c' in citas[1..] ensures c'.id != c.id {
        HeadKeyNotInTail(citas, c', CitaKey());
      }
      assert forall x :: x in rest ==> x.id != c.id;
      assert row !in rest;
    } else {
      assert c in citas[1..];
      HeadKeyNotInTail(citas, c, CitaKey());
      JoinedOnce(citas[1..], pacientes, c, k);
      assert row !in head;
    }
  }

  /** The list is the same for callers of different tenants: it depends on
      the tables only, never on the token's claims. */
  lemma ListingIgnoresTenant(db: Database, h1: Option<string>, h2: Option<string>,
                             secret: string, verify: Verifier, fault: DbFault)
    requires VerifyToken(h1, secret, verify).Next? && VerifyToken(h2, secret, verify).Next?
    ensures ListCitas(db, h1, secret, verify, fault) == ListCitas(db, h2, secret, verify, fault)
  {
  }

  // ---------------------------------------------------------------------------
  // POST /

  /** The request body `{id_inquilino, id_paciente, dia_y_hora, estado}`. */
  datatype CitaBody = CitaBody(idInquilino: int, idPaciente: int, diaYHora: Timestamp, estado: string)

  /** The handler. Every column of the new row, the tenant included, comes
      from the body; the token only decides whether the insert runs. */
  method CreateCita(db: Database, header: Option<string>, secret: string, verify: Verifier,
                    body: CitaBody, fault: DbFault) returns (reply: Reply<Cita>)
    requires db.Valid()
    modifies db
    ensures db.Valid()
    ensures db.pacientes == old(db.pacientes) && db.nextPacienteId == old(db.nextPacienteId)
    ensures VerifyToken(header, secret, verify).Deny? ==>
      reply == Err(401, VerifyToken(header, secret, verify).body) &&
      db.citas == old(db.citas) && db.nextCitaId == old(db.nextCitaId)
    ensures VerifyToken(header, secret, verify).Next? && fault == FailsOnStatement(1) ==>
      reply == Err(500, Error(InternalErrorDot)) &&
      db.citas == old(db.citas) && db.nextCitaId == old(db.nextCitaId)
    ensures VerifyToken(header, secret, verify).Next? && fault != FailsOnStatement(1) ==>
      var row := Cita(old(db.nextCitaId), body.idInquilino, body.idPaciente, body.diaYHora, body.estado);
      reply == Ok(201, row) &&
      db.citas == old(db.citas) + [row] &&
      (forall c :: c in old(db.citas) ==> c.id != row.id) &&
      db.nextCitaId == old(db.nextCitaId) + 1
  {
    var d := VerifyToken(header, secret, verify);
    if d.Deny? {
      return Err(d.status, d.body);
    }
    if fault == FailsOnStatement(1) {
      return Err(500, Error(InternalErrorDot));
    }
    var row := Cita(db.nextCitaId, body.idInquilino, body.idPaciente, body.diaYHora, body.estado);
    db.citas := db.citas + [row];
    db.nextCitaId := db.nextCitaId + 1;
    reply := Ok(201, row);
  }
}
