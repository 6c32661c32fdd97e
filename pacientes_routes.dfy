/** routes/pacientes.js: list, create, update and delete patients, every one
    behind `authMiddleware` and scoped by the `id_inquilino` claim of the
    token. The delete issues two statements with no transaction around them. */
module PacientesRoutes {
  import opened Wrappers
  import opened Collections
  import opened Http
  import opened Tables
  import opened AuthMiddleware

  /** The request body `{nombre_completo, cedula, email}`. */
  datatype PacienteBody = PacienteBody(nombreCompleto: string, cedula: string, email: string)

  const NotFoundMessage := "Paciente no encontrado o no autorizado"
  const DeletedMessage := "Paciente y citas asociadas eliminadas con éxito"

  /** `WHERE id = $id AND id_inquilino = $t` on `pacientes`. */
  function Matches(id: int, t: int): Paciente -> bool
  {
    (p: Paciente) => p.id == id && p.idInquilino == t
  }

  /** The rows `DELETE FROM pacientes WHERE id = $id AND id_inquilino = $t` keeps. */
  function KeepPaciente(id: int, t: int): Paciente -> bool
  {
    (p: Paciente) => !(p.id == id && p.idInquilino == t)
  }

  /** The rows `DELETE FROM citas WHERE id_paciente = $id AND id_inquilino = $t` keeps. */
  function KeepCita(id: int, t: int): Cita -> bool
  {
    (c: Cita) => !(c.idPaciente == id && c.idInquilino == t)
  }

  // ---------------------------------------------------------------------------
  // GET /pacientes

  /** The handler's reply: the 401 of the middleware, a 500, or 200 with
      exactly the caller's tenant's rows. */
  function ListPacientes(db: Database, header: Option<string>, secret: string, verify: Verifier,
                         fault: DbFault): (r: Reply<seq<Paciente>>)
    reads db
    ensures Authenticate(header, secret, verify).Deny? ==>
      r == Err(401, Authenticate(header, secret, verify).body)
    ensures Authenticate(header, secret, verify).Next? && fault == FailsOnStatement(1) ==>
      r == Err(500, Message(InternalError))
    ensures Authenticate(header, secret, verify).Next? && fault != FailsOnStatement(1) ==>
      r.Ok? && r.status == 200 &&
      forall p :: p in r.value <==>
        p in db.pacientes && p.idInquilino == Authenticate(header, secret, verify).user.idInquilino
  {
    match Authenticate(header, secret, verify)
    case Deny(status, body) => Err(status, body)
    case Next(user) =>
      if fault == FailsOnStatement(1) then Err(500, Message(InternalError))
      else Ok(200, Filter(db.pacientes, PacienteOf(user.idInquilino)))
  }

  // ---------------------------------------------------------------------------
  // POST /pacientes

  /** The handler. The new row's tenant is the token's, never the body's. */
  method CreatePaciente(db: Database, header: Option<string>, secret: string, verify: Verifier,
                        body: PacienteBody, fault: DbFault) returns (reply: Reply<Paciente>)
    requires db.Valid()
    modifies db
    ensures db.Valid()
    ensures db.citas == old(db.citas) && db.nextCitaId == old(db.nextCitaId)
    ensures Authenticate(header, secret, verify).Deny? ==>
      reply == Err(401, Authenticate(header, secret, verify).body) &&
      db.pacientes == old(db.pacientes) && db.nextPacienteId == old(db.nextPacienteId)
    ensures Authenticate(header, secret, verify).Next? && fault == FailsOnStatement(1) ==>
      reply == Err(500, Message(InternalError)) &&
      db.pacientes == old(db.pacientes) && db.nextPacienteId == old(db.nextPacienteId)
    ensures Authenticate(header, secret, verify).Next? && fault != FailsOnStatement(1) ==>
      var row := Paciente(old(db.nextPacienteId), Authenticate(header, secret, verify).user.idInquilino,
                          body.nombreCompleto, body.cedula, body.email, None, None);
      reply == Ok(201, row) &&
      db.pacientes == old(db.pacientes) + [row] &&
      (forall p :: p in old(db.pacientes) ==> p.id != row.id) &&
      db.nextPacienteId == old(db.nextPacienteId) + 1
  {
    var d := Authenticate(header, secret, verify);
    if d.Deny? {
      return Err(d.status, d.body);
    }
    if fault == FailsOnStatement(1) {
      return Err(500, Message(InternalError));
    }
    var row := Paciente(db.nextPacienteId, d.user.idInquilino,
                        body.nombreCompleto, body.cedula, body.email, None, None);
    db.pacientes := db.pacientes + [row];
    db.nextPacienteId := db.nextPacienteId + 1;
    reply := Ok(201, row);
  }

  /** Appending a row of one tenant leaves every other tenant's view as it was. */
  lemma InsertIsolation(rows: seq<Paciente>, row: Paciente, other: int)
    requires row.idInquilino != other
    ensures Filter(rows + [row], PacienteOf(other)) == Filter(rows, PacienteOf(other))
  {
    FilterAppend(rows, [row], PacienteOf(other));
  }

  // ---------------------------------------------------------------------------
  // PUT /pacientes/:id

  /** `UPDATE pacientes SET nombre_completo, cedula, email WHERE id AND id_inquilino`. */
  function UpdateMatching(rows: seq<Paciente>, id: int, t: int, body: PacienteBody): (r: seq<Paciente>)
    ensures |r| == |rows|
    ensures forall i :: 0 <= i < |rows| ==>
      r[i] == if Matches(id, t)(rows[i])
              then rows[i].(nombreCompleto := body.nombreCompleto, cedula := body.cedula, email := body.email)
              else rows[i]
  {
    if rows == [] then []
    else
      var head := if Matches(id, t)(rows[0])
                  then rows[0].(nombreCompleto := body.nombreCompleto, cedula := body.cedula, email := body.email)
                  else rows[0];
      [head] + UpdateMatching(rows[1..], id, t, body)
  }

  /** The update touches no other tenant's rows. */
  lemma {:induction false} UpdateIsolation(rows: seq<Paciente>, id: int, t: int, body: PacienteBody, other: int)
    requires other != t
    ensures Filter(UpdateMatching(rows, id, t, body), PacienteOf(other)) == Filter(rows, PacienteOf(other))
  {
    if rows != [] {
      UpdateIsolation(rows[1..], id, t, body, other);
      var r := UpdateMatching(rows, id, t, body);
      assert r[1..] == UpdateMatching(rows[1..], id, t, body);
      assert PacienteOf(other)(r[0]) == PacienteOf(other)(rows[0]);
      if PacienteOf(other)(rows[0]) {
        assert r[0] == rows[0];
      }
    }
  }

  /** The rows the update reports (`RETURNING *`) are the ones that matched
      before, now carrying the body's fields; their number is unchanged. */
  lemma {:induction false} UpdateReturning(rows: seq<Paciente>, id: int, t: int, body: PacienteBody)
    ensures |Filter(UpdateMatching(rows, id, t, body), Matches(id, t))| == |Filter(rows, Matches(id, t))|
    ensures forall p :: p in Filter(UpdateMatching(rows, id, t, body), Matches(id, t)) ==>
      p.nombreCompleto == body.nombreCompleto && p.cedula == body.cedula && p.email == body.email
  {
    if rows != [] {
      UpdateReturning(rows[1..], id, t, body);
      var r := UpdateMatching(rows, id, t, body);
      assert r[1..] == UpdateMatching(rows[1..], id, t, body);
      assert Matches(id, t)(r[0]) == Matches(id, t)(rows[0]);
    }
  }

  /** An id the caller's tenant does not own: the table is left as it was. */
  lemma {:induction false} UpdateNoMatch(rows: seq<Paciente>, id: int, t: int, body: PacienteBody)
    requires Filter(rows, Matches(id, t)) == []
    ensures UpdateMatching(rows, id, t, body) == rows
  {
    if rows != [] {
      assert rows[0] !in Filter(rows, Matches(id, t));
      assert Filter(rows[1..], Matches(id, t)) == [];
      UpdateNoMatch(rows[1..], id, t, body);
    }
  }

  /** The update writes no `id`: distinct ids below the counter stay so. */
  lemma UpdateKeepsIds(rows: seq<Paciente>, id: int, t: int, body: PacienteBody, bound: int)
    requires forall p :: p in rows ==> p.id < bound
    requires KeysDistinct(rows, PacienteKey())
    ensures forall p :: p in UpdateMatching(rows, id, t, body) ==> p.id < bound
    ensures KeysDistinct(UpdateMatching(rows, id, t, body), PacienteKey())
  {
    var r := UpdateMatching(rows, id, t, body);
    assert forall i :: 0 <= i < |r| ==> r[i].id == rows[i].id && rows[i] in rows;
  }

  /** The handler: 404 when the id is not the caller's tenant's, else 200 with
      the updated row. The `:id` parameter is taken as already an integer. */
  method UpdatePaciente(db: Database, header: Option<string>, secret: string, verify: Verifier,
                        id: int, body: PacienteBody, fault: DbFault) returns (reply: Reply<Paciente>)
    requires db.Valid()
    modifies db
    ensures db.Valid()
    ensures db.citas == old(db.citas)
    ensures db.nextPacienteId == old(db.nextPacienteId) && db.nextCitaId == old(db.nextCitaId)
    ensures Authenticate(header, secret, verify).Deny? ==>
      reply == Err(401, Authenticate(header, secret, verify).body) && db.pacientes == old(db.pacientes)
    ensures Authenticate(header, secret, verify).Next? && fault == FailsOnStatement(1) ==>
      reply == Err(500, Message(InternalError)) && db.pacientes == old(db.pacientes)
    ensures Authenticate(header, secret, verify).Next? && fault != FailsOnStatement(1) ==>
      var t := Authenticate(header, secret, verify).user.idInquilino;
      db.pacientes == UpdateMatching(old(db.pacientes), id, t, body) &&
      (Filter(old(db.pacientes), Matches(id, t)) == [] ==>
         reply == Err(404, Message(NotFoundMessage)) && db.pacientes == old(db.pacientes)) &&
      (Filter(old(db.pacientes), Matches(id, t)) != [] ==>
         reply.Ok? && reply.status == 200 && reply.value in db.pacientes &&
         reply.value.id == id && reply.value.idInquilino == t &&
         reply.value.nombreCompleto == body.nombreCompleto &&
         reply.value.cedula == body.cedula && reply.value.email == body.email)
  {
    var d := Authenticate(header, secret, verify);
    if d.Deny? {
      return Err(d.status, d.body);
    }
    if fault == FailsOnStatement(1) {
      return Err(500, Message(InternalError));
    }
    var t := d.user.idInquilino;
    ghost var before := db.pacientes;
    db.pacientes := UpdateMatching(db.pacientes, id, t, body);
    UpdateKeepsIds(before, id, t, body, db.nextPacienteId);
    var returning := Filter(db.pacientes, Matches(id, t));
    UpdateReturning(before, id, t, body);
    if |returning| == 0 {
      UpdateNoMatch(before, id, t, body);
      reply := Err(404, Message(NotFoundMessage));
    } else {
      assert returning[0] in returning;
      reply := Ok(200, returning[0]);
    }
  }

  // ---------------------------------------------------------------------------
  // DELETE /pacientes/:id

  /** The handler. Statement 1 deletes the tenant's citas of that patient,
      statement 2 the patient. They run in that order without a transaction:
      the citas are gone even when the patient turns out not to exist, and a
      failure of statement 2 leaves statement 1 in effect. */
  method DeletePaciente(db: Database, header: Option<string>, secret: string, verify: Verifier,
                        id: int, fault: DbFault) returns (reply: Reply<Body>)
    requires db.Valid()
    modifies db
    ensures db.Valid()
    ensures db.nextPacienteId == old(db.nextPacienteId) && db.nextCitaId == old(db.nextCitaId)
    ensures Authenticate(header, secret, verify).Deny? ==>
      reply == Err(401, Authenticate(header, secret, verify).body) &&
      db.pacientes == old(db.pacientes) && db.citas == old(db.citas)
    ensures Authenticate(header, secret, verify).Next? && fault == FailsOnStatement(1) ==>
      reply == Err(500, Message(InternalError)) &&
      db.pacientes == old(db.pacientes) && db.citas == old(db.citas)
    ensures Authenticate(header, secret, verify).Next? && fault == FailsOnStatement(2) ==>
      var t := Authenticate(header, secret, verify).user.idInquilino;
      reply == Err(500, Message(InternalError)) &&
      db.pacientes == old(db.pacientes) && db.citas == Filter(old(db.citas), KeepCita(id, t))
    ensures Authenticate(header, secret, verify).Next? && fault != FailsOnStatement(1) && fault != FailsOnStatement(2) ==>
      var t := Authenticate(header, secret, verify).user.idInquilino;
      db.citas == Filter(old(db.citas), KeepCita(id, t)) &&
      db.pacientes == Filter(old(db.pacientes), KeepPaciente(id, t)) &&
      (forall c :: c in db.citas ==> !(c.idPaciente == id && c.idInquilino == t)) &&
      (forall p :: p in db.pacientes ==> !(p.id == id && p.idInquilino == t)) &&
      reply == if Filter(old(db.pacientes), Matches(id, t)) == []
               then Err(404, Message(NotFoundMessage))
               else Ok(200, Message(DeletedMessage))
  {
    var d := Authenticate(header, secret, verify);
    if d.Deny? {
      return Err(d.status, d.body);
    }
    var t := d.user.idInquilino;
    if fault == FailsOnStatement(1) {
      return Err(500, Message(InternalError));
    }
    FilterKeepsKeysDistinct(db.citas, KeepCita(id, t), CitaKey());
    db.citas := Filter(db.citas, KeepCita(id, t));
    if fault == FailsOnStatement(2) {
      return Err(500, Message(InternalError));
    }
    var deleted := Filter(db.pacientes, Matches(id, t));
    FilterKeepsKeysDistinct(db.pacientes, KeepPaciente(id, t), PacienteKey());
    db.pacientes := Filter(db.pacientes, KeepPaciente(id, t));
    if |deleted| == 0 {
      reply := Err(404, Message(NotFoundMessage));
    } else {
      reply := Ok(200, Message(DeletedMessage));
    }
  }

  /** The cascade leaves every other tenant's citas as they were, including
      those that name the same `id_paciente`. */
  lemma DeleteCitasIsolation(citas: seq<Cita>, id: int, t: int, other: int)
    requires other != t
    ensures Filter(Filter(citas, KeepCita(id, t)), CitaOf(other)) == Filter(citas, CitaOf(other))
  {
    FilterAbsorb(citas, KeepCita(id, t), CitaOf(other));
  }

  /** Deleting a patient leaves every other tenant's patients as they were. */
  lemma DeletePacienteIsolation(rows: seq<Paciente>, id: int, t: int, other: int)
    requires other != t
    ensures Filter(Filter(rows, KeepPaciente(id, t)), PacienteOf(other)) == Filter(rows, PacienteOf(other))
  {
    FilterAbsorb(rows, KeepPaciente(id, t), PacienteOf(other));
  }

  /** Deleting an id the tenant does not own still removes that tenant's citas
      naming it: statement 1 has already run when the 404 is decided. */
  lemma MissingPatientStillLosesCitas(citas: seq<Cita>, c: Cita, t: int)
    requires c in citas && c.idInquilino == t
    ensures c !in Filter(citas, KeepCita(c.idPaciente, t))
    ensures |Filter(citas, KeepCita(c.idPaciente, t))| < |citas|
  {
    FilterStrict(citas, c, KeepCita(c.idPaciente, t));
  }

  /** A filter that rejects an element present in the sequence shrinks it. */
  lemma {:induction false} FilterStrict<T(!new)>(s: seq<T>, x: T, p: T -> bool)
    requires x in s && !p(x)
    ensures |Filter(s, p)| < |s|
  {
    if s[0] == x {
      assert |Filter(s[1..], p)| <= |s[1..]|;
    } else {
      FilterStrict(s[1..], x, p);
    }
  }
}
