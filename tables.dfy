/** The two PostgreSQL tables the routes share, `pacientes` and `citas`, held
    in memory. A table is a sequence of rows in storage order; the
    auto-generated `id` column is a counter per table. */
module Tables {
  import opened Wrappers
  import opened Collections

  datatype Date = Date(year: int, month: int, day: int)

  /** The `dia_y_hora` column: a calendar date and a time of day. */
  datatype Timestamp = Timestamp(date: Date, hour: int, minute: int, second: int)

  /** A row of `pacientes`. routes/pacientes.js writes `nombre_completo`,
      `cedula` and `email`; routes/citas.js reads `nombre_paciente` and
      `apellido_paciente`, which the patient routes never set; those two
      columns are assumed to exist and to be nullable (SQL NULL). */
  datatype Paciente = Paciente(
    id: int, idInquilino: int,
    nombreCompleto: string, cedula: string, email: string,
    nombrePaciente: Option<string>, apellidoPaciente: Option<string>)

  /** A row of `citas`. */
  datatype Cita = Cita(id: int, idInquilino: int, idPaciente: int, diaYHora: Timestamp, estado: string)

  /** Where the data layer throws: nowhere, or on the n-th statement a
      handler issues (counting from 1). Statements before it have taken effect. */
  datatype DbFault = Healthy | FailsOnStatement(n: nat)

  /** `WHERE id_inquilino = t` on `pacientes`. */
  function PacienteOf(t: int): Paciente -> bool
  {
    (p: Paciente) => p.idInquilino == t
  }

  /** `WHERE id_inquilino = t` on `citas`. */
  function CitaOf(t: int): Cita -> bool
  {
    (c: Cita) => c.idInquilino == t
  }

  /** The `id` column of `pacientes`. */
  function PacienteKey(): Paciente -> int
  {
    (p: Paciente) => p.id
  }

  /** The `id` column of `citas`. */
  function CitaKey(): Cita -> int
  {
    (c: Cita) => c.id
  }

  /** The database the handlers share. */
  class Database {
    var pacientes: seq<Paciente>
    var citas: seq<Cita>
    var nextPacienteId: int
    var nextCitaId: int

    /** Every stored id was handed out by its table's counter, and no two
        rows of a table share an id (`SERIAL PRIMARY KEY`). */
    ghost predicate Valid()
      reads this
    {
      (forall p :: p in pacientes ==> p.id < nextPacienteId) &&
      (forall c :: c in citas ==> c.id < nextCitaId) &&
      KeysDistinct(pacientes, PacienteKey()) &&
      KeysDistinct(citas, CitaKey())
    }

    /** Empty tables whose serial ids start at 1. */
    constructor ()
      ensures Valid()
      ensures pacientes == [] && citas == []
      ensures nextPacienteId == 1 && nextCitaId == 1
    {
      pacientes, citas := [], [];
      nextPacienteId, nextCitaId := 1, 1;
    }
  }
}
