/** routes/dashboard.js: `GET /dashboard/resumen`, two counts over the
    caller's tenant's citas. The date each count reads is a parameter; the month
    count compares the month number only, so citas of other years count. */
module DashboardRoutes {
  import opened Wrappers
  import opened Collections
  import opened Http
  import opened Tables
  import opened AuthMiddleware

  /** The 200 payload `{citasHoy, citasMes}`. */
  datatype Resumen = Resumen(citasHoy: nat, citasMes: nat)

  /** `id_inquilino = t AND DATE(dia_y_hora) = CURRENT_DATE`. */
  function DueToday(t: int, today: Date): Cita -> bool
  {
    (c: Cita) => c.idInquilino == t && c.diaYHora.date == today
  }

  /** `id_inquilino = t AND EXTRACT(MONTH FROM dia_y_hora) = EXTRACT(MONTH FROM CURRENT_DATE)`. */
  function DueThisMonth(t: int, today: Date): Cita -> bool
  {
    (c: Cita) => c.idInquilino == t && c.diaYHora.date.month == today.month
  }

  /** `citasHoy`: the tenant's citas dated today. */
  function CitasHoy(citas: seq<Cita>, t: int, today: Date): (n: nat)
    ensures n <= |Filter(citas, CitaOf(t))|
  {
    FilterMonotone(citas, DueToday(t, today), CitaOf(t));
    |Filter(citas, DueToday(t, today))|
  }

  /** `citasMes`: the tenant's citas whose month number is today's, any year. */
  function CitasMes(citas: seq<Cita>, t: int, today: Date): (n: nat)
    ensures n <= |Filter(citas, CitaOf(t))|
  {
    FilterMonotone(citas, DueThisMonth(t, today), CitaOf(t));
    |Filter(citas, DueThisMonth(t, today))|
  }

  /** The handler. The `rol` claim is read and never used. The two counts
      are separate statements, each reading `CURRENT_DATE` for itself:
      `hoy` is the date the first one reads and `mes` the date the second
      one reads. They differ only when midnight falls between the two. */
  function GetResumen(db: Database, header: Option<string>, secret: string, verify: Verifier,
                      hoy: Date, mes: Date, fault: DbFault): (r: Reply<Resumen>)
    reads db
    ensures Authenticate(header, secret, verify).Deny? ==>
      r == Err(401, Authenticate(header, secret, verify).body)
    ensures Authenticate(header, secret, verify).Next? &&
            (fault == FailsOnStatement(1) || fault == FailsOnStatement(2)) ==>
      r == Err(500, Message(InternalError))
    ensures Authenticate(header, secret, verify).Next? &&
            fault != FailsOnStatement(1) && fault != FailsOnStatement(2) ==>
      var t := Authenticate(header, secret, verify).user.idInquilino;
      r.Ok? && r.status == 200 &&
      r.value == Resumen(CitasHoy(db.citas, t, hoy), CitasMes(db.citas, t, mes)) &&
      (hoy == mes ==> r.value.citasHoy <= r.value.citasMes)
  {
    match Authenticate(header, secret, verify)
    case Deny(status, body) => Err(status, body)
    case Next(user) =>
      if fault == FailsOnStatement(1) || fault == FailsOnStatement(2) then Err(500, Message(InternalError))
      else
        HoyWithinMes(db.citas, user.idInquilino, hoy);
        Ok(200, Resumen(CitasHoy(db.citas, user.idInquilino, hoy), CitasMes(db.citas, user.idInquilino, mes)))
  }

  /** A cita dated today lies in the current month, so `citasHoy <= citasMes`. */
  lemma HoyWithinMes(citas: seq<Cita>, t: int, today: Date)
    ensures CitasHoy(citas, t, today) <= CitasMes(citas, t, today)
  {
    FilterMonotone(citas, DueToday(t, today), DueThisMonth(t, today));
  }

  /** Two tables that hold the same citas for tenant `t` give `t` the same
      counts: other tenants' rows never matter. */
  lemma CountsSeeOnlyTenant(c1: seq<Cita>, c2: seq<Cita>, t: int, today: Date)
    requires Filter(c1, CitaOf(t)) == Filter(c2, CitaOf(t))
    ensures CitasHoy(c1, t, today) == CitasHoy(c2, t, today)
    ensures CitasMes(c1, t, today) == CitasMes(c2, t, today)
  {
    FilterAbsorb(c1, CitaOf(t), DueToday(t, today));
    FilterAbsorb(c2, CitaOf(t), DueToday(t, today));
    FilterAbsorb(c1, CitaOf(t), DueThisMonth(t, today));
    FilterAbsorb(c2, CitaOf(t), DueThisMonth(t, today));
  }

  /** Adding a cita of another tenant changes neither count. */
  lemma OtherTenantCitaInvisible(citas: seq<Cita>, c: Cita, t: int, today: Date)
    requires c.idInquilino != t
    ensures CitasHoy(citas + [c], t, today) == CitasHoy(citas, t, today)
    ensures CitasMes(citas + [c], t, today) == CitasMes(citas, t, today)
  {
    FilterAppend(citas, [c], CitaOf(t));
    CountsSeeOnlyTenant(citas + [c], citas, t, today);
  }

  /** The month count ignores the year: a cita of the same month a year ago
      counts in `citasMes` and not in `citasHoy`. */
  lemma MonthIgnoresYear(t: int, today: Date, c: Cita)
    requires c.idInquilino == t && c.diaYHora.date == today.(year := today.year - 1)
    ensures CitasMes([c], t, today) == 1
    ensures CitasHoy([c], t, today) == 0
  {
    assert DueThisMonth(t, today)(c);
    assert !DueToday(t, today)(c);
    assert Filter([c], DueThisMonth(t, today)) == [c];
  }

  /** Midnight between the two statements: a cita late on the last day of a
      month is counted by the first statement and missed by the second, so
      the reply can carry `citasHoy > citasMes`. */
  lemma MidnightSplitsCounts(t: int, c: Cita, hoy: Date, mes: Date)
    requires c.idInquilino == t && c.diaYHora.date == hoy && mes.month != hoy.month
    ensures CitasHoy([c], t, hoy) == 1
    ensures CitasMes([c], t, mes) == 0
    ensures CitasHoy([c], t, hoy) > CitasMes([c], t, mes)
  {
    assert DueToday(t, hoy)(c);
    assert !DueThisMonth(t, mes)(c);
    assert Filter([c], DueToday(t, hoy)) == [c];
  }

  /** The `rol` claim does not influence the reply. */
  lemma RoleIrrelevant(db: Database, h1: Option<string>, h2: Option<string>, secret: string,
                       verify: Verifier, hoy: Date, mes: Date, fault: DbFault)
    requires Authenticate(h1, secret, verify).Next? && Authenticate(h2, secret, verify).Next?
    requires Authenticate(h1, secret, verify).user.idInquilino == Authenticate(h2, secret, verify).user.idInquilino
    ensures GetResumen(db, h1, secret, verify, hoy, mes, fault) == GetResumen(db, h2, secret, verify, hoy, mes, fault)
  {
  }
}
