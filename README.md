# Clinic dashboard: a verified model of its request handlers and UI state

The system is a small clinic dashboard. An Express API over PostgreSQL has
four route files: login, patients, appointments (`citas`) and a dashboard
summary. A JWT middleware guards the routes, and each clinic (tenant,
`id_inquilino`) should see only its own rows. A React front end holds a
login form, an appointment calendar, a user avatar and a sidebar.

This project models the logic of those pieces in Dafny and proves what
each one guarantees:

- **Tables.** `pacientes` and `citas` are sequences of rows in a
  `Tables.Database` class. Each table has a serial-id counter.
- **Database failures.** A `DbFault` value says which SQL statement of a
  handler throws. Statements before it have already taken effect.
- **Crypto calls.** `jwt.verify`, `jwt.sign` and `bcrypt.compare` are
  function-valued parameters (`Http.Verifier`, `Http.Signer`,
  `Http.PasswordCheck`). The model gives them no behaviour of their own.
- **Route handlers.** Each guarded handler first runs its guard
  (`POST /login` has none). Every handler returns
  an `Http.Reply`: a status code plus a JSON payload, or a one-key error
  body. The key is `message` in most files and `error` in
  routes/citas.js.
- **Browser state.** The front-end components that keep state are classes
  whose methods update their fields. The pure helpers are functions.

Module by source file:

| module | source |
|---|---|
| `AuthMiddleware` | middleware/authMiddleware.js |
| `AuthRoutes` | routes/auth.js |
| `PacientesRoutes` | routes/pacientes.js |
| `CitasRoutes` | routes/citas.js |
| `DashboardRoutes` | routes/dashboard.js |
| `AppointmentsPage` | src/pages/Appointments.tsx |
| `LoginForm` | src/components/LoginForm.tsx |
| `UserProfile` | src/components/UserProfile.tsx |
| `AppSidebar` | src/components/AppSidebar.tsx |
| `Strings`, `Collections`, `Http`, `Tables`, `Wrappers` | shared: JS string built-ins, the `WHERE`/`filter` shape, replies and claims, the two tables |

### Where the code departs from what a multi-tenant clinic system needs

The model states what the code does. These are the places where it does
something one would not expect of a tenant-isolated clinic backend:

- **Patient delete.** Deleting a patient and their appointments is not one
  atomic cascade. The code runs two separate statements with no
  transaction, and the appointment delete runs even when the patient does
  not exist.
  `PacientesRoutes.DeletePaciente` models the two steps. Each step can fail
  on its own.
- **Appointment listing.** Every query in routes/pacientes.js and
  routes/dashboard.js is scoped to the token's tenant, but `GET /citas` has
  no tenant filter. `CitasRoutes.ListingIgnoresTenant`
  states this.
- **Appointment creation.** `POST /citas` takes `id_inquilino` from the
  request body, not from the token, unlike `POST /pacientes`, so a caller
  can insert appointments into any tenant.
- **Two token checks.** There are two different ones.
  `AuthMiddleware.Authenticate` cuts out the first "Bearer " wherever it
  occurs. `CitasRoutes.VerifyToken` takes the second space-separated word.
  Their 401 bodies use different keys and different texts.
- **Patient columns.** The two route files disagree about the columns of
  `pacientes`. routes/pacientes.js writes `nombre_completo`; routes/citas.js
  reads `nombre_paciente` and `apellido_paciente`. No table definition is
  part of the model's sources. The model assumes the table has both column
  pairs and that the second pair is nullable. Under that assumption, rows
  created through routes/pacientes.js leave the second pair NULL, and the
  listing then prints the name as "null null".
- **Login errors in the browser.** The login form reads
  `err.response.data.error`, but `POST /login` answers 401 and 500 with
  `{message}`. So the form always shows its own "Email o contraseña
  incorrectos." (`LoginForm.LoginFailureShowsOwnText`).

## Model

| member | source | states |
|---|---|---|
| `AuthMiddleware.ExtractToken` | middleware/authMiddleware.js:4 | an absent header stays absent; a header without "Bearer " is the token unchanged; otherwise the first occurrence of "Bearer " is cut out wherever it lies |
| `AuthMiddleware.Authenticate` | middleware/authMiddleware.js:3-17 | 401 "Acceso denegado. No se proporcionó token." iff the extracted token is absent or empty; 401 "Token inválido." iff it is present and `jwt.verify` throws; `next` (with `req.user` the decoded claims) iff it verifies; only header, secret and verifier are inputs |
| `AuthMiddleware.BearerHeaderYieldsToken` | middleware/authMiddleware.js:4 | "Bearer <t>" yields exactly t, even when t itself contains "Bearer " |
| `AuthMiddleware.BareBearerIsMissingToken` | middleware/authMiddleware.js:4-8 | the header "Bearer " alone gives the missing-token 401, not the invalid-token one |
| `AuthMiddleware.BearerRemovedMidHeader` | middleware/authMiddleware.js:4 | "Token Bearer abc" yields "Token abc": the removal is not anchored at the start |
| `AuthRoutes.FirstIndexByEmail` | routes/auth.js:20-21 | the index of a row whose e-mail equals the given one exactly, with no such row before it; none iff no row has that e-mail |
| `AuthRoutes.FindByEmail` | routes/auth.js:20-21 | the user found is a stored row with exactly that e-mail; none iff no row has it |
| `AuthRoutes.FirstRowWins` | routes/auth.js:20-21 | with duplicate e-mails the earliest row is the one used |
| `AuthRoutes.Login` | routes/auth.js:15-48 | 200 iff the lookup succeeds, bcrypt says the password matches and signing succeeds; the token is the signature of exactly `{id, rol, id_inquilino}` with expiry "1h"; the `user` object is id, rol, id_inquilino and e-mail (no hash); 401 `{message: 'Credenciales inválidas'}` exactly when the lookup succeeds and either no row has the e-mail or bcrypt says the password does not match; 500 `{message: 'Error interno del servidor'}` exactly when the query throws, bcrypt throws, or signing throws after a matching password |
| `AuthRoutes.UnknownEmailLooksLikeWrongPassword` | routes/auth.js:23-32 | an unknown e-mail and a wrong password produce the identical 401 reply |
| `AuthRoutes.LoginTokenAuthenticates` | routes/auth.js:35-42 | if `jwt.verify` accepts what `jwt.sign` issued, a login token sent as "Bearer <token>" passes `authMiddleware` with the account's `{id, rol, id_inquilino}` |
| `PacientesRoutes.ListPacientes` | routes/pacientes.js:15-25 | after the middleware's 401s, a data-layer failure gives 500, otherwise 200 with exactly the rows whose `id_inquilino` is the token's tenant |
| `PacientesRoutes.CreatePaciente` | routes/pacientes.js:28-42 | on success appends exactly one row with a fresh id, the token's tenant and the body's three fields, and replies 201 with that row; a 401 or 500 leaves the tables unchanged |
| `PacientesRoutes.InsertIsolation` | routes/pacientes.js:33-36 | inserting a row for one tenant leaves every other tenant's view of `pacientes` unchanged |
| `PacientesRoutes.UpdateMatching` | routes/pacientes.js:51-54 | row by row, only rows matching both id and tenant change, and only in `nombre_completo`, `cedula` and `email` |
| `PacientesRoutes.UpdateIsolation` | routes/pacientes.js:51-54 | the update leaves every other tenant's rows exactly as they were |
| `PacientesRoutes.UpdateReturning` | routes/pacientes.js:51-59 | the rows reported by `RETURNING` are as many as matched before and carry the body's values |
| `PacientesRoutes.UpdateNoMatch` | routes/pacientes.js:56-58 | an id the caller's tenant does not own leaves the table unchanged |
| `PacientesRoutes.UpdatePaciente` | routes/pacientes.js:45-64 | the new table is the update of the old; 404 'Paciente no encontrado o no autorizado' with nothing changed when no row matches id and tenant, else 200 with an updated row of that id and tenant; 401/500 change nothing |
| `PacientesRoutes.DeletePaciente` | routes/pacientes.js:67-85 | step 1 removes the tenant's citas of that patient, step 2 the patient row; a failure in step 2 leaves step 1 done and replies 500; afterwards no such cita or patient remains; 404 when the patient was absent (its citas already deleted), else 200 with the success message |
| `PacientesRoutes.DeleteCitasIsolation` | routes/pacientes.js:73 | the cascade leaves every other tenant's citas untouched, including those with the same `id_paciente` |
| `PacientesRoutes.DeletePacienteIsolation` | routes/pacientes.js:75 | deleting a patient leaves every other tenant's patients untouched |
| `PacientesRoutes.MissingPatientStillLosesCitas` | routes/pacientes.js:73-79 | a tenant's cita naming the id is removed by step 1 whatever step 2 finds, so the table shrinks even on the 404 path |
| `CitasRoutes.SecondWord` | routes/citas.js:20 | `split(' ')[1]`: present iff the header contains a space; never contains a space itself |
| `CitasRoutes.VerifyToken` | routes/citas.js:19-32 | 401 `{error: 'No se proporcionó el token de autenticación.'}` iff the second word is absent or empty; 401 `{error: 'Token inválido o expirado.'}` iff it fails verification; otherwise `next` with the decoded claims |
| `CitasRoutes.SecondWordAfterScheme` | routes/citas.js:20 | after a space-free first word and one space, the token is the text up to the next space |
| `CitasRoutes.AnySchemeWord` | routes/citas.js:20 | the scheme word is never checked: "Token abc" yields "abc" |
| `CitasRoutes.DoubleSpaceIsMissingToken` | routes/citas.js:20-23 | two spaces after the scheme word give an empty token and the missing-token 401 |
| `CitasRoutes.GuardsAgreeOnBearerHeader` | routes/citas.js:20 | on "Bearer <t>" with a space-free t, both token checks read t |
| `CitasRoutes.RowsFor` | routes/citas.js:45-46 | the joined rows of one cita: one per patient whose id is its `id_paciente`, each with that patient's name columns |
| `CitasRoutes.Joined` | routes/citas.js:38-47 | a row is in the join iff it combines some cita with a patient whose id is the cita's `id_paciente`; there is no tenant condition |
| `CitasRoutes.WithFullName` | routes/citas.js:50-53 | each row keeps its selected columns and gains `paciente_nombre` = name + " " + surname, NULL printing as "null" |
| `CitasRoutes.ListCitas` | routes/citas.js:36-60 | after `verifyToken`'s 401s, a failure gives 500 `{error: 'Error interno del servidor.'}`, otherwise 200 listing every joined row, of every tenant, with its `paciente_nombre` |
| `CitasRoutes.UnmatchedCitaOmitted` | routes/citas.js:45-46 | a cita without a matching patient contributes no row (inner join) |
| `CitasRoutes.OneRowPerMatchedCita` | routes/citas.js:45-46 | with unique patient ids (the `Collections.KeysDistinct` conjuncts of `Tables.Database.Valid`), a cita whose patient exists yields exactly one row |
| `CitasRoutes.MatchedCitaJoinedOnce` | routes/citas.js:38-47 | in any database whose invariant holds, a stored cita whose patient exists contributes exactly one row, and that row occurs exactly once in the whole join (its multiplicity in the result is 1) |
| `CitasRoutes.JoinedOnce` | routes/citas.js:38-47 | over any citas with unique ids and patients with unique ids, a listed cita's joined row has multiplicity exactly 1 in the join |
| `CitasRoutes.TemplateText` | routes/citas.js:52 | a present column value is interpolated as itself and SQL NULL as the four letters "null" |
| `CitasRoutes.ListingIgnoresTenant` | routes/citas.js:38-47 | any two authenticated callers, whatever their tenants, receive the same list |
| `CitasRoutes.CreateCita` | routes/citas.js:64-76 | on success appends one row whose `id_inquilino`, `id_paciente`, `dia_y_hora` and `estado` all come from the body, never the token, and replies 201 with it; 401 and 500 leave the tables unchanged |
| `DashboardRoutes.CitasHoy` | routes/dashboard.js:19-22 | the count of the tenant's citas dated today, at most the tenant's total |
| `DashboardRoutes.CitasMes` | routes/dashboard.js:24-27 | the count of the tenant's citas whose month number is today's (any year), at most the tenant's total |
| `DashboardRoutes.GetResumen` | routes/dashboard.js:15-38 | after the middleware's 401s, a failure of either query gives 500; otherwise 200 with `{citasHoy, citasMes}` for the token's tenant, each count taken at the date its own statement reads; `citasHoy <= citasMes` when both statements read the same date |
| `DashboardRoutes.HoyWithinMes` | routes/dashboard.js:19-27 | `citasHoy <= citasMes` for any table, tenant and day |
| `DashboardRoutes.CountsSeeOnlyTenant` | routes/dashboard.js:19-27 | two tables that agree on tenant t's citas give t the same two counts |
| `DashboardRoutes.OtherTenantCitaInvisible` | routes/dashboard.js:19-27 | adding another tenant's cita changes neither count |
| `DashboardRoutes.MonthIgnoresYear` | routes/dashboard.js:24-27 | a cita in today's month of last year counts in `citasMes` and not in `citasHoy` |
| `DashboardRoutes.MidnightSplitsCounts` | routes/dashboard.js:19-27 | when midnight at a month's end falls between the two statements, a cita dated the first statement's day is counted by it and missed by the second, so `citasHoy > citasMes` |
| `DashboardRoutes.RoleIrrelevant` | routes/dashboard.js:16 | two tokens of the same tenant with different `rol` get the same reply |
| `AppointmentsPage.EventFrom` | src/pages/Appointments.tsx:101-113 | the new event's title is "<name> - Consulta", its start "<date>T<time>:00", its end 30 minutes after its start, with name, description and phone copied |
| `AppointmentsPage.Page.constructor` | src/pages/Appointments.tsx:58-67 | the page starts with the three sample events, the dialog closed, no selected day and an empty form |
| `AppointmentsPage.Page.HandleDateSelect` | src/pages/Appointments.tsx:72-81 | the selected day becomes the form's date, time becomes "09:00", other fields are kept, the dialog opens, events are untouched |
| `AppointmentsPage.Page.OpenNewAppointmentDialog` | src/pages/Appointments.tsx:131-139 | today becomes the form's date, time "09:00", other fields kept, dialog opens; selected day and events untouched |
| `AppointmentsPage.Page.HandleAddAppointment` | src/pages/Appointments.tsx:91-129 | with an empty name, date or time nothing changes; otherwise exactly one event is appended after the existing ones, the dialog closes and all five fields are reset to "" |
| `AppointmentsPage.FormComplete` | src/pages/Appointments.tsx:92 | the guard of `handleAddAppointment`; the cleared form is never accepted |
| `AppointmentsPage.OptionalFieldsNotRequired` | src/pages/Appointments.tsx:92 | phone and description never change whether the form is accepted |
| `AppointmentsPage.PickedDayNeedsOnlyName` | src/pages/Appointments.tsx:72-92 | after a day is picked (date set, time "09:00"), the form is accepted iff the patient's name is non-empty |
| `AppointmentsPage.CitasHoy` | src/pages/Appointments.tsx:317-320 | "Citas Hoy" is at most the number of events, and zero iff no event's start contains today's date |
| `AppointmentsPage.NamesBounded` | src/pages/Appointments.tsx:340 | the set of patient names has at most as many elements as there are events |
| `AppointmentsPage.PacientesUnicos` | src/pages/Appointments.tsx:340 | "Pacientes Únicos" is at most the number of events, and zero iff there are no events |
| `AppointmentsPage.EstaSemana` | src/pages/Appointments.tsx:330 | "Esta Semana" counts every event whatever its date, so neither "Citas Hoy" (for any day) nor "Pacientes Únicos" exceeds it |
| `AppointmentsPage.AppendedEventFigures` | src/pages/Appointments.tsx:317-340 | one appended event adds one to the total, one to the unique names iff its name is new, and one to today's count iff its start contains today's date |
| `AppointmentsPage.AddedTodayCountsToday` | src/pages/Appointments.tsx:317-320 | an event added with today's date in the form is counted under "Citas Hoy" |
| `LoginForm.CaughtError` | src/components/LoginForm.tsx:38-44 | no error text on a 2xx reply; `data.error` when a rejected reply carries a non-empty one, else "Email o contraseña incorrectos."; "Error al conectar con el servidor." without a reply |
| `LoginForm.Received` | src/components/LoginForm.tsx:27-41 | for a reply that is `Ok` exactly when its status is 2xx: axios resolves exactly on a 2xx reply, handing over its `token`; any other reply rejects with `data.error` present exactly when the body's key is `error`; a reply never looks like a missing server |
| `LoginForm.LoginFailureShowsOwnText` | src/components/LoginForm.tsx:40-41 | every refusal of `POST /login` (401 or 500) is shown as "Email o contraseña incorrectos.", because the server puts its text under `message` |
| `LoginForm.Form.constructor` | src/components/LoginForm.tsx:15-18 | empty e-mail and password, not loading, no error, storage as found |
| `LoginForm.Form.SetEmail` | src/components/LoginForm.tsx:69 | the e-mail field takes the input's value |
| `LoginForm.Form.SetPassword` | src/components/LoginForm.tsx:79 | the password field takes the input's value |
| `LoginForm.Form.BeginSubmit` | src/components/LoginForm.tsx:20-30 | `loading` becomes true and `error` is cleared before the request; the request body is exactly the current `{email, password}` |
| `LoginForm.Form.FinishSubmit` | src/components/LoginForm.tsx:32-47 | a truthy token is stored under "token" and `onLoginSuccess` runs once; a 2xx without one changes neither storage nor error; failures set the caught error text; `loading` is false in every case |
| `LoginForm.Form.HandleSubmit` | src/components/LoginForm.tsx:20-48 | the whole submit: posts the current fields, ends not loading, with the caught error text, and stores the token and calls `onLoginSuccess` only on a truthy token |
| `UserProfile.FirstLetters` | src/components/UserProfile.tsx:49-51 | one character per non-empty word, its first, in order; empty words contribute nothing |
| `UserProfile.GetInitials` | src/components/UserProfile.tsx:47-54 | at most two characters: the upper-cased first letters of the first two non-empty words, in order |
| `UserProfile.EmptyNameNoInitials` | src/components/UserProfile.tsx:47-54 | the empty name yields "" |
| `UserProfile.OneWordOneInitial` | src/components/UserProfile.tsx:47-54 | a one-word name yields its upper-cased first letter alone |
| `UserProfile.LeadingSpaceIgnored` | src/components/UserProfile.tsx:49-51 | a leading space changes nothing |
| `UserProfile.RepeatedSpaceIgnored` | src/components/UserProfile.tsx:49-51 | a doubled space between words changes nothing |
| `UserProfile.ThreeWordInitials` | src/components/UserProfile.tsx:47-54 | a three-word name yields the upper-cased first letters of its first two words |
| `UserProfile.ProfileFallback` | src/components/UserProfile.tsx:47-54 | the header's profile name "Dr. María González" (line 27) falls back to "DM" |
| `AppSidebar.IsActive` | src/components/AppSidebar.tsx:46-51 | an active link is always a prefix of the current path; the only prefix that is not active is the root link away from "/" |
| `AppSidebar.NavClass` | src/components/AppSidebar.tsx:53-54 | "bg-primary text-primary-foreground" exactly when active, "hover:bg-muted" exactly when not |
| `AppSidebar.RootOnlyOnRoot` | src/components/AppSidebar.tsx:46-49 | `isActive("/")` holds iff the current path is exactly "/" |
| `AppSidebar.OtherLinksByPrefix` | src/components/AppSidebar.tsx:50 | for any other path p, `isActive(p)` holds iff the current path starts with p |
| `AppSidebar.ActiveOnOwnPath` | src/components/AppSidebar.tsx:46-51 | every link is active on its own path |
| `AppSidebar.PrefixIgnoresSegments` | src/components/AppSidebar.tsx:46-51 | "/patients" is active on "/patients/new" and on "/patientsX", not on "/appointments" |
| `Strings.Split` | src/components/UserProfile.tsx:49 | `split` by one character: at least one piece, none containing the separator, a single piece iff the separator is absent |
| `Strings.JoinSplit` | routes/citas.js:20 | joining the pieces of a split with the separator gives back the string |
| `Strings.SplitJoin` | routes/citas.js:20 | splitting separator-free pieces joined by the separator gives back the pieces |
| `Strings.SplitAround` | routes/citas.js:20 | splitting at a known separator gives the left pieces followed by the right pieces |
| `Strings.IndexOf` | middleware/authMiddleware.js:4 | the first occurrence of the pattern: it occurs there and nowhere before; none iff it occurs nowhere |
| `Strings.RemoveFirst` | middleware/authMiddleware.js:4 | `replace` with a literal: unchanged when the pattern is absent; otherwise exactly `|pat|` characters shorter, and putting the pattern back at its first occurrence gives the original string |
| `Strings.RemoveFirstPrefix` | middleware/authMiddleware.js:4 | a string starting with the pattern loses exactly that prefix |
| `Strings.Upper` | src/components/UserProfile.tsx:52 | same length, each character upper-cased (ASCII letters only) |
| `Tables.Database.constructor` | routes/pacientes.js:33-36 | empty tables whose serial ids start at 1, establishing the invariant every handler keeps: each id is below its table's counter and no two rows of a table share an id |
| `Collections.Filter` | routes/pacientes.js:19 | the kept rows are exactly those of the table satisfying the condition, no more than the table holds |

## Left out

- `jwt.verify`, `jwt.sign` and `bcrypt.compare` are parameters with no behaviour of their own. Token expiry, signatures and hashing belong to them. The link from signing to verifying is a precondition of `AuthRoutes.LoginTokenAuthenticates`.
- PostgreSQL itself is left out. That covers connection pools, `RETURNING` mechanics, coercion of the `:id` path string to an integer (the model takes an integer), NULLs from missing body fields, and the text-to-timestamp parsing of `dia_y_hora` (the model takes a parsed `Timestamp`). Row order without `ORDER BY` is modelled as table order. Results are compared by membership.
- Serial ids: a failed insert consumes no id in the model. PostgreSQL may consume one.
- DashboardRoutes.GetResumen: the two counts are separate statements, and each reads `CURRENT_DATE` for itself. The model passes one date per statement, so around midnight the two counts can disagree (`DashboardRoutes.MidnightSplitsCounts`). `citasHoy <= citasMes` is promised only when both statements read the same date.
- Transactions and concurrent requests are left out. Each handler runs alone. The patient delete is two sequential steps, as in the code.
- `CURRENT_DATE`, `DATE()`, `EXTRACT(MONTH ...)`, JavaScript `Date` and `toISOString` are left out, with their time zones. Today's date and the selected day are parameters. The selected day stands for the UTC date `toISOString` gives for the selection's start, which east of UTC is the day before the clicked cell. An appointment's end is an abstract minute count produced by a `Clock` parameter, not the ISO string the page stores.
- `Date.now()` ids are a parameter.
- Strings.Upper: upper-cases ASCII letters only. JavaScript `toUpperCase` also maps other Unicode letters, so `UserProfile.GetInitials` agrees with the page only when the first letters are ASCII or already upper case.
- UserProfile.GetInitials: works on whole characters (code points), while `word[0]` and `.slice(0, 2)` work on UTF-16 code units. A word starting with a character outside the Basic Multilingual Plane gives a lone surrogate on the page and a whole character in the model.
- Tables.Paciente: the `pacientes` schema is not part of the model's sources. The model assumes the table has both `nombre_completo` and the `nombre_paciente`/`apellido_paciente` pair, with the pair nullable, so `PacientesRoutes.CreatePaciente` stores NULL there. If the pair were missing, every `GET /citas` would fail with 500. If it were NOT NULL without a default, every `POST /pacientes` would fail with 500. Neither case is modelled.
- Express wiring is left out. That includes server.js and the ES-module/CommonJS mismatch of routes/citas.js, and `console.error` logging.
- The hard-coded database credentials and JWT secret of routes/citas.js are left out. The secret is a parameter like any other.
- Toasts, JSX and the FullCalendar configuration are left out. So are `handleEventClick` and `handleLogout`, which only show a toast, and `handleProfileAction`. The form inputs' `onChange` setters of src/pages/Appointments.tsx:172-240 are left out. They copy one input into one form field.
- `NavLink` at src/components/AppSidebar.tsx:85 computes its own active flag, which is not modelled. `isActive` is modelled even though nothing calls it.
- LoginForm: an exception thrown by `localStorage.setItem` or `onLoginSuccess` inside the `try` block would also reach the `catch`. The model treats both as not throwing.
- Presentational components are not modelled: src/pages/Dashboard.tsx, src/App.tsx, src/components/StatCard.tsx, src/components/AppointmentsList.tsx and src/components/RecentPatients.tsx.
- Clearing the stored token on a 401 and re-prompting login are not modelled. The source does not do this.
