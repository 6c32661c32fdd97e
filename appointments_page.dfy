/** src/pages/Appointments.tsx: the calendar page's state (event list,
    dialog flag, selected day, the five-field form), its three handlers, and
    the three figures under the calendar. Clock readings and the conversion
    of date strings to instants are parameters. */
module AppointmentsPage {
  import opened Strings
  import opened Collections

  /** The `newAppointment` form. */
  datatype AppointmentForm = AppointmentForm(
    patientName: string, phone: string, description: string, date: string, time: string)

  const EmptyForm := AppointmentForm("", "", "", "", "")
  const DefaultTime := "09:00"

  /** A calendar event. `end` is the instant the event ends, in minutes; the
      page renders it with `toISOString`, which this model does not. */
  datatype AppointmentEvent = AppointmentEvent(
    id: string, title: string, start: string, end: int,
    patientName: string, description: string, phone: string)

  /** `new Date(s)` for a local date-time string, read in whole minutes. */
  type Clock = string -> int

  /** The three sample events the page starts with. */
  function InitialEvents(clock: Clock): seq<AppointmentEvent>
  {
    [ AppointmentEvent("1", "Juan Pérez - Consulta General", "2024-12-10T09:00:00",
                       clock("2024-12-10T09:30:00"), "Juan Pérez", "Consulta de rutina", "+1234567890"),
      AppointmentEvent("2", "María García - Seguimiento", "2024-12-10T14:00:00",
                       clock("2024-12-10T14:30:00"), "María García", "Seguimiento post-cirugía", "+0987654321"),
      AppointmentEvent("3", "Carlos Rodríguez - Control", "2024-12-11T10:00:00",
                       clock("2024-12-11T10:30:00"), "Carlos Rodríguez", "Control de presión arterial", "+1122334455") ]
  }

  /** The check at the top of `handleAddAppointment`: name, date and time
      must be non-empty; phone and description may be empty. */
  predicate FormComplete(f: AppointmentForm)
    ensures FormComplete(f) ==> f != EmptyForm
  {
    f.patientName != "" && f.date != "" && f.time != ""
  }

  /** Phone and description never decide whether an appointment is added. */
  lemma OptionalFieldsNotRequired(f: AppointmentForm, phone: string, description: string)
    ensures FormComplete(f.(phone := phone, description := description)) == FormComplete(f)
  {
  }

  /** Once a day has been picked (date set, time "09:00"), only the patient's
      name can still block the appointment. */
  lemma PickedDayNeedsOnlyName(f: AppointmentForm, day: string)
    requires day != ""
    ensures FormComplete(f.(date := day, time := DefaultTime)) <==> f.patientName != ""
  {
  }

  /** `${date}T${time}:00`. */
  function StartOf(f: AppointmentForm): string
  {
    f.date + "T" + f.time + ":00"
  }

  /** The event `handleAddAppointment` builds from the form. */
  function EventFrom(f: AppointmentForm, id: string, clock: Clock): (e: AppointmentEvent)
    ensures e.title == f.patientName + " - Consulta"
    ensures e.end - clock(e.start) == 30
    ensures e.start == f.date + "T" + f.time + ":00"
    ensures (e.patientName, e.description, e.phone) == (f.patientName, f.description, f.phone)
  {
    var start := StartOf(f);
    AppointmentEvent(id, f.patientName + " - Consulta", start, clock(start) + 30,
                     f.patientName, f.description, f.phone)
  }

  class Page {
    var events: seq<AppointmentEvent>
    var isDialogOpen: bool
    var selectedDate: string
    var newAppointment: AppointmentForm

    /** The page as first rendered. */
    constructor (clock: Clock)
      ensures events == InitialEvents(clock)
      ensures !isDialogOpen && selectedDate == "" && newAppointment == EmptyForm
    {
      events := InitialEvents(clock);
      isDialogOpen := false;
      selectedDate := "";
      newAppointment := EmptyForm;
    }

    /** `handleDateSelect`: `day` is the UTC date of the selection's start,
        as YYYY-MM-DD. */
    method HandleDateSelect(day: string)
      modifies this
      ensures selectedDate == day
      ensures newAppointment == old(newAppointment).(date := day, time := DefaultTime)
      ensures isDialogOpen
      ensures events == old(events)
    {
      selectedDate := day;
      newAppointment := newAppointment.(date := day, time := DefaultTime);
      isDialogOpen := true;
    }

    /** `openNewAppointmentDialog`: `today` is the current day as YYYY-MM-DD.
        Unlike a date selection, it leaves `selectedDate` alone. */
    method OpenNewAppointmentDialog(today: string)
      modifies this
      ensures newAppointment == old(newAppointment).(date := today, time := DefaultTime)
      ensures isDialogOpen
      ensures events == old(events) && selectedDate == old(selectedDate)
    {
      newAppointment := newAppointment.(date := today, time := DefaultTime);
      isDialogOpen := true;
    }

    /** `handleAddAppointment`: `now` is `Date.now().toString()`. An incomplete
        form changes nothing; otherwise one event is appended, the dialog
        closes and the form is cleared. */
    method HandleAddAppointment(now: string, clock: Clock) returns (added: bool)
      modifies this
      ensures added == FormComplete(old(newAppointment))
      ensures !added ==>
        events == old(events) && isDialogOpen == old(isDialogOpen) && newAppointment == old(newAppointment)
      ensures added ==>
        events == old(events) + [EventFrom(old(newAppointment), now, clock)] &&
        !isDialogOpen && newAppointment == EmptyForm
      ensures selectedDate == old(selectedDate)
    {
      if !FormComplete(newAppointment) {
        return false;
      }
      var newEvent := EventFrom(newAppointment, now, clock);
      events := events + [newEvent];
      isDialogOpen := false;
      newAppointment := EmptyForm;
      added := true;
    }
  }

  // ---------------------------------------------------------------------------
  // The figures under the calendar

  /** `event.start?.includes(today)`. */
  function StartsOn(today: string): AppointmentEvent -> bool
  {
    (e: AppointmentEvent) => Contains(e.start, today)
  }

  /** "Citas Hoy": the events whose start string contains today's date. */
  function CitasHoy(events: seq<AppointmentEvent>, today: string): (n: nat)
    ensures n <= |events|
    ensures n == 0 <==> forall e :: e in events ==> !Contains(e.start, today)
  {
    var hoy := Filter(events, StartsOn(today));
    assert hoy != [] ==> hoy[0] in hoy;
    |hoy|
  }

  /** The patient names on the page, `new Set(events.map(e => e.patientName))`. */
  function Names(events: seq<AppointmentEvent>): set<string>
  {
    set e | e in events :: e.patientName
  }

  /** A list of events names at most as many patients as it has events. */
  lemma {:induction false} NamesBounded(events: seq<AppointmentEvent>)
    ensures |Names(events)| <= |events|
  {
    if events != [] {
      NamesBounded(events[1..]);
      assert events == [events[0]] + events[1..];
      assert Names(events) == {events[0].patientName} + Names(events[1..]);
    }
  }

  /** "Pacientes Únicos": the number of distinct patient names. */
  function PacientesUnicos(events: seq<AppointmentEvent>): (n: nat)
    ensures n <= |events|
    ensures n == 0 <==> events == []
  {
    NamesBounded(events);
    assert events != [] ==> events[0].patientName in Names(events);
    |Names(events)|
  }

  /** "Esta Semana": despite its label, every event on the page, whatever its
      date; neither other figure can exceed it. */
  function EstaSemana(events: seq<AppointmentEvent>): (n: nat)
    ensures forall today :: CitasHoy(events, today) <= n
    ensures PacientesUnicos(events) <= n
  {
    |events|
  }

  /** How one appended event moves the figures: the total by one, the unique
      names by one exactly when the name is new, today's count by one exactly
      when the start contains today's date. */
  lemma AppendedEventFigures(events: seq<AppointmentEvent>, e: AppointmentEvent, today: string)
    ensures EstaSemana(events + [e]) == EstaSemana(events) + 1
    ensures PacientesUnicos(events + [e]) ==
      PacientesUnicos(events) + (if e.patientName in Names(events) then 0 else 1)
    ensures CitasHoy(events + [e], today) == CitasHoy(events, today) + (if Contains(e.start, today) then 1 else 0)
  {
    NamesAppend(events, e);
    TodayAppend(events, e, today);
  }

  /** The names after an append are the old names plus the new event's. */
  lemma NamesAppend(events: seq<AppointmentEvent>, e: AppointmentEvent)
    ensures Names(events + [e]) == Names(events) + {e.patientName}
  {
    forall n | n in Names(events + [e]) ensures n in Names(events) + {e.patientName} {
      var x :| x in events + [e] && x.patientName == n;
      assert x in events || x == e;
    }
    forall n | n in Names(events) + {e.patientName} ensures n in Names(events + [e]) {
      if n == e.patientName {
        assert e in events + [e];
      } else {
        var x :| x in events && x.patientName == n;
        assert x in events + [e];
      }
    }
  }

  /** Today's count after an append grows by one exactly when the new event
      starts today. */
  lemma TodayAppend(events: seq<AppointmentEvent>, e: AppointmentEvent, today: string)
    ensures CitasHoy(events + [e], today) == CitasHoy(events, today) + (if Contains(e.start, today) then 1 else 0)
  {
    FilterAppend(events, [e], StartsOn(today));
    assert Filter([e], StartsOn(today)) == if Contains(e.start, today) then [e] else [];
  }

  /** An event added with today's date in the form counts as today's. */
  lemma AddedTodayCountsToday(f: AppointmentForm, id: string, clock: Clock)
    ensures Contains(EventFrom(f, id, clock).start, f.date)
  {
    var s := EventFrom(f, id, clock).start;
    assert OccursAt(s, f.date, 0);
  }
}
