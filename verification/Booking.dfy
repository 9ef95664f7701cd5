/**
 * The booking registry of `Appointment` (the static `BOOKINGS` map from
 * doctor to weekday to booked times), the fixed doctor, time and day tables,
 * and the slot-choice rule of `createAppointment`.
 *
 * The static map becomes one `BookingRegistry` object that its users share.
 */
module Bookings {
  import opened JavaTypes
  import opened Weekdays
  import opened Patients

  const DOCTORS: seq<string> := ["Dr. Maiada", "Dr. Ahmed Mo'men", "Dr. Shehab Wael", "Dr. Omar Tamer"]
  const TIMES: seq<string> := ["4:30 PM", "6:30 PM", "8:30 PM", "10:00 PM"]
  const DAYS: seq<Weekday> := [SUNDAY, TUESDAY, THURSDAY]

  /** `DAYS` is `Weekday.values()`. */
  lemma DaysAreAllWeekdays()
    ensures DAYS == Weekdays.Values
    ensures forall w: Weekday :: w in DAYS
  {
    forall w: Weekday ensures w in DAYS {
      Weekdays.ValuesComplete(w);
    }
  }

  /** doctor -> weekday -> booked times. */
  type Registry = map<string, map<Weekday, set<string>>>

  /** The times recorded under a doctor and day; a missing doctor or day has none. */
  function Booked(b: Registry, doctor: string, day: Weekday): (r: set<string>)
    ensures doctor !in b ==> r == {}
    ensures doctor in b && day !in b[doctor] ==> r == {}
    ensures doctor in b && day in b[doctor] ==> r == b[doctor][day]
  {
    if doctor in b && day in b[doctor] then b[doctor][day] else {}
  }

  /** `isSlotFree`: no recorded time equals `time`. */
  predicate IsFree(b: Registry, doctor: string, day: Weekday, time: string)
  {
    time !in Booked(b, doctor, day)
  }

  /** `bookSlot`: create the doctor's map and the day's set when missing, then add the time. */
  function Book(b: Registry, doctor: string, day: Weekday, time: string): Registry
  {
    var days := if doctor in b then b[doctor] else map[];
    var times := if day in days then days[day] else {};
    b[doctor := days[day := times + {time}]]
  }

  /** Booking records exactly one time under exactly one (doctor, day) pair. */
  lemma BookedAfterBook(b: Registry, doctor: string, day: Weekday, time: string, d: string, w: Weekday)
    ensures Booked(Book(b, doctor, day, time), d, w) ==
      if d == doctor && w == day then Booked(b, d, w) + {time} else Booked(b, d, w)
  {
  }

  /** After booking, the slot is taken. */
  lemma BookTakes(b: Registry, doctor: string, day: Weekday, time: string)
    ensures !IsFree(Book(b, doctor, day, time), doctor, day, time)
  {
    BookedAfterBook(b, doctor, day, time, doctor, day);
  }

  /** Booking changes the answer for no other (doctor, day, time). */
  lemma BookFrame(b: Registry, doctor: string, day: Weekday, time: string, d: string, w: Weekday, t: string)
    requires (d, w, t) != (doctor, day, time)
    ensures IsFree(Book(b, doctor, day, time), d, w, t) == IsFree(b, d, w, t)
  {
    BookedAfterBook(b, doctor, day, time, d, w);
  }

  /** Booking a slot twice leaves the registry as one booking does. */
  lemma BookIdempotent(b: Registry, doctor: string, day: Weekday, time: string)
    ensures Book(Book(b, doctor, day, time), doctor, day, time) == Book(b, doctor, day, time)
  {
    var once := Book(b, doctor, day, time);
    assert once[doctor][day] + {time} == once[doctor][day];
    assert once[doctor][day := once[doctor][day]] == once[doctor];
  }

  /** Nothing removes a time: a taken slot stays taken after any booking. */
  lemma BookKeepsTaken(b: Registry, doctor: string, day: Weekday, time: string, d: string, w: Weekday, t: string)
    requires !IsFree(b, d, w, t)
    ensures !IsFree(Book(b, doctor, day, time), d, w, t)
  {
    BookedAfterBook(b, doctor, day, time, d, w);
  }

  /** An empty registry, or one without the doctor, reports every slot free. */
  lemma AbsentDoctorFree(b: Registry, doctor: string, day: Weekday, time: string)
    requires doctor !in b
    ensures IsFree(b, doctor, day, time)
  {
  }

  /** A sequence of bookings: slot (d, w, t) is free afterwards iff it was free and not among them. */
  function BookAll(b: Registry, slots: seq<(string, Weekday, string)>): Registry
    decreases |slots|
  {
    if slots == [] then b else BookAll(Book(b, slots[0].0, slots[0].1, slots[0].2), slots[1..])
  }

  lemma {:induction false} BookAllFree(b: Registry, slots: seq<(string, Weekday, string)>, d: string, w: Weekday, t: string)
    ensures IsFree(BookAll(b, slots), d, w, t) <==> IsFree(b, d, w, t) && (d, w, t) !in slots
    decreases |slots|
  {
    if slots != [] {
      var b1 := Book(b, slots[0].0, slots[0].1, slots[0].2);
      BookAllFree(b1, slots[1..], d, w, t);
      BookedAfterBook(b, slots[0].0, slots[0].1, slots[0].2, d, w);
      assert slots == [slots[0]] + slots[1..];
    }
  }

  class BookingRegistry {
    var bookings: Registry

    /** The registry starts empty. */
    constructor ()
      ensures bookings == map[]
    {
      bookings := map[];
    }

    /** `isSlotFree`: a read-only query; a missing doctor or day counts as free. */
    function IsSlotFree(doctor: string, day: Weekday, time: string): (free: bool)
      reads this
      ensures free <==> !(doctor in bookings && day in bookings[doctor] && time in bookings[doctor][day])
    {
      IsFree(bookings, doctor, day, time)
    }

    /** `bookSlot`: adds the time under the doctor and day. */
    method BookSlot(doctor: string, day: Weekday, time: string)
      modifies this
      ensures bookings == Book(old(bookings), doctor, day, time)
      ensures !IsSlotFree(doctor, day, time)
    {
      var days := if doctor in bookings then bookings[doctor] else map[];
      var times := if day in days then days[day] else {};
      bookings := bookings[doctor := days[day := times + {time}]];
    }
  }

  /**
   * The booking step of the appointment form: check the slot, and only when
   * it is free create the appointment, book the slot and append the
   * appointment to the patient. A taken slot changes nothing (`null`).
   */
  method TryBook(registry: BookingRegistry, patient: Patient, doctor: string, day: Weekday, time: string,
                 description: string)
    returns (a: Appointment?)
    modifies registry, patient
    ensures a == null <==> !IsFree(old(registry.bookings), doctor, day, time)
    ensures a == null ==> registry.bookings == old(registry.bookings) && patient.reservations == old(patient.reservations)
    ensures a != null ==>
      && fresh(a)
      && registry.bookings == Book(old(registry.bookings), doctor, day, time)
      && patient.reservations == old(patient.reservations) + [a]
      && a.doctorName == doctor && a.weekday == day && a.time == time && a.patient == patient
      && a.athleteDescription == description
    ensures patient.reports == old(patient.reports) && patient.injuries == old(patient.injuries)
  {
    if !registry.IsSlotFree(doctor, day, time) {
      return null;
    }
    a := new Appointment.WithDescription(day, time, doctor, patient, Some(description));
    registry.BookSlot(doctor, day, time);
    patient.AddReservation(a);
  }

  // ------------------------------------------------ createAppointment's choice rule

  /** The three questions `createAppointment` asks, each repeated until an answer is accepted. */
  datatype Question = DoctorQ | DayQ | TimeQ(b: Registry, doctor: string, day: Weekday)

  /**
   * Whether an answer ends a question: a doctor or day number in range, or
   * a time number `c` whose index `c - 1` is in range and names a free slot.
   */
  predicate Accepts(q: Question, c: int)
  {
    match q
    case DoctorQ => 1 <= c <= |DOCTORS|
    case DayQ => 1 <= c <= |DAYS|
    case TimeQ(b, doctor, day) => 0 <= c - 1 < |TIMES| && IsFree(b, doctor, day, TIMES[c - 1])
  }

  /** The first position at or after `from` holding an answer that `q` accepts. */
  function FirstAccepted(input: seq<int>, from: nat, q: Question): (r: Option<nat>)
    requires from <= |input|
    ensures r.Some? ==> from <= r.value < |input| && Accepts(q, input[r.value])
    decreases |input| - from
  {
    if from == |input| then None
    else if Accepts(q, input[from]) then Some(from)
    else FirstAccepted(input, from + 1, q)
  }

  /** The answer found is the first accepted one: every answer read before it, or every answer when none is found, was rejected. */
  lemma {:induction false} FirstAcceptedIsFirst(input: seq<int>, from: nat, q: Question)
    requires from <= |input|
    ensures FirstAccepted(input, from, q).Some? ==>
      forall j :: from <= j < FirstAccepted(input, from, q).value ==> !Accepts(q, input[j])
    ensures FirstAccepted(input, from, q).None? ==> forall j :: from <= j < |input| ==> !Accepts(q, input[j])
    decreases |input| - from
  {
    if from < |input| && !Accepts(q, input[from]) {
      FirstAcceptedIsFirst(input, from + 1, q);
    }
  }

  /**
   * The slot `createAppointment` books when the numbers typed in are
   * `input`: the first doctor answer in range, then the first day answer in
   * range, then the first time answer naming a free slot; `None` when the
   * input runs out first (Java's `Scanner` throws there).
   */
  function ChosenSlot(b: Registry, input: seq<int>): Option<(string, Weekday, string)>
  {
    match FirstAccepted(input, 0, DoctorQ)
    case None => None
    case Some(i) =>
      match FirstAccepted(input, i + 1, DayQ)
      case None => None
      case Some(j) =>
        var doctor := DOCTORS[input[i] - 1];
        var day := DAYS[input[j] - 1];
        match FirstAccepted(input, j + 1, TimeQ(b, doctor, day))
        case None => None
        case Some(k) => Some((doctor, day, TIMES[input[k] - 1]))
  }

  /** A chosen slot names a listed doctor, day and time and was free. */
  lemma ChosenSlotIsFree(b: Registry, input: seq<int>)
    requires ChosenSlot(b, input).Some?
    ensures var (d, w, t) := ChosenSlot(b, input).value;
      d in DOCTORS && w in DAYS && t in TIMES && IsFree(b, d, w, t)
  {
  }

  /**
   * One of `createAppointment`'s input loops: read numbers from position
   * `from` until one is accepted; `None` when the input runs out first.
   */
  method ReadAnswer(input: seq<int>, from: nat, q: Question) returns (r: Option<nat>)
    requires from <= |input|
    ensures r == FirstAccepted(input, from, q)
    ensures r.Some? ==> from <= r.value < |input| && Accepts(q, input[r.value])
  {
    var pos := from;
    while true
      invariant from <= pos <= |input|
      invariant FirstAccepted(input, from, q) == FirstAccepted(input, pos, q)
      decreases |input| - pos
    {
      if pos == |input| {
        return None;
      }
      var choice := input[pos];
      if Accepts(q, choice) {
        return Some(pos);
      }
      pos := pos + 1;
    }
  }

  /**
   * `createAppointment` without the prompts: read a doctor number until one
   * is in range, then a day number, then a time number until it names a free
   * slot; book that slot and return an appointment for exactly it. When the
   * input runs out, nothing is booked and `null` stands for the exception.
   */
  method CreateAppointment(registry: BookingRegistry, patient: Patient?, input: seq<int>)
    returns (a: Appointment?)
    modifies registry
    ensures a == null <==> ChosenSlot(old(registry.bookings), input).None?
    ensures a == null ==> registry.bookings == old(registry.bookings)
    ensures a != null ==>
      && fresh(a)
      && var (d, w, t) := ChosenSlot(old(registry.bookings), input).value;
      && IsFree(old(registry.bookings), d, w, t)
      && registry.bookings == Book(old(registry.bookings), d, w, t)
      && a.doctorName == d && a.weekday == w && a.time == t && a.patient == patient
      && a.athleteDescription == ""
  {
    var slot := ChooseSlot(registry, input);
    if slot.None? {
      return null;
    }
    var (selectedDoctor, selectedDay, selectedTime) := slot.value;
    ChosenSlotIsFree(registry.bookings, input);
    registry.BookSlot(selectedDoctor, selectedDay, selectedTime);
    a := new Appointment(selectedDay, selectedTime, selectedDoctor, patient);
  }

  /** The three input loops of `createAppointment`: the slot the numbers typed in choose, if the input lasts. */
  method ChooseSlot(registry: BookingRegistry, input: seq<int>) returns (slot: Option<(string, Weekday, string)>)
    ensures slot == ChosenSlot(registry.bookings, input)
  {
    var doctorAt := ReadAnswer(input, 0, DoctorQ);
    if doctorAt.None? {
      return None;
    }
    var selectedDoctor := DOCTORS[input[doctorAt.value] - 1];
    var dayAt := ReadAnswer(input, doctorAt.value + 1, DayQ);
    if dayAt.None? {
      return None;
    }
    var selectedDay := DAYS[input[dayAt.value] - 1];
    var timeAt := ReadAnswer(input, dayAt.value + 1, TimeQ(registry.bookings, selectedDoctor, selectedDay));
    if timeAt.None? {
      return None;
    }
    slot := Some((selectedDoctor, selectedDay, TIMES[input[timeAt.value] - 1]));
  }
}
