/**
 * A patient's record (`class Patient extends Person`) and the appointments
 * it holds (`class Appointment`). The two classes refer to each other, so
 * they share a module; the booking registry is in module `Bookings`.
 */
module Patients {
  import opened JavaTypes
  import opened JavaStrings
  import opened Persons
  import opened Weekdays
  import opened Injuries

  /** The profile the two-argument constructor gives a new account. */
  const DEFAULT_NAME: string := "New Patient"
  const DEFAULT_CONTACT: string := "00000000000"
  const DefaultProfile: Profile := Profile(DEFAULT_NAME, 0, true, DEFAULT_CONTACT, "")

  /** The default profile is what the 5-argument constructor makes of the default arguments. */
  lemma DefaultProfileValidates()
    ensures ValidateProfile(Some(DEFAULT_NAME), 0, true, Some(DEFAULT_CONTACT), Some("")) == Success(DefaultProfile)
  {
    assert IsTrimmedForm(DEFAULT_NAME);
    TrimOfTrimmedForm(DEFAULT_NAME);
  }

  /** `addReport` keeps a report that is non-null and not blank after trimming. */
  predicate AcceptsReport(report: Option<string>)
  {
    report.Some? && !IsBlank(report.value)
  }

  /** A report is kept exactly when trimming it leaves something. */
  lemma AcceptsReportIffTrimmedNonEmpty(report: string)
    ensures AcceptsReport(Some(report)) <==> Trim(report) != []
  {
    BlankIffTrimEmpty(report);
  }

  /** `x != null ? x : ""`. */
  function OrEmpty(s: Option<string>): string
  {
    if s.Some? then s.value else ""
  }

  class Patient {
    const username: string
    const password: string
    /** The `Person` part, built once by the constructor's setters. */
    const person: Person
    var reservations: seq<Appointment>
    var reports: seq<string>
    var injuries: seq<Injury>

    ghost predicate Valid()
      reads this, person
    {
      person.Valid()
    }

    /** The field initialisers and the two assignments of the constructor. */
    constructor (username: string, password: string, person: Person)
      ensures this.username == username && this.password == password && this.person == person
      ensures reservations == [] && reports == [] && injuries == []
    {
      this.username := username;
      this.password := password;
      this.person := person;
      reservations, reports, injuries := [], [], [];
    }

    /** The 7-argument constructor: the profile is validated first, then the account fields are set. */
    static method Create(username: string, password: string, name: Option<string>, age: int32,
                         gender: bool, contact: Option<string>, address: Option<string>)
      returns (r: Result<Patient>)
      ensures r.Success? <==> ValidateProfile(name, age, gender, contact, address).Success?
      ensures r.Failure? ==> r.error == ValidateProfile(name, age, gender, contact, address).error
      ensures r.Success? ==> fresh(r.value) && fresh(r.value.person) && r.value.Valid()
      ensures r.Success? ==> r.value.username == username && r.value.password == password
      ensures r.Success? ==> ValidateProfile(name, age, gender, contact, address) == Success(r.value.person.Fields())
      ensures r.Success? ==> r.value.reservations == [] && r.value.reports == [] && r.value.injuries == []
    {
      var p := Person.Create(name, age, gender, contact, address);
      if p.Failure? {
        return Failure(p.error);
      }
      var patient := new Patient(username, password, p.value);
      r := Success(patient);
    }

    /** The 2-argument constructor: the default profile and empty lists. */
    static method CreateDefault(username: string, password: string) returns (p: Patient)
      ensures fresh(p) && fresh(p.person) && p.Valid()
      ensures p.username == username && p.password == password
      ensures p.person.Fields() == DefaultProfile
      ensures p.reservations == [] && p.reports == [] && p.injuries == []
    {
      DefaultProfileValidates();
      var r := Create(username, password, Some(DEFAULT_NAME), 0, true, Some(DEFAULT_CONTACT), Some(""));
      p := r.value;
    }

    /** `addReservation`: null is ignored, anything else is appended. */
    method AddReservation(a: Appointment?)
      modifies this`reservations
      ensures reservations == if a == null then old(reservations) else old(reservations) + [a]
    {
      if a != null {
        reservations := reservations + [a];
      }
    }

    /** `addReport`: the report is appended untrimmed, unless it is null or blank. */
    method AddReport(report: Option<string>)
      modifies this`reports
      ensures reports == if AcceptsReport(report) then old(reports) + [report.value] else old(reports)
    {
      if report.Some? && !IsBlank(report.value) {
        reports := reports + [report.value];
      }
    }

    /** `addInjury`: null is ignored, anything else is appended. */
    method AddInjury(injury: Option<Injury>)
      modifies this`injuries
      ensures injuries == if injury.None? then old(injuries) else old(injuries) + [injury.value]
    {
      if injury.Some? {
        injuries := injuries + [injury.value];
      }
    }

    /**
     * `updateDetails`: a new patient with the same account, the new profile
     * and copies of the three lists. A rejected profile throws before any
     * copying, and the receiver is never changed.
     */
    method UpdateDetails(name: Option<string>, age: int32, gender: bool,
                         contact: Option<string>, address: Option<string>)
      returns (r: Result<Patient>)
      ensures unchanged(this, person)
      ensures r.Success? <==> ValidateProfile(name, age, gender, contact, address).Success?
      ensures r.Failure? ==> r.error == ValidateProfile(name, age, gender, contact, address).error
      ensures r.Success? ==> fresh(r.value) && fresh(r.value.person) && r.value.Valid()
      ensures r.Success? ==> r.value.username == username && r.value.password == password
      ensures r.Success? ==> ValidateProfile(name, age, gender, contact, address) == Success(r.value.person.Fields())
      ensures r.Success? ==> r.value.reservations == reservations && r.value.reports == reports &&
                             r.value.injuries == injuries
    {
      r := Create(username, password, name, age, gender, contact, address);
      if r.Failure? {
        return;
      }
      var updated := r.value;
      updated.reservations := updated.reservations + reservations;
      updated.reports := updated.reports + reports;
      updated.injuries := updated.injuries + injuries;
    }
  }

  class Appointment {
    const weekday: Weekday
    const time: string
    const doctorName: string
    const patient: Patient?
    var athleteDescription: string

    /** The 4-argument constructor: no description yet. */
    constructor (weekday: Weekday, time: string, doctorName: string, patient: Patient?)
      ensures this.weekday == weekday && this.time == time && this.doctorName == doctorName
      ensures this.patient == patient && athleteDescription == ""
    {
      this.weekday := weekday;
      this.time := time;
      this.doctorName := doctorName;
      this.patient := patient;
      athleteDescription := "";
    }

    /** The 5-argument constructor: a null description is stored as `""`. */
    constructor WithDescription(weekday: Weekday, time: string, doctorName: string, patient: Patient?,
                                description: Option<string>)
      ensures this.weekday == weekday && this.time == time && this.doctorName == doctorName
      ensures this.patient == patient
      ensures description.Some? ==> athleteDescription == description.value
      ensures description.None? ==> athleteDescription == ""
    {
      this.weekday := weekday;
      this.time := time;
      this.doctorName := doctorName;
      this.patient := patient;
      athleteDescription := OrEmpty(description);
    }

    /** `setAthleteDescription`: a null description is stored as `""`; the slot fields are final. */
    method SetAthleteDescription(description: Option<string>)
      modifies this`athleteDescription
      ensures description.Some? ==> athleteDescription == description.value
      ensures description.None? ==> athleteDescription == ""
    {
      athleteDescription := OrEmpty(description);
    }
  }
}
