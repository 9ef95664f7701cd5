/**
 * The session state of the main window (`class MainGUI`) and what its
 * button handlers do to it, to the account store and to the booking
 * registry. The text typed into the form fields arrives as parameters; the
 * dialog each handler ends with is its `Outcome`.
 */
module Gui {
  import opened JavaTypes
  import opened JavaStrings
  import opened Persons
  import opened Weekdays
  import opened Injuries
  import opened Treatments
  import opened Patients
  import opened Sports
  import opened Bookings
  import opened AccountFile
  import opened Accounts

  /** The dialog a handler ends with. */
  datatype Outcome =
    | Done
    | MissingCredentials
    | UsernameTaken
    | InvalidCredentials
    | NotLoggedIn
    | AgeNotNumeric
    | Rejected(message: string)
    | SlotTaken
    | DetailsIncomplete

  /** The status line and the details form: a name other than the default and a positive age. */
  predicate ProfileComplete(p: Profile)
  {
    p.name != DEFAULT_NAME && p.age > 0
  }

  /** The report is refused for the default name or a zero age. */
  predicate ReportRefused(p: Profile)
  {
    p.name == DEFAULT_NAME || p.age == 0
  }

  /**
   * Ages are never negative, so the report is refused exactly when the
   * status line says the profile is incomplete; a sign-up profile is both.
   */
  lemma RefusedIffIncomplete(p: Profile)
    requires ValidProfile(p)
    ensures ReportRefused(p) <==> !ProfileComplete(p)
    ensures p == DefaultProfile ==> ReportRefused(p) && !ProfileComplete(p)
  {
  }

  const REPORT_PREFIX: string := "Report generated for injury: "

  /** The entry a report adds always holds a visible character, so `addReport` keeps it. */
  lemma ReportEntryAccepted(injuryType: string)
    ensures AcceptsReport(Some(REPORT_PREFIX + injuryType))
  {
    var entry := REPORT_PREFIX + injuryType;
    assert entry[0] == 'R' && !IsTrimmed(entry[0]);
  }

  /** A stored patient is found by its username, and stays stored when it replaces the first match. */
  lemma StoredAfterUpdate(users: seq<Patient>, p: Patient)
    requires p in users
    ensures IndexOfUser(users, p.username).Some?
    ensures p in users[IndexOfUser(users, p.username).value := p]
  {
    var i := IndexOfUser(users, p.username);
    IndexOfUserIsFirst(users, p.username);
    assert i.Some?;
    assert users[i.value := p][i.value] == p;
  }

  class Session {
    const accounts: AccountManager
    const registry: BookingRegistry
    var currentUser: Patient?
    var selectedSport: Sport?
    var selectedInjury: Option<Injury>
    var appointment: Appointment?
    var treatment: Option<Treatment>

    /** The logged-in patient is one of the stored patients. */
    ghost predicate Valid()
      reads this, accounts
    {
      currentUser != null ==> currentUser in accounts.users
    }

    /** The window opens with nobody logged in and nothing selected. */
    constructor (accounts: AccountManager, registry: BookingRegistry)
      ensures this.accounts == accounts && this.registry == registry
      ensures currentUser == null && selectedSport == null && selectedInjury.None?
      ensures appointment == null && treatment.None?
      ensures Valid()
    {
      this.accounts := accounts;
      this.registry := registry;
      currentUser, selectedSport, selectedInjury, appointment, treatment := null, null, None, null, None;
    }

    /**
     * Sign up: both fields trimmed and required; a taken username is refused;
     * otherwise `AddAccount`.
     */
    method SignUp(usernameText: string, passwordText: string) returns (o: Outcome)
      requires Valid()
      modifies accounts
      ensures Valid()
      ensures o == MissingCredentials <==> Trim(usernameText) == [] || Trim(passwordText) == []
      ensures o == UsernameTaken <==>
        && Trim(usernameText) != [] && Trim(passwordText) != []
        && exists k :: 0 <= k < |old(accounts.users)| && old(accounts.users)[k].username == Trim(usernameText)
      ensures o != Done ==> accounts.users == old(accounts.users) && accounts.file == old(accounts.file)
      ensures o == Done ==> Added(old(accounts.users), Trim(usernameText), Trim(passwordText))
      ensures o == MissingCredentials || o == UsernameTaken || o == Done
    {
      var username := Trim(usernameText);
      var password := Trim(passwordText);
      if username == [] || password == [] {
        return MissingCredentials;
      }
      var taken := accounts.IsUsernameTaken(username);
      if taken {
        return UsernameTaken;
      }
      AddAccount(username, password);
      o := Done;
    }

    /**
     * The stored patients are `before` followed by one patient with this
     * account and the default profile, and the file holds their lines.
     */
    ghost predicate Added(before: seq<Patient>, username: string, password: string)
      reads accounts, set p | p in accounts.users :: p.person
    {
      && |accounts.users| == |before| + 1
      && accounts.users[..|before|] == before
      && var p := accounts.users[|before|];
      && p.username == username && p.password == password
      && p.person.Fields() == DefaultProfile
      && accounts.file == FormatAll(Records(accounts.users))
    }

    /** The account-creating part of sign up: a new default-profile patient is appended and the file rewritten. */
    method AddAccount(username: string, password: string)
      requires Valid()
      modifies accounts
      ensures Valid()
      ensures Added(old(accounts.users), username, password)
      ensures fresh(accounts.users[|old(accounts.users)|])
    {
      var user := Patient.CreateDefault(username, password);
      accounts.SaveUser(user);
      accounts.SaveAllUsers();
      assert accounts.users[..|old(accounts.users)|] == old(accounts.users);
    }

    /** Log in: both fields trimmed and required; a matching pair logs in the first patient with that username. */
    method LogIn(usernameText: string, passwordText: string) returns (o: Outcome)
      requires Valid()
      modifies this`currentUser
      ensures Valid()
      ensures o == MissingCredentials <==> Trim(usernameText) == [] || Trim(passwordText) == []
      ensures o == Done <==>
        && Trim(usernameText) != [] && Trim(passwordText) != []
        && exists k :: 0 <= k < |accounts.users| && accounts.users[k].username == Trim(usernameText) &&
                       accounts.users[k].password == Trim(passwordText)
      ensures o == Done ==>
        && IndexOfUser(accounts.users, Trim(usernameText)).Some?
        && currentUser == accounts.users[IndexOfUser(accounts.users, Trim(usernameText)).value]
      ensures o != Done ==> currentUser == old(currentUser)
      ensures o == MissingCredentials || o == Done || o == InvalidCredentials
    {
      var username := Trim(usernameText);
      var password := Trim(passwordText);
      if username == [] || password == [] {
        return MissingCredentials;
      }
      var valid := accounts.ValidateUser(username, password);
      if !valid {
        return InvalidCredentials;
      }
      currentUser := accounts.GetUser(username);
      o := Done;
    }

    /**
     * Save details: the age text is parsed before anything else, then a
     * logged-in patient is required, then the trimmed fields go to
     * `UpdateCurrentUser`.
     */
    method SaveDetails(nameText: string, ageText: string, male: bool, contactText: string, addressText: string)
      returns (o: Outcome)
      requires Valid()
      modifies this`currentUser, accounts
      ensures Valid()
      ensures o == AgeNotNumeric <==> ParseInt(Trim(ageText)).None?
      ensures o == NotLoggedIn <==> ParseInt(Trim(ageText)).Some? && old(currentUser) == null
      ensures ParseInt(Trim(ageText)).Some? && old(currentUser) != null ==>
        var v := ValidateProfile(Some(Trim(nameText)), ParseInt(Trim(ageText)).value, male,
                                 Some(Trim(contactText)), Some(Trim(addressText)));
        && (o == Done <==> v.Success?)
        && (v.Failure? ==> o == Rejected(v.error.message))
        && (v.Success? ==> currentUser != null && currentUser.person.Fields() == v.value)
      ensures o == Done ==>
        && old(currentUser) != null && currentUser != null && fresh(currentUser)
        && currentUser.username == old(currentUser.username) && currentUser.password == old(currentUser.password)
        && currentUser.reservations == old(currentUser.reservations)
        && currentUser.reports == old(currentUser.reports) && currentUser.injuries == old(currentUser.injuries)
        && Stored(old(accounts.users), currentUser)
      ensures o != Done ==> currentUser == old(currentUser) && accounts.users == old(accounts.users) &&
                            accounts.file == old(accounts.file)
    {
      var name := Trim(nameText);
      var age := ParseInt(Trim(ageText));
      var contact := Trim(contactText);
      var address := Trim(addressText);
      if age.None? {
        return AgeNotNumeric;
      }
      if currentUser == null {
        return NotLoggedIn;
      }
      o := UpdateCurrentUser(Some(name), age.value, male, Some(contact), Some(address));
    }

    /**
     * The body of the save-details handler once the age is parsed: the new
     * profile replaces the stored patient (lists kept) and the logged-in one,
     * and the file is rewritten. A rejected profile shows the exception's
     * message and changes nothing.
     */
    method UpdateCurrentUser(name: Option<string>, age: int32, gender: bool, contact: Option<string>,
                             address: Option<string>)
      returns (o: Outcome)
      requires Valid() && currentUser != null
      modifies this`currentUser, accounts
      ensures Valid() && currentUser != null
      ensures o == Done <==> ValidateProfile(name, age, gender, contact, address).Success?
      ensures o != Done ==>
        && o == Rejected(ValidateProfile(name, age, gender, contact, address).error.message)
        && currentUser == old(currentUser) && accounts.users == old(accounts.users) && accounts.file == old(accounts.file)
      ensures o == Done ==> fresh(currentUser)
      ensures o == Done ==> currentUser.person.Fields() == ValidateProfile(name, age, gender, contact, address).value
      ensures o == Done ==> currentUser.username == old(currentUser.username) && currentUser.password == old(currentUser.password)
      ensures o == Done ==> currentUser.reservations == old(currentUser.reservations) && currentUser.reports == old(currentUser.reports) && currentUser.injuries == old(currentUser.injuries)
      ensures o == Done ==> Stored(old(accounts.users), currentUser)
    {
      var updated := currentUser.UpdateDetails(name, age, gender, contact, address);
      if updated.Failure? {
        return Rejected(updated.error.message);
      }
      StoredAfterUpdate(accounts.users, currentUser);
      Store(updated.value);
      currentUser := updated.value;
      o := Done;
    }

    /** Select sport: the chosen entry of the list becomes the selected sport. */
    method SelectSport(sport: Sport)
      modifies this`selectedSport
      ensures selectedSport == sport
    {
      selectedSport := sport;
    }

    /** Select injury: the chosen injury is selected and, for a logged-in patient, added to their injuries. */
    method SelectInjury(injury: Option<Injury>)
      modifies this`selectedInjury, currentUser
      ensures selectedInjury == injury
      ensures currentUser != null ==> currentUser.injuries == old(currentUser.injuries) + (if injury.Some? then [injury.value] else [])
      ensures currentUser != null ==> currentUser.reservations == old(currentUser.reservations) &&
                                      currentUser.reports == old(currentUser.reports)
    {
      selectedInjury := injury;
      if currentUser != null && selectedInjury.Some? {
        currentUser.AddInjury(selectedInjury);
      }
    }

    /**
     * Schedule appointment: a logged-in patient is required to open the form;
     * a taken slot changes nothing; otherwise the slot is booked, the new
     * appointment (with the trimmed description) becomes the current one and
     * is appended to the patient, and the file is rewritten.
     */
    method ScheduleAppointment(doctor: string, day: Weekday, time: string, descriptionText: string)
      returns (o: Outcome)
      requires Valid()
      modifies this`appointment, registry, currentUser, accounts
      ensures Valid()
      ensures o == NotLoggedIn <==> currentUser == null
      ensures o == SlotTaken <==> currentUser != null && !IsFree(old(registry.bookings), doctor, day, time)
      ensures o != Done ==> registry.bookings == old(registry.bookings) && appointment == old(appointment) &&
                            accounts.users == old(accounts.users) && accounts.file == old(accounts.file)
      ensures o != Done && currentUser != null ==> currentUser.reservations == old(currentUser.reservations)
      ensures o == Done ==>
        && currentUser != null && appointment != null && fresh(appointment)
        && registry.bookings == Book(old(registry.bookings), doctor, day, time)
        && currentUser.reservations == old(currentUser.reservations) + [appointment]
        && appointment.doctorName == doctor && appointment.weekday == day && appointment.time == time
        && appointment.patient == currentUser && appointment.athleteDescription == Trim(descriptionText)
        && Stored(old(accounts.users), currentUser)
      ensures o == NotLoggedIn || o == SlotTaken || o == Done
    {
      if currentUser == null {
        return NotLoggedIn;
      }
      var description := Trim(descriptionText);
      var a := TryBook(registry, currentUser, doctor, day, time, description);
      if a == null {
        return SlotTaken;
      }
      appointment := a;
      StoredAfterUpdate(accounts.users, currentUser);
      Store(currentUser);
      o := Done;
    }

    /**
     * Generate report: a logged-in patient with complete details is
     * required. With an injury selected, its treatment becomes the current
     * one and an entry naming the injury is added to the patient's reports,
     * which are then saved; with none, nothing changes.
     */
    method GenerateReport() returns (o: Outcome)
      requires Valid()
      modifies this`treatment, currentUser, accounts
      ensures Valid()
      ensures o == NotLoggedIn <==> currentUser == null
      ensures o == DetailsIncomplete <==> currentUser != null && ReportRefused(currentUser.person.Fields())
      ensures o != Done || selectedInjury.None? ==>
        && treatment == old(treatment)
        && accounts.users == old(accounts.users) && accounts.file == old(accounts.file)
        && (currentUser != null ==> currentUser.reports == old(currentUser.reports))
      ensures o == Done && selectedInjury.Some? ==>
        && currentUser != null
        && treatment == Some(GetTreatment(selectedInjury.value.injuryType))
        && currentUser.reports == old(currentUser.reports) + [REPORT_PREFIX + selectedInjury.value.injuryType]
        && Stored(old(accounts.users), currentUser)
      ensures currentUser != null ==> currentUser.reservations == old(currentUser.reservations) &&
                                      currentUser.injuries == old(currentUser.injuries)
      ensures o == NotLoggedIn || o == DetailsIncomplete || o == Done
    {
      if currentUser == null {
        return NotLoggedIn;
      }
      if ReportRefused(currentUser.person.Fields()) {
        return DetailsIncomplete;
      }
      if selectedInjury.Some? {
        var injuryType := selectedInjury.value.injuryType;
        treatment := Some(GetTreatment(injuryType));
        RecordReport(injuryType);
      }
      o := Done;
    }

    /** The report entry is added to the logged-in patient, and the accounts saved. */
    method RecordReport(injuryType: string)
      requires Valid() && currentUser != null
      modifies currentUser`reports, accounts
      ensures Valid()
      ensures currentUser.reports == old(currentUser.reports) + [REPORT_PREFIX + injuryType]
      ensures Stored(old(accounts.users), currentUser)
    {
      ReportEntryAccepted(injuryType);
      var p := currentUser;
      p.AddReport(Some(REPORT_PREFIX + injuryType));
      assert p in accounts.users;
      StoredAfterUpdate(accounts.users, p);
      Store(p);
    }

    /**
     * `p` replaced the first stored patient with its username in `before`,
     * and the file holds the lines of the stored patients.
     */
    ghost predicate Stored(before: seq<Patient>, p: Patient)
      reads accounts, set q | q in accounts.users :: q.person
    {
      && IndexOfUser(before, p.username).Some?
      && accounts.users == before[IndexOfUser(before, p.username).value := p]
      && accounts.file == FormatAll(Records(accounts.users))
    }

    /** `updateUser` then `saveAllUsers`, for a patient whose username is stored. */
    method Store(p: Patient)
      requires IndexOfUser(accounts.users, p.username).Some?
      modifies accounts
      ensures Stored(old(accounts.users), p)
      ensures p in accounts.users
    {
      var found := accounts.UpdateUser(p);
      accounts.SaveAllUsers();
      assert accounts.users[IndexOfUser(old(accounts.users), p.username).value] == p;
    }

    /** Log out: the patient and the three selections are cleared; the treatment is kept. */
    method LogOut()
      modifies this`currentUser, this`selectedSport, this`selectedInjury, this`appointment
      ensures currentUser == null && selectedSport == null && selectedInjury.None? && appointment == null
      ensures treatment == old(treatment)
      ensures Valid()
    {
      currentUser, selectedSport, selectedInjury, appointment := null, null, None, null;
    }
  }
}
