# Sports Injury Management System — a Dafny model of its core

The system is a small Java desktop application for a sports clinic. Patients
sign up and log in. They enter their personal details, choose a sport, record
an injury, book an appointment with one of four doctors, and get a medical
report with treatment advice. This project models the clinic logic behind the
windows, and proves what that logic promises:

- **Booking registry** (`Bookings`). The map from doctor to weekday to booked
  times, as a `BookingRegistry` object that its users share.
  - `isSlotFree` and `bookSlot`.
  - The check-then-book step of the appointment handler, as `TryBook`.
  - The slot-choice rule of `createAppointment`, with the typed numbers as an
    input sequence.
- **People** (`Persons`, `Patients`).
  - The validating setters of `Person`.
  - `Patient`, with its three lists changed in place.
  - `updateDetails`, which builds a new patient and copies the lists over.
  - `Appointment`, which holds final slot fields and a description that is
    never null.
- **Account store** (`Accounts`, `AccountFile`).
  - `AccountManager`, whose patient list is changed in place and searched by
    loops.
  - The accounts file, held as its lines. The written line and the line
    parse are pure functions.
- **Injury catalog and treatment advice** (`Injuries`, `Treatments`).
  - The 26 fixed injuries and the filter by body part.
  - The exact-match treatment table, with its fallback text.
- **Main window** (`Gui`, `Html`).
  - The session fields of the main window: the logged-in patient, the
    selections, the appointment and the treatment.
  - What the sign-up, log-in, details, sport, injury, appointment, report and
    log-out handlers do to them, to the account store and to the registry.
  - `escapeHtml`, checked against the character references of section 13.1.4
    of the WHATWG HTML Living Standard.
- **Small pieces** (`Doctors`, `Weekdays`, `BodyParts`, `Sports`).
  - The doctor id counter, with Java's 32-bit wrap-around.
  - The two enums and their `toString` forms.
  - The fixed list of sports.

Supporting modules:

- `JavaTypes` holds `null` as `Option`, a thrown exception as `Result`, and
  `int` as `int32`.
- `JavaStrings` holds the library calls the code relies on: `trim`, `split`,
  `toLowerCase`, `Integer.parseInt`, `Boolean.parseBoolean`, and the
  conversions from numbers and booleans to text.

Where the code and its own comments disagree, the model follows the code:

- The body part KNEE has three catalog entries: ACL Tear, Meniscus Tear and
  Patellar Tendinitis.
- The catalog holds 26 injuries. The comments in `Injury.java` say 10.
- `Injury.toString` gives the type, then " : ", then the athlete's
  description. Its comment describes a different format.
- `setContact_no` rejects only `null`. Its message speaks of exactly 11 digits.
- The account loader also reads seven-field lines. Its comment mentions only
  "username,password".

## Model

| member | source | states |
|---|---|---|
| Weekdays.ValuesComplete | src/Weekday.java:8-11 | Exactly three distinct values, and every weekday is among them. |
| Weekdays.ToStringShape | src/Weekday.java:20-23 | `toString` has the length of `name()`, an upper-case first letter and a lower-case rest. |
| Weekdays.ToStringSunday | src/Weekday.java:20-23 | SUNDAY displays as "Sunday". |
| Weekdays.ToStringTuesday | src/Weekday.java:20-23 | TUESDAY displays as "Tuesday". |
| Weekdays.ToStringThursday | src/Weekday.java:20-23 | THURSDAY displays as "Thursday". |
| BodyParts.ValuesComplete | src/BodyPart.java:9-22 | Exactly 13 distinct values, and every body part is among them. |
| BodyParts.DisplayFormShape | src/BodyPart.java:31-34 | For any non-empty name, lower-casing, mapping `_` to a space and capitalizing keeps the length and leaves no `_`. |
| BodyParts.ToStringShape | src/BodyPart.java:31-34 | `toString` has the length of `name()` and contains no underscore. |
| BodyParts.DisplayFormOfWord | src/BodyPart.java:32-33 | For an all-capitals word, the display form is the first letter followed by the lower-cased rest. |
| BodyParts.ToStringIsCapitalizedName | src/BodyPart.java:31-34 | For every value, `toString` is `name()` with only the first letter kept capital. |
| BodyParts.ToStringAchilles | src/BodyPart.java:22 | ACHILLES displays as "Achilles". |
| Sports.Sport.constructor | src/Sport.java:6-8 | The name is stored unchanged. |
| Sports.NameAndToStringAgree | src/Sport.java:10-15 | `getName` and `toString` both give the `name` field. |
| Sports.SportsCollection.constructor | src/Sport.java:23-27 | A new collection holds fresh sports named Football, Handball and Basketball, in that order. |
| Doctors.Successor | src/Doctor.java:22 | `ID_Counter++` gives the 32-bit value congruent to the old one plus one modulo 2^32: one more below `Integer.MAX_VALUE`, `Integer.MIN_VALUE` at it. |
| Doctors.SuccessorUnique | src/Doctor.java:22 | No other 32-bit value is congruent to the old value plus one, so the increment is exactly Java's wrapped `int` addition. |
| Doctors.IssuedIdsCount | src/Doctor.java:12 | Without overflow, the k-th doctor constructed from a counter at `start` gets `start + k`. |
| Doctors.IssuedIdsIncrease | src/Doctor.java:22 | Without overflow, successive ids strictly increase, so they are distinct. |
| Doctors.FirstIds | src/Doctor.java:12 | From the initial counter value 1, the ids are 1, 2, 3, … |
| Doctors.IdsWrap | src/Doctor.java:22 | The doctor after the one with id `Integer.MAX_VALUE` gets `Integer.MIN_VALUE`. |
| Doctors.IdCounter.constructor | src/Doctor.java:12 | The counter starts at 1. |
| Doctors.Doctor.constructor | src/Doctor.java:10-11 | The profile, specialty and id are stored as given. |
| Doctors.Doctor.Create | src/Doctor.java:20-24 | Construction fails exactly when the profile is rejected, and then the counter does not move. On success the doctor gets the old counter value as id, the counter advances by one, and the profile is the validated one. |
| Persons.StoredText | src/Person.java:74-76 | `null` is stored as "". Any other string is stored trimmed: no longer than the input, and in trimmed form. |
| Persons.ValidateProfile | src/Person.java:21-27 | The constructor succeeds exactly when the age is non-negative and the contact is non-null. A negative age is reported before a null contact. On success the name and address are trimmed, and the age, gender and contact are stored as given. |
| Persons.AnyContactAccepted | src/Person.java:94-99 | Any non-null contact is accepted verbatim, whatever its length or characters. |
| Persons.ValidateStoredProfile | src/Person.java:21-27 | Validating the fields of a valid profile gives that profile back. |
| Persons.Person.Blank | src/Person.java:33-34 | The object before any setter has run: age 0, gender false, and "" for each string. |
| Persons.Person.SetName | src/Person.java:74-76 | The name becomes "" for `null`, and the trimmed text otherwise. |
| Persons.Person.SetAge | src/Person.java:83-88 | A negative age throws `IllegalArgumentException` and leaves the age unchanged. Any other age is stored. |
| Persons.Person.SetGender | src/Person.java:90-92 | The gender is stored unchanged. |
| Persons.Person.SetContact | src/Person.java:94-99 | `null` throws and leaves the contact unchanged. Any other value is stored verbatim. |
| Persons.Person.SetAddress | src/Person.java:101-103 | The address becomes "" for `null`, and the trimmed text otherwise. |
| Persons.Person.Create | src/Person.java:21-27 | Running the five setters in order succeeds exactly when `ValidateProfile` does, with the same exception, and yields exactly its profile. |
| Patients.DefaultProfileValidates | src/Patient.java:40-42 | The two-argument defaults ("New Patient", 0, true, "00000000000", "") pass validation unchanged. |
| Patients.AcceptsReportIffTrimmedNonEmpty | src/Patient.java:111-115 | A non-null report is accepted exactly when it is not empty after trimming. |
| Patients.Patient.Create | src/Patient.java:28-32 | Construction fails exactly when the profile is rejected. On success the username and password are stored, the three lists are empty, and the profile is the validated one. |
| Patients.Patient.CreateDefault | src/Patient.java:40-42 | The patient has the given account, the default profile and empty lists. |
| Patients.Patient.AddReservation | src/Patient.java:99-103 | `null` changes nothing. Anything else is appended at the end; only the reservation list may change. |
| Patients.Patient.AddReport | src/Patient.java:111-115 | The original, untrimmed report is appended exactly when it is accepted; only the report list may change. |
| Patients.Patient.AddInjury | src/Patient.java:123-127 | `null` changes nothing. Anything else is appended at the end; only the injury list may change. |
| Patients.Patient.UpdateDetails | src/Patient.java:134-143 | The receiver is unchanged. A rejected profile throws. Otherwise a fresh patient has the same username, password and lists in the same order, and the validated new profile. |
| Patients.Appointment.constructor | src/Appointment.java:55-61 | The slot fields are stored as given, and the description is "". |
| Patients.Appointment.WithDescription | src/Appointment.java:67-73 | The slot fields are stored as given. A `null` description becomes "". |
| Patients.Appointment.SetAthleteDescription | src/Appointment.java:79-81 | The description is set, and `null` becomes "". |
| Bookings.DaysAreAllWeekdays | src/Appointment.java:27 | `DAYS` lists every weekday, in declaration order. |
| Bookings.BookedAfterBook | src/Appointment.java:175-179 | Booking adds the time under exactly the one (doctor, day) pair, and every other pair keeps its times. |
| Bookings.BookTakes | src/Appointment.java:159-179 | After `bookSlot(d, w, t)`, `isSlotFree(d, w, t)` is false. |
| Bookings.BookFrame | src/Appointment.java:175-178 | `bookSlot` leaves the freedom of every other (doctor, day, time) triple unchanged. |
| Bookings.BookIdempotent | src/Appointment.java:175-178 | Booking the same triple twice gives the registry that one booking gives. |
| Bookings.BookKeepsTaken | src/Appointment.java:175-178 | A taken slot stays taken after any booking: nothing ever frees a time. |
| Bookings.AbsentDoctorFree | src/Appointment.java:160-161 | A doctor missing from the registry is free at every day and time. |
| Bookings.BookAllFree | src/Appointment.java:159-179 | After any sequence of bookings, a slot is free exactly when it was free before and was never booked. |
| Bookings.BookingRegistry.constructor | src/Appointment.java:49 | The registry starts empty. |
| Bookings.BookingRegistry.BookSlot | src/Appointment.java:175-179 | The registry becomes `Book` of the old one, and the slot is no longer free. |
| Bookings.TryBook | src/MainGUI.java:381-388 | A taken slot returns `null` and changes neither the registry nor the reservations. Otherwise the slot is booked, and a fresh appointment for exactly that doctor, day, time, patient and description is appended to the patient's reservations. Reports and injuries are untouched. |
| Bookings.FirstAccepted | src/Appointment.java:111-114 | An answer found lies at or after the start position and is accepted by the question. |
| Bookings.FirstAcceptedIsFirst | src/Appointment.java:129-145 | Every answer read before the accepted one was rejected. When none is accepted, every answer was rejected. |
| Bookings.ReadAnswer | src/Appointment.java:121-124 | The input loop stops at the first accepted answer. |
| Bookings.ChosenSlotIsFree | src/Appointment.java:139-141 | The chosen slot names a listed doctor, day and time, and was free when chosen. |
| Bookings.ChooseSlot | src/Appointment.java:110-137 | The three input loops choose exactly the slot `ChosenSlot` describes. |
| Bookings.CreateAppointment | src/Appointment.java:103-148 | Exhausted input books nothing. Otherwise the chosen slot was free, exactly that slot is booked, and a fresh appointment for that doctor, day and time is returned. |
| Injuries.DisplayRoundTrip | src/Injury.java:166-168 | `toString` loses nothing: when the type holds no colon, the text before the first " : " is the type and the text after it is the athlete's description. |
| Injuries.GetAllInjuries | src/Injury.java:86-88 | A fresh array holding the catalog, in order. |
| Injuries.GetInjuriesByBodyPart | src/Injury.java:98-111 | `null` gives the whole catalog. A part gives exactly the catalog entries filed under it, in catalog order. |
| Injuries.Collect | src/Injury.java:103-109 | The loop's result is the order-preserving filter of the catalog. |
| Injuries.FilterMembers | src/Injury.java:104-107 | An entry is in the filtered list exactly when it is in the input and filed under the part. The list is never longer than its input. |
| Injuries.FilterAppend | src/Injury.java:103-109 | Filtering distributes over concatenation, so the relative order is kept. |
| Injuries.FilterSizesPartition | src/Injury.java:103-109 | For any list, the filter sizes over all body parts add up to its length. |
| Injuries.CatalogPartition | src/Injury.java:27-66 | The catalog has 26 entries, and the 13 body-part filters partition it. |
| Injuries.EveryPartCovered | src/Injury.java:27-66 | Every body part has at least one catalog entry. |
| Injuries.KneeInjuries | src/Injury.java:27-66 | KNEE gives ACL Tear, Meniscus Tear and Patellar Tendinitis, in that order. |
| Injuries.DistinctTypes | src/Injury.java:27-66 | No two catalog entries share a type name. |
| Treatments.GetTreatment | src/Treatment.java:21-122 | The treatment carries the given name as its type, with a non-empty suggestion. |
| Treatments.SuggestionInFallback | src/Treatment.java:24 | When no table text is the fallback, the lookup gives the fallback exactly when no label equals the name. |
| Treatments.SuggestionInIsSomeText | src/Treatment.java:24 | The lookup always gives the fallback or the text of some entry. |
| Treatments.SuggestionInFirst | src/Treatment.java:24 | The lookup gives the text of the first entry whose label equals the name. |
| Treatments.TableCoversCatalog | src/Treatment.java:25 | The table's labels are exactly the catalog's injury types, in catalog order. |
| Treatments.CatalogTreatments | src/Treatment.java:24-118 | Every catalog injury's type is answered with the text of its own table entry. |
| Treatments.FallbackIffNotInCatalog | src/Treatment.java:116-118 | A name gets the fallback text exactly when no catalog injury has that type. |
| Treatments.AclTearAdvice | src/Treatment.java:47-49 | "ACL Tear" gets its own entry's text, which starts with "Stop playing immediately". |
| Treatments.UnknownNamesFallBack | src/Treatment.java:116-118 | Matching is exact and case-sensitive: a name starting with a lower-case letter or with N, such as "acl tear", gets the fallback. |
| Html.ReplaceAll | src/MainGUI.java:478-482 | Replacing every occurrence removes the target when the replacement lacks it. Every other character outside the replacement is kept or absent as before. |
| Html.ReplaceAllAppend | src/MainGUI.java:478-482 | Replacing distributes over concatenation. |
| Html.ReplaceAllAbsent | src/MainGUI.java:478-482 | A string without the target is unchanged. |
| Html.EscapeHtml | src/MainGUI.java:477 | `escapeHtml(null)` is "". |
| Html.Entity | src/MainGUI.java:478-482 | Each reference starts with `&`, and none of the five special characters appears after its first character. |
| Html.ReplacedAppend | src/MainGUI.java:478-482 | The chain of five replacements distributes over concatenation. |
| Html.ReplacedChar | src/MainGUI.java:478-482 | On one character, the chain of replacements gives exactly that character's reference. |
| Html.EscapeHtmlPerChar | src/MainGUI.java:476-483 | Because `&` is replaced first, `escapeHtml` equals escaping each character on its own: inserted references are not escaped again. |
| Html.EscapedIsMarkupFree | src/MainGUI.java:478-482 | The output contains no `<`, `>`, `"` or `'`, and every `&` in it begins one of `&amp; &lt; &gt; &quot; &#39;`. |
| Html.PlainTextUnchanged | src/MainGUI.java:478-482 | Text with none of `& < > " '` comes back unchanged. |
| Html.UnescapeEscapeHtml | src/MainGUI.java:476-483 | Decoding the five references in the output gives back the input, so escaping loses nothing. |
| Accounts.Records | src/accountManger.java:83-84 | There is one file record per patient. |
| Accounts.RecordsAt | src/accountManger.java:83-84 | Record k is what the file keeps of patient k. |
| Accounts.IndexOfUser | src/accountManger.java:122-129 | A position found holds a patient with that username. |
| Accounts.IndexOfUserIsFirst | src/accountManger.java:122-129 | The position found is the first with that username, and none is found only when no patient has it. |
| Accounts.AccountManager.Open | src/accountManger.java:31-47 | Loading succeeds exactly when `LoadAccounts` does, with the same exception. On success the patients are fresh, one per loaded record, with the same records in file order. |
| Accounts.AccountManager.ReadLine | src/accountManger.java:35-42 | A line gives a fresh patient with empty lists exactly when `ParseLine` gives a record, and then that record. It skips exactly when `ParseLine` does, and throws exactly its exception. |
| Accounts.AccountManager.SaveUser | src/accountManger.java:54-56 | The patient is appended at the end, with no uniqueness check. |
| Accounts.AccountManager.UpdateUser | src/accountManger.java:65-73 | Returns true exactly when some patient has the username. Then the first such patient is replaced and all other entries are kept. Otherwise the list is unchanged. |
| Accounts.AccountManager.SaveAllUsers | src/accountManger.java:81-90 | The file becomes one written line per patient, in list order. |
| Accounts.AccountManager.WriteLines | src/accountManger.java:83-86 | The loop writes exactly `FormatAll` of the patients' records. |
| Accounts.AccountManager.IsUsernameTaken | src/accountManger.java:96-103 | True exactly when some stored patient's username equals the argument. |
| Accounts.AccountManager.ValidateUser | src/accountManger.java:109-116 | True exactly when one stored patient matches both username and password. Then the username is also found. |
| Accounts.AccountManager.GetUser | src/accountManger.java:122-129 | Returns `null` exactly when no patient has the username. Otherwise returns the first patient that has it. |
| Accounts.SavedUsersReload | src/accountManger.java:81-90 | With the parse that keeps every piece (`split(",", -1)`), saving patients with valid profiles whose fields hold no comma and no line break, then reloading the file, gives back their records in order. |
| Accounts.SavedUsersReloadAsWritten | src/accountManger.java:81-90 | With the code's own `split(",")`, the same round trip holds when in addition no patient's address is empty. |
| AccountFile.FormatLine | src/accountManger.java:84 | A written line always contains the separator. |
| AccountFile.FormatAll | src/accountManger.java:83-86 | The file has one line per record. |
| AccountFile.FormatAllAt | src/accountManger.java:83-86 | Line i of the file is the written form of record i. |
| AccountFile.FromParts | src/accountManger.java:36-42 | Seven pieces give a full record: the age is parsed or throws `NumberFormatException`, and the profile is validated. Two pieces give the default profile. Any other count is skipped. |
| AccountFile.LoadedProfilesValid | src/accountManger.java:31-47 | Every loaded record holds a validated profile. |
| AccountFile.ParsedProfileValid | src/accountManger.java:36-42 | A record read from a line holds a validated profile. |
| AccountFile.FromFieldsOfRecord | src/accountManger.java:36-38 | The seven written fields of a record with a valid profile read back as that record. |
| AccountFile.ParseFormatLine | src/accountManger.java:84 | With the parse that keeps every piece (`split(",", -1)`), a written line whose fields hold no comma reads back as its record, whatever the address. |
| AccountFile.ParseFormatLineAsWritten | src/accountManger.java:35-38 | With the code's own `split(",")`, a written line whose fields hold no comma reads back as its record when the address is not empty. |
| AccountFile.FormatLineNotBlank | src/accountManger.java:34 | A written line is never blank, so it never stops the reader. |
| AccountFile.LoadFormatAll | src/accountManger.java:81-90 | With the parse that keeps every piece (`split(",", -1)`), saving records with valid profiles and no comma or line break in any field, then loading the file, gives them back, in order. |
| AccountFile.LoadersAgree | src/accountManger.java:31-47 | The loader as written and the loader that keeps every piece give the same result on a file on whose every line their two parses agree. |
| AccountFile.LoadFormatAllAsWritten | src/accountManger.java:31-47 | With the code's own `split(",")`, saving storable records and loading the file gives them back, in order, when no address is empty. |
| AccountFile.LoadFromStep | src/accountManger.java:34-43 | One reader step: a bad line throws, a skipped line adds nothing, and a read line adds its record in front. |
| AccountFile.EmptyAddressLineSkipped | src/accountManger.java:35 | With `split(",")`, a record with an empty address is written as a line of six pieces, and the as-written parse skips it. |
| AccountFile.SignedUpAccountLost | src/accountManger.java:35 | With `split(",")`, the line of every signed-up account is skipped on reload. |
| AccountFile.SignedUpAccountKept | src/accountManger.java:35 | With every piece kept, a signed-up account's line reads back, and a file holding it loads it. |
| JavaStrings.Trim | src/Person.java:75 | `trim` never lengthens its input. |
| JavaStrings.TrimShape | src/Person.java:75 | The result of `trim` neither starts nor ends with a character at or below a space. |
| JavaStrings.TrimOfTrimmedForm | src/Person.java:75 | Text already in trimmed form is unchanged. |
| JavaStrings.TrimIdempotent | src/Person.java:75 | Trimming twice is trimming once. |
| JavaStrings.BlankIffTrimEmpty | src/Patient.java:112 | A string is blank exactly when `trim` empties it. |
| JavaStrings.CapitalizedLowerShape | src/Weekday.java:21-22 | Capitalizing the lower-cased form of a capital word keeps its first letter and length, and lower-cases the rest. |
| JavaStrings.SplitAllJoin | src/accountManger.java:35 | Splitting comma-free pieces joined by commas gives back every piece. |
| JavaStrings.JavaSplitJoin | src/accountManger.java:35 | With `split(",")`, the round trip holds when the last piece is non-empty. |
| JavaStrings.JavaSplitJoinEmptyLast | src/accountManger.java:35 | With `split(",")`, an empty last piece is dropped. |
| JavaStrings.ParseIntOfIntToString | src/accountManger.java:38 | `Integer.parseInt` reads back every `int` that the writer printed. |
| JavaStrings.ParseBooleanOfBoolToString | src/accountManger.java:38 | `Boolean.parseBoolean` reads back every boolean that the writer printed. |
| Gui.RefusedIffIncomplete | src/MainGUI.java:183 | Ages are never negative, so the report is refused exactly when the status shows "Profile Incomplete". A sign-up profile is both refused and incomplete. |
| Gui.ReportEntryAccepted | src/MainGUI.java:445 | The report entry always holds a visible character, so `addReport` keeps it. |
| Gui.StoredAfterUpdate | src/MainGUI.java:389 | A stored patient is found by its username, and is still stored after it replaces the first match. |
| Gui.Session.constructor | src/MainGUI.java:26-43 | The window opens with nobody logged in and nothing selected. |
| Gui.Session.SignUp | src/MainGUI.java:70-88 | An empty trimmed field is refused first, then a taken username. Both change nothing. Otherwise exactly one default-profile patient with the trimmed credentials is appended, and the file is rewritten. |
| Gui.Session.AddAccount | src/MainGUI.java:82-84 | A fresh default-profile patient is appended after the existing patients, and the file holds the lines of all patients. |
| Gui.Session.LogIn | src/MainGUI.java:107-123 | An empty trimmed field is refused. Log-in succeeds exactly when some patient matches both trimmed fields, and then the first patient with that username is logged in. Otherwise the logged-in patient is unchanged. |
| Gui.Session.SaveDetails | src/MainGUI.java:243-269 | A non-numeric age is reported first, then a missing log-in. A rejected profile shows the exception's message. On success the logged-in patient is a fresh patient with the validated trimmed fields, the same username and password, and the same reservations, reports and injuries; it replaces the stored patient with that username, and the file is rewritten. Every failure changes nothing. |
| Gui.Session.UpdateCurrentUser | src/MainGUI.java:257-260 | Succeeds exactly when the profile validates. On success a fresh patient with the same account and lists replaces the stored one, becomes the logged-in patient, and the file is rewritten. On rejection nothing changes. |
| Gui.Session.SelectSport | src/MainGUI.java:288-292 | The chosen sport becomes the selected one. |
| Gui.Session.SelectInjury | src/MainGUI.java:324-331 | The chosen injury is selected and, for a logged-in patient, appended to their injuries. Their other lists are kept. |
| Gui.Session.ScheduleAppointment | src/MainGUI.java:375-394 | A missing log-in is refused. A taken slot changes nothing. Otherwise the slot is booked, and one appointment with the trimmed description becomes current and is appended to the patient, who is stored again. |
| Gui.Session.GenerateReport | src/MainGUI.java:401-448 | A missing log-in, then an incomplete profile, is refused. With an injury selected, its treatment becomes current and exactly one entry naming the injury is added to the reports, which are saved. With none, nothing changes. |
| Gui.Session.RecordReport | src/MainGUI.java:445-447 | The entry is appended to the logged-in patient's reports, the patient replaces its stored match, and the file is rewritten. |
| Gui.Session.Store | src/MainGUI.java:389-390 | After `updateUser` and `saveAllUsers`, the patient replaces the first stored patient with its username, and the file holds every patient's line. |
| Gui.Session.LogOut | src/MainGUI.java:161-167 | The patient, sport, injury and appointment are cleared. The treatment is kept. |

## Left out

- The Swing presentation of `MainGUI` is not modelled: frames, panels, fonts,
  colours, dialogs, `swapContent` and the widget factories. Each handler's
  dialog is reduced to its `Outcome` value.
- The HTML layout of the medical report, including the hex colour
  formatting, is not modelled. Only `escapeHtml` and the report's state
  changes are.
- The welcome name on the dashboard (`MainGUI.java` lines 136-138) and the
  status panel's labels are not modelled. Only the profile-complete test of
  line 183 is.
- `Main.java`, the console shell, is not part of this model. It depends on a
  `Report` class that is not part of this model either.
- The `display*` methods of `Appointment`, `Injury` and `Treatment` are left
  out, because they only print.
- `createAppointment` reads numbers from `System.in`. They are modelled as an
  input sequence, and the prompts are left out. When the input runs out,
  `Scanner` throws; the model returns `null`.
- File I/O is not modelled. The accounts file is a sequence of lines, so a
  missing file is the empty sequence. The swallowed `IOException` on writing
  cannot occur in the model.
- The static `BOOKINGS` map and `ID_Counter` become objects that are passed
  in, `BookingRegistry` and `IdCounter`. Hash order plays no part, because
  the code only looks up and adds.
- `toLowerCase` and `toUpperCase` are modelled on the ASCII letters only.
- `Integer.parseInt` accepts only ASCII digits in the model, while Java also
  accepts other Unicode digits.
- The getters of `Person`, `Patient`, `Doctor`, `Appointment` and `Injury`
  are not separate members. They read fields of the classes and datatypes
  directly.
- Treatments.GetTreatment: the caller must pass a non-null name, because a
  Java `switch` on a `null` string throws and the window never passes one.
  The 26 texts are a constant table.
- Gui.Session.SelectSport takes a non-null sport. The combo box always has a
  selection, and the code would throw on `null` at line 290 anyway.
- Gui.Session.SelectInjury changes the same state as the code when no injury
  is chosen. The exception the code then throws at line 329 only skips the
  dialog.
- Accounts.AccountManager.ReadLine and Accounts.AccountManager.Open read
  lines with every piece kept, which is the corrected parse. The code's
  `split(",")` is `AccountFile.ParseLineAsWritten`. See Findings.
- AccountFile.ParseFormatLine, AccountFile.LoadFormatAll and
  Accounts.SavedUsersReload state the round trip for the corrected parse that
  keeps every piece. With the code's own `split(",")` it holds only when no
  address is empty (AccountFile.ParseFormatLineAsWritten,
  AccountFile.LoadFormatAllAsWritten); see Findings for the empty address.
- AccountFile.Storable excludes line breaks from the string fields. A field
  holding `\n` or `\r` would be written inside one line and cut in two by
  `readLine`. The model's file is already a sequence of lines, so what such a
  file reads back as is not modelled.
- Persons.Person.Blank stores "" in the string fields where Java leaves
  `null`. The setters run next and overwrite every field, so no `null` is
  ever observed.
- Concurrency is left out, because the code has none.

## Findings

| source | as written | input that shows it | evidently intended | confidence | as-written member | corrected member |
|---|---|---|---|---|---|---|
| src/accountManger.java:35 | `line.split(",")` drops trailing empty pieces. A patient saved with an empty address (line 84) is written with a trailing comma and reads back as six pieces, so lines 36-42 skip it. | Sign up as "ann" with password "pw", which saves the line `ann,pw,New Patient,0,true,00000000000,`. After a restart the account is gone. | Every saved account reads back, i.e. `split(",", -1)`. | not executed | AccountFile.SignedUpAccountLost | AccountFile.SignedUpAccountKept |
