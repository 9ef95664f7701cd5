/**
 * The line format of the accounts file, as pure string functions: the line
 * `saveAllUsers` writes for each patient and the way `loadUsersFromFile`
 * reads lines back. The file itself is a sequence of lines.
 */
module AccountFile {
  import opened JavaTypes
  import opened JavaStrings
  import opened Persons
  import opened Patients

  /** What one line stores: the account and its profile. */
  datatype Record = Record(username: string, password: string, profile: Profile)

  const SEP: char := ','

  /** The seven fields `saveAllUsers` writes, in order. */
  function Fields(r: Record): seq<string>
  {
    [r.username, r.password, r.profile.name, IntToString(r.profile.age),
     BoolToString(r.profile.gender), r.profile.contact, r.profile.address]
  }

  /** One line of `saveAllUsers`: the seven fields joined by commas. */
  function FormatLine(r: Record): (line: string)
    ensures SEP in line
  {
    JoinContainsSep(Fields(r), SEP);
    Join(Fields(r), SEP)
  }

  /** The file `saveAllUsers` writes: one line per record, in list order. */
  function FormatAll(rs: seq<Record>): (lines: seq<string>)
    ensures |lines| == |rs|
  {
    if rs == [] then [] else [FormatLine(rs[0])] + FormatAll(rs[1..])
  }

  /** Line `i` of the file is the written form of record `i`. */
  lemma {:induction false} FormatAllAt(rs: seq<Record>)
    ensures forall i :: 0 <= i < |rs| ==> FormatAll(rs)[i] == FormatLine(rs[i])
  {
    if rs != [] {
      FormatAllAt(rs[1..]);
      assert forall i :: 1 <= i < |rs| ==> rs[i] == rs[1..][i - 1];
    }
  }

  /**
   * What `loadUsersFromFile` makes of a line's pieces: seven give a full
   * patient (the age parsed first, then the profile validated), two give a
   * default-profile patient, any other count is skipped (`None`).
   */
  function FromParts(parts: seq<string>): (r: Result<Option<Record>>)
    ensures |parts| != 7 && |parts| != 2 ==> r == Success(None)
    ensures |parts| == 2 ==> r == Success(Some(Record(parts[0], parts[1], DefaultProfile)))
    ensures |parts| == 7 && ParseInt(parts[3]).None? ==> r == Failure(NumberFormat(parts[3]))
    ensures |parts| == 7 && r.Success? ==>
      && r.value.Some?
      && r.value.value.username == parts[0] && r.value.value.password == parts[1]
      && Some(r.value.value.profile.age) == ParseInt(parts[3])
      && r.value.value.profile.gender == ParseBoolean(parts[4])
      && r.value.value.profile.name == Trim(parts[2]) && r.value.value.profile.contact == parts[5]
      && r.value.value.profile.address == Trim(parts[6])
  {
    if |parts| == 7 then
      match ParseInt(parts[3])
      case None => Failure(NumberFormat(parts[3]))
      case Some(age) =>
        var v := ValidateProfile(Some(parts[2]), age, ParseBoolean(parts[4]), Some(parts[5]), Some(parts[6]));
        if v.Failure? then Failure(v.error) else Success(Some(Record(parts[0], parts[1], v.value)))
    else if |parts| == 2 then Success(Some(Record(parts[0], parts[1], DefaultProfile)))
    else Success(None)
  }

  /**
   * The line parse of `loadUsersFromFile`, with every piece of the line kept,
   * empty trailing ones included (`split(",", -1)`); the code's own
   * `split(",")` is `ParseLineAsWritten` below.
   */
  function ParseLine(line: string): Result<Option<Record>>
  {
    FromParts(SplitAll(line, SEP))
  }

  /** `recs` loaded before the rest of the file. */
  function Prepend(recs: seq<Record>, rest: Result<seq<Record>>): (r: Result<seq<Record>>)
    ensures r.Success? <==> rest.Success?
    ensures rest.Failure? ==> r == rest
    ensures rest.Success? ==> r.value == recs + rest.value
  {
    if rest.Success? then Success(recs + rest.value) else rest
  }

  /**
   * `loadUsersFromFile` from line `i` on: reading stops at the end of the
   * file or at the first blank line, and a bad or negative age ends the
   * whole load with its exception.
   */
  function LoadFrom(lines: seq<string>, i: nat): Result<seq<Record>>
    requires i <= |lines|
    decreases |lines| - i
  {
    if i == |lines| || IsBlank(lines[i]) then Success([])
    else
      match ParseLine(lines[i])
      case Failure(e) => Failure(e)
      case Success(None) => LoadFrom(lines, i + 1)
      case Success(Some(r)) => Prepend([r], LoadFrom(lines, i + 1))
  }

  function LoadAccounts(lines: seq<string>): Result<seq<Record>>
  {
    LoadFrom(lines, 0)
  }

  /** Everything read back holds a validated profile. */
  lemma {:induction false} LoadedProfilesValid(lines: seq<string>, i: nat)
    requires i <= |lines|
    requires LoadFrom(lines, i).Success?
    ensures forall k :: 0 <= k < |LoadFrom(lines, i).value| ==> ValidProfile(LoadFrom(lines, i).value[k].profile)
    decreases |lines| - i
  {
    if i < |lines| && !IsBlank(lines[i]) {
      ParsedProfileValid(SplitAll(lines[i], SEP));
      LoadedProfilesValid(lines, i + 1);
    }
  }

  lemma ParsedProfileValid(parts: seq<string>)
    ensures FromParts(parts).Success? && FromParts(parts).value.Some? ==> ValidProfile(FromParts(parts).value.value.profile)
  {
    if |parts| == 2 {
      DefaultProfileValidates();
    }
  }

  /** No string field of the record holds the separator. */
  predicate CommaFree(r: Record)
  {
    && SEP !in r.username && SEP !in r.password && SEP !in r.profile.name
    && SEP !in r.profile.contact && SEP !in r.profile.address
  }

  /**
   * No string field of the record holds a line terminator, so its written
   * line stays one line when `readLine` cuts the file apart.
   */
  predicate SingleLine(r: Record)
  {
    && '\n' !in r.username && '\n' !in r.password && '\n' !in r.profile.name
    && '\n' !in r.profile.contact && '\n' !in r.profile.address
    && '\r' !in r.username && '\r' !in r.password && '\r' !in r.profile.name
    && '\r' !in r.profile.contact && '\r' !in r.profile.address
  }

  /** A record that survives the round trip through the file. */
  predicate Storable(r: Record)
  {
    ValidProfile(r.profile) && CommaFree(r) && SingleLine(r)
  }

  lemma NoSepInNumber(i: int)
    ensures SEP !in IntToString(i)
  {
    var s := IntToString(i);
    if i < 0 {
      var m: nat := -i;
      assert s == "-" + NatToString(m);
      assert forall k :: 1 <= k < |s| ==> IsDigit(s[k]);
    } else {
      assert forall k :: 0 <= k < |s| ==> IsDigit(s[k]);
    }
  }

  /** The fields of a record that holds no comma hold no comma once written. */
  lemma FieldsHaveNoSep(r: Record)
    requires CommaFree(r)
    ensures forall k :: 0 <= k < |Fields(r)| ==> SEP !in Fields(r)[k]
  {
    NoSepInNumber(r.profile.age);
  }

  /** Reading back the fields of a record with a valid profile gives the record. */
  lemma FromFieldsOfRecord(r: Record)
    requires ValidProfile(r.profile)
    ensures FromParts(Fields(r)) == Success(Some(r))
  {
    var parts := Fields(r);
    assert |parts| == 7;
    ParseIntOfIntToString(r.profile.age);
    assert ParseInt(parts[3]) == Some(r.profile.age);
    ParseBooleanOfBoolToString(r.profile.gender);
    assert ParseBoolean(parts[4]) == r.profile.gender;
    ValidateStoredProfile(r.profile);
  }

  /** Reading a written line gives back the record, when no field holds a comma. */
  lemma ParseFormatLine(r: Record)
    requires ValidProfile(r.profile) && CommaFree(r)
    ensures ParseLine(FormatLine(r)) == Success(Some(r))
  {
    FieldsHaveNoSep(r);
    SplitAllJoin(Fields(r), SEP);
    FromFieldsOfRecord(r);
  }

  /** A written line is never blank, so it never stops the reader. */
  lemma FormatLineNotBlank(r: Record)
    ensures !IsBlank(FormatLine(r))
  {
    var line := FormatLine(r);
    var k :| 0 <= k < |line| && line[k] == SEP;
    assert !IsTrimmed(line[k]);
  }

  /** Saving and reloading storable records gives them back, in order. */
  lemma LoadFormatAll(rs: seq<Record>)
    requires forall k :: 0 <= k < |rs| ==> Storable(rs[k])
    ensures LoadAccounts(FormatAll(rs)) == Success(rs)
  {
    var lines := FormatAll(rs);
    FormatAllAt(rs);
    forall k | 0 <= k < |rs|
      ensures !IsBlank(lines[k]) && ParseLine(lines[k]) == Success(Some(rs[k]))
    {
      assert lines[k] == FormatLine(rs[k]);
      FormatLineNotBlank(rs[k]);
      ParseFormatLine(rs[k]);
    }
    LoadEachParsed(lines, rs, 0);
  }

  /** Lines that are each non-blank and each read as one record load as those records. */
  lemma {:induction false} LoadEachParsed(lines: seq<string>, rs: seq<Record>, i: nat)
    requires i <= |rs| == |lines|
    requires forall k :: 0 <= k < |rs| ==> !IsBlank(lines[k]) && ParseLine(lines[k]) == Success(Some(rs[k]))
    ensures LoadFrom(lines, i) == Success(rs[i..])
    decreases |rs| - i
  {
    if i < |rs| {
      LoadFromStep(lines, i);
      LoadEachParsed(lines, rs, i + 1);
      PrependSlice(rs, i);
    } else {
      assert rs[i..] == [];
    }
  }

  lemma PrependSlice(rs: seq<Record>, i: nat)
    requires i < |rs|
    ensures Prepend([rs[i]], Success(rs[i + 1..])) == Success(rs[i..])
  {
    assert rs[i..] == [rs[i]] + rs[i + 1..];
  }

  /** One step of the reader on a non-blank line. */
  lemma LoadFromStep(lines: seq<string>, i: nat)
    requires i < |lines| && !IsBlank(lines[i])
    ensures ParseLine(lines[i]).Failure? ==> LoadFrom(lines, i) == Failure(ParseLine(lines[i]).error)
    ensures ParseLine(lines[i]) == Success(None) ==> LoadFrom(lines, i) == LoadFrom(lines, i + 1)
    ensures ParseLine(lines[i]).Success? && ParseLine(lines[i]).value.Some? ==>
      LoadFrom(lines, i) == Prepend([ParseLine(lines[i]).value.value], LoadFrom(lines, i + 1))
  {
  }

  // ---------------------------------------------------------- the empty address

  /** The line parse as `loadUsersFromFile` writes it, with Java's `split(",")`. */
  function ParseLineAsWritten(line: string): Result<Option<Record>>
  {
    FromParts(JavaSplit(line, SEP))
  }

  /**
   * A record whose address is empty (and whose contact is not) is written
   * with a trailing comma; `split(",")` drops the empty last piece, the line
   * has six pieces and the reader as written skips it.
   */
  lemma EmptyAddressLineSkipped(r: Record)
    requires CommaFree(r)
    requires r.profile.address == "" && r.profile.contact != ""
    ensures |JavaSplit(FormatLine(r), SEP)| == 6
    ensures ParseLineAsWritten(FormatLine(r)) == Success(None)
  {
    FieldsHaveNoSep(r);
    JavaSplitJoinEmptyLast(Fields(r), SEP);
  }

  /**
   * Every account made by sign-up has the default profile, whose address is
   * empty: the reader as written skips its line, so after a restart the
   * account is gone.
   */
  lemma SignedUpAccountLost(username: string, password: string)
    requires SEP !in username && SEP !in password
    ensures ParseLineAsWritten(FormatLine(Record(username, password, DefaultProfile))) == Success(None)
  {
    var r := Record(username, password, DefaultProfile);
    DefaultProfileHasNoSep(r.profile);
    EmptyAddressLineSkipped(r);
  }

  lemma DefaultProfileHasNoSep(p: Profile)
    requires p == DefaultProfile
    ensures ValidProfile(p) && SEP !in p.name && SEP !in p.contact && p.contact != "" && p.address == ""
  {
    assert SEP !in DEFAULT_NAME && SEP !in DEFAULT_CONTACT;
    assert IsTrimmedForm(DEFAULT_NAME);
  }

  /** With every piece kept, a signed-up account reads back, and a file of its line loads it. */
  lemma SignedUpAccountKept(username: string, password: string)
    requires SEP !in username && SEP !in password
    ensures ParseLine(FormatLine(Record(username, password, DefaultProfile))) ==
      Success(Some(Record(username, password, DefaultProfile)))
    ensures LoadAccounts([FormatLine(Record(username, password, DefaultProfile))]) ==
      Success([Record(username, password, DefaultProfile)])
  {
    var r := Record(username, password, DefaultProfile);
    DefaultProfileHasNoSep(r.profile);
    ParseFormatLine(r);
    FormatLineNotBlank(r);
    var lines := [FormatLine(r)];
    LoadFromStep(lines, 0);
    assert LoadFrom(lines, 1) == Success([]);
    assert [r] + [] == [r];
  }

  /** The line parse as written reads back every comma-free record whose address is not empty. */
  lemma ParseFormatLineAsWritten(r: Record)
    requires ValidProfile(r.profile) && CommaFree(r)
    requires r.profile.address != ""
    ensures ParseLineAsWritten(FormatLine(r)) == Success(Some(r))
  {
    FieldsHaveNoSep(r);
    JavaSplitJoin(Fields(r), SEP);
    FromFieldsOfRecord(r);
  }

  /** `loadUsersFromFile` as written, from line `i` on, with the `split(",")` parse. */
  function LoadFromAsWritten(lines: seq<string>, i: nat): Result<seq<Record>>
    requires i <= |lines|
    decreases |lines| - i
  {
    if i == |lines| || IsBlank(lines[i]) then Success([])
    else
      match ParseLineAsWritten(lines[i])
      case Failure(e) => Failure(e)
      case Success(None) => LoadFromAsWritten(lines, i + 1)
      case Success(Some(r)) => Prepend([r], LoadFromAsWritten(lines, i + 1))
  }

  function LoadAccountsAsWritten(lines: seq<string>): Result<seq<Record>>
  {
    LoadFromAsWritten(lines, 0)
  }

  /** The two loaders agree on a file on whose every line the two parses agree. */
  lemma {:induction false} LoadersAgree(lines: seq<string>, i: nat)
    requires i <= |lines|
    requires forall k :: i <= k < |lines| ==> ParseLineAsWritten(lines[k]) == ParseLine(lines[k])
    ensures LoadFromAsWritten(lines, i) == LoadFrom(lines, i)
    decreases |lines| - i
  {
    if i < |lines| && !IsBlank(lines[i]) {
      LoadersAgree(lines, i + 1);
    }
  }

  /**
   * Saving and reloading with the code's own `split(",")` gives the records
   * back, in order, when no address is empty.
   */
  lemma LoadFormatAllAsWritten(rs: seq<Record>)
    requires forall k :: 0 <= k < |rs| ==> Storable(rs[k]) && rs[k].profile.address != ""
    ensures LoadAccountsAsWritten(FormatAll(rs)) == Success(rs)
  {
    var lines := FormatAll(rs);
    FormatAllAt(rs);
    forall k | 0 <= k < |lines|
      ensures ParseLineAsWritten(lines[k]) == ParseLine(lines[k])
    {
      assert lines[k] == FormatLine(rs[k]);
      ParseFormatLine(rs[k]);
      ParseFormatLineAsWritten(rs[k]);
    }
    LoadersAgree(lines, 0);
    LoadFormatAll(rs);
  }
}
