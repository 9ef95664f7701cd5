/**
 * The account store (`class AccountManager`): the in-memory list of patients
 * with its first-match lookups, and the accounts file, held as its lines.
 */
module Accounts {
  import opened JavaTypes
  import opened JavaStrings
  import opened Persons
  import opened Patients
  import opened AccountFile

  /** What the file keeps of a patient. */
  function RecordOf(p: Patient): Record
    reads p.person
  {
    Record(p.username, p.password, p.person.Fields())
  }

  /** What the file keeps of each patient, in list order. */
  function Records(ps: seq<Patient>): (r: seq<Record>)
    reads set p | p in ps :: p.person
    ensures |r| == |ps|
  {
    if ps == [] then [] else [RecordOf(ps[0])] + Records(ps[1..])
  }

  /** Record `k` is what the file keeps of patient `k`. */
  lemma {:induction false} RecordsAt(ps: seq<Patient>)
    ensures forall k :: 0 <= k < |ps| ==> Records(ps)[k] == RecordOf(ps[k])
  {
    if ps != [] {
      RecordsAt(ps[1..]);
      assert forall k :: 1 <= k < |ps| ==> ps[k] == ps[1..][k - 1];
    }
  }

  /** The position of the first patient with this username, if any. */
  function IndexOfUser(users: seq<Patient>, username: string): (r: Option<nat>)
    ensures r.Some? ==> r.value < |users| && users[r.value].username == username
    decreases |users|
  {
    if users == [] then None
    else if users[0].username == username then Some(0)
    else match IndexOfUser(users[1..], username)
      case None => None
      case Some(k) => Some(k + 1)
  }

  /** The position found is the first with that username, and none is found only when no patient has it. */
  lemma {:induction false} IndexOfUserIsFirst(users: seq<Patient>, username: string)
    ensures IndexOfUser(users, username).Some? ==>
      forall j :: 0 <= j < IndexOfUser(users, username).value ==> users[j].username != username
    ensures IndexOfUser(users, username).None? ==> forall j :: 0 <= j < |users| ==> users[j].username != username
    decreases |users|
  {
    if users != [] && users[0].username != username {
      IndexOfUserIsFirst(users[1..], username);
      assert forall j :: 1 <= j < |users| ==> users[j] == users[1..][j - 1];
    }
  }

  class AccountManager {
    var users: seq<Patient>
    /** The lines of the accounts file. */
    var file: seq<string>

    constructor (users: seq<Patient>, file: seq<string>)
      ensures this.users == users && this.file == file
    {
      this.users := users;
      this.file := file;
    }

    /**
     * The constructor, which loads the file: each patient read from a line
     * is constructed anew. A bad or negative age escapes as an exception.
     */
    static method Open(lines: seq<string>) returns (r: Result<AccountManager>)
      ensures r.Success? <==> LoadAccounts(lines).Success?
      ensures r.Failure? ==> r.error == LoadAccounts(lines).error
      ensures r.Success? ==> fresh(r.value) && r.value.file == lines
      ensures r.Success? ==> |r.value.users| == |LoadAccounts(lines).value|
      ensures r.Success? ==> forall k :: 0 <= k < |r.value.users| ==>
        RecordOf(r.value.users[k]) == LoadAccounts(lines).value[k] && fresh(r.value.users[k])
    {
      var users: seq<Patient> := [];
      ghost var recs: seq<Record> := [];
      var i := 0;
      PrependNothing(LoadFrom(lines, 0));
      while i < |lines| && !IsBlank(lines[i])
        invariant 0 <= i <= |lines|
        invariant LoadAccounts(lines) == Prepend(recs, LoadFrom(lines, i))
        invariant |users| == |recs|
        invariant forall k :: 0 <= k < |users| ==> fresh(users[k])
        invariant forall k :: 0 <= k < |users| ==> RecordOf(users[k]) == recs[k]
      {
        var read := ReadLine(lines[i]);
        if read.Failure? {
          LoadFromStep(lines, i);
          return Failure(read.error);
        }
        if read.value.Some? {
          var p := read.value.value;
          LoadKeeps(lines, i, recs);
          users := users + [p];
          recs := recs + [RecordOf(p)];
        } else {
          LoadFromStep(lines, i);
        }
        i := i + 1;
      }
      assert LoadFrom(lines, i) == Success([]);
      assert recs + [] == recs;
      var m := new AccountManager(users, lines);
      r := Success(m);
    }

    /**
     * The body of the reading loop for one line: split it, and for seven
     * pieces parse the age and construct the full patient, for two construct
     * the default patient; otherwise nothing.
     */
    static method ReadLine(line: string) returns (r: Result<Option<Patient>>)
      ensures r.Success? <==> ParseLine(line).Success?
      ensures r.Failure? ==> r.error == ParseLine(line).error
      ensures r.Success? ==> (r.value.Some? <==> ParseLine(line).value.Some?)
      ensures r.Success? && r.value.Some? ==>
        && RecordOf(r.value.value) == ParseLine(line).value.value
        && fresh(r.value.value)
        && r.value.value.reservations == [] && r.value.value.reports == [] && r.value.value.injuries == []
    {
      var parts := SplitAll(line, SEP);
      if |parts| == 7 {
        var age := ParseInt(parts[3]);
        if age.None? {
          return Failure(NumberFormat(parts[3]));
        }
        var p := Patient.Create(parts[0], parts[1], Some(parts[2]), age.value, ParseBoolean(parts[4]),
                                Some(parts[5]), Some(parts[6]));
        if p.Failure? {
          return Failure(p.error);
        }
        r := Success(Some(p.value));
      } else if |parts| == 2 {
        var p := Patient.CreateDefault(parts[0], parts[1]);
        r := Success(Some(p));
      } else {
        r := Success(None);
      }
    }

    /** `saveUser`: appended at the end, with no check for a taken username. */
    method SaveUser(patient: Patient)
      modifies this`users
      ensures users == old(users) + [patient]
    {
      users := users + [patient];
    }

    /**
     * `updateUser`: the first patient with the same username is replaced and
     * `true` returned; with no such patient the list is left alone.
     */
    method UpdateUser(updated: Patient) returns (found: bool)
      modifies this`users
      ensures found <==> IndexOfUser(old(users), updated.username).Some?
      ensures found ==> users == old(users)[IndexOfUser(old(users), updated.username).value := updated]
      ensures !found ==> users == old(users)
    {
      var i := 0;
      while i < |users|
        invariant 0 <= i <= |users| && users == old(users)
        invariant forall j :: 0 <= j < i ==> users[j].username != updated.username
      {
        if users[i].username == updated.username {
          IndexIsFirst(users, updated.username, i);
          users := users[i := updated];
          return true;
        }
        i := i + 1;
      }
      found := false;
    }

    /** `saveAllUsers`: the file becomes one written line per patient, in list order. */
    method SaveAllUsers()
      modifies this`file
      ensures file == FormatAll(Records(users))
    {
      file := WriteLines(users);
    }

    /** The loop of `saveAllUsers`: one written line per patient, in list order. */
    static method WriteLines(ps: seq<Patient>) returns (lines: seq<string>)
      ensures lines == FormatAll(Records(ps))
    {
      ghost var recs := Records(ps);
      RecordsAt(ps);
      lines := [];
      var k := 0;
      while k < |ps|
        invariant 0 <= k <= |ps| && |lines| == k
        invariant forall j :: 0 <= j < k ==> lines[j] == FormatLine(recs[j])
      {
        lines := lines + [FormatLine(RecordOf(ps[k]))];
        k := k + 1;
      }
      FormatAllAt(recs);
      assert lines == FormatAll(recs);
    }

    /** `isUsernameTaken`: some stored patient has exactly this username. */
    method IsUsernameTaken(username: string) returns (taken: bool)
      ensures taken <==> exists k :: 0 <= k < |users| && users[k].username == username
    {
      var k := 0;
      while k < |users|
        invariant 0 <= k <= |users|
        invariant forall j :: 0 <= j < k ==> users[j].username != username
      {
        if users[k].username == username {
          return true;
        }
        k := k + 1;
      }
      taken := false;
    }

    /** `validateUser`: one stored patient has both this username and this password. */
    method ValidateUser(username: string, password: string) returns (valid: bool)
      ensures valid <==> exists k :: 0 <= k < |users| && users[k].username == username && users[k].password == password
      ensures valid ==> IndexOfUser(users, username).Some?
    {
      var k := 0;
      while k < |users|
        invariant 0 <= k <= |users|
        invariant forall j :: 0 <= j < k ==> !(users[j].username == username && users[j].password == password)
      {
        if users[k].username == username && users[k].password == password {
          IndexOfUserIsFirst(users, username);
          return true;
        }
        k := k + 1;
      }
      valid := false;
    }

    /** `getUser`: the first patient with this username, or null when there is none. */
    method GetUser(username: string) returns (p: Patient?)
      ensures p == null <==> forall k :: 0 <= k < |users| ==> users[k].username != username
      ensures p != null ==> IndexOfUser(users, username).Some? && p == users[IndexOfUser(users, username).value]
    {
      var k := 0;
      while k < |users|
        invariant 0 <= k <= |users|
        invariant forall j :: 0 <= j < k ==> users[j].username != username
      {
        if users[k].username == username {
          IndexIsFirst(users, username, k);
          return users[k];
        }
        k := k + 1;
      }
      p := null;
    }
  }

  /** The file written for patients whose records are all storable loads back as those records. */
  lemma SavedUsersReload(users: seq<Patient>)
    requires forall k :: 0 <= k < |users| ==> Storable(RecordOf(users[k]))
    ensures LoadAccounts(FormatAll(Records(users))) == Success(Records(users))
  {
    RecordsAt(users);
    LoadFormatAll(Records(users));
  }

  /**
   * With the code's own `split(",")` the file loads back only when, in
   * addition, no patient's address is empty.
   */
  lemma SavedUsersReloadAsWritten(users: seq<Patient>)
    requires forall k :: 0 <= k < |users| ==> Storable(RecordOf(users[k])) && RecordOf(users[k]).profile.address != ""
    ensures LoadAccountsAsWritten(FormatAll(Records(users))) == Success(Records(users))
  {
    var rs := Records(users);
    RecordsAt(users);
    forall k | 0 <= k < |rs|
      ensures Storable(rs[k]) && rs[k].profile.address != ""
    {
      assert rs[k] == RecordOf(users[k]);
    }
    LoadFormatAllAsWritten(rs);
  }

  /** A line that reads as a record adds it after the records read before it. */
  lemma LoadKeeps(lines: seq<string>, i: nat, recs: seq<Record>)
    requires i < |lines| && !IsBlank(lines[i])
    requires LoadAccounts(lines) == Prepend(recs, LoadFrom(lines, i))
    requires ParseLine(lines[i]).Success? && ParseLine(lines[i]).value.Some?
    ensures LoadAccounts(lines) == Prepend(recs + [ParseLine(lines[i]).value.value], LoadFrom(lines, i + 1))
  {
    LoadFromStep(lines, i);
    PrependTwice(recs, ParseLine(lines[i]).value.value, LoadFrom(lines, i + 1));
  }

  lemma PrependNothing(rest: Result<seq<Record>>)
    ensures Prepend([], rest) == rest
  {
    if rest.Success? {
      assert [] + rest.value == rest.value;
    }
  }

  lemma PrependTwice(recs: seq<Record>, r: Record, rest: Result<seq<Record>>)
    ensures Prepend(recs, Prepend([r], rest)) == Prepend(recs + [r], rest)
  {
    if rest.Success? {
      assert recs + ([r] + rest.value) == (recs + [r]) + rest.value;
    }
  }

  /** A matching position with no match before it is the first match. */
  lemma IndexIsFirst(users: seq<Patient>, username: string, i: nat)
    requires i < |users| && users[i].username == username
    requires forall j :: 0 <= j < i ==> users[j].username != username
    ensures IndexOfUser(users, username) == Some(i)
  {
    if i > 0 {
      assert users[1..][i - 1] == users[i];
      IndexIsFirst(users[1..], username, i - 1);
    }
  }
}
