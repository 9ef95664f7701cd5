/**
 * The personal profile shared by patients and doctors (`abstract class Person`).
 *
 * Java's inheritance becomes composition: a `Patient` or `Doctor` holds the
 * `Person` its constructor built. The profile is filled by the validating
 * setters, which the constructor runs in a fixed order; the first one that
 * throws aborts the construction.
 */
module Persons {
  import opened JavaTypes
  import opened JavaStrings

  /** The five profile fields, as they are once the setters have run. */
  datatype Profile = Profile(name: string, age: int32, gender: bool, contact: string, address: string)

  const NEGATIVE_AGE: string := "Age cannot be negative"
  const BAD_CONTACT: string := "Contact number must be exactly 11 digits"

  /** What `setName` and `setAddress` store: `""` for null, otherwise the trimmed text. */
  function StoredText(s: Option<string>): (r: string)
    ensures IsTrimmedForm(r)
    ensures s.None? ==> r == ""
    ensures s.Some? ==> |r| <= |s.value| && Trim(s.value) == r
  {
    match s
    case None => ""
    case Some(t) =>
      TrimShape(t);
      Trim(t)
  }

  /** The invariant every constructed profile keeps. */
  predicate ValidProfile(p: Profile)
  {
    p.age >= 0 && IsTrimmedForm(p.name) && IsTrimmedForm(p.address)
  }

  /**
   * The outcome of the 5-argument constructor: the setters in the order
   * name, age, gender, contact, address; a negative age throws before the
   * contact is looked at, and a null contact throws (no length or digit check).
   */
  function ValidateProfile(name: Option<string>, age: int32, gender: bool,
                           contact: Option<string>, address: Option<string>): (r: Result<Profile>)
    ensures r.Success? <==> age >= 0 && contact.Some?
    ensures age < 0 ==> r == Failure(IllegalArgument(NEGATIVE_AGE))
    ensures age >= 0 && contact.None? ==> r == Failure(IllegalArgument(BAD_CONTACT))
    ensures r.Success? ==> ValidProfile(r.value)
    ensures r.Success? ==> r.value.age == age && r.value.gender == gender && r.value.contact == contact.value
    ensures r.Success? ==> r.value.name == StoredText(name) && r.value.address == StoredText(address)
  {
    if age < 0 then Failure(IllegalArgument(NEGATIVE_AGE))
    else if contact.None? then Failure(IllegalArgument(BAD_CONTACT))
    else Success(Profile(StoredText(name), age, gender, contact.value, StoredText(address)))
  }

  /** Any contact text is accepted verbatim, whatever its length or characters. */
  lemma AnyContactAccepted(contact: string, age: int32)
    requires age >= 0
    ensures ValidateProfile(None, age, false, Some(contact), None).Success?
    ensures ValidateProfile(None, age, false, Some(contact), None).value.contact == contact
  {
  }

  /** Re-validating a stored profile gives it back unchanged. */
  lemma ValidateStoredProfile(p: Profile)
    requires ValidProfile(p)
    ensures ValidateProfile(Some(p.name), p.age, p.gender, Some(p.contact), Some(p.address)) == Success(p)
  {
    TrimOfTrimmedForm(p.name);
    TrimOfTrimmedForm(p.address);
  }

  class Person {
    var name: string
    var age: int32
    var gender: bool
    var contact: string
    var address: string

    /** The profile this object holds. */
    function Fields(): Profile
      reads this
    {
      Profile(name, age, gender, contact, address)
    }

    ghost predicate Valid()
      reads this
    {
      ValidProfile(Fields())
    }

    /** The object before any setter has run. */
    constructor Blank()
      ensures name == "" && age == 0 && !gender && contact == "" && address == ""
    {
      name, age, gender, contact, address := "", 0, false, "", "";
    }

    /** `setName`: null becomes `""`, anything else is trimmed. */
    method SetName(s: Option<string>)
      modifies this`name
      ensures name == StoredText(s)
    {
      if s.None? {
        name := "";
      } else {
        name := Trim(s.value);
      }
    }

    /** `setAge`: a negative value throws and is not stored. */
    method SetAge(a: int32) returns (thrown: Option<Error>)
      modifies this`age
      ensures a < 0 ==> thrown == Some(IllegalArgument(NEGATIVE_AGE)) && age == old(age)
      ensures a >= 0 ==> thrown == None && age == a
    {
      if a < 0 {
        return Some(IllegalArgument(NEGATIVE_AGE));
      }
      age := a;
      thrown := None;
    }

    /** `setGender` stores its argument. */
    method SetGender(g: bool)
      modifies this`gender
      ensures gender == g
    {
      gender := g;
    }

    /** `setContact_no`: null throws; any other value is stored as given. */
    method SetContact(c: Option<string>) returns (thrown: Option<Error>)
      modifies this`contact
      ensures c.None? ==> thrown == Some(IllegalArgument(BAD_CONTACT)) && contact == old(contact)
      ensures c.Some? ==> thrown == None && contact == c.value
    {
      if c.None? {
        return Some(IllegalArgument(BAD_CONTACT));
      }
      contact := c.value;
      thrown := None;
    }

    /** `setAddress`: null becomes `""`, anything else is trimmed. */
    method SetAddress(s: Option<string>)
      modifies this`address
      ensures address == StoredText(s)
    {
      if s.None? {
        address := "";
      } else {
        address := Trim(s.value);
      }
    }

    /**
     * The 5-argument constructor: the setters in the order name, age, gender,
     * contact, address. A throwing setter leaves no object behind.
     */
    static method Create(n: Option<string>, a: int32, g: bool, c: Option<string>, ad: Option<string>)
      returns (r: Result<Person>)
      ensures r.Success? <==> ValidateProfile(n, a, g, c, ad).Success?
      ensures r.Failure? ==> r.error == ValidateProfile(n, a, g, c, ad).error
      ensures r.Success? ==> ValidateProfile(n, a, g, c, ad) == Success(r.value.Fields())
      ensures r.Success? ==> fresh(r.value) && r.value.Valid()
    {
      var p := new Person.Blank();
      p.SetName(n);
      var thrown := p.SetAge(a);
      if thrown.Some? {
        return Failure(thrown.value);
      }
      p.SetGender(g);
      thrown := p.SetContact(c);
      if thrown.Some? {
        return Failure(thrown.value);
      }
      p.SetAddress(ad);
      r := Success(p);
    }
  }
}
