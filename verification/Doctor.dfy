/**
 * Doctors (`class Doctor extends Person`) and the static `ID_Counter` that
 * numbers them. The static counter becomes an `IdCounter` object shared by
 * whoever constructs doctors.
 */
module Doctors {
  import opened JavaTypes
  import opened Persons

  /**
   * Java's `n + 1` on an `int`: the 32-bit value congruent to `n + 1`
   * modulo 2^32, so the largest value wraps to the smallest.
   */
  function Successor(n: int32): (r: int32)
    ensures (r as int - (n as int + 1)) % 0x1_0000_0000 == 0
    ensures n < INT_MAX ==> r as int == n as int + 1
    ensures n == INT_MAX ==> r == INT_MIN
  {
    if n == INT_MAX then INT_MIN else n + 1
  }

  /** No other 32-bit value is congruent to `n + 1`: `Successor` is exactly Java's wrapped addition. */
  lemma SuccessorUnique(n: int32, r: int32)
    requires (r as int - (n as int + 1)) % 0x1_0000_0000 == 0
    ensures r == Successor(n)
  {
    var d := r as int - (n as int + 1);
    assert -0x1_0000_0000 <= d < 0x1_0000_0000;
    assert d == 0 || d == -0x1_0000_0000;
  }

  /** The ids that `n` successful constructions hand out, starting from counter value `start`. */
  function IssuedIds(start: int32, n: nat): (r: seq<int32>)
    ensures |r| == n
    decreases n
  {
    if n == 0 then [] else [start] + IssuedIds(Successor(start), n - 1)
  }

  /** Until the counter wraps, the k-th doctor gets `start + k`. */
  lemma {:induction false} IssuedIdsCount(start: int32, n: nat)
    requires start as int + n <= INT_MAX + 1
    ensures forall k :: 0 <= k < n ==> IssuedIds(start, n)[k] as int == start as int + k
    decreases n
  {
    if n > 0 {
      var rest := IssuedIds(Successor(start), n - 1);
      IssuedIdsCount(Successor(start), n - 1);
      assert IssuedIds(start, n) == [start] + rest;
    }
  }

  /** Ids of successively constructed doctors strictly increase, so they differ, until the counter wraps. */
  lemma IssuedIdsIncrease(start: int32, n: nat)
    requires start as int + n <= INT_MAX + 1
    ensures forall i, j :: 0 <= i < j < n ==> IssuedIds(start, n)[i] < IssuedIds(start, n)[j]
  {
    IssuedIdsCount(start, n);
  }

  /** From the initial counter the first doctor gets id 1, the second 2, and so on. */
  lemma FirstIds(n: nat)
    requires n <= INT_MAX
    ensures forall k :: 0 <= k < n ==> IssuedIds(1, n)[k] as int == k + 1
  {
    IssuedIdsCount(1, n);
  }

  /** The post-increment wraps: after id `INT_MAX` the next doctor gets `INT_MIN`. */
  lemma IdsWrap()
    ensures IssuedIds(INT_MAX as int32, 2) == [INT_MAX as int32, INT_MIN as int32]
  {
  }

  /** `ID_Counter`, which starts at 1. */
  class IdCounter {
    var next: int32

    constructor ()
      ensures next == 1
    {
      next := 1;
    }
  }

  class Doctor {
    const person: Person
    const specialty: Option<string>
    const id: int32

    constructor (person: Person, specialty: Option<string>, id: int32)
      ensures this.person == person && this.specialty == specialty && this.id == id
    {
      this.person := person;
      this.specialty := specialty;
      this.id := id;
    }

    /**
     * The constructor: the profile is validated first; only when that
     * succeeds does the doctor take the counter's value, which then advances.
     */
    static method Create(counter: IdCounter, name: Option<string>, age: int32, gender: bool,
                         contact: Option<string>, address: Option<string>, specialty: Option<string>)
      returns (r: Result<Doctor>)
      modifies counter
      ensures r.Success? <==> ValidateProfile(name, age, gender, contact, address).Success?
      ensures r.Failure? ==> r.error == ValidateProfile(name, age, gender, contact, address).error
      ensures r.Failure? ==> counter.next == old(counter.next)
      ensures r.Success? ==> fresh(r.value) && fresh(r.value.person) && r.value.person.Valid()
      ensures r.Success? ==> ValidateProfile(name, age, gender, contact, address) == Success(r.value.person.Fields())
      ensures r.Success? ==> r.value.id == old(counter.next) && counter.next == Successor(old(counter.next))
      ensures r.Success? ==> r.value.specialty == specialty
    {
      var p := Person.Create(name, age, gender, contact, address);
      if p.Failure? {
        return Failure(p.error);
      }
      var id := counter.next;
      counter.next := Successor(counter.next);
      var d := new Doctor(p.value, specialty, id);
      r := Success(d);
    }
  }
}
