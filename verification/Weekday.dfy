/** The weekdays on which appointments can be booked (`enum Weekday`). */
module Weekdays {
  import opened JavaStrings

  datatype Weekday = SUNDAY | TUESDAY | THURSDAY

  /** `Weekday.values()`, in declaration order. */
  const Values: seq<Weekday> := [SUNDAY, TUESDAY, THURSDAY]

  /** `name()`: the constant's identifier. */
  function Name(w: Weekday): string
  {
    match w
    case SUNDAY => "SUNDAY"
    case TUESDAY => "TUESDAY"
    case THURSDAY => "THURSDAY"
  }

  /** `toString()`: the name in lower case with its first letter upper-cased. */
  function ToString(w: Weekday): string
  {
    Capitalize(ToLower(Name(w)))
  }

  /** Every value occurs exactly once in `values()`, and there are three. */
  lemma ValuesComplete(w: Weekday)
    ensures |Values| == 3 && w in Values
    ensures forall i, j :: 0 <= i < j < |Values| ==> Values[i] != Values[j]
  {
  }

  /** `toString()` has the length of `name()`, an upper-case first letter and lower-case rest. */
  lemma ToStringShape(w: Weekday)
    ensures var r := ToString(w);
      |r| == |Name(w)| && IsUpperLetter(r[0]) &&
      forall i :: 1 <= i < |r| ==> IsLowerLetter(r[i])
  {
    CapitalizedLowerShape(Name(w));
  }

  /** The three display names. */
  lemma ToStringSunday()
    ensures ToString(SUNDAY) == "Sunday"
  {
  }

  lemma ToStringTuesday()
    ensures ToString(TUESDAY) == "Tuesday"
  {
  }

  lemma ToStringThursday()
    ensures ToString(THURSDAY) == "Thursday"
  {
  }
}
