/** The body parts an injury is filed under (`enum BodyPart`). */
module BodyParts {
  import opened JavaStrings

  datatype BodyPart =
    | THIGH | HAMSTRING | CALF | ANKLE | KNEE | FOOT | SHIN
    | ARM | LEG | WRIST | SHOULDER | ELBOW | ACHILLES

  /** `BodyPart.values()`, in declaration order. */
  const Values: seq<BodyPart> :=
    [THIGH, HAMSTRING, CALF, ANKLE, KNEE, FOOT, SHIN, ARM, LEG, WRIST, SHOULDER, ELBOW, ACHILLES]

  /** `name()`: the constant's identifier. */
  function Name(p: BodyPart): string
  {
    match p
    case THIGH => "THIGH"
    case HAMSTRING => "HAMSTRING"
    case CALF => "CALF"
    case ANKLE => "ANKLE"
    case KNEE => "KNEE"
    case FOOT => "FOOT"
    case SHIN => "SHIN"
    case ARM => "ARM"
    case LEG => "LEG"
    case WRIST => "WRIST"
    case SHOULDER => "SHOULDER"
    case ELBOW => "ELBOW"
    case ACHILLES => "ACHILLES"
  }

  /** `toString()`: lower-case the name, turn `_` into a space, upper-case the first letter. */
  function ToString(p: BodyPart): string
  {
    Capitalize(ReplaceChar(ToLower(Name(p)), '_', ' '))
  }

  /** There are thirteen values, each exactly once. */
  lemma ValuesComplete(p: BodyPart)
    ensures |Values| == 13 && p in Values
    ensures forall i, j :: 0 <= i < j < |Values| ==> Values[i] != Values[j]
  {
  }

  /** For any non-empty name, the display form keeps the length and holds no `_`. */
  lemma DisplayFormShape(s: string)
    requires |s| > 0
    ensures var r := Capitalize(ReplaceChar(ToLower(s), '_', ' '));
      |r| == |s| && '_' !in r
  {
    var l := ReplaceChar(ToLower(s), '_', ' ');
    var r := Capitalize(l);
    forall i | 0 <= i < |r| ensures r[i] != '_' {
      if i > 0 {
        assert r[i] == l[i];
      }
    }
  }

  /** `toString()` has the length of `name()` and contains no underscore. */
  lemma ToStringShape(p: BodyPart)
    ensures |ToString(p)| == |Name(p)| && '_' !in ToString(p)
  {
    DisplayFormShape(Name(p));
  }

  /** On a name made of upper-case letters only, the display form is the name with only its first letter capital. */
  lemma DisplayFormOfWord(s: string)
    requires |s| > 0 && forall i :: 0 <= i < |s| ==> IsUpperLetter(s[i])
    ensures Capitalize(ReplaceChar(ToLower(s), '_', ' ')) == [s[0]] + ToLower(s[1..])
  {
    var l := ToLower(s);
    assert ReplaceChar(l, '_', ' ') == l by {
      forall i | 0 <= i < |l| ensures l[i] != '_' {
        assert IsLowerLetter(l[i]);
      }
    }
    assert l[1..] == ToLower(s[1..]);
    UpperOfLower(s[0]);
  }

  lemma UpperOfLower(c: char)
    requires IsUpperLetter(c)
    ensures ToUpperChar(ToLowerChar(c)) == c
  {
  }

  /** Every current value has a name of upper-case letters, so its display form is the capitalised word. */
  lemma ToStringIsCapitalizedName(p: BodyPart)
    ensures ToString(p) == [Name(p)[0]] + ToLower(Name(p)[1..])
  {
    DisplayFormOfWord(Name(p));
  }

  lemma ToStringAchilles()
    ensures ToString(ACHILLES) == "Achilles"
  {
    var n := Name(ACHILLES);
    ToStringIsCapitalizedName(ACHILLES);
    assert n[0] == 'A' && n[1..] == "CHILLES";
    LowerChilles("CHILLES");
    assert ['A'] + "chilles" == "Achilles";
  }

  lemma LowerChilles(s: string)
    requires s == "CHILLES"
    ensures ToLower(s) == "chilles"
  {
  }
}
