/**
 * The `java.lang.String`, `Integer` and `Boolean` operations the core
 * relies on, written out over `seq<char>`: `trim`, `split(",")`,
 * `replace`, ASCII case mapping, `Integer.parseInt`, `Integer.toString`
 * and `Boolean.parseBoolean`.
 */
module JavaStrings {
  import opened JavaTypes

  // ---------------------------------------------------------------- trim

  /** `String.trim` removes every character whose code is at most U+0020. */
  predicate IsTrimmed(c: char) { c <= ' ' }

  /** Java's `st`: the first index from `i` on whose character `trim` keeps, or `|s|`. */
  function TrimStart(s: string, i: nat): (k: nat)
    requires i <= |s|
    ensures i <= k <= |s|
    ensures k < |s| ==> !IsTrimmed(s[k])
    decreases |s| - i
  {
    if i < |s| && IsTrimmed(s[i]) then TrimStart(s, i + 1) else i
  }

  /** Java's `len`: scanning down from `j`, not below `lo`, the end of the kept part. */
  function TrimEnd(s: string, lo: nat, j: nat): (k: nat)
    requires lo <= j <= |s|
    ensures lo <= k <= j
    ensures k > lo ==> !IsTrimmed(s[k - 1])
    decreases j
  {
    if j > lo && IsTrimmed(s[j - 1]) then TrimEnd(s, lo, j - 1) else j
  }

  /** `String.trim()`: the part between the two indices. */
  function Trim(s: string): (r: string)
    ensures |r| <= |s|
  {
    var st := TrimStart(s, 0);
    s[st..TrimEnd(s, st, |s|)]
  }

  /** Every character `TrimStart` passes over is removable. */
  lemma {:induction false} TrimStartSkips(s: string, i: nat)
    requires i <= |s|
    ensures forall m :: i <= m < TrimStart(s, i) ==> IsTrimmed(s[m])
    decreases |s| - i
  {
    if i < |s| && IsTrimmed(s[i]) {
      TrimStartSkips(s, i + 1);
    }
  }

  /** Every character `TrimEnd` passes over is removable. */
  lemma {:induction false} TrimEndSkips(s: string, lo: nat, j: nat)
    requires lo <= j <= |s|
    ensures forall m :: TrimEnd(s, lo, j) <= m < j ==> IsTrimmed(s[m])
    decreases j
  {
    if j > lo && IsTrimmed(s[j - 1]) {
      TrimEndSkips(s, lo, j - 1);
    }
  }

  /** A string with no removable character at either end. */
  predicate IsTrimmedForm(s: string)
  {
    s == [] || (!IsTrimmed(s[0]) && !IsTrimmed(s[|s| - 1]))
  }

  /** Blank: every character is at most U+0020, which is `s.trim().isEmpty()` (see `BlankIffTrimEmpty`). */
  predicate IsBlank(s: string)
  {
    forall i :: 0 <= i < |s| ==> IsTrimmed(s[i])
  }

  /** What `trim` returns has no removable character at either end. */
  lemma TrimShape(s: string)
    ensures IsTrimmedForm(Trim(s))
  {
    var st := TrimStart(s, 0);
    var en := TrimEnd(s, st, |s|);
    if st < en {
      assert Trim(s)[0] == s[st] && Trim(s)[|Trim(s)| - 1] == s[en - 1];
    }
  }

  /** Trimming a string that is already in trimmed form changes nothing. */
  lemma TrimOfTrimmedForm(s: string)
    requires IsTrimmedForm(s)
    ensures Trim(s) == s
  {
    if s != [] {
      assert TrimStart(s, 0) == 0;
      assert TrimEnd(s, 0, |s|) == |s|;
      assert s[0..|s|] == s;
    }
  }

  /** `trim` is idempotent: a name or address stored trimmed reads back unchanged. */
  lemma TrimIdempotent(s: string)
    ensures Trim(Trim(s)) == Trim(s)
  {
    TrimShape(s);
    TrimOfTrimmedForm(Trim(s));
  }

  /** A string is blank exactly when trimming leaves nothing. */
  lemma BlankIffTrimEmpty(s: string)
    ensures IsBlank(s) <==> Trim(s) == []
  {
    var st := TrimStart(s, 0);
    var en := TrimEnd(s, st, |s|);
    assert |Trim(s)| == en - st;
    if st == en {
      TrimStartSkips(s, 0);
      TrimEndSkips(s, st, |s|);
    }
  }

  // ------------------------------------------------------ ASCII case maps

  function ToLowerChar(c: char): (r: char)
    ensures 'A' <= c <= 'Z' ==> 'a' <= r <= 'z'
    ensures !('A' <= c <= 'Z') ==> r == c
  {
    if 'A' <= c <= 'Z' then (c as int + 32) as char else c
  }

  function ToUpperChar(c: char): (r: char)
    ensures 'a' <= c <= 'z' ==> 'A' <= r <= 'Z'
    ensures !('a' <= c <= 'z') ==> r == c
  {
    if 'a' <= c <= 'z' then (c as int - 32) as char else c
  }

  /** `String.toLowerCase()` on ASCII letters. */
  function ToLower(s: string): string
  {
    seq(|s|, i requires 0 <= i < |s| => ToLowerChar(s[i]))
  }

  /** `String.replace(char, char)`. */
  function ReplaceChar(s: string, old_: char, new_: char): string
  {
    seq(|s|, i requires 0 <= i < |s| => if s[i] == old_ then new_ else s[i])
  }

  /** `Character.toUpperCase(s.charAt(0)) + s.substring(1)`; Java throws on an empty string. */
  function Capitalize(s: string): (r: string)
    requires |s| > 0
    ensures |r| == |s| && r[0] == ToUpperChar(s[0]) && r[1..] == s[1..]
  {
    [ToUpperChar(s[0])] + s[1..]
  }

  predicate IsUpperLetter(c: char) { 'A' <= c <= 'Z' }
  predicate IsLowerLetter(c: char) { 'a' <= c <= 'z' }

  /** Capitalizing the lower-cased form of an upper-case word keeps its length and letter case shape. */
  lemma CapitalizedLowerShape(s: string)
    requires |s| > 0 && forall i :: 0 <= i < |s| ==> IsUpperLetter(s[i])
    ensures var r := Capitalize(ToLower(s));
      |r| == |s| && IsUpperLetter(r[0]) && r[0] == s[0] &&
      forall i :: 1 <= i < |r| ==> IsLowerLetter(r[i])
  {
    var l := ToLower(s);
    var r := Capitalize(l);
    assert r[0] == ToUpperChar(ToLowerChar(s[0]));
    forall i | 1 <= i < |r| ensures IsLowerLetter(r[i]) {
      assert r[i] == l[i];
    }
  }

  /** `String.equalsIgnoreCase` on ASCII letters. */
  predicate EqualsIgnoreCase(a: string, b: string)
  {
    ToLower(a) == ToLower(b)
  }

  // --------------------------------------------------------------- split

  /** Every piece between occurrences of `sep`, empty pieces included. */
  function SplitAll(s: string, sep: char): (r: seq<string>)
    ensures |r| >= 1
  {
    if s == [] then [""]
    else if s[0] == sep then [""] + SplitAll(s[1..], sep)
    else var rest := SplitAll(s[1..], sep); [[s[0]] + rest[0]] + rest[1..]
  }

  /** Removes the trailing empty strings, as `split` with limit 0 does. */
  function DropTrailingEmpty(parts: seq<string>): (r: seq<string>)
    ensures |r| <= |parts| && r == parts[..|r|]
    ensures r == [] || r[|r| - 1] != ""
    ensures forall i :: |r| <= i < |parts| ==> parts[i] == ""
  {
    if parts != [] && parts[|parts| - 1] == "" then DropTrailingEmpty(parts[..|parts| - 1]) else parts
  }

  /**
   * `s.split(",")` for a one-character separator: when the separator does
   * not occur the result is the string itself (even the empty one);
   * otherwise the pieces, without trailing empty ones.
   */
  function JavaSplit(s: string, sep: char): seq<string>
  {
    if sep !in s then [s] else DropTrailingEmpty(SplitAll(s, sep))
  }

  /** The pieces joined with `sep` between them (the writer's `a + "," + b + ...`). */
  function Join(parts: seq<string>, sep: char): string
    requires |parts| >= 1
  {
    if |parts| == 1 then parts[0] else parts[0] + [sep] + Join(parts[1..], sep)
  }

  lemma {:induction false} SplitAllNoSep(a: string, sep: char)
    requires sep !in a
    ensures SplitAll(a, sep) == [a]
  {
    if a != [] {
      SplitAllNoSep(a[1..], sep);
      assert [a[0]] + a[1..] == a;
    }
  }

  lemma {:induction false} SplitAllPiece(a: string, sep: char, rest: string)
    requires sep !in a
    ensures SplitAll(a + [sep] + rest, sep) == [a] + SplitAll(rest, sep)
  {
    if a == [] {
      assert a + [sep] + rest == [sep] + rest;
      assert ([sep] + rest)[1..] == rest;
    } else {
      var s := a + [sep] + rest;
      assert s[0] == a[0] && s[1..] == a[1..] + [sep] + rest;
      SplitAllPiece(a[1..], sep, rest);
      assert [a[0]] + a[1..] == a;
    }
  }

  /** Splitting a join of separator-free pieces gives back every piece, empty ones included. */
  lemma {:induction false} SplitAllJoin(parts: seq<string>, sep: char)
    requires |parts| >= 1
    requires forall i :: 0 <= i < |parts| ==> sep !in parts[i]
    ensures SplitAll(Join(parts, sep), sep) == parts
  {
    if |parts| == 1 {
      SplitAllNoSep(parts[0], sep);
    } else {
      SplitAllJoin(parts[1..], sep);
      SplitAllPiece(parts[0], sep, Join(parts[1..], sep));
      assert [parts[0]] + parts[1..] == parts;
    }
  }

  lemma {:induction false} JoinContainsSep(parts: seq<string>, sep: char)
    requires |parts| >= 2
    ensures sep in Join(parts, sep)
  {
    var j := Join(parts, sep);
    assert j == parts[0] + [sep] + Join(parts[1..], sep);
    assert j[|parts[0]|] == sep;
  }

  /**
   * `split` undoes the writer's join when no piece holds the separator and
   * the last piece is not empty.
   */
  lemma JavaSplitJoin(parts: seq<string>, sep: char)
    requires |parts| >= 2
    requires forall i :: 0 <= i < |parts| ==> sep !in parts[i]
    requires parts[|parts| - 1] != ""
    ensures JavaSplit(Join(parts, sep), sep) == parts
  {
    JoinContainsSep(parts, sep);
    SplitAllJoin(parts, sep);
  }

  /**
   * With an empty last piece (and a non-empty one before it), `split`
   * returns one piece fewer than were joined.
   */
  lemma JavaSplitJoinEmptyLast(parts: seq<string>, sep: char)
    requires |parts| >= 2
    requires forall i :: 0 <= i < |parts| ==> sep !in parts[i]
    requires parts[|parts| - 1] == "" && parts[|parts| - 2] != ""
    ensures JavaSplit(Join(parts, sep), sep) == parts[..|parts| - 1]
  {
    JoinContainsSep(parts, sep);
    SplitAllJoin(parts, sep);
  }

  // ------------------------------------------------------------- numbers

  predicate IsDigit(c: char) { '0' <= c <= '9' }

  function DigitValue(c: char): nat
    requires IsDigit(c)
  {
    c as int - '0' as int
  }

  function DigitChar(d: nat): (c: char)
    requires d < 10
    ensures IsDigit(c) && DigitValue(c) == d
  {
    ('0' as int + d) as char
  }

  predicate AllDigits(s: string)
  {
    forall i :: 0 <= i < |s| ==> IsDigit(s[i])
  }

  /** The value of a string of decimal digits, most significant first. */
  function DigitsValue(s: string): nat
    requires AllDigits(s)
  {
    if s == [] then 0 else 10 * DigitsValue(s[..|s| - 1]) + DigitValue(s[|s| - 1])
  }

  /** The decimal digits of `n`, without leading zeros. */
  function NatToString(n: nat): (r: string)
    ensures |r| >= 1 && AllDigits(r)
  {
    if n < 10 then [DigitChar(n)] else NatToString(n / 10) + [DigitChar(n % 10)]
  }

  /** `Integer.toString(i)` (also what `"" + i` produces). */
  function IntToString(i: int): string
  {
    if i < 0 then "-" + NatToString(-i) else NatToString(i)
  }

  /**
   * `Integer.parseInt(s)`: an optional `+` or `-`, then at least one
   * decimal digit, with a value that fits in an `int`; anything else is a
   * `NumberFormatException` (`None`). Only ASCII digits are modelled.
   */
  function ParseInt(s: string): (r: Option<int32>)
  {
    if s == [] then None
    else
      var signed := s[0] == '-' || s[0] == '+';
      var digits := if signed then s[1..] else s;
      if digits == [] || !AllDigits(digits) then None
      else
        var d: int := DigitsValue(digits);
        var v := if s[0] == '-' then -d else d;
        if INT_MIN <= v <= INT_MAX then Some(v) else None
  }

  lemma {:induction false} DigitsValueOfNatToString(n: nat)
    ensures DigitsValue(NatToString(n)) == n
  {
    if n >= 10 {
      var s := NatToString(n);
      DigitsValueOfNatToString(n / 10);
      assert s[..|s| - 1] == NatToString(n / 10);
    }
  }

  /** `Integer.parseInt` reads back what `Integer.toString` wrote, for every `int`. */
  lemma ParseIntOfIntToString(i: int32)
    ensures ParseInt(IntToString(i)) == Some(i)
  {
    var s := IntToString(i);
    if i < 0 {
      var m: nat := -(i as int);
      var t := NatToString(m);
      DigitsValueOfNatToString(m);
      assert s == "-" + t && s[0] == '-' && s[1..] == t;
    } else {
      var t := NatToString(i);
      DigitsValueOfNatToString(i);
      assert s == t && IsDigit(s[0]);
    }
  }

  /** `"" + b` for a boolean. */
  function BoolToString(b: bool): string
  {
    if b then "true" else "false"
  }

  /** `Boolean.parseBoolean(s)`: true exactly for "true" in any letter case. */
  predicate ParseBoolean(s: string)
  {
    EqualsIgnoreCase(s, "true")
  }

  lemma ParseBooleanOfBoolToString(b: bool)
    ensures ParseBoolean(BoolToString(b)) == b
  {
    if !b {
      assert ToLower("false")[0] != ToLower("true")[0];
    }
  }
}
