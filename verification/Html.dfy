/**
 * `MainGUI.escapeHtml`: the report shows user text inside HTML, so the five
 * characters `& < > " '` are written as the character references
 * `&amp; &lt; &gt; &quot; &#39;` (section 13.1.4 of the WHATWG HTML Living
 * Standard, "Character references").
 */
module Html {
  import opened JavaTypes

  /** `s.replace(target, by)` for a one-character target: every occurrence, left to right. */
  function ReplaceAll(s: string, target: char, replacement: string): (r: string)
    ensures target !in replacement ==> target !in r
    ensures forall c :: c != target && c !in replacement ==> (c in r <==> c in s)
  {
    if s == [] then [] else (if s[0] == target then replacement else [s[0]]) + ReplaceAll(s[1..], target, replacement)
  }

  lemma {:induction false} ReplaceAllAppend(a: string, b: string, target: char, replacement: string)
    ensures ReplaceAll(a + b, target, replacement) == ReplaceAll(a, target, replacement) + ReplaceAll(b, target, replacement)
  {
    if a == [] {
      assert a + b == b;
    } else {
      assert (a + b)[0] == a[0] && (a + b)[1..] == a[1..] + b;
      ReplaceAllAppend(a[1..], b, target, replacement);
    }
  }

  lemma {:induction false} ReplaceAllAbsent(s: string, target: char, replacement: string)
    requires target !in s
    ensures ReplaceAll(s, target, replacement) == s
  {
    if s != [] {
      ReplaceAllAbsent(s[1..], target, replacement);
    }
  }

  const AMP: string := "&amp;"
  const LT: string := "&lt;"
  const GT: string := "&gt;"
  const QUOT: string := "&quot;"
  const APOS: string := "&#39;"

  /** The replacements in the order `escapeHtml` applies them: `&` first. */
  function Replaced(t: string): string
  {
    ReplaceAll(ReplaceAll(ReplaceAll(ReplaceAll(ReplaceAll(t, '&', AMP), '<', LT), '>', GT), '"', QUOT), '\'', APOS)
  }

  /** `escapeHtml`: null gives `""`. */
  function EscapeHtml(text: Option<string>): (r: string)
    ensures text.None? ==> r == ""
  {
    match text
    case None => ""
    case Some(t) => Replaced(t)
  }

  predicate IsSpecial(c: char) { c == '&' || c == '<' || c == '>' || c == '"' || c == '\'' }

  /** The reference for one character, or the character itself. */
  function Entity(c: char): (r: string)
    ensures |r| >= 1 && r[0] == (if IsSpecial(c) then '&' else c)
    ensures forall k :: 1 <= k < |r| ==> !IsSpecial(r[k])
  {
    match c
    case '&' => AMP
    case '<' => LT
    case '>' => GT
    case '"' => QUOT
    case '\'' => APOS
    case _ => [c]
  }

  /** The reference definition: each character escaped on its own. */
  function EscapeChars(s: string): string
  {
    if s == [] then [] else Entity(s[0]) + EscapeChars(s[1..])
  }

  lemma ReplacedAppend(a: string, b: string)
    ensures Replaced(a + b) == Replaced(a) + Replaced(b)
  {
    var s1a, s1b := ReplaceAll(a, '&', AMP), ReplaceAll(b, '&', AMP);
    ReplaceAllAppend(a, b, '&', AMP);
    var s2a, s2b := ReplaceAll(s1a, '<', LT), ReplaceAll(s1b, '<', LT);
    ReplaceAllAppend(s1a, s1b, '<', LT);
    var s3a, s3b := ReplaceAll(s2a, '>', GT), ReplaceAll(s2b, '>', GT);
    ReplaceAllAppend(s2a, s2b, '>', GT);
    var s4a, s4b := ReplaceAll(s3a, '"', QUOT), ReplaceAll(s3b, '"', QUOT);
    ReplaceAllAppend(s3a, s3b, '"', QUOT);
    ReplaceAllAppend(s4a, s4b, '\'', APOS);
  }

  lemma ReplaceAllSingle(c: char, target: char, replacement: string)
    ensures ReplaceAll([c], target, replacement) == if c == target then replacement else [c]
  {
    assert [c][1..] == [];
  }

  /** The replacements that follow a reference's own leave it alone. */
  lemma ReferencesKeepShape()
    ensures '<' !in AMP && '>' !in AMP && '"' !in AMP && '\'' !in AMP
    ensures '>' !in LT && '"' !in LT && '\'' !in LT
    ensures '"' !in GT && '\'' !in GT
    ensures '\'' !in QUOT
  {
  }

  /** On one character, the chain of replacements gives that character's reference. */
  lemma ReplacedChar(c: char)
    ensures Replaced([c]) == Entity(c)
  {
    ReferencesKeepShape();
    var s1 := ReplaceAll([c], '&', AMP);
    ReplaceAllSingle(c, '&', AMP);
    var s2 := ReplaceAll(s1, '<', LT);
    if c == '&' { ReplaceAllAbsent(s1, '<', LT); } else { ReplaceAllSingle(c, '<', LT); }
    var s3 := ReplaceAll(s2, '>', GT);
    if c == '&' || c == '<' { ReplaceAllAbsent(s2, '>', GT); } else { ReplaceAllSingle(c, '>', GT); }
    var s4 := ReplaceAll(s3, '"', QUOT);
    if c == '&' || c == '<' || c == '>' { ReplaceAllAbsent(s3, '"', QUOT); } else { ReplaceAllSingle(c, '"', QUOT); }
    if c == '&' || c == '<' || c == '>' || c == '"' { ReplaceAllAbsent(s4, '\'', APOS); } else { ReplaceAllSingle(c, '\'', APOS); }
  }

  /**
   * Replacing `&` first and the others after it escapes each character on
   * its own: the references the later steps insert are not escaped again.
   */
  lemma {:induction false} EscapeHtmlPerChar(s: string)
    ensures EscapeHtml(Some(s)) == EscapeChars(s)
  {
    if s != [] {
      assert s == [s[0]] + s[1..];
      ReplacedAppend([s[0]], s[1..]);
      ReplacedChar(s[0]);
      EscapeHtmlPerChar(s[1..]);
    }
  }

  // ------------------------------------------------------------- what the output holds

  /** `e` occurs in `r` at position `i`. */
  predicate At(r: string, i: nat, e: string)
  {
    i + |e| <= |r| && r[i..i + |e|] == e
  }

  /** Position `i` of `r` starts one of the five references. */
  predicate StartsReference(r: string, i: nat)
  {
    At(r, i, AMP) || At(r, i, LT) || At(r, i, GT) || At(r, i, QUOT) || At(r, i, APOS)
  }

  lemma AtShift(a: string, b: string, j: nat, e: string)
    requires At(b, j, e)
    ensures At(a + b, |a| + j, e)
  {
    assert (a + b)[|a| + j..|a| + j + |e|] == b[j..j + |e|];
  }

  lemma AtFront(a: string, b: string)
    ensures At(a + b, 0, a)
  {
    assert (a + b)[0..|a|] == a;
  }

  lemma StartsReferenceShift(a: string, b: string, j: nat)
    requires StartsReference(b, j)
    ensures StartsReference(a + b, |a| + j)
  {
    if At(b, j, AMP) { AtShift(a, b, j, AMP); }
    else if At(b, j, LT) { AtShift(a, b, j, LT); }
    else if At(b, j, GT) { AtShift(a, b, j, GT); }
    else if At(b, j, QUOT) { AtShift(a, b, j, QUOT); }
    else { AtShift(a, b, j, APOS); }
  }

  /** The reference of a special character starts a reference wherever it is put in front. */
  lemma EntityStartsReference(c: char, t: string)
    requires IsSpecial(c)
    ensures StartsReference(Entity(c) + t, 0)
  {
    AtFront(Entity(c), t);
  }

  /** The reference definition leaves only `&` of the five characters. */
  lemma {:induction false} EscapeCharsOnlyAmp(s: string)
    ensures forall i :: 0 <= i < |EscapeChars(s)| && IsSpecial(EscapeChars(s)[i]) ==> EscapeChars(s)[i] == '&'
  {
    if s != [] {
      var e, t := Entity(s[0]), EscapeChars(s[1..]);
      EscapeCharsOnlyAmp(s[1..]);
      var r := e + t;
      assert r == EscapeChars(s);
      forall i | 0 <= i < |r| && IsSpecial(r[i])
        ensures r[i] == '&'
      {
        if i >= |e| {
          assert r[i] == t[i - |e|];
        }
      }
    }
  }

  /** In the reference definition every `&` starts a reference. */
  lemma {:induction false} EscapeCharsAmpStarts(s: string)
    ensures forall i :: 0 <= i < |EscapeChars(s)| && EscapeChars(s)[i] == '&' ==> StartsReference(EscapeChars(s), i)
  {
    if s != [] {
      var e, t := Entity(s[0]), EscapeChars(s[1..]);
      EscapeCharsAmpStarts(s[1..]);
      var r := e + t;
      assert r == EscapeChars(s);
      forall i | 0 <= i < |r| && r[i] == '&'
        ensures StartsReference(r, i)
      {
        if i < |e| {
          assert i == 0 && IsSpecial(s[0]);
          EntityStartsReference(s[0], t);
        } else {
          assert r[i] == t[i - |e|];
          StartsReferenceShift(e, t, i - |e|);
        }
      }
    }
  }

  /**
   * The output of `escapeHtml` holds no `<`, `>`, `"` or `'`, and every `&`
   * in it begins one of the five references.
   */
  lemma EscapedIsMarkupFree(s: string)
    ensures forall i :: 0 <= i < |EscapeHtml(Some(s))| ==> !IsSpecial(EscapeHtml(Some(s))[i]) || EscapeHtml(Some(s))[i] == '&'
    ensures forall i :: 0 <= i < |EscapeHtml(Some(s))| && EscapeHtml(Some(s))[i] == '&' ==> StartsReference(EscapeHtml(Some(s)), i)
  {
    EscapeHtmlPerChar(s);
    EscapeCharsOnlyAmp(s);
    EscapeCharsAmpStarts(s);
  }

  lemma {:induction false} EscapeCharsPlain(s: string)
    requires forall i :: 0 <= i < |s| ==> !IsSpecial(s[i])
    ensures EscapeChars(s) == s
  {
    if s != [] {
      EscapeCharsPlain(s[1..]);
      assert s == [s[0]] + s[1..];
    }
  }

  /** Text with none of the five characters comes back unchanged. */
  lemma PlainTextUnchanged(s: string)
    requires forall i :: 0 <= i < |s| ==> !IsSpecial(s[i])
    ensures EscapeHtml(Some(s)) == s
  {
    EscapeHtmlPerChar(s);
    EscapeCharsPlain(s);
  }

  // ------------------------------------------------------------------- decoding

  /** `r` begins with `e`. */
  predicate Starts(r: string, e: string)
  {
    |e| <= |r| && r[..|e|] == e
  }

  /** What a reader of the HTML makes of the text: the five references decoded, left to right. */
  function Unescape(r: string): string
    decreases |r|
  {
    if r == [] then []
    else if r[0] != '&' then [r[0]] + Unescape(r[1..])
    else if Starts(r, AMP) then "&" + Unescape(r[|AMP|..])
    else if Starts(r, LT) then "<" + Unescape(r[|LT|..])
    else if Starts(r, GT) then ">" + Unescape(r[|GT|..])
    else if Starts(r, QUOT) then "\"" + Unescape(r[|QUOT|..])
    else if Starts(r, APOS) then "'" + Unescape(r[|APOS|..])
    else "&" + Unescape(r[1..])
  }

  /** Text that differs from `e` in its second character does not begin with `e`. */
  lemma NotStarts(r: string, e: string)
    requires |e| >= 2 && |r| >= 2 && r[1] != e[1]
    ensures !Starts(r, e)
  {
  }

  lemma StartsFront(e: string, t: string)
    ensures Starts(e + t, e) && (e + t)[|e|..] == t
  {
    assert (e + t)[..|e|] == e;
  }

  /** Decoding one character's reference gives the character back. */
  lemma UnescapeEntity(c: char, t: string)
    ensures Unescape(Entity(c) + t) == [c] + Unescape(t)
  {
    var e := Entity(c);
    var r := e + t;
    StartsFront(e, t);
    if !IsSpecial(c) {
      assert r[1..] == t;
    } else if c == '&' {
    } else if c == '<' {
      NotStarts(r, AMP);
    } else if c == '>' {
      NotStarts(r, AMP); NotStarts(r, LT);
    } else if c == '"' {
      NotStarts(r, AMP); NotStarts(r, LT); NotStarts(r, GT);
    } else {
      NotStarts(r, AMP); NotStarts(r, LT); NotStarts(r, GT); NotStarts(r, QUOT);
    }
  }

  lemma {:induction false} UnescapeEscapeChars(s: string)
    ensures Unescape(EscapeChars(s)) == s
  {
    if s != [] {
      UnescapeEntity(s[0], EscapeChars(s[1..]));
      UnescapeEscapeChars(s[1..]);
      assert s == [s[0]] + s[1..];
    }
  }

  /** The round trip: decoding the escaped text gives the original text, so escaping loses nothing. */
  lemma UnescapeEscapeHtml(s: string)
    ensures Unescape(EscapeHtml(Some(s))) == s
  {
    EscapeHtmlPerChar(s);
    UnescapeEscapeChars(s);
  }
}
