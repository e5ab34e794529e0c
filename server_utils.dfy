/** The string helpers of the server's utility module (server/utils.js): `getProperText`, the
    canonical form used to compare names and texts, and the word-capitalising `capitalize`. */
module ServerUtils {
  import opened Js
  import opened Text

  /** Lower-case, accent-free, trimmed form of a string: NFD, combining marks removed,
      `toLowerCase()`, `trim()`. */
  function ProperText(s: string): (r: string)
    ensures var t := Lower(StripAccents(s)); var a := LeadingSpaces(t);
      a + |r| <= |t| && r == t[a..a + |r|] && forall i :: a + |r| <= i < |t| ==> IsSpace(t[i])
    ensures |r| <= |s|
    ensures forall i :: 0 <= i < |r| ==> IsPlain(r[i]) && !IsUpperLetter(r[i])
    ensures r == [] || (!IsSpace(r[0]) && !IsSpace(r[|r| - 1]))
  {
    CanonicalChars(s);
    Trim(Lower(StripAccents(s)))
  }

  /** A character of the canonical form: plain and not a capital. */
  predicate PlainLower(c: char) {
    IsPlain(c) && !IsUpperLetter(c)
  }

  lemma CanonicalChars(s: string)
    ensures var t := Lower(StripAccents(s)); var a := LeadingSpaces(t); var r := Trim(t);
      && a + |r| <= |t| && r == t[a..a + |r|] && (forall i :: a + |r| <= i < |t| ==> IsSpace(t[i]))
      && |r| <= |s|
      && (forall i :: 0 <= i < |r| ==> IsPlain(r[i]) && !IsUpperLetter(r[i]))
      && (r == [] || (!IsSpace(r[0]) && !IsSpace(r[|r| - 1])))
  {
    var r := Trim(Lower(StripAccents(s)));
    assert forall i :: 0 <= i < |r| ==> IsPlain(r[i]) && !IsUpperLetter(r[i]) by {
      TrimmedCanonicalChars(s);
    }
  }

  lemma TrimmedCanonicalChars(s: string)
    ensures forall i :: 0 <= i < |Trim(Lower(StripAccents(s)))| ==> PlainLower(Trim(Lower(StripAccents(s)))[i])
  {
    var plain := StripAccents(s);
    var lower := Lower(plain);
    forall i | 0 <= i < |lower| ensures PlainLower(lower[i]) {
      LowerKeepsPlain(plain[i]);
    }
    TrimKeeps(lower, PlainLower);
  }

  /** The canonical form is canonical: applying it again changes nothing. */
  lemma ProperTextIdempotent(s: string)
    ensures ProperText(ProperText(s)) == ProperText(s)
  {
    var r := ProperText(s);
    assert ProperText(r) == Trim(Lower(StripAccents(r)));
    assert StripAccents(r) == r by {
      PlainUnstripped(r);
    }
    assert Lower(r) == r by {
      LowerOfLowercase(r);
    }
    assert Trim(r) == r by {
      TrimOfTrimmed(r);
    }
  }

  lemma LowerOfLowercase(s: string)
    requires forall i :: 0 <= i < |s| ==> !IsUpperLetter(s[i])
    ensures Lower(s) == s
  {
  }

  /** `trim()` leaves a text without whitespace at either end as it is. */
  lemma TrimOfTrimmed(s: string)
    requires s == [] || (!IsSpace(s[0]) && !IsSpace(s[|s| - 1]))
    ensures Trim(s) == s
  {
    var t := Trim(s);
    if s != [] {
      assert LeadingSpaces(s) == 0;
    }
  }

  /** Accent stripping leaves a text of plain characters as it is. */
  lemma {:induction false} PlainUnstripped(s: string)
    requires forall i :: 0 <= i < |s| ==> IsPlain(s[i])
    ensures StripAccents(s) == s
    decreases |s|
  {
    if s != [] {
      PlainUnstripped(s[1..]);
    }
  }

  /** Every character property that accent stripping and lower-casing preserve, and that holds
      throughout `s`, holds throughout `ProperText(s)`. */
  lemma ProperTextKeeps(s: string, p: char -> bool)
    requires forall i :: 0 <= i < |s| ==> p(s[i])
    requires forall c: char :: p(c) ==> p(BaseLetter(c)) && p(ToLowerChar(c))
    ensures forall i :: 0 <= i < |ProperText(s)| ==> p(ProperText(s)[i])
  {
    StripAccentsKeeps(s, p);
    var lower := Lower(StripAccents(s));
    TrimKeeps(lower, p);
  }

  lemma {:induction false} StripAccentsKeeps(s: string, p: char -> bool)
    requires forall i :: 0 <= i < |s| ==> p(s[i])
    requires forall c: char :: p(c) ==> p(BaseLetter(c))
    ensures forall i :: 0 <= i < |StripAccents(s)| ==> p(StripAccents(s)[i])
    decreases |s|
  {
    if s != [] {
      StripAccentsKeeps(s[1..], p);
    }
  }

  lemma BaseLetterCommutesWithLower(c: char)
    ensures BaseLetter(ToLowerChar(c)) == ToLowerChar(BaseLetter(c))
    ensures IsCombiningMark(ToLowerChar(c)) <==> IsCombiningMark(c)
  {
  }

  lemma {:induction false} StripAccentsOfLower(s: string)
    ensures StripAccents(Lower(s)) == Lower(StripAccents(s))
    decreases |s|
  {
    if s != [] {
      assert Lower(s)[1..] == Lower(s[1..]);
      BaseLetterCommutesWithLower(s[0]);
      StripAccentsOfLower(s[1..]);
      if !IsCombiningMark(s[0]) {
        assert Lower([BaseLetter(s[0])] + StripAccents(s[1..]))
          == [ToLowerChar(BaseLetter(s[0]))] + Lower(StripAccents(s[1..]));
      }
    }
  }

  /** The canonical form ignores letter case: lower-casing first changes nothing. */
  lemma ProperTextIgnoresCase(s: string)
    ensures ProperText(Lower(s)) == ProperText(s)
  {
    StripAccentsOfLower(s);
    var t := StripAccents(s);
    assert Lower(Lower(t)) == Lower(t);
  }

  /** `getProperText(text)`: a falsy argument becomes `''`; a truthy non-string has no
      `normalize` method and throws, which is `None` here. */
  function GetProperText(v: Value): (r: Option<string>)
    ensures !Truthy(v) ==> r == Some("")
  ensures v.Str? ==> r == Some(ProperText(v.s))
    ensures r.Some? <==> !Truthy(v) || v.Str?
    ensures r.Some? ==> forall i :: 0 <= i < |r.value| ==> !IsCombiningMark(r.value[i]) && !IsUpperLetter(r.value[i])
    ensures r.Some? && r.value != [] ==> !IsSpace(r.value[0]) && !IsSpace(r.value[|r.value| - 1])
  {
    if !Truthy(v) then Some(ProperText(""))
    else if v.Str? then Some(ProperText(v.s))
    else None
  }

  /** A character of `\w`: an ASCII letter, digit or underscore. */
  predicate IsWordChar(c: char) {
    'a' <= c <= 'z' || 'A' <= c <= 'Z' || '0' <= c <= '9' || c == '_'
  }

  /** `\b` at position `j` of `t`: exactly one of the characters around `j` is a word character
      (positions outside the string count as non-word). */
  predicate WordBoundary(t: string, j: nat)
    requires j <= |t|
  {
    var before := j > 0 && IsWordChar(t[j - 1]);
    var after := j < |t| && IsWordChar(t[j]);
    before != after
  }

  /** The regular expression `(\b|^)[a-z]` matches at `j`. */
  predicate InitialAt(t: string, j: nat)
    requires j < |t|
  {
    (WordBoundary(t, j) || j == 0) && 'a' <= t[j] <= 'z'
  }

  /** `capitalize(text)`: `String(text).toLowerCase()` with every `(\b|^)[a-z]` match
      upper-cased. Each match is one character long, so matches never overlap. */
  function Capitalize(v: Value): (r: string)
    ensures |r| == |ToJsString(v)|
    ensures Lower(r) == Lower(ToJsString(v))
    ensures forall j :: 0 <= j < |r| ==>
      var t := Lower(ToJsString(v));
      if 'a' <= t[j] <= 'z' && (j == 0 || !IsWordChar(t[j - 1]))
      then 'A' <= r[j] <= 'Z' && ToLowerChar(r[j]) == t[j]
      else r[j] == t[j]
  {
    var t := Lower(ToJsString(v));
    var r := seq(|t|, j requires 0 <= j < |t| => if InitialAt(t, j) then ToUpperChar(t[j]) else t[j]);
    assert forall j :: 0 <= j < |t| ==> !IsUpperLetter(t[j]);
    assert Lower(r) == t;
    LowerIdempotent(ToJsString(v));
    r
  }

  lemma LowerIdempotent(s: string)
    ensures Lower(Lower(s)) == Lower(s)
  {
  }
}
