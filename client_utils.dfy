/** The client's shared helpers (client/src/common/utils.js): text normalisation for searching
    and element ids, the "required" form rule and the e-mail shape test. */
module ClientUtils {
  import opened Js
  import opened Text
  import ServerUtils

  /** The canonical form of `getProperText` with every inner run of whitespace collapsed to one
      space: no accents, no capitals, single spaces only, none at either end. */
  function CollapsedProperText(text: string): (r: string)
    ensures forall i :: 0 <= i < |r| ==>
      !IsCombiningMark(r[i]) && !IsUpperLetter(r[i]) && (IsSpace(r[i]) ==> r[i] == ' ')
    ensures r != [] ==> !IsSpace(r[0]) && !IsSpace(r[|r| - 1])
    ensures forall i :: 0 <= i < |r| - 1 && IsSpace(r[i]) ==> !IsSpace(r[i + 1])
    ensures r == JoinWith(Words(ServerUtils.ProperText(text)), ' ')
  {
    var proper := ServerUtils.ProperText(text);
    assert ReplaceSpaceRuns(proper, ' ') == JoinWith(Words(proper), ' ') by {
      ReplaceSpaceRunsJoinsWords(proper, ' ');
    }
    CollapsedShape(proper);
    ReplaceSpaceRuns(proper, ' ')
  }

  /** Collapsing the whitespace runs of a canonical text into single spaces. */
  lemma CollapsedShape(proper: string)
    requires forall i :: 0 <= i < |proper| ==> IsPlain(proper[i]) && !IsUpperLetter(proper[i])
    requires proper == [] || (!IsSpace(proper[0]) && !IsSpace(proper[|proper| - 1]))
    ensures var r := ReplaceSpaceRuns(proper, ' ');
      && (forall i :: 0 <= i < |r| ==> !IsCombiningMark(r[i]) && !IsUpperLetter(r[i]) && (IsSpace(r[i]) ==> r[i] == ' '))
      && (r != [] ==> !IsSpace(r[0]) && !IsSpace(r[|r| - 1]))
      && (forall i :: 0 <= i < |r| - 1 && IsSpace(r[i]) ==> !IsSpace(r[i + 1]))
  {
    var r := ReplaceSpaceRuns(proper, ' ');
    assert forall i :: 0 <= i < |r| ==> PlainLower(r[i]) by {
      assert forall i :: 0 <= i < |proper| ==> PlainLower(proper[i]);
      CollapseKeeps(proper, ' ', PlainLower);
    }
  }

  /** A character with no accent mark and no capital. */
  predicate PlainLower(c: char) {
    !IsCombiningMark(c) && !IsUpperLetter(c)
  }

  /** `normalizeText(text)`. A falsy argument becomes `''`; a truthy non-string throws (`None`). */
  function NormalizeText(v: Value): (r: Option<string>)
    ensures !Truthy(v) ==> r == Some("")
    ensures r.Some? <==> !Truthy(v) || v.Str?
    ensures r.Some? ==> forall i :: 0 <= i < |r.value| ==>
      !IsCombiningMark(r.value[i]) && !IsUpperLetter(r.value[i]) && (IsSpace(r.value[i]) ==> r.value[i] == ' ')
    ensures r.Some? && r.value != [] ==> !IsSpace(r.value[0]) && !IsSpace(r.value[|r.value| - 1])
    ensures r.Some? ==> forall i :: 0 <= i < |r.value| - 1 && IsSpace(r.value[i]) ==> !IsSpace(r.value[i + 1])
    ensures v.Str? ==> r == Some(JoinWith(Words(ServerUtils.ProperText(v.s)), ' '))
  {
    if !Truthy(v) then Some(CollapsedProperText(""))
    else if v.Str? then Some(CollapsedProperText(v.s))
    else None
  }

  /** `generateElementId(value, dashed)`: the normalised text with each space replaced by `-`
      (dashed) or `_`, and every `"`, `(` and `)` removed. */
  function GenerateElementId(v: Value, dashed: bool): (r: Option<string>)
    ensures r.Some? <==> NormalizeText(v).Some?
    ensures r.Some? ==> forall i :: 0 <= i < |r.value| ==>
      !IsSpace(r.value[i]) && r.value[i] !in "\"()" && !IsUpperLetter(r.value[i])
    ensures !Truthy(v) ==> r == Some("")
    ensures v.Str? ==>
      r == Some(JoinWith(WordIds(Words(ServerUtils.ProperText(v.s))), if dashed then '-' else '_'))
  {
    match NormalizeText(v)
    case None => None
    case Some(n) =>
      if v.Str? then ElementIdOfNormalized(v.s, dashed); Some(ElementIdOf(n, dashed))
      else Some(ElementIdOf(n, dashed))
  }

  /** The id of a normalised text: the ids of its canonical words, joined by the separator. */
  lemma ElementIdOfNormalized(text: string, dashed: bool)
    ensures forall i :: 0 <= i < |CollapsedProperText(text)| ==> !IsUpperLetter(CollapsedProperText(text)[i])
    ensures ElementIdOf(CollapsedProperText(text), dashed)
      == JoinWith(WordIds(Words(ServerUtils.ProperText(text))), if dashed then '-' else '_')
  {
    var proper := ServerUtils.ProperText(text);
    WordsLowercase(proper);
    ElementIdOfJoin(Words(proper), dashed);
  }

  /** Each word with its `"`, `(` and `)` removed. */
  function WordIds(ws: seq<string>): (ids: seq<string>)
    ensures |ids| == |ws|
    ensures forall k :: 0 <= k < |ws| ==> ids[k] == RemoveChars(ws[k], "\"()")
  {
    seq(|ws|, k requires 0 <= k < |ws| => RemoveChars(ws[k], "\"()"))
  }

  /** The words of a text without capitals have no capitals. */
  lemma {:induction false} WordsLowercase(s: string)
    requires forall i :: 0 <= i < |s| ==> !IsUpperLetter(s[i])
    ensures forall k :: 0 <= k < |Words(s)| ==> forall j :: 0 <= j < |Words(s)[k]| ==> !IsUpperLetter(Words(s)[k][j])
    decreases |s|
  {
    if s != [] {
      if IsSpace(s[0]) {
        WordsLowercase(TrimStart(s));
      } else {
        var n := WordLength(s);
        WordsLowercase(s[n..]);
        assert Words(s) == [s[..n]] + Words(s[n..]);
      }
    }
  }

  /** The id of words joined by single spaces: each word's id, joined by the separator. */
  lemma {:induction false} ElementIdOfJoin(ws: seq<string>, dashed: bool)
    requires forall k :: 0 <= k < |ws| ==> forall j :: 0 <= j < |ws[k]| ==> !IsSpace(ws[k][j]) && !IsUpperLetter(ws[k][j])
    ensures forall i :: 0 <= i < |JoinWith(ws, ' ')| ==> !IsUpperLetter(JoinWith(ws, ' ')[i])
    ensures ElementIdOf(JoinWith(ws, ' '), dashed) == JoinWith(WordIds(ws), if dashed then '-' else '_')
    decreases |ws|
  {
    if ws != [] {
      var w := ws[0];
      WordId(w, dashed);
      if |ws| > 1 {
        var rest := JoinWith(ws[1..], ' ');
        ElementIdOfJoin(ws[1..], dashed);
        ElementIdOfJoinStep(w, ws[1..], dashed);
        assert ws == [w] + ws[1..];
      }
    }
  }

  /** The id of a word is the word without its `"`, `(` and `)`. */
  lemma WordId(w: string, dashed: bool)
    requires forall j :: 0 <= j < |w| ==> !IsSpace(w[j]) && !IsUpperLetter(w[j])
    ensures ElementIdOf(w, dashed) == RemoveChars(w, "\"()")
  {
    assert ReplaceEachSpace(w, if dashed then '-' else '_') == w;
  }

  /** One step of `ElementIdOfJoin`: a word put in front of the rest. */
  lemma ElementIdOfJoinStep(w: string, ws: seq<string>, dashed: bool)
    requires ws != []
    requires forall j :: 0 <= j < |w| ==> !IsUpperLetter(w[j])
    requires forall i :: 0 <= i < |JoinWith(ws, ' ')| ==> !IsUpperLetter(JoinWith(ws, ' ')[i])
    requires ElementIdOf(w, dashed) == RemoveChars(w, "\"()")
    requires ElementIdOf(JoinWith(ws, ' '), dashed) == JoinWith(WordIds(ws), if dashed then '-' else '_')
    ensures forall i :: 0 <= i < |JoinWith([w] + ws, ' ')| ==> !IsUpperLetter(JoinWith([w] + ws, ' ')[i])
    ensures ElementIdOf(JoinWith([w] + ws, ' '), dashed) == JoinWith(WordIds([w] + ws), if dashed then '-' else '_')
  {
    var sep := if dashed then '-' else '_';
    var rest := JoinWith(ws, ' ');
    JoinCons(w, ws, ' ');
    assert ElementIdOf([' '] + rest, dashed) == [sep] + ElementIdOf(rest, dashed) by {
      ElementIdOfChar(' ', dashed);
      ElementIdOfConcat([' '], rest, dashed);
    }
    ElementIdOfConcat(w, [' '] + rest, dashed);
    WordIdsCons(w, ws);
    JoinCons(RemoveChars(w, "\"()"), WordIds(ws), sep);
  }

  lemma WordIdsCons(w: string, ws: seq<string>)
    ensures WordIds([w] + ws) == [RemoveChars(w, "\"()")] + WordIds(ws)
  {
  }

  /** Ids are built character by character, so the id of a concatenation is the concatenation
      of the ids. */
  lemma ElementIdOfConcat(a: string, b: string, dashed: bool)
    requires forall i :: 0 <= i < |a| ==> !IsUpperLetter(a[i])
    requires forall i :: 0 <= i < |b| ==> !IsUpperLetter(b[i])
    ensures forall i :: 0 <= i < |a + b| ==> !IsUpperLetter((a + b)[i])
    ensures ElementIdOf(a + b, dashed) == ElementIdOf(a, dashed) + ElementIdOf(b, dashed)
  {
    var sep := if dashed then '-' else '_';
    assert ReplaceEachSpace(a + b, sep) == ReplaceEachSpace(a, sep) + ReplaceEachSpace(b, sep);
    RemoveCharsConcat(ReplaceEachSpace(a, sep), ReplaceEachSpace(b, sep), "\"()");
  }

  /** The id built from an already normalised text `n`. */
  function ElementIdOf(n: string, dashed: bool): (r: string)
    requires forall i :: 0 <= i < |n| ==> !IsUpperLetter(n[i])
    ensures |r| <= |n|
    ensures forall i :: 0 <= i < |r| ==> !IsSpace(r[i]) && r[i] !in "\"()" && !IsUpperLetter(r[i])
    ensures (forall i :: 0 <= i < |n| ==> n[i] !in "\"()") ==>
      |r| == |n| && forall i :: 0 <= i < |n| ==> r[i] == if IsSpace(n[i]) then (if dashed then '-' else '_') else n[i]
  {
    var sep := if dashed then '-' else '_';
    var joined := ReplaceEachSpace(n, sep);
    assert forall i :: 0 <= i < |joined| ==> IdChar(joined[i]);
    RemoveCharsKeeps(joined, "\"()", IdChar);
    var r := RemoveChars(joined, "\"()");
    assert forall i :: 0 <= i < |r| ==> IdChar(r[i]);
    r
  }

  /** The id of one character: `"`, `(` and `)` vanish, whitespace becomes the separator, and
      anything else stays. With `ElementIdOfConcat` this fixes the id of every text. */
  lemma ElementIdOfChar(c: char, dashed: bool)
    requires !IsUpperLetter(c)
    ensures ElementIdOf([c], dashed) == if c in "\"()" then [] else if IsSpace(c) then [if dashed then '-' else '_'] else [c]
  {
    var joined := ReplaceEachSpace([c], if dashed then '-' else '_');
    assert joined == [if IsSpace(c) then (if dashed then '-' else '_') else c];
  }

  /** A character an element id keeps: no whitespace, no capital. */
  predicate IdChar(c: char) {
    !IsSpace(c) && !IsUpperLetter(c)
  }

  const RequiredMessage := "Este campo é obrigatório"

  /** `requiredFormValidation.validate(value)`: `true` when the value is neither undefined nor
      null and its string form is not blank, otherwise the message. */
  function ValidateRequired(v: Value): (r: Value)
    ensures r == Bool(true) || r == Str(RequiredMessage)
    ensures r == Bool(true) <==>
      v != Undefined && v != Null && exists i :: 0 <= i < |ToJsString(v)| && !IsSpace(ToJsString(v)[i])
  {
    if v != Undefined && v != Null && |Trim(ToJsString(v))| != 0 then Bool(true) else Str(RequiredMessage)
  }

  /** `.` of a regular expression: any character but a line terminator. */
  predicate IsLineChar(c: char) {
    c != '\n' && c != '\r' && c != '\U{2028}' && c != '\U{2029}'
  }

  /** `/(.+)@(.+){2,}\.(.+){2,}/` matches somewhere in `s`: an `@` with at least one character
      before it, then at least two characters, a `.` and at least two more, none of them a line
      terminator. */
  predicate EmailShaped(s: string) {
    exists at, dot | 0 < at < dot < |s| ::
      at + 3 <= dot && dot + 2 < |s| && s[at] == '@' && s[dot] == '.' &&
      forall j :: at - 1 <= j <= dot + 2 ==> IsLineChar(s[j])
  }

  /** `emailIfValid(email)`: the argument itself when it is a string of e-mail shape, otherwise
      undefined (`None`). */
  function EmailIfValid(v: Value): (r: Option<string>)
    ensures r.Some? <==> v.Str? && EmailShaped(v.s)
    ensures r.Some? ==> r.value == v.s
  {
    if v.Str? && EmailShaped(v.s) then Some(v.s) else None
  }

  lemma EmailAccepted()
    ensures EmailIfValid(Str("ana@mail.com")) == Some("ana@mail.com")
  {
    var s := "ana@mail.com";
    assert s[3] == '@' && s[8] == '.';
    assert forall j :: 2 <= j <= 10 ==> IsLineChar(s[j]);
  }

  /** Two characters are needed between the `@` and the dot. */
  lemma EmailRejectedShortDomain()
    ensures EmailIfValid(Str("a@b.cd")) == None
  {
  }

  /** The match may not span a line break. */
  lemma EmailRejectedAcrossLines()
    ensures EmailIfValid(Str("ana@ma\nil.com")) == None
  {
    var s := "ana@ma\nil.com";
    forall at, dot | 0 < at < dot < |s| && at + 3 <= dot && dot + 2 < |s| && s[at] == '@' && s[dot] == '.'
      ensures !IsLineChar(s[6])
    {
    }
  }

  lemma EmailRejectsNonStrings(v: Value)
    requires !v.Str?
    ensures EmailIfValid(v) == None
  {
  }
}
