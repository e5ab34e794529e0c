/** The server's workbook helpers (server/helpers.js): turning a program fragment into a workbook
    item, the fixed skeleton of the four meeting sections with their classification rules, the
    helpers' `capitalize`, and the week the application works on, with the publisher URL for it. */
module ServerHelpers {
  import opened Js
  import opened Text
  import opened Calendar
  import ServerUtils

  /** `indexOrInfinity(needle, haystack)`: the first index of `needle`, or Infinity (`None`). */
  function IndexOrInfinity(needle: string, haystack: string): (r: Option<nat>)
    ensures r.None? <==> !Contains(haystack, needle)
    ensures r.Some? ==> (OccursAt(haystack, needle, r.value) &&
      forall i :: 0 <= i < r.value ==> !OccursAt(haystack, needle, i))
  {
    var i := IndexOf(haystack, needle);
    if i < 0 then None else Some(i)
  }

  /** `s.substring(0, end)` where `end` is a number or Infinity (`None`): JavaScript clamps the end
      into `0..|s|`. */
  function SubstringTo(s: string, end: Option<int>): (r: string)
    ensures |r| <= |s| && r == s[..|r|]
    ensures end.None? || end.value >= |s| ==> r == s
    ensures end.Some? && 0 <= end.value <= |s| ==> |r| == end.value
    ensures end.Some? && end.value < 0 ==> r == []
  {
    match end
    case None => s
    case Some(e) => if e < 0 then [] else if e > |s| then s else s[..e]
  }

  /** Infinity plus or minus a finite shift is still Infinity. */
  function Shift(x: Option<nat>, d: int): (r: Option<int>)
    ensures r.None? <==> x.None?
    ensures x.Some? ==> r.value == x.value + d
  {
    match x
    case None => None
    case Some(i) => Some(i + d)
  }

  /** One item of a workbook section. */
  datatype WorkbookItem = WorkbookItem(id: string, text: string, hasPair: bool)

  /** The characters `toWorkbookItem` removes from the raw fragment. */
  const Punctuation := ":\"'"
  /** The characters removed from the id (`[”“"':?]`). */
  const IdPunctuation := "\U{201D}\U{201C}\"':?"

  /** A character that may appear in an id. */
  predicate IdSafe(c: char) {
    !IsSpace(c) && c !in IdPunctuation
  }

  /** The id slug of an item title: quotes, colons and question marks removed, whitespace runs
      joined by `_`, then put in canonical form. */
  function Slug(title: string): (r: string)
    ensures |r| <= |title|
    ensures forall i :: 0 <= i < |r| ==> IdSafe(r[i]) && !IsUpperLetter(r[i])
    ensures r == Lower(StripAccents(ReplaceSpaceRuns(RemoveChars(title, IdPunctuation), '_')))
  {
    var bare := RemoveChars(title, IdPunctuation);
    var joined := ReplaceSpaceRuns(bare, '_');
    JoinedIsIdSafe(bare);
    IdSafeKept();
    ServerUtils.ProperTextKeeps(joined, IdSafe);
    UntrimmedSlug(joined);
    ServerUtils.ProperText(joined)
  }

  /** Once the whitespace runs are joined there is no whitespace left, so the final `trim()` of
      the canonical form removes nothing: leading and trailing runs stay as `_`. */
  lemma UntrimmedSlug(joined: string)
    requires forall i :: 0 <= i < |joined| ==> IdSafe(joined[i])
    ensures ServerUtils.ProperText(joined) == Lower(StripAccents(joined))
  {
    var plain := StripAccents(joined);
    IdSafeKept();
    ServerUtils.StripAccentsKeeps(joined, IdSafe);
    LowerKeepsIdSafe(plain);
    UntrimmedNoSpace(joined);
  }

  lemma LowerKeepsIdSafe(s: string)
    requires forall i :: 0 <= i < |s| ==> IdSafe(s[i])
    ensures forall i :: 0 <= i < |Lower(s)| ==> IdSafe(Lower(s)[i])
  {
    IdSafeKept();
  }

  /** The slice `ProperText` keeps of a text whose stripped, lower-cased form has no whitespace
      is that whole form. */
  lemma UntrimmedNoSpace(s: string)
    requires forall i :: 0 <= i < |Lower(StripAccents(s))| ==> IdSafe(Lower(StripAccents(s))[i])
    ensures ServerUtils.ProperText(s) == Lower(StripAccents(s))
  {
    var t := Lower(StripAccents(s));
    assert t != [] ==> LeadingSpaces(t) == 0;
  }

  lemma JoinedIsIdSafe(bare: string)
    requires forall i :: 0 <= i < |bare| ==> bare[i] !in IdPunctuation
    ensures forall i :: 0 <= i < |ReplaceSpaceRuns(bare, '_')| ==> IdSafe(ReplaceSpaceRuns(bare, '_')[i])
  {
    var r := ReplaceSpaceRuns(bare, '_');
    CollapseKeeps(bare, '_', NotIdPunctuation);
    forall i | 0 <= i < |r| ensures IdSafe(r[i]) {
      assert NotIdPunctuation(r[i]);
      assert r[i] == '_' || !IsSpace(r[i]);
    }
  }

  predicate NotIdPunctuation(c: char) {
    c !in IdPunctuation
  }

  lemma IdSafeKept()
    ensures forall c: char :: IdSafe(c) ==> IdSafe(BaseLetter(c)) && IdSafe(ToLowerChar(c))
  {
    forall c: char | IdSafe(c) ensures IdSafe(BaseLetter(c)) && IdSafe(ToLowerChar(c)) {
      BaseLetterIsLetterOrSelf(c);
      if BaseLetter(c) != c {
        LetterIdSafe(BaseLetter(c));
      }
      if IsUpperLetter(c) {
        LetterIdSafe(ToLowerChar(c));
      }
    }
  }

  lemma LetterIdSafe(c: char)
    requires 'A' <= c <= 'Z' || 'a' <= c <= 'z' || IsLowerLetter(c)
    ensures IdSafe(c)
  {
  }

  /** The displayed text: `f` cut just after its first `)` (all of `f` when there is none), with
      the typographic quotes `”` and `“` turned into `"`. */
  function DisplayText(f: string): (r: string)
    ensures |r| <= |f|
    ensures forall i :: 0 <= i < |r| ==> r[i] == if f[i] in "\U{201D}\U{201C}" then '"' else f[i]
    ensures ')' !in f ==> |r| == |f|
    ensures ')' in f ==> |r| == FirstIndex(f, ')') + 1 && r[|r| - 1] == ')' && ')' !in r[..|r| - 1]
  {
    var cut := SubstringTo(f, Shift(IndexOrInfinity(")", f), 1));
    CharIndex(f, ')');
    if ')' in f then CharIndexIsFirst(f, ')'); ReplaceChars(cut, "\U{201D}\U{201C}", '"') else
    ReplaceChars(cut, "\U{201D}\U{201C}", '"')
  }

  /** For a one-character needle, `indexOrInfinity` finds the first position of that character. */
  lemma CharIndex(s: string, c: char)
    ensures IndexOrInfinity([c], s).None? <==> c !in s
    ensures IndexOrInfinity([c], s).Some? ==>
      var k := IndexOrInfinity([c], s).value;
      k < |s| && s[k] == c && c !in s[..k]
  {
    var r := IndexOrInfinity([c], s);
    if c in s {
      var j :| 0 <= j < |s| && s[j] == c;
      OccursAtChar(s, c, j);
    }
    if r.Some? {
      OccursAtChar(s, c, r.value);
      forall i | 0 <= i < r.value ensures s[i] != c {
        OccursAtChar(s, c, i);
      }
    }
  }

  /** The title part the id is made from: everything up to two characters before the first `(`
      (the character just before the parenthesis, normally a space, is dropped), or all of `f`
      when there is no `(`. */
  function IdSource(f: string): (r: string)
    ensures |r| <= |f| && r == f[..|r|]
    ensures '(' !in f ==> r == f
    ensures '(' in f ==> '(' !in r && |r| == MaxZero(FirstIndex(f, '(') - 1)
  {
    CharIndex(f, '(');
    if '(' in f then CharIndexIsFirst(f, '('); SubstringTo(f, Shift(IndexOrInfinity("(", f), -1))
    else SubstringTo(f, Shift(IndexOrInfinity("(", f), -1))
  }

  /** The first position of `c` in `s`. */
  function FirstIndex(s: string, c: char): (k: nat)
    requires c in s
    ensures k < |s| && s[k] == c && c !in s[..k]
  {
    if s[0] == c then 0 else FirstIndex(s[1..], c) + 1
  }

  lemma CharIndexIsFirst(s: string, c: char)
    requires c in s
    ensures IndexOrInfinity([c], s) == Some(FirstIndex(s, c))
  {
    CharIndex(s, c);
  }

  function MaxZero(x: int): nat {
    if x < 0 then 0 else x
  }

  /** The phrases that mark an item with a second participant, and the ones that rule it out. */
  predicate HasPairText(clean: string) {
    (ContainsIgnoringCase(clean, "(melhore licao") || ContainsIgnoringCase(clean, "estudo biblico de congregacao"))
    && !(ContainsIgnoringCase(clean, "discurso (") || ContainsIgnoringCase(clean, "leitura da biblia ("))
  }

  /** The `hasPair` flag of a raw fragment: the tests run on the canonical form of the whole
      fragment without its colons and straight quotes. */
  predicate HasPair(raw: string) {
    HasPairText(ServerUtils.ProperText(RemoveChars(raw, Punctuation)))
  }

  /** `toWorkbookItem(fullText)`. */
  function ToWorkbookItem(raw: string): (r: WorkbookItem)
    ensures forall i :: 0 <= i < |r.id| ==> IdSafe(r.id[i])
    ensures forall i :: 0 <= i < |r.text| ==> r.text[i] !in ":'"
    ensures r.text == DisplayText(RemoveChars(raw, Punctuation))
    ensures r.id == Slug(IdSource(RemoveChars(raw, Punctuation)))
    ensures r.hasPair == HasPair(raw)
  {
    var f := RemoveChars(raw, Punctuation);
    var text := DisplayText(f);
    assert forall i :: 0 <= i < |text| ==> text[i] !in ":'" by {
      assert forall i :: 0 <= i < |f| ==> f[i] !in Punctuation;
    }
    WorkbookItem(Slug(IdSource(f)), text, HasPair(raw))
  }

  /** Whether an item has a second participant does not depend on the letter case of the
      fragment. */
  lemma HasPairIgnoresCase(raw: string)
    ensures HasPair(Lower(raw)) == HasPair(raw)
  {
    var f := RemoveChars(raw, Punctuation);
    RemoveCharsOfLower(raw, Punctuation);
    ServerUtils.ProperTextIgnoresCase(f);
    assert ServerUtils.ProperText(RemoveChars(Lower(raw), Punctuation)) == ServerUtils.ProperText(f);
  }

  lemma {:induction false} RemoveCharsOfLower(s: string, chars: string)
    requires forall i :: 0 <= i < |chars| ==> !IsUpperLetter(chars[i]) && !IsLowerLetter(chars[i])
    ensures RemoveChars(Lower(s), chars) == Lower(RemoveChars(s, chars))
    decreases |s|
  {
    if s != [] {
      var c := s[0];
      assert s == [c] + s[1..];
      LowerCons(c, s[1..]);
      var lowered := Lower(s);
      assert lowered[0] == ToLowerChar(c) && lowered[1..] == Lower(s[1..]);
      LowerCharMembership(c, chars);
      RemoveCharsOfLower(s[1..], chars);
      if c in chars {
        calc {
          RemoveChars(lowered, chars);
          RemoveChars(Lower(s[1..]), chars);
          Lower(RemoveChars(s[1..], chars));
          Lower(RemoveChars(s, chars));
        }
      } else {
        var rest := RemoveChars(s[1..], chars);
        LowerCons(c, rest);
        calc {
          RemoveChars(lowered, chars);
          [ToLowerChar(c)] + RemoveChars(Lower(s[1..]), chars);
          [ToLowerChar(c)] + Lower(rest);
          Lower([c] + rest);
          Lower(RemoveChars(s, chars));
        }
      }
    }
  }

  lemma LowerCons(c: char, t: string)
    ensures Lower([c] + t) == [ToLowerChar(c)] + Lower(t)
  {
    assert forall i :: 0 <= i < |t| + 1 ==> Lower([c] + t)[i] == ([ToLowerChar(c)] + Lower(t))[i];
  }

  /** Lowering a character does not change whether it is among characters that are no letters. */
  lemma LowerCharMembership(c: char, chars: string)
    requires forall i :: 0 <= i < |chars| ==> !IsUpperLetter(chars[i]) && !IsLowerLetter(chars[i])
    ensures ToLowerChar(c) in chars <==> c in chars
  {
    if IsUpperLetter(c) {
      assert c !in chars;
      assert ToLowerChar(c) !in chars;
    }
  }

  /** The four sections of a midweek meeting program, in program order. */
  datatype SectionKind = Intro | Treasures | Ministry | Living

  /** A section of the workbook skeleton (its HTML title and item selectors are not modelled). */
  datatype SectionTemplate = SectionTemplate(
    kind: SectionKind, id: string, color: string, tone: string, itemsTone: string,
    items: seq<WorkbookItem>)

  /** `getWorkbookSkeleton()`: a fresh copy of the four section templates. */
  function WorkbookSkeleton(): (r: seq<SectionTemplate>)
    ensures |r| == 4
    ensures r[0].kind == Intro && r[1].kind == Treasures && r[2].kind == Ministry && r[3].kind == Living
    ensures r[0].id == "intro" && r[1].id == "treasures" && r[2].id == "ministry" && r[3].id == "living"
    ensures forall i :: 0 <= i < 4 ==> r[i].items == []
    ensures forall i :: 1 <= i < 4 ==> r[i].color == "#ffffff" && r[i].tone == r[i].itemsTone
  {
    [ SectionTemplate(Intro, "intro", "#222222", "#ffffff", "#222222", []),
      SectionTemplate(Treasures, "treasures", "#ffffff", "#606a70", "#606a70", []),
      SectionTemplate(Ministry, "ministry", "#ffffff", "#c18626", "#c18626", []),
      SectionTemplate(Living, "living", "#ffffff", "#961526", "#961526", []) ]
  }

  /** The section's `isAssignable(part)`: whether the part gets a participant. */
  predicate IsAssignable(kind: SectionKind, part: string) {
    match kind
    case Intro => ContainsIgnoringCase(part, "comentários iniciais") || ContainsIgnoringCase(part, "oração")
    case Treasures => true
    case Ministry => true
    case Living => !ContainsIgnoringCase(part, "cântico") || ContainsIgnoringCase(part, "oração")
  }

  /** The section's `chairmanAssigned(part)`: whether the chairman takes the part. */
  predicate ChairmanAssigned(kind: SectionKind, part: string) {
    match kind
    case Intro => ContainsIgnoringCase(part, "comentários iniciais")
    case Treasures => false
    case Ministry => !ContainsIgnoringCase(part, "(melhore lição")
    case Living => ContainsIgnoringCase(part, "comentários finais")
  }

  /** Outside the closing section, a part the chairman takes is an assignable part. */
  lemma ChairmanPartsAreAssignable(kind: SectionKind, part: string)
    requires kind != Living && ChairmanAssigned(kind, part)
    ensures IsAssignable(kind, part)
  {
  }

  /** A character of the helpers' `capitalize` pattern `(?:^|\s|["'([{])+` before a word. */
  predicate IsOpener(c: char) {
    IsSpace(c) || c == '"' || c == '\'' || c == '(' || c == '[' || c == '{'
  }

  lemma UpperKeepsOpener(c: char)
    requires IsOpener(c)
    ensures ToUpperChar(c) == c
  {
  }

  /** The end of the run of openers that starts at `p`. */
  function SkipOpeners(t: string, p: nat): (q: nat)
    requires p <= |t|
    ensures p <= q <= |t| && (q == |t| || !IsOpener(t[q]))
    ensures forall j :: p <= j < q ==> IsOpener(t[j])
    decreases |t| - p
  {
    if p < |t| && IsOpener(t[p]) then SkipOpeners(t, p + 1) else p
  }

  /** `t.replace(/(?:^|\s|["'([{])+\S/g, m => m.toUpperCase())`, scanning from `p` as the
      regular-expression engine does: at each position it tries the longest run of openers (or the
      start of the string) followed by a non-space character, upper-cases the match and resumes
      after it. When only openers remain, a match can consist of openers alone, and upper-casing
      leaves those unchanged, so the rest is copied. */
  function CapitalizeFrom(t: string, p: nat): (r: string)
    requires p <= |t|
    ensures |r| == |t| - p
    ensures p == 0 || !IsOpener(t[p - 1]) ==> CapitalizedSuffix(t, p, r)
    decreases |t| - p
  {
    if p == |t| then []
    else
      var q := SkipOpeners(t, p);
      if q == |t| then
        CapitalizeOpenersOnly(t, p);
        t[p..]
      else if q > p || p == 0 then
        var rest := CapitalizeFrom(t, q + 1);
        CapitalizeMatch(t, p, q, rest);
        Upper(t[p..q + 1]) + rest
      else
        var rest := CapitalizeFrom(t, p + 1);
        CapitalizeSkip(t, p, rest);
        [t[p]] + rest
  }

  /** The position characterisation of the helpers' `capitalize`: a non-space character is
      upper-cased exactly when it starts the string or follows an opener. */
  predicate StartsWord(t: string, j: nat)
    requires j < |t|
  {
    !IsSpace(t[j]) && (j == 0 || IsOpener(t[j - 1]))
  }

  function CapitalizedAt(t: string, j: nat): char
    requires j < |t|
  {
    if StartsWord(t, j) then ToUpperChar(t[j]) else t[j]
  }

  /** `r` is what the characterisation gives for `t[p..]`. */
  predicate CapitalizedSuffix(t: string, p: nat, r: string)
    requires p <= |t|
  {
    |r| == |t| - p && forall j :: p <= j < |t| ==> r[j - p] == CapitalizedAt(t, j)
  }

  lemma CapitalizeOpenersOnly(t: string, p: nat)
    requires p <= |t| && forall j :: p <= j < |t| ==> IsOpener(t[j])
    ensures CapitalizedSuffix(t, p, t[p..])
  {
    forall j | p <= j < |t| ensures t[p..][j - p] == CapitalizedAt(t, j) {
      UpperKeepsOpener(t[j]);
    }
  }

  lemma CapitalizeMatch(t: string, p: nat, q: nat, rest: string)
    requires p <= q < |t| && (q > p || p == 0) && !IsOpener(t[q])
    requires forall j :: p <= j < q ==> IsOpener(t[j])
    requires CapitalizedSuffix(t, q + 1, rest)
    ensures CapitalizedSuffix(t, p, Upper(t[p..q + 1]) + rest)
  {
    var r := Upper(t[p..q + 1]) + rest;
    forall j | p <= j < |t| ensures r[j - p] == CapitalizedAt(t, j) {
      if j < q {
        UpperKeepsOpener(t[j]);
      } else if j > q {
        assert r[j - p] == rest[j - (q + 1)];
      }
    }
  }

  lemma CapitalizeSkip(t: string, p: nat, rest: string)
    requires 0 < p < |t|
    requires CapitalizedSuffix(t, p + 1, rest)
    ensures !IsOpener(t[p - 1]) ==> CapitalizedSuffix(t, p, [t[p]] + rest)
  {
    var r := [t[p]] + rest;
    if IsOpener(t[p - 1]) { return; }
    forall j | p <= j < |t| ensures r[j - p] == CapitalizedAt(t, j) {
      if j > p {
        assert r[j - p] == rest[j - (p + 1)];
      }
    }
  }

  /** The helpers' `capitalize(text)`: for a string, its lower-case form with the first character
      of every word upper-cased, where a word starts the string or follows whitespace or one of
      `"'([{`; for anything else, undefined (`None`). */
  function CapitalizeText(v: Value): (r: Option<string>)
    ensures r.Some? <==> v.Str?
    ensures r.Some? ==> |r.value| == |v.s| && forall j :: 0 <= j < |v.s| ==>
      r.value[j] == CapitalizedAt(Lower(v.s), j)
  {
    if v.Str? then
      Some(CapitalizeFrom(Lower(v.s), 0))
    else None
  }

  /** `shouldJumpToNextWeek()` on day `today`: the lower-cased `pt-br` weekday abbreviation is
      `sex`, `sáb` or `dom`. */
  predicate ShouldJumpToNextWeek(today: nat) {
    Lower(WeekdaysShort[Weekday(today)]) in ["sex", "sáb", "dom"]
  }

  /** The application moves on to the next week from Friday to Sunday. */
  lemma JumpOnFridayToSunday(today: nat)
    ensures ShouldJumpToNextWeek(today) <==> Weekday(today) == 5 || Weekday(today) == 6 || Weekday(today) == 0
  {
    var w := Weekday(today);
    var name := WeekdaysShort[w];
    assert Lower(name) == name;
    assert name in ["sex", "sáb", "dom"] <==> w == 5 || w == 6 || w == 0;
  }

  /** The Monday of the week the application works on: this ISO week, or the next one from
      Friday on. */
  function WorkWeekMonday(today: nat): (m: nat)
    ensures Weekday(m) == 1
    ensures ShouldJumpToNextWeek(today) ==> m == MondayOf(today) + 7
    ensures !ShouldJumpToNextWeek(today) ==> m <= today < m + 7
  {
    if ShouldJumpToNextWeek(today) then MondayOfNextWeek(today); MondayOf(today + 7) else MondayOf(today)
  }

  const DayMillis := 86400000

  /** Day number `n` written as `DD/MM`. */
  function DayMonthOf(n: nat): (r: string)
    ensures |r| == 5 && r[2] == '/'
    ensures ToNumber(r[..2]) == Some(CivilFromDays(n).day)
    ensures ToNumber(r[3..]) == Some(CivilFromDays(n).month)
  {
    Calendar.FormatDayMonth(CivilFromDays(n))
  }

  /** A moment in local time: a day number and the milliseconds since its midnight. */
  class Moment {
    var day: nat
    var millis: nat

    predicate Valid()
      reads this
    {
      millis < DayMillis
    }

    constructor (day: nat, millis: nat)
      requires millis < DayMillis
      ensures Valid() && this.day == day && this.millis == millis
    {
      this.day := day;
      this.millis := millis;
    }

    /** `add(n, 'day')` (and `add(1, 'week')` with `n` = 7): the time of day is kept. */
    method AddDays(n: nat)
      requires Valid()
      modifies this
      ensures Valid() && day == old(day) + n && millis == old(millis)
    {
      day := day + n;
    }

    /** `startOf('isoWeek')`: midnight of the week's Monday. */
    method StartOfIsoWeek()
      requires Valid()
      modifies this
      ensures Valid() && day == MondayOf(old(day)) && millis == 0
    {
      day := MondayOf(day);
      millis := 0;
    }

    /** `endOf('isoWeek')`: the last millisecond of the week's Sunday. */
    method EndOfIsoWeek()
      requires Valid()
      modifies this
      ensures Valid() && day == MondayOf(old(day)) + 6 && millis == DayMillis - 1
    {
      day := MondayOf(day) + 6;
      millis := DayMillis - 1;
    }

    /** `format('DD/MM')`. */
    method FormatDayMonth() returns (s: string)
      ensures s == DayMonthOf(day)
    {
      s := DayMonthOf(day);
    }
  }

  /** `getWeekSpan()` with the clock reading passed in as `now`, which it moves in place: the
      Monday and the Sunday of the working week, as `DD/MM`. */
  method GetWeekSpan(now: Moment) returns (start: string, end: string)
    requires now.Valid()
    modifies now
    ensures start == DayMonthOf(WorkWeekMonday(old(now.day)))
    ensures end == DayMonthOf(WorkWeekMonday(old(now.day)) + 6)
    ensures now.Valid() && now.day == WorkWeekMonday(old(now.day)) + 6 && now.millis == DayMillis - 1
  {
    ghost var monday := WorkWeekMonday(now.day);
    WorkWeekMondayFrom(now.day);
    ToWorkWeekMonday(now);
    assert now.day == monday;
    start := now.FormatDayMonth();
    end := ToSunday(now);
    ghost var sunday := now.day;
    assert sunday == monday + 6;
    assert end == DayMonthOf(sunday);
  }

  /** The second half of `getWeekSpan()`: from a Monday, `endOf('isoWeek')` and its `DD/MM`. */
  method ToSunday(now: Moment) returns (end: string)
    requires now.Valid() && MondayOf(now.day) == now.day
    modifies now
    ensures now.Valid() && now.day == old(now.day) + 6 && now.millis == DayMillis - 1
    ensures end == DayMonthOf(now.day)
  {
    now.EndOfIsoWeek();
    end := now.FormatDayMonth();
  }

  /** The first half of `getWeekSpan()`: a week on from Friday, then `startOf('isoWeek')`. */
  method ToWorkWeekMonday(now: Moment)
    requires now.Valid()
    modifies now
    ensures now.Valid() && now.day == WorkWeekMonday(old(now.day)) && now.millis == 0
  {
    ghost var today := now.day;
    WorkWeekMondayFrom(today);
    if ShouldJumpToNextWeek(now.day) {
      now.AddDays(7);
    }
    now.StartOfIsoWeek();
  }

  /** The work week's Monday is the ISO-week Monday of the day, moved a week on from Friday. */
  lemma WorkWeekMondayFrom(today: nat)
    ensures MondayOf(if ShouldJumpToNextWeek(today) then today + 7 else today) == WorkWeekMonday(today)
    ensures MondayOf(WorkWeekMonday(today)) == WorkWeekMonday(today)
  {
    var m := WorkWeekMonday(today);
    MondayOfUnique(m, m);
    if ShouldJumpToNextWeek(today) {
      MondayOfNextWeek(today);
    }
  }

  /** The week span names a Monday and the Sunday six days later. */
  lemma WeekSpanIsMondayToSunday(today: nat)
    ensures Weekday(WorkWeekMonday(today)) == 1 && Weekday(WorkWeekMonday(today) + 6) == 0
  {
  }

  /** The variable parts of the publisher URL. */
  datatype UrlTokens = UrlTokens(monthName: string, year: string, from: string, to: string)

  /** The Monday `getDynamicUrl` builds the URL for: the current ISO week's, or, from Friday on,
      the one after the end of the current week plus a day. */
  function UrlMonday(today: nat): (m: nat)
    ensures m == WorkWeekMonday(today)
  {
    var base := if ShouldJumpToNextWeek(today) then MondayOf(today) + 6 + 1 else today;
    if ShouldJumpToNextWeek(today) then MondayOfUnique(base, MondayOf(today) + 7); MondayOf(base)
    else MondayOf(base)
  }

  /** The tokens of `getDynamicUrl()`: those of the work week, whose Monday `UrlMonday` finds. */
  function DynamicUrlTokens(today: nat): (r: UrlTokens)
    ensures r == WeekTokens(CivilFromDays(WorkWeekMonday(today)), CivilFromDays(WorkWeekMonday(today) + 6))
  {
    var m := UrlMonday(today);
    var mon, sun := CivilFromDays(m), CivilFromDays(m + 6);
    assert mon == CivilFromDays(WorkWeekMonday(today));
    assert sun == CivilFromDays(WorkWeekMonday(today) + 6);
    WeekTokens(mon, sun)
  }

  /** The URL tokens of the week from `mon` to `sun`: the Monday's month name and year, the
      "from" day (with its month when the week crosses into another month) and the "to" day with
      the Sunday's month. */
  function WeekTokens(mon: Date, sun: Date): (r: UrlTokens)
    requires ValidDate(mon) && ValidDate(sun)
    ensures r.monthName == MonthName(mon.month) && r.year == NatToString(mon.year)
    ensures '-' !in r.from <==> mon.month == sun.month
    ensures mon.month == sun.month ==> ToNumber(r.from) == Some(mon.day)
    ensures mon.month == sun.month ==> r.from == FormatDay(mon)
    ensures mon.month != sun.month ==> r.from == FormatDay(mon) + "-de-" + MonthName(mon.month)
    ensures r.to == FormatDay(sun) + "-de-" + MonthName(sun.month)
  {
    UrlTokens(MonthName(mon.month), NatToString(mon.year), FromToken(mon, sun), FormatDay(sun) + "-de-" + MonthName(sun.month))
  }

  /** The "from" token: the Monday's day, followed by its month when the Sunday's month differs. */
  function FromToken(mon: Date, sun: Date): (from: string)
    requires ValidDate(mon) && ValidDate(sun)
    ensures '-' !in from <==> mon.month == sun.month
    ensures mon.month == sun.month ==> ToNumber(from) == Some(mon.day)
    ensures mon.month == sun.month ==> from == FormatDay(mon)
    ensures mon.month != sun.month ==> from == FormatDay(mon) + "-de-" + MonthName(mon.month)
  {
    var sameMonth := MonthName(mon.month) == MonthName(sun.month);
    MonthNameInjective(mon.month, sun.month);
    var day := FormatDay(mon);
    assert '-' !in day by { assert AllDigits(day); }
    var from := if sameMonth then day else day + "-" + "de" + "-" + MonthName(mon.month);
    assert !sameMonth ==> from[|day|] == '-';
    from
  }

  lemma PrefixOfConcat(a: string, b: string)
    ensures HasPrefix(a + b, a)
  {
    assert (a + b)[..|a|] == a;
  }

  const UrlBase := "https://www.jw.org/pt/biblioteca/jw-apostila-do-mes/"

  /** `getDynamicUrl()` on day `today`, before `encodeURI`. */
  function DynamicUrl(today: nat): (url: string)
    ensures var t := DynamicUrlTokens(today);
      HasPrefix(url, UrlBase + t.monthName + "-" + t.year + "-mwb/")
    ensures var t := DynamicUrlTokens(today);
      url == (UrlBase + t.monthName + "-" + t.year + "-mwb/")
        + ("Programa-da-semana-de-" + t.from + "-" + t.to + "-de-" + t.year
        + "-na-Apostila-da-Reunião-Vida-e-Ministério/")
  {
    var t := DynamicUrlTokens(today);
    var head := UrlBase + t.monthName + "-" + t.year + "-mwb/";
    var tail := "Programa-da-semana-de-" + t.from + "-" + t.to + "-de-" + t.year
      + "-na-Apostila-da-Reunião-Vida-e-Ministério/";
    PrefixOfConcat(head, tail);
    head + tail
  }
}
