/** Character classes and string operations shared by the server and the client:
    JavaScript's whitespace set (`\s`, `trim()`), case mapping and accent stripping on Latin-1
    letters (standing for `toLowerCase()`, `toUpperCase()` and `normalize('NFD')` followed by
    removing U+0300..U+036F), substring search and the `replace` forms the code uses. */
module Text {

  /** The code points JavaScript's `\s` matches and `trim()` removes. */
  const Spaces: set<char> := {
    ' ', '\t', '\n', '\U{B}', '\U{C}', '\r', '\U{A0}', '\U{1680}',
    '\U{2000}', '\U{2001}', '\U{2002}', '\U{2003}', '\U{2004}', '\U{2005}', '\U{2006}',
    '\U{2007}', '\U{2008}', '\U{2009}', '\U{200A}',
    '\U{2028}', '\U{2029}', '\U{202F}', '\U{205F}', '\U{3000}', '\U{FEFF}'
  }

  predicate IsSpace(c: char) {
    c in Spaces
  }

  /** Combining diacritical marks, U+0300..U+036F. */
  predicate IsCombiningMark(c: char) {
    '\U{300}' <= c <= '\U{36F}'
  }

  /** Latin-1 capitals whose small letter lies 32 code points above. */
  predicate IsUpperLetter(c: char) {
    'A' <= c <= 'Z' || ('\U{C0}' <= c <= '\U{DE}' && c != '\U{D7}')
  }

  /** Latin-1 small letters whose capital lies 32 code points below. */
  predicate IsLowerLetter(c: char) {
    'a' <= c <= 'z' || ('\U{E0}' <= c <= '\U{FE}' && c != '\U{F7}')
  }

  function ToLowerChar(c: char): (r: char)
    ensures !IsUpperLetter(r)
    ensures IsUpperLetter(c) ==> IsLowerLetter(r) && r as int == c as int + 32
    ensures !IsUpperLetter(c) ==> r == c
  {
    if IsUpperLetter(c) then (c as int + 32) as char else c
  }

  function ToUpperChar(c: char): (r: char)
    ensures !IsLowerLetter(r)
    ensures IsLowerLetter(c) ==> IsUpperLetter(r) && ToLowerChar(r) == c
    ensures !IsLowerLetter(c) ==> r == c
  {
    if IsLowerLetter(c) then (c as int - 32) as char else c
  }

  /** The letter NFD leaves of an accented Latin-1 letter once its combining marks are removed;
      every other character is its own base. The accented letters are À..Å, Ç, È..Ï, Ñ, Ò..Ö,
      Ù..Ý and their small forms, with ÿ. */
  function BaseLetter(c: char): char {
    if '\U{C0}' <= c <= '\U{C5}' then 'A' else if '\U{E0}' <= c <= '\U{E5}' then 'a'
    else if c == '\U{C7}' then 'C' else if c == '\U{E7}' then 'c'
    else if '\U{C8}' <= c <= '\U{CB}' then 'E' else if '\U{E8}' <= c <= '\U{EB}' then 'e'
    else if '\U{CC}' <= c <= '\U{CF}' then 'I' else if '\U{EC}' <= c <= '\U{EF}' then 'i'
    else if c == '\U{D1}' then 'N' else if c == '\U{F1}' then 'n'
    else if '\U{D2}' <= c <= '\U{D6}' then 'O' else if '\U{F2}' <= c <= '\U{F6}' then 'o'
    else if '\U{D9}' <= c <= '\U{DC}' then 'U' else if '\U{F9}' <= c <= '\U{FC}' then 'u'
    else if c == '\U{DD}' then 'Y' else if c == '\U{FD}' || c == '\U{FF}' then 'y'
    else c
  }

  /** Accent stripping yields the character itself or an ASCII letter. */
  lemma BaseLetterIsLetterOrSelf(c: char)
    ensures BaseLetter(c) == c || 'A' <= BaseLetter(c) <= 'Z' || 'a' <= BaseLetter(c) <= 'z'
  {
  }

  /** A character that survives accent stripping unchanged. */
  predicate IsPlain(c: char) {
    !IsCombiningMark(c) && BaseLetter(c) == c
  }

  lemma BaseLetterIsPlain(c: char)
    requires !IsCombiningMark(c)
    ensures IsPlain(BaseLetter(c))
  {
  }

  lemma LowerKeepsPlain(c: char)
    requires IsPlain(c)
    ensures IsPlain(ToLowerChar(c))
  {
  }

  /** `s.toLowerCase()`. */
  function Lower(s: string): (r: string)
    ensures |r| == |s|
    ensures forall i :: 0 <= i < |s| ==> r[i] == ToLowerChar(s[i])
  {
    seq(|s|, i requires 0 <= i < |s| => ToLowerChar(s[i]))
  }

  /** `s.toUpperCase()`. */
  function Upper(s: string): (r: string)
    ensures |r| == |s|
    ensures forall i :: 0 <= i < |s| ==> r[i] == ToUpperChar(s[i])
  {
    seq(|s|, i requires 0 <= i < |s| => ToUpperChar(s[i]))
  }

  /** `s.normalize('NFD').replace(/[̀-ͯ]/g, '')`. */
  function StripAccents(s: string): (r: string)
    ensures |r| <= |s|
    ensures forall i :: 0 <= i < |r| ==> IsPlain(r[i])
    ensures |s| == 1 ==> r == if IsCombiningMark(s[0]) then [] else [BaseLetter(s[0])]
  {
    if s == [] then []
    else if IsCombiningMark(s[0]) then StripAccents(s[1..])
    else BaseLetterIsPlain(s[0]); assert |s| == 1 ==> s[1..] == []; [BaseLetter(s[0])] + StripAccents(s[1..])
  }

  /** Accent stripping works character by character: a mark is dropped and every other
      character becomes its base letter, so stripping a concatenation strips each part. */
  lemma {:induction false} StripAccentsConcat(a: string, b: string)
    ensures StripAccents(a + b) == StripAccents(a) + StripAccents(b)
    decreases |a|
  {
    if a != [] {
      assert (a + b)[0] == a[0] && (a + b)[1..] == a[1..] + b;
      StripAccentsConcat(a[1..], b);
    } else {
      assert a + b == b;
    }
  }

  /** The index of the first non-whitespace character at or after `i` (or `|s|`). */
  function SkipSpaces(s: string, i: nat): (k: nat)
    requires i <= |s|
    ensures i <= k <= |s|
    ensures forall j :: i <= j < k ==> IsSpace(s[j])
    ensures k == |s| || !IsSpace(s[k])
    decreases |s| - i
  {
    if i < |s| && IsSpace(s[i]) then SkipSpaces(s, i + 1) else i
  }

  /** The end of `s[lo..hi]` once its trailing whitespace is dropped. */
  function SkipSpacesBack(s: string, lo: nat, hi: nat): (k: nat)
    requires lo <= hi <= |s|
    ensures lo <= k <= hi
    ensures forall j :: k <= j < hi ==> IsSpace(s[j])
    ensures k == lo || !IsSpace(s[k - 1])
    decreases hi
  {
    if lo < hi && IsSpace(s[hi - 1]) then SkipSpacesBack(s, lo, hi - 1) else hi
  }

  /** The number of whitespace characters `trimStart()` removes. */
  function LeadingSpaces(s: string): (n: nat)
    ensures n <= |s|
    ensures forall i :: 0 <= i < n ==> IsSpace(s[i])
    ensures n == |s| || !IsSpace(s[n])
  {
    SkipSpaces(s, 0)
  }

  /** `s.trimStart()`: a suffix of `s`, whose removed part is all whitespace. */
  function TrimStart(s: string): (r: string)
    ensures |r| <= |s| && r == s[|s| - |r|..]
    ensures forall i :: 0 <= i < |s| - |r| ==> IsSpace(s[i])
    ensures r == [] || !IsSpace(r[0])
    ensures s != [] && IsSpace(s[0]) ==> |r| < |s|
  {
    s[LeadingSpaces(s)..]
  }

  /** `s.trimEnd()`: a prefix of `s`, whose removed part is all whitespace. */
  function TrimEnd(s: string): (r: string)
    ensures |r| <= |s| && r == s[..|r|]
    ensures forall i :: |r| <= i < |s| ==> IsSpace(s[i])
    ensures r == [] || !IsSpace(r[|r| - 1])
  {
    s[..SkipSpacesBack(s, 0, |s|)]
  }

  /** `s.trim()`: the slice of `s` between its leading and trailing whitespace. */
  function Trim(s: string): (r: string)
    ensures LeadingSpaces(s) + |r| <= |s| && r == s[LeadingSpaces(s)..LeadingSpaces(s) + |r|]
    ensures forall i :: LeadingSpaces(s) + |r| <= i < |s| ==> IsSpace(s[i])
    ensures r == [] || (!IsSpace(r[0]) && !IsSpace(r[|r| - 1]))
    ensures r == [] <==> forall i :: 0 <= i < |s| ==> IsSpace(s[i])
  {
    var a := LeadingSpaces(s);
    s[a..SkipSpacesBack(s, a, |s|)]
  }

  /** Trimming keeps every character property that holds throughout `s`. */
  lemma TrimKeeps(s: string, p: char -> bool)
    requires forall i :: 0 <= i < |s| ==> p(s[i])
    ensures forall i :: 0 <= i < |Trim(s)| ==> p(Trim(s)[i])
  {
    var r := Trim(s);
    var a := LeadingSpaces(s);
    forall i | 0 <= i < |r| ensures p(r[i]) {
      assert r[i] == s[a + i];
    }
  }

  /** `s.replace(/\s+/g, c)` for a one-character replacement: every maximal run of whitespace
      becomes the single character `c`. */
  function ReplaceSpaceRuns(s: string, c: char): (r: string)
    ensures |r| <= |s| && (r == [] <==> s == [])
    ensures s != [] ==> r[0] == if IsSpace(s[0]) then c else s[0]
    ensures s != [] && !IsSpace(s[|s| - 1]) ==> r[|r| - 1] == s[|s| - 1]
    ensures forall i :: 0 <= i < |r| ==> r[i] == c || !IsSpace(r[i])
    ensures forall i, j :: 0 <= i && j == i + 1 < |r| && IsSpace(r[i]) ==> !IsSpace(r[j])
    decreases |s|
  {
    if s == [] then []
    else if IsSpace(s[0]) then [c] + ReplaceSpaceRuns(TrimStart(s), c)
    else [s[0]] + ReplaceSpaceRuns(s[1..], c)
  }

  /** A whitespace run never spans the seam between `a` and `b` when one side of it is not
      whitespace, so the runs of `a + b` are those of `a` followed by those of `b`. */
  lemma {:induction false} ReplaceSpaceRunsConcat(a: string, b: string, c: char)
    requires a == [] || b == [] || !IsSpace(a[|a| - 1]) || !IsSpace(b[0])
    ensures ReplaceSpaceRuns(a + b, c) == ReplaceSpaceRuns(a, c) + ReplaceSpaceRuns(b, c)
    decreases |a|, 2
  {
    if a == [] {
      assert a + b == b;
    } else if !IsSpace(a[0]) {
      ReplaceSpaceRunsConcatWord(a, b, c);
    } else {
      ReplaceSpaceRunsConcatSpace(a, b, c);
    }
  }

  /** The step of `ReplaceSpaceRunsConcat` where `a` starts with a non-whitespace character. */
  lemma {:induction false} ReplaceSpaceRunsConcatWord(a: string, b: string, c: char)
    requires a != [] && !IsSpace(a[0])
    requires b == [] || !IsSpace(a[|a| - 1]) || !IsSpace(b[0])
    ensures ReplaceSpaceRuns(a + b, c) == ReplaceSpaceRuns(a, c) + ReplaceSpaceRuns(b, c)
    decreases |a|, 0
  {
    var ab := a + b;
    assert ab[0] == a[0] && ab[1..] == a[1..] + b;
    RunsOfLeadingWord(ab, c);
    RunsOfLeadingWord(a, c);
    ReplaceSpaceRunsConcat(a[1..], b, c);
    PrependAssoc(ReplaceSpaceRuns(ab, c), ReplaceSpaceRuns(a[1..] + b, c), ReplaceSpaceRuns(a, c),
      ReplaceSpaceRuns(a[1..], c), ReplaceSpaceRuns(b, c), [a[0]]);
  }

  /** A leading non-whitespace character is copied through. */
  lemma RunsOfLeadingWord(s: string, c: char)
    requires s != [] && !IsSpace(s[0])
    ensures ReplaceSpaceRuns(s, c) == [s[0]] + ReplaceSpaceRuns(s[1..], c)
  {
  }

  /** The step of `ReplaceSpaceRunsConcat` where `a` starts with a whitespace character. */
  lemma {:induction false} ReplaceSpaceRunsConcatSpace(a: string, b: string, c: char)
    requires a != [] && IsSpace(a[0])
    requires b == [] || !IsSpace(a[|a| - 1]) || !IsSpace(b[0])
    ensures ReplaceSpaceRuns(a + b, c) == ReplaceSpaceRuns(a, c) + ReplaceSpaceRuns(b, c)
    decreases |a|, 1
  {
    if TrimStart(a) == [] {
      assert IsSpace(a[|a| - 1]);
      ConcatBlank(a, b, c);
    } else {
      ConcatSpaceThenWord(a, b, c);
    }
  }

  /** `ReplaceSpaceRunsConcat` when `a` is whitespace only. */
  lemma ConcatBlank(a: string, b: string, c: char)
    requires a != [] && IsSpace(a[0]) && TrimStart(a) == []
    requires b == [] || !IsSpace(b[0])
    ensures ReplaceSpaceRuns(a + b, c) == ReplaceSpaceRuns(a, c) + ReplaceSpaceRuns(b, c)
  {
    LeadingSpaceConcat(a, b, c);
    RunsOfLeadingSpace(a, c);
    BlankPrefixTrimmed(a, b);
  }

  /** `ReplaceSpaceRunsConcat` when `a` is leading whitespace and then a text `t`. */
  lemma {:induction false} ConcatSpaceThenWord(a: string, b: string, c: char)
    requires a != [] && IsSpace(a[0]) && TrimStart(a) != []
    requires b == [] || !IsSpace(a[|a| - 1]) || !IsSpace(b[0])
    ensures ReplaceSpaceRuns(a + b, c) == ReplaceSpaceRuns(a, c) + ReplaceSpaceRuns(b, c)
    decreases |a|, 0
  {
    var t := TrimStart(a);
    LeadingSpaceConcat(a, b, c);
    RunsOfLeadingSpace(a, c);
    TrimStartConcat(a, b);
    assert t[|t| - 1] == a[|a| - 1];
    ReplaceSpaceRunsConcat(t, b, c);
    PrependAssoc(ReplaceSpaceRuns(a + b, c), ReplaceSpaceRuns(t + b, c), ReplaceSpaceRuns(a, c),
      ReplaceSpaceRuns(t, c), ReplaceSpaceRuns(b, c), [c]);
  }

  /** The sequence identity that closes the two steps of `ReplaceSpaceRunsConcat`. */
  lemma PrependAssoc(ab: string, tb: string, a: string, t: string, b: string, p: string)
    requires ab == p + tb && a == p + t && tb == t + b
    ensures ab == a + b
  {
    assert p + (t + b) == (p + t) + b;
  }

  lemma LeadingSpaceConcat(a: string, b: string, c: char)
    requires a != [] && IsSpace(a[0])
    ensures ReplaceSpaceRuns(a + b, c) == [c] + ReplaceSpaceRuns(TrimStart(a + b), c)
  {
    assert (a + b)[0] == a[0];
    RunsOfLeadingSpace(a + b, c);
  }

  /** After a prefix of whitespace only, trimming starts where `b` starts. */
  lemma BlankPrefixTrimmed(a: string, b: string)
    requires TrimStart(a) == [] && (b == [] || !IsSpace(b[0]))
    ensures TrimStart(a + b) == b
  {
    TrimStartConcat(a, b);
    if b != [] {
      TrimStartAt(b, 0);
    }
  }

  /** Dropping the leading whitespace of `a + b`: the whitespace of `a` alone when `a` has a
      non-whitespace character, else that of `a` and of `b`. */
  lemma TrimStartConcat(a: string, b: string)
    ensures TrimStart(a) != [] ==> TrimStart(a + b) == TrimStart(a) + b
    ensures TrimStart(a) == [] ==> TrimStart(a + b) == TrimStart(b)
  {
    var ab := a + b;
    var t := TrimStart(a);
    if t != [] {
      var n := |a| - |t|;
      assert forall i :: 0 <= i < n ==> IsSpace(ab[i]);
      assert !IsSpace(ab[n]);
      TrimStartAt(ab, n);
      assert ab[n..] == t + b;
    } else {
      var n := |a| + |b| - |TrimStart(b)|;
      assert forall i :: 0 <= i < |a| ==> IsSpace(ab[i]);
      assert forall i :: |a| <= i < n ==> IsSpace(ab[i]) by {
        forall i | |a| <= i < n ensures IsSpace(ab[i]) {
          assert ab[i] == b[i - |a|];
        }
      }
      assert n == |ab| || !IsSpace(ab[n]) by {
        if n < |ab| {
          assert ab[n] == TrimStart(b)[0];
        }
      }
      TrimStartAt(ab, n);
      assert ab[n..] == TrimStart(b);
    }
  }

  /** The whitespace `trimStart()` removes is exactly the leading run. */
  lemma TrimStartAt(s: string, n: nat)
    requires n <= |s| && (forall i :: 0 <= i < n ==> IsSpace(s[i])) && (n == |s| || !IsSpace(s[n]))
    ensures TrimStart(s) == s[n..]
  {
    var m := |s| - |TrimStart(s)|;
    assert m == n by {
      assert m < |s| ==> TrimStart(s)[0] == s[m];
    }
  }

  /** The words of `s`: its maximal runs of non-whitespace characters, in order. */
  function Words(s: string): (ws: seq<string>)
    ensures forall k :: 0 <= k < |ws| ==> ws[k] != [] && forall j :: 0 <= j < |ws[k]| ==> !IsSpace(ws[k][j])
    ensures s != [] && !IsSpace(s[0]) ==> ws != []
    decreases |s|
  {
    if s == [] then []
    else if IsSpace(s[0]) then Words(TrimStart(s))
    else
      var n := WordLength(s);
      [s[..n]] + Words(s[n..])
  }

  /** The length of the word `s` starts with. */
  function WordLength(s: string): (n: nat)
    requires s != [] && !IsSpace(s[0])
    ensures 0 < n <= |s| && (n == |s| || IsSpace(s[n]))
    ensures forall j :: 0 <= j < n ==> !IsSpace(s[j])
    decreases |s|
  {
    if |s| == 1 || IsSpace(s[1]) then 1 else WordLength(s[1..]) + 1
  }

  /** `words.join(sep)`. */
  function JoinWith(ws: seq<string>, sep: char): (r: string)
    ensures ws == [] ==> r == []
    ensures |ws| == 1 ==> r == ws[0]
  {
    if ws == [] then [] else if |ws| == 1 then ws[0] else ws[0] + [sep] + JoinWith(ws[1..], sep)
  }

  /** On a text without whitespace at either end, collapsing the whitespace runs into `c` joins
      the text's words with `c`. */
  lemma {:induction false} ReplaceSpaceRunsJoinsWords(s: string, c: char)
    requires s == [] || (!IsSpace(s[0]) && !IsSpace(s[|s| - 1]))
    ensures ReplaceSpaceRuns(s, c) == JoinWith(Words(s), c)
    decreases |s|
  {
    if s != [] {
      var n := WordLength(s);
      var w, rest := s[..n], s[n..];
      assert s == w + rest;
      WordUnchanged(w, c);
      if rest == [] {
        assert s == w;
        assert Words(s) == [w];
      } else {
        var t := TrimStart(rest);
        TrimmedRest(s);
        SeparatedWordWords(s, t);
        JoinCons(w, Words(t), c);
        RunsAfterWord(s, n, c);
        ReplaceSpaceRunsJoinsWords(t, c);
      }
    }
  }

  /** A text without whitespace is left as it is by `ReplaceSpaceRuns`. */
  lemma {:induction false} WordUnchanged(w: string, c: char)
    requires forall j :: 0 <= j < |w| ==> !IsSpace(w[j])
    ensures ReplaceSpaceRuns(w, c) == w
    decreases |w|
  {
    if w != [] {
      WordUnchanged(w[1..], c);
    }
  }

  /** A non-empty text of whitespace only becomes the single character `c`. */
  lemma BlankRuns(s: string, c: char)
    requires s != [] && forall j :: 0 <= j < |s| ==> IsSpace(s[j])
    ensures ReplaceSpaceRuns(s, c) == [c]
  {
    assert TrimStart(s) == [];
  }

  /** When the first word of a trimmed `s` is followed by more text, that text is a run of
      whitespace and then a text `t` that is again trimmed. */
  lemma TrimmedRest(s: string)
    requires s != [] && !IsSpace(s[0]) && !IsSpace(s[|s| - 1])
    requires WordLength(s) < |s|
    ensures var t := TrimStart(s[WordLength(s)..]);
      t != [] && !IsSpace(t[0]) && !IsSpace(t[|t| - 1]) && |t| < |s|
  {
    var rest := s[WordLength(s)..];
    assert rest[|rest| - 1] == s[|s| - 1];
  }

  /** Joining a word in front of a non-empty list of words. */
  lemma JoinCons(w: string, ws: seq<string>, sep: char)
    requires ws != []
    ensures JoinWith([w] + ws, sep) == w + ([sep] + JoinWith(ws, sep))
  {
    assert ([w] + ws)[1..] == ws;
  }

  /** A word followed by whitespace: the word is kept and the whitespace run becomes `c`. */
  lemma {:induction false} RunsAfterWord(s: string, n: nat, c: char)
    requires 0 < n < |s| && IsSpace(s[n]) && forall j :: 0 <= j < n ==> !IsSpace(s[j])
    ensures ReplaceSpaceRuns(s, c) == s[..n] + ([c] + ReplaceSpaceRuns(TrimStart(s[n..]), c))
    decreases n
  {
    var x := ReplaceSpaceRuns(TrimStart(s[n..]), c);
    if n == 1 {
      assert s[1..][0] == s[1];
      RunsOfLeadingSpace(s[1..], c);
      assert s[..1] == [s[0]];
    } else {
      var u := s[1..];
      assert u[n - 1..] == s[n..];
      assert ReplaceSpaceRuns(s, c) == [s[0]] + ReplaceSpaceRuns(u, c);
      RunsAfterWord(u, n - 1, c);
      PrependSlice(s, n, [c] + x);
    }
  }

  /** Putting the first character back in front of a slice of the rest. */
  lemma PrependSlice(s: string, n: nat, tail: string)
    requires 0 < n <= |s|
    ensures [s[0]] + (s[1..][..n - 1] + tail) == s[..n] + tail
  {
    assert s[1..][..n - 1] == s[1..n];
    assert [s[0]] + s[1..n] == s[..n];
  }

  /** A leading whitespace run becomes `c`. */
  lemma RunsOfLeadingSpace(s: string, c: char)
    requires s != [] && IsSpace(s[0])
    ensures ReplaceSpaceRuns(s, c) == [c] + ReplaceSpaceRuns(TrimStart(s), c)
  {
  }

  /** The words of `s` after its first one are those of `t`, the text after the separator. */
  lemma SeparatedWordWords(s: string, t: string)
    requires s != [] && !IsSpace(s[0])
    requires WordLength(s) < |s| && t == TrimStart(s[WordLength(s)..]) && t != []
    ensures Words(s) == [s[..WordLength(s)]] + Words(t) && Words(t) != []
  {
  }

  /** `s.replace(/\s/g, [c])`: every whitespace character becomes `c`. */
  function ReplaceEachSpace(s: string, c: char): (r: string)
    ensures |r| == |s|
    ensures forall i :: 0 <= i < |s| ==> r[i] == if IsSpace(s[i]) then c else s[i]
  {
    seq(|s|, i requires 0 <= i < |s| => if IsSpace(s[i]) then c else s[i])
  }

  /** `s.replace(/[<chars>]/g, to)`: every character listed in `chars` becomes `to`. */
  function ReplaceChars(s: string, chars: string, to: char): (r: string)
    ensures |r| == |s|
    ensures forall i :: 0 <= i < |s| ==> r[i] == if s[i] in chars then to else s[i]
  {
    seq(|s|, i requires 0 <= i < |s| => if s[i] in chars then to else s[i])
  }

  /** `s.replace(/[<chars>]+/g, '')`: the characters of `s` not listed in `chars`, in order. */
  function RemoveChars(s: string, chars: string): (r: string)
    ensures |r| <= |s|
    ensures forall i :: 0 <= i < |r| ==> r[i] !in chars
    ensures (forall i :: 0 <= i < |s| ==> s[i] !in chars) ==> r == s
    ensures |s| == 1 ==> r == if s[0] in chars then [] else s
  {
    if s == [] then []
    else if s[0] in chars then RemoveChars(s[1..], chars)
    else [s[0]] + RemoveChars(s[1..], chars)
  }

  /** Removal works character by character, so removing from a concatenation removes from each
      part and keeps the surviving characters in order. */
  lemma {:induction false} RemoveCharsConcat(a: string, b: string, chars: string)
    ensures RemoveChars(a + b, chars) == RemoveChars(a, chars) + RemoveChars(b, chars)
    decreases |a|
  {
    if a != [] {
      assert (a + b)[0] == a[0] && (a + b)[1..] == a[1..] + b;
      RemoveCharsStep(a + b, chars);
      RemoveCharsStep(a, chars);
      RemoveCharsConcat(a[1..], b, chars);
      PrependAssoc(RemoveChars(a + b, chars), RemoveChars(a[1..] + b, chars), RemoveChars(a, chars),
        RemoveChars(a[1..], chars), RemoveChars(b, chars), if a[0] in chars then [] else [a[0]]);
    } else {
      assert a + b == b;
    }
  }

  /** One step of `RemoveChars`: the first character is dropped or kept. */
  lemma RemoveCharsStep(s: string, chars: string)
    requires s != []
    ensures RemoveChars(s, chars) == (if s[0] in chars then [] else [s[0]]) + RemoveChars(s[1..], chars)
  {
    if s[0] in chars {
      assert [] + RemoveChars(s[1..], chars) == RemoveChars(s[1..], chars);
    }
  }

  /** Collapsing whitespace runs into a character that has property `p` keeps `p` holding of
      every character. */
  lemma {:induction false} CollapseKeeps(s: string, c: char, p: char -> bool)
    requires p(c) && forall i :: 0 <= i < |s| ==> p(s[i])
    ensures forall i :: 0 <= i < |ReplaceSpaceRuns(s, c)| ==> p(ReplaceSpaceRuns(s, c)[i])
    decreases |s|
  {
    if s != [] {
      if IsSpace(s[0]) {
        var t := TrimStart(s);
        assert forall i :: 0 <= i < |t| ==> t[i] == s[|s| - |t| + i];
        CollapseKeeps(t, c, p);
      } else {
        CollapseKeeps(s[1..], c, p);
      }
    }
  }

  /** Removing characters keeps every character property that held before. */
  lemma {:induction false} RemoveCharsKeeps(s: string, chars: string, p: char -> bool)
    requires forall i :: 0 <= i < |s| ==> p(s[i])
    ensures forall i :: 0 <= i < |RemoveChars(s, chars)| ==> p(RemoveChars(s, chars)[i])
    decreases |s|
  {
    if s != [] {
      RemoveCharsKeeps(s[1..], chars, p);
    }
  }

  /** `needle` occurs in `s` starting at index `i`. */
  predicate OccursAt(s: string, needle: string, i: int) {
    0 <= i && i + |needle| <= |s| && s[i..i + |needle|] == needle
  }

  /** `s.includes(needle)`, and the truth of `s.match(/needle/)` for a needle without
      special characters. */
  predicate Contains(s: string, needle: string) {
    exists i | 0 <= i <= |s| - |needle| :: OccursAt(s, needle, i)
  }

  /** A case-insensitive regular-expression test (`/needle/i`) for a literal needle. */
  predicate ContainsIgnoringCase(s: string, needle: string) {
    Contains(Lower(s), Lower(needle))
  }

  /** The first occurrence of `needle` in `s` at or after `from`, or -1. */
  function IndexOfFrom(s: string, needle: string, from: nat): (r: int)
    ensures r == -1 || (from <= r && OccursAt(s, needle, r))
    ensures r == -1 ==> forall i :: from <= i ==> !OccursAt(s, needle, i)
    ensures r >= 0 ==> forall i :: from <= i < r ==> !OccursAt(s, needle, i)
    decreases |s| - from
  {
    if from + |needle| > |s| then -1
    else if OccursAt(s, needle, from) then from
    else IndexOfFrom(s, needle, from + 1)
  }

  /** `s.indexOf(needle)`: the first index where `needle` occurs, or -1 when it does not. */
  function IndexOf(s: string, needle: string): (r: int)
    ensures r == -1 <==> !Contains(s, needle)
    ensures r >= 0 ==> OccursAt(s, needle, r) && forall i :: 0 <= i < r ==> !OccursAt(s, needle, i)
  {
    var r := IndexOfFrom(s, needle, 0);
    assert r >= 0 ==> OccursAt(s, needle, r);
    r
  }

  /** A one-character needle occurs exactly where that character stands. */
  lemma OccursAtChar(s: string, c: char, i: int)
    ensures OccursAt(s, [c], i) <==> 0 <= i < |s| && s[i] == c
  {
    if 0 <= i < |s| && s[i] == c {
      assert s[i..i + 1] == [c];
    }
  }

  predicate HasPrefix(s: string, prefix: string) {
    |prefix| <= |s| && s[..|prefix|] == prefix
  }

  /** `s.replace(pattern, rep)` with a string pattern: only the first occurrence is replaced. */
  function ReplaceFirst(s: string, pattern: string, rep: string): (r: string)
    ensures !Contains(s, pattern) ==> r == s
    ensures forall i :: OccursAt(s, pattern, i) && (forall j :: 0 <= j < i ==> !OccursAt(s, pattern, j)) ==>
      r == s[..i] + rep + s[i + |pattern|..]
  {
    var i := IndexOf(s, pattern);
    if i < 0 then s else s[..i] + rep + s[i + |pattern|..]
  }

  /** Lexicographic order by code point, the order of JavaScript's `<` on strings and of
      `Array.prototype.sort` without a comparator. */
  predicate LexLe(a: string, b: string)
    decreases |a|
  {
    a == [] || (b != [] && (a[0] < b[0] || (a[0] == b[0] && LexLe(a[1..], b[1..]))))
  }

  lemma {:induction false} LexLeTotal(a: string, b: string)
    ensures LexLe(a, b) || LexLe(b, a)
    decreases |a|
  {
    if a != [] && b != [] && a[0] == b[0] {
      LexLeTotal(a[1..], b[1..]);
    }
  }

  lemma {:induction false} LexLeTransitive(a: string, b: string, c: string)
    requires LexLe(a, b) && LexLe(b, c)
    ensures LexLe(a, c)
    decreases |a|
  {
    if a != [] && a[0] == b[0] && b[0] == c[0] {
      LexLeTransitive(a[1..], b[1..], c[1..]);
    }
  }

  lemma {:induction false} LexLeAntisymmetric(a: string, b: string)
    requires LexLe(a, b) && LexLe(b, a)
    ensures a == b
    decreases |a|
  {
    if a != [] {
      LexLeAntisymmetric(a[1..], b[1..]);
    }
  }
}
