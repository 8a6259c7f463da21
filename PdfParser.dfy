/**
 * The project-PDF text utilities: `cleanPDFText`, which normalises the text a PDF
 * yields, and `extractProjectSections`, which picks a title and an abstract out of it.
 */
module PdfParser {
  import opened JsText
  import opened JsRegex

  // ---------------------------------------------------------------------------
  // cleanPDFText
  // ---------------------------------------------------------------------------

  /**
   * The length of a case-insensitive `Page \d+ of \d+` match at the start of `s`, or 0.
   * Each digit run is maximal: a shorter one would be followed by a digit, where the
   * pattern needs a space or nothing more.
   */
  function PageMarkerLen(s: string): (n: nat)
    ensures n <= |s|
    ensures n > 0 ==> n >= 11 && StartsWithCI(s, "page ")
  {
    if !StartsWithCI(s, "page ") then 0
    else
      var d1 := RunLen(s[5..], IsDigit);
      if d1 == 0 || !StartsWithCI(s[5 + d1..], " of ") then 0
      else
        var d2 := RunLen(s[9 + d1..], IsDigit);
        if d2 == 0 then 0 else 9 + d1 + d2
  }

  /** `s.replace(/Page \d+ of \d+/gi, '')`. */
  function RemovePageMarkers(s: string): (r: string)
    ensures |r| <= |s|
    decreases |s|
  {
    if s == [] then []
    else if PageMarkerLen(s) > 0 then RemovePageMarkers(s[PageMarkerLen(s)..])
    else [s[0]] + RemovePageMarkers(s[1..])
  }

  lemma {:induction false} RemovePageMarkersChars(s: string)
    ensures forall c :: c in RemovePageMarkers(s) ==> c in s
    decreases |s|
  {
    if s != [] {
      var k := if PageMarkerLen(s) > 0 then PageMarkerLen(s) else 1;
      RemovePageMarkersChars(s[k..]);
      assert forall c :: c in s[k..] ==> c in s;
    }
  }

  lemma {:induction false} RemovePageMarkersWithoutDigits(s: string)
    requires forall i :: 0 <= i < |s| ==> !IsDigit(s[i])
    ensures RemovePageMarkers(s) == s
    decreases |s|
  {
    if s != [] {
      if StartsWithCI(s, "page ") && |s| > 5 {
        assert s[5..][0] == s[5];
      }
      assert PageMarkerLen(s) == 0;
      RemovePageMarkersWithoutDigits(s[1..]);
    }
  }

  /** The length of the line at the start of `s`: up to the first line terminator. */
  function LineLen(s: string): (k: nat)
    ensures k <= |s|
    ensures forall i :: 0 <= i < k ==> !IsLineTerminator(s[i])
    ensures k < |s| ==> IsLineTerminator(s[k])
  {
    RunLen(s, NotLineTerminator)
  }

  /**
   * `s.replace(/^\d+$/gm, '')`: with the `m` flag `^` and `$` match at line
   * terminators, so every non-empty line made only of digits is emptied.
   */
  function DropDigitLines(s: string): (r: string)
    ensures |r| <= |s|
    decreases |s|
  {
    var k := LineLen(s);
    var line := if k > 0 && AllDigits(s[..k]) then "" else s[..k];
    if k == |s| then line else line + [s[k]] + DropDigitLines(s[k + 1..])
  }

  lemma {:induction false} DropDigitLinesChars(s: string)
    ensures forall c :: c in DropDigitLines(s) ==> c in s
    decreases |s|
  {
    var k := LineLen(s);
    assert forall c :: c in s[..k] ==> c in s;
    if k < |s| {
      DropDigitLinesChars(s[k + 1..]);
      assert forall c :: c in s[k + 1..] ==> c in s;
    }
  }

  /** A string that has no line terminator is one line: it vanishes exactly when it is a non-empty digit string. */
  lemma DropDigitLinesSingleLine(s: string)
    requires forall i :: 0 <= i < |s| ==> !IsLineTerminator(s[i])
    ensures DropDigitLines(s) == if s != [] && AllDigits(s) then "" else s
  {
    assert LineLen(s) == |s|;
    assert s[..|s|] == s;
  }

  /** `s.replace(/\r\n/g, '\n')`. */
  function JoinCrLf(s: string): (r: string)
    decreases |s|
  {
    if |s| >= 2 && s[0] == '\r' && s[1] == '\n' then "\n" + JoinCrLf(s[2..])
    else if s == [] then []
    else [s[0]] + JoinCrLf(s[1..])
  }

  /** `s.replace(/\r/g, '\n')`. */
  function CrToLf(s: string): (r: string)
    ensures |r| == |s|
    ensures forall i :: 0 <= i < |s| ==> r[i] == if s[i] == '\r' then '\n' else s[i]
  {
    seq(|s|, i requires 0 <= i < |s| => if s[i] == '\r' then '\n' else s[i])
  }

  /** `s.replace(/\n{3,}/g, '\n\n')`. */
  function CapNewlines(s: string): (r: string)
    decreases |s|
  {
    var k := RunLen(s, IsNewline);
    if k >= 3 then "\n\n" + CapNewlines(s[k..])
    else if s == [] then []
    else [s[0]] + CapNewlines(s[1..])
  }

  predicate NoBreaks(s: string) {
    forall i :: 0 <= i < |s| ==> s[i] != '\r' && s[i] != '\n'
  }

  /** The line-break normalisations leave a string without line breaks unchanged. */
  lemma {:induction false} NormalizeBreaksIdentity(s: string)
    requires NoBreaks(s)
    ensures JoinCrLf(s) == s && CrToLf(s) == s && CapNewlines(s) == s
    decreases |s|
  {
    if s != [] {
      NormalizeBreaksIdentity(s[1..]);
      assert RunLen(s, IsNewline) == 0;
    }
  }

  function NormalizeBreaks(s: string): string {
    CapNewlines(CrToLf(JoinCrLf(s)))
  }

  /** `cleanPDFText`, as written. */
  function CleanPdfText(text: string): string {
    Trim(NormalizeBreaks(DropDigitLines(RemovePageMarkers(CollapseWs(text)))))
  }

  /**
   * Every white-space run became one space before the later steps, which only delete:
   * the result has no line break or tab (its only white space is the space), it is
   * trimmed, and it is no longer than the input.
   */
  lemma CleanPdfTextShape(text: string)
    ensures var r := CleanPdfText(text);
      && |r| <= |text|
      && SpacesOnly(r)
      && (forall i :: 0 <= i < |r| ==> r[i] != '\n' && r[i] != '\r' && r[i] != '\t')
      && (r == [] || (!IsSpace(r[0]) && !IsSpace(r[|r| - 1])))
  {
    var c1 := CollapseWs(text);
    var c2 := RemovePageMarkers(c1);
    var c3 := DropDigitLines(c2);
    CollapseWsSingleSpaced(text);
    RemovePageMarkersChars(c1);
    DropDigitLinesChars(c2);
    SpacesOnlyOfChars(c1, c2);
    SpacesOnlyOfChars(c2, c3);
    SpacesOnlyNoBreaks(c3);
    NormalizeBreaksIdentity(c3);
    TrimChars(c3);
    SpacesOnlyOfChars(c3, Trim(c3));
    SpacesOnlyNoBreaks(Trim(c3));
  }

  /** For text without digits the result is the trimmed white-space collapse of the input. */
  lemma CleanPdfTextWithoutDigits(text: string)
    requires forall i :: 0 <= i < |text| ==> !IsDigit(text[i])
    ensures CleanPdfText(text) == Trim(CollapseWs(text))
  {
    var c1 := CollapseWs(text);
    CollapseWsSingleSpaced(text);
    assert forall i :: 0 <= i < |c1| ==> !IsDigit(c1[i]) && !IsLineTerminator(c1[i]) by {
      forall i | 0 <= i < |c1|
        ensures !IsDigit(c1[i]) && !IsLineTerminator(c1[i])
      {
        assert c1[i] in c1;
      }
    }
    RemovePageMarkersWithoutDigits(c1);
    DropDigitLinesSingleLine(c1);
    assert c1 != [] ==> !AllDigits(c1) by {
      if c1 != [] {
        assert !IsDigit(c1[0]);
      }
    }
    NormalizeBreaksIdentity(c1);
  }

  /** A character that no step of the cleaning touches: not white space, not a digit, and no `p` of a page marker. */
  predicate Plain(c: char) {
    !IsSpace(c) && !IsDigit(c) && Lower(c) != 'p'
  }

  /**
   * A line of the source text holding only a page number is not removed: its newlines
   * became spaces first, so "a\n7\nb" cleans to "a 7 b".
   */
  lemma NumberLineSurvives(a: char, d: char, b: char)
    requires Plain(a) && IsDigit(d) && Plain(b)
    ensures CleanPdfText([a, '\n', d, '\n', b]) == [a, ' ', d, ' ', b]
  {
    var c1 := [a, ' ', d, ' ', b];
    CollapseOfNumberLine(a, d, b);
    RemovePageMarkersWithoutP(c1);
    DropDigitLinesSingleLine(c1);
    assert !IsDigit(c1[0]);
    NormalizeBreaksIdentity(c1);
    TrimOfWord(c1);
  }

  lemma CollapseOfNumberLine(a: char, d: char, b: char)
    requires !IsSpace(a) && !IsSpace(d) && !IsSpace(b)
    ensures CollapseWs([a, '\n', d, '\n', b]) == [a, ' ', d, ' ', b]
  {
    var s1 := ['\n'] + [d, '\n', b];
    CollapseOfWordLine(d, b);
    ReplaceBehindWord('\n', [d, '\n', b], IsSpace);
    ReplaceCons(a, s1, IsSpace);
    assert [a, '\n', d, '\n', b] == [a] + s1;
  }

  lemma CollapseOfWordLine(d: char, b: char)
    requires !IsSpace(d) && !IsSpace(b)
    ensures ReplaceRuns([d, '\n', b], IsSpace) == [d, ' ', b]
  {
    var s3 := ['\n'] + [b];
    CollapseOfLastWord(b);
    ReplaceBehindWord('\n', [b], IsSpace);
    ReplaceCons(d, s3, IsSpace);
    assert [d, '\n', b] == [d] + s3;
  }

  lemma CollapseOfLastWord(b: char)
    requires !IsSpace(b)
    ensures ReplaceRuns([b], IsSpace) == [b]
  {
    ReplaceCons(b, [], IsSpace);
    assert [b] + [] == [b];
  }

  lemma CollapseOfBlankLine(a: char, b: char)
    requires !IsSpace(a) && !IsSpace(b)
    ensures CollapseWs([a, '\n', '\n', b]) == [a, ' ', b]
  {
    var s1 := ['\n', '\n'] + [b];
    assert ReplaceRuns(s1, IsSpace) == [' '] + ReplaceRuns([b], IsSpace) by {
      ReplaceTwo('\n', '\n', [b], IsSpace);
      ReplaceBehindWord('\n', [b], IsSpace);
    }
    CollapseOfLastWord(b);
    ReplaceCons(a, s1, IsSpace);
    assert [a, '\n', '\n', b] == [a] + s1;
  }

  lemma {:induction false} RemovePageMarkersWithoutP(s: string)
    requires forall i :: 0 <= i < |s| ==> Lower(s[i]) != 'p'
    ensures RemovePageMarkers(s) == s
    decreases |s|
  {
    if s != [] {
      assert !StartsWithCI(s, "page ") by {
        if |s| >= 5 {
          assert Lower(s[0]) != "page "[0];
        }
      }
      RemovePageMarkersWithoutP(s[1..]);
    }
  }

  lemma TrimOfWord(s: string)
    requires |s| >= 1 && !IsSpace(s[0]) && !IsSpace(s[|s| - 1])
    ensures Trim(s) == s
  {
  }

  predicate NotDigit(c: char) {
    !IsDigit(c)
  }

  /** Every line of `s` is either made only of digits or holds none. */
  predicate NumberLinesOnly(s: string)
    decreases |s|
  {
    var k := LineLen(s);
    (AllDigits(s[..k]) || Every(s[..k], NotDigit)) && (k < |s| ==> NumberLinesOnly(s[k + 1..]))
  }

  /** Emptying the number lines of such a string leaves no digit. */
  lemma {:induction false} DropDigitLinesRemovesNumbers(s: string)
    requires NumberLinesOnly(s)
    ensures Every(DropDigitLines(s), NotDigit)
    decreases |s|
  {
    var k := LineLen(s);
    var line := if k > 0 && AllDigits(s[..k]) then "" else s[..k];
    assert Every(line, NotDigit);
    if k < |s| {
      DropDigitLinesRemovesNumbers(s[k + 1..]);
      assert NotDigit(s[k]);
      EveryConcat(line, [s[k]], NotDigit);
      EveryConcat(line + [s[k]], DropDigitLines(s[k + 1..]), NotDigit);
    }
  }

  /**
   * `cleanPDFText` as its steps evidently intend it: stand-alone numbers are removed
   * line by line before the white space (and with it every line break) is collapsed.
   */
  function CleanPdfTextByLines(text: string): string {
    Trim(NormalizeBreaks(RemovePageMarkers(CollapseWs(DropDigitLines(text)))))
  }

  /** When every line is a number or free of digits, no digit reaches the cleaned text. */
  lemma CleanByLinesDropsNumberLines(text: string)
    requires NumberLinesOnly(text)
    ensures Every(CleanPdfTextByLines(text), NotDigit)
  {
    var c1 := DropDigitLines(text);
    DropDigitLinesRemovesNumbers(text);
    var c2 := CollapseWs(c1);
    CollapseWsSingleSpaced(c1);
    EveryOfChars(c1, c2, NotDigit);
    var c3 := RemovePageMarkers(c2);
    RemovePageMarkersChars(c2);
    EveryOfChars(c2, c3, NotDigit);
    SpacesOnlyOfChars(c2, c3);
    SpacesOnlyNoBreaks(c3);
    NormalizeBreaksIdentity(c3);
    TrimChars(c3);
    EveryOfChars(c3, Trim(c3), NotDigit);
  }

  /** The same sample as `NumberLineSurvives`: in the corrected order no digit is left. */
  lemma NumberLineDropped(a: char, d: char, b: char)
    requires Plain(a) && IsDigit(d) && Plain(b)
    ensures Every(CleanPdfTextByLines([a, '\n', d, '\n', b]), NotDigit)
  {
    SampleNumberLines(a, d, b);
    CleanByLinesDropsNumberLines([a, '\n', d, '\n', b]);
  }

  lemma SampleNumberLines(a: char, d: char, b: char)
    requires !IsLineTerminator(a) && !IsDigit(a) && IsDigit(d) && !IsLineTerminator(b) && !IsDigit(b)
    ensures NumberLinesOnly([a, '\n', d, '\n', b])
  {
    assert NumberLinesOnly([b]) by {
      assert LineLen([b]) == 1;
      assert [b][..1] == [b];
    }
    NumberLinesCons([d, '\n', b], [d], '\n', [b]);
    NumberLinesCons([a, '\n', d, '\n', b], [a], '\n', [d, '\n', b]);
  }

  /** A line that is a number or free of digits, a terminator, and more such lines. */
  lemma NumberLinesCons(s: string, line: string, t: char, rest: string)
    requires s == line + [t] + rest
    requires forall i :: 0 <= i < |line| ==> !IsLineTerminator(line[i])
    requires IsLineTerminator(t)
    requires AllDigits(line) || Every(line, NotDigit)
    requires NumberLinesOnly(rest)
    ensures NumberLinesOnly(s)
  {
    var k := LineLen(s);
    assert forall i :: 0 <= i < |line| ==> !IsLineTerminator(s[i]) by {
      forall i | 0 <= i < |line|
        ensures !IsLineTerminator(s[i])
      {
        assert s[i] == line[i];
      }
    }
    assert IsLineTerminator(s[|line|]);
    assert k == |line|;
    assert s[..k] == line && s[k + 1..] == rest;
  }

  /** A line and its terminator: the line is emptied when it is a non-empty digit string, and the rest is handled on its own. */
  lemma DropLine(s: string, line: string, t: char, rest: string)
    requires s == line + [t] + rest
    requires forall i :: 0 <= i < |line| ==> !IsLineTerminator(line[i])
    requires IsLineTerminator(t)
    ensures DropDigitLines(s)
         == (if line != [] && AllDigits(line) then "" else line) + [t] + DropDigitLines(rest)
  {
    var k := LineLen(s);
    assert forall i :: 0 <= i < |line| ==> !IsLineTerminator(s[i]) by {
      forall i | 0 <= i < |line|
        ensures !IsLineTerminator(s[i])
      {
        assert s[i] == line[i];
      }
    }
    assert IsLineTerminator(s[|line|]);
    assert k == |line|;
    assert s[..k] == line && s[k] == t && s[k + 1..] == rest;
  }

  // ---------------------------------------------------------------------------
  // extractProjectSections
  // ---------------------------------------------------------------------------

  datatype Sections = Sections(title: string, abstractText: string, fullText: string)

  predicate Blank(s: string) {
    Every(s, IsSpace)
  }

  /** The title: the first line (split on "\n") that is not blank, cut to 200 characters; "" when every line is blank. */
  function Title(text: string): string {
    var lines := NonBlank(Split(text, '\n'));
    if lines == [] then "" else Prefix(lines[0], 200)
  }

  /** The lookahead `(?=introduction|chapter|keywords|$)`, case-insensitively, at position `e`. */
  predicate AbstractEnd(s: string, e: nat)
    requires e <= |s|
  {
    e == |s| || StartsWithCI(s[e..], "introduction") || StartsWithCI(s[e..], "chapter")
    || StartsWithCI(s[e..], "keywords")
  }

  /**
   * `/abstract[\s\S]{0,50}([\s\S]{100,1000})(?=introduction|chapter|keywords|$)/i`
   * matches with the word at `i`, a gap of `a` characters and a group of `g` characters.
   */
  predicate AbstractAt(s: string, i: nat, a: nat, g: nat) {
    && a <= 50 && 100 <= g <= 1000 && i + 8 + a + g <= |s|
    && StartsWithCI(s[i..], "abstract")
    && AbstractEnd(s, i + 8 + a + g)
  }

  /** The greedy group: the longest `g' <= g` that completes a match. */
  function GroupLen(s: string, i: nat, a: nat, g: nat): (r: Option<nat>)
    ensures r.Some? ==> r.value <= g && AbstractAt(s, i, a, r.value)
    ensures r.Some? ==> forall h: nat :: r.value < h <= g ==> !AbstractAt(s, i, a, h)
    ensures r.None? ==> forall h: nat :: h <= g ==> !AbstractAt(s, i, a, h)
    decreases g
  {
    if g < 100 then None
    else if AbstractAt(s, i, a, g) then Some(g)
    else GroupLen(s, i, a, g - 1)
  }

  /** The greedy gap: the longest `a' <= a` for which some group completes a match, with that group. */
  function GapAndGroup(s: string, i: nat, a: nat): (r: Option<(nat, nat)>)
    ensures r.Some? ==> r.value.0 <= a && AbstractAt(s, i, r.value.0, r.value.1)
    ensures r.None? ==> forall b: nat, h: nat :: b <= a ==> !AbstractAt(s, i, b, h)
    decreases a
  {
    var g := GroupLen(s, i, a, 1000);
    if g.Some? then Some((a, g.value))
    else if a == 0 then
      assert forall b: nat, h: nat :: b <= a ==> b == a && (h <= 1000 || !AbstractAt(s, i, b, h));
      None
    else
      var r := GapAndGroup(s, i, a - 1);
      r
  }

  /** The leftmost match at or after `i`, as (word position, gap, group length). */
  function FindAbstract(s: string, i: nat): (r: Option<(nat, nat, nat)>)
    requires i <= |s|
    ensures r.Some? ==> i <= r.value.0 && AbstractAt(s, r.value.0, r.value.1, r.value.2)
    ensures r.Some? ==> forall j: nat, b: nat, h: nat :: i <= j < r.value.0 ==> !AbstractAt(s, j, b, h)
    ensures r.None? ==> forall j: nat, b: nat, h: nat :: i <= j ==> !AbstractAt(s, j, b, h)
    decreases |s| - i
  {
    var m := GapAndGroup(s, i, 50);
    if m.Some? then Some((i, m.value.0, m.value.1))
    else if i == |s| then
      assert forall j: nat, b: nat, h: nat :: i < j ==> !AbstractAt(s, j, b, h);
      None
    else FindAbstract(s, i + 1)
  }

  /** The group the pattern captures, if it matches anywhere. */
  function AbstractGroup(text: string): (r: Option<string>)
    ensures r.Some? ==> 100 <= |r.value| <= 1000
    ensures r.Some? <==> exists i: nat, a: nat, g: nat :: AbstractAt(text, i, a, g)
  {
    match FindAbstract(text, 0)
    case Some(m) => Some(text[m.0 + 8 + m.1..m.0 + 8 + m.1 + m.2])
    case None => None
  }

  /** The abstract: the trimmed group cut to 1000 characters, or the first 500 characters of the text. */
  function Abstract(text: string): string {
    match AbstractGroup(text)
    case Some(group) => Prefix(Trim(group), 1000)
    case None => Prefix(text, 500)
  }

  /** `extractProjectSections`. */
  function ExtractProjectSections(text: string): (r: Sections)
    ensures r.fullText == text
  {
    Sections(Title(text), Abstract(text), text)
  }

  /** Every string of `xs` is of class `p`. */
  predicate AllEvery(xs: seq<string>, p: char -> bool) {
    forall k :: 0 <= k < |xs| ==> Every(xs[k], p)
  }

  lemma AllEveryCons(x: string, xs: seq<string>, p: char -> bool)
    ensures AllEvery([x] + xs, p) <==> Every(x, p) && AllEvery(xs, p)
  {
    var u := [x] + xs;
    assert u[0] == x;
    assert forall k :: 0 <= k < |xs| ==> xs[k] == u[k + 1];
    assert forall k :: 0 < k < |u| ==> u[k] == xs[k - 1];
  }

  /** All pieces of a split on a separator of class `p` are of class `p` exactly when the whole string is. */
  lemma {:induction false} SplitEvery(s: string, c: char, p: char -> bool)
    requires p(c)
    ensures AllEvery(Split(s, c), p) <==> Every(s, p)
    decreases |s|
  {
    if s != [] {
      SplitEvery(s[1..], c, p);
      var rest := Split(s[1..], c);
      EveryCons(s[0], s[1..], p);
      assert [s[0]] + s[1..] == s;
      if s[0] != c {
        assert Split(s, c) == [[s[0]] + rest[0]] + rest[1..];
        assert rest == [rest[0]] + rest[1..];
        AllEveryCons([s[0]] + rest[0], rest[1..], p);
        AllEveryCons(rest[0], rest[1..], p);
        EveryCons(s[0], rest[0], p);
      } else {
        assert Split(s, c) == [[]] + rest;
        AllEveryCons([], rest, p);
      }
    }
  }

  lemma NonBlankEmpty(xs: seq<string>)
    ensures NonBlank(xs) == [] <==> forall k :: 0 <= k < |xs| ==> Blank(xs[k])
  {
    forall k | 0 <= k < |xs|
      ensures Trim(xs[k]) == "" <==> Blank(xs[k])
    {
      TrimEmptyIffBlank(xs[k]);
    }
    if NonBlank(xs) != [] {
      assert NonBlank(xs)[0] in NonBlank(xs);
    }
    if exists k :: 0 <= k < |xs| && !Blank(xs[k]) {
      var k :| 0 <= k < |xs| && !Blank(xs[k]);
      assert xs[k] in xs;
    }
  }

  /**
   * The title is at most 200 characters, holds no newline, and is empty exactly when
   * the whole text is white space.
   */
  lemma TitleShape(text: string)
    ensures var t := ExtractProjectSections(text).title;
      && |t| <= 200
      && (forall i :: 0 <= i < |t| ==> t[i] != '\n')
      && (t == "" <==> Blank(text))
  {
    var lines := NonBlank(Split(text, '\n'));
    SplitEvery(text, '\n', IsSpace);
    NonBlankEmpty(Split(text, '\n'));
    if lines != [] {
      assert lines[0] in Split(text, '\n') && Trim(lines[0]) != "";
      var k :| 0 <= k < |Split(text, '\n')| && Split(text, '\n')[k] == lines[0];
      var t := Prefix(lines[0], 200);
      assert forall i :: 0 <= i < |t| ==> t[i] == lines[0][i];
    }
  }

  /**
   * The abstract is at most 1000 characters: the trimmed group when the pattern
   * matches, and otherwise the first 500 characters of the text.
   */
  lemma AbstractShape(text: string)
    ensures var r := ExtractProjectSections(text).abstractText;
      && |r| <= 1000
      && (AbstractGroup(text).None? ==> r == Prefix(text, 500))
      && (AbstractGroup(text).Some? ==> r == Trim(AbstractGroup(text).value))
  {
    match AbstractGroup(text)
    case Some(group) =>
      var t := Trim(group);
      assert Prefix(t, 1000) == t by {
        assert t[..|t|] == t;
      }
    case None =>
  }

  /** Text without the word "abstract" in any letter case gets its first 500 characters as the abstract. */
  lemma AbstractWithoutWord(text: string)
    requires forall j :: 0 <= j <= |text| ==> !StartsWithCI(text[j..], "abstract")
    ensures ExtractProjectSections(text).abstractText == Prefix(text, 500)
  {
  }

  /** Text shorter than 108 characters cannot hold a match. */
  lemma AbstractOfShortText(text: string)
    requires |text| < 108
    ensures ExtractProjectSections(text).abstractText == Prefix(text, 500)
  {
  }
}
