/**
 * Display helpers for generated summaries: `formatLine` strips Markdown emphasis
 * and code marks from one line, and `splitSummaryIntoSections` cuts a summary into
 * sections at its Markdown headers.
 */
module SummaryFormat {
  import opened JsText
  import opened JsRegex

  // ---------------------------------------------------------------------------
  // formatLine
  // ---------------------------------------------------------------------------

  /**
   * Lazy matching of `mark(X+?)mark` after the opening mark: the smallest group
   * length `g' >= g` whose characters all satisfy `inGroup` and that is followed by
   * the closing mark. Once a character outside the class is reached no longer group exists.
   */
  function LazyGroupLen(s: string, mark: string, inGroup: char -> bool, g: nat): (r: Option<nat>)
    requires g >= 1
    ensures r.Some? ==> g <= r.value <= |s| && StartsWith(s[r.value..], mark)
    ensures r.Some? ==> forall i :: g - 1 <= i < r.value ==> inGroup(s[i])
    decreases |s| - g
  {
    if g > |s| || !inGroup(s[g - 1]) then None
    else if StartsWith(s[g..], mark) then Some(g)
    else LazyGroupLen(s, mark, inGroup, g + 1)
  }

  /** The group length of a match at the start of `s`, if one starts there. */
  function MatchAt(s: string, mark: string, inGroup: char -> bool): (r: Option<nat>)
    ensures r.Some? ==> |mark| + r.value + |mark| <= |s|
  {
    if StartsWith(s, mark) then LazyGroupLen(s[|mark|..], mark, inGroup, 1) else None
  }

  /** `s.replace(/mark(X+?)mark/g, '$1')`: each match, scanned left to right, is replaced by its group. */
  function StripMarks(s: string, mark: string, inGroup: char -> bool): (r: string)
    requires mark != []
    ensures |r| <= |s|
    decreases |s|
  {
    if s == [] then []
    else
      match MatchAt(s, mark, inGroup)
      case Some(g) => s[|mark|..|mark| + g] + StripMarks(s[|mark| + g + |mark|..], mark, inGroup)
      case None => [s[0]] + StripMarks(s[1..], mark, inGroup)
  }

  predicate NotStar(c: char) {
    c != '*'
  }

  predicate NotUnderscore(c: char) {
    c != '_'
  }

  /** `formatLine`: bold, then italic markers, then code backticks, then trim; absent or empty text gives "". */
  function FormatLine(text: Option<string>): string {
    if text.None? || text.value == "" then ""
    else
      var bold := StripMarks(StripMarks(text.value, "**", NotLineTerminator), "__", NotLineTerminator);
      var italic := StripMarks(StripMarks(bold, "*", NotStar), "_", NotUnderscore);
      Trim(StripMarks(italic, "`", NotLineTerminator))
  }

  /** Without an occurrence of the mark nothing is replaced. */
  lemma {:induction false} StripMarksNone(s: string, mark: string, inGroup: char -> bool)
    requires mark != []
    requires forall j :: 0 <= j < |s| ==> !StartsWith(s[j..], mark)
    ensures StripMarks(s, mark, inGroup) == s
    decreases |s|
  {
    if s != [] {
      assert !StartsWith(s[0..], mark) && s[0..] == s;
      forall j | 0 <= j < |s[1..]|
        ensures !StartsWith(s[1..][j..], mark)
      {
        assert s[1..][j..] == s[j + 1..];
      }
      StripMarksNone(s[1..], mark, inGroup);
    }
  }

  predicate Plain(s: string) {
    forall i :: 0 <= i < |s| ==> s[i] != '*' && s[i] != '_' && s[i] != '`'
  }

  /** A string with no '*', '_' or '`' has no occurrence of any of the marks, so every replacement leaves it alone. */
  lemma PlainUnchanged(s: string, mark: string, inGroup: char -> bool)
    requires Plain(s)
    requires mark == "**" || mark == "__" || mark == "*" || mark == "_" || mark == "`"
    ensures StripMarks(s, mark, inGroup) == s
  {
    NoFirstChar(s, mark);
    StripMarksNone(s, mark, inGroup);
  }

  /** `formatLine` of text without '*', '_' or '`' is the trimmed text. */
  lemma FormatPlainLine(s: string)
    requires Plain(s)
    ensures FormatLine(Some(s)) == Trim(s)
  {
    if s != "" {
      PlainUnchanged(s, "**", NotLineTerminator);
      PlainUnchanged(s, "__", NotLineTerminator);
      PlainUnchanged(s, "*", NotStar);
      PlainUnchanged(s, "_", NotUnderscore);
      PlainUnchanged(s, "`", NotLineTerminator);
    }
  }

  /** The lazy group of `w + mark`, where `w` cannot contain the start of the mark, is all of `w`. */
  lemma {:induction false} LazyGroupOfWord(w: string, mark: string, inGroup: char -> bool, g: nat)
    requires 1 <= g <= |w| && mark != []
    requires forall i :: 0 <= i < |w| ==> inGroup(w[i]) && w[i] != mark[0]
    ensures LazyGroupLen(w + mark, mark, inGroup, g) == Some(|w|)
    decreases |w| - g
  {
    var s := w + mark;
    assert s[g - 1] == w[g - 1];
    if g < |w| {
      assert s[g..][0] == w[g];
      LazyGroupOfWord(w, mark, inGroup, g + 1);
    } else {
      assert s[g..] == mark;
    }
  }

  /** Wrapping a plain word in a mark and stripping the mark gives the word back. */
  lemma StripWrapped(w: string, mark: string, inGroup: char -> bool)
    requires w != [] && mark != []
    requires forall i :: 0 <= i < |w| ==> inGroup(w[i]) && w[i] != mark[0]
    ensures StripMarks(mark + w + mark, mark, inGroup) == w
  {
    var s := mark + w + mark;
    assert s[..|mark|] == mark;
    assert s[|mark|..] == w + mark;
    LazyGroupOfWord(w, mark, inGroup, 1);
    assert s[|mark|..|mark| + |w|] == w;
    assert s[|mark| + |w| + |mark|..] == [];
  }

  /** A plain word on one line, without white space at its ends. */
  predicate PlainWord(w: string) {
    && w != [] && Plain(w) && !IsSpace(w[0]) && !IsSpace(w[|w| - 1])
    && forall i :: 0 <= i < |w| ==> !IsLineTerminator(w[i])
  }

  /** `formatLine("**w**")`, `formatLine("__w__")` and `formatLine("\`w\`")` give `w`. */
  lemma FormatRemovesBoldAndCode(w: string, mark: string)
    requires PlainWord(w)
    requires mark == "**" || mark == "__" || mark == "`"
    ensures FormatLine(Some(mark + w + mark)) == w
  {
    var s := mark + w + mark;
    PlainUnchanged(w, "**", NotLineTerminator);
    PlainUnchanged(w, "__", NotLineTerminator);
    PlainUnchanged(w, "*", NotStar);
    PlainUnchanged(w, "_", NotUnderscore);
    PlainUnchanged(w, "`", NotLineTerminator);
    if mark == "**" {
      StripWrapped(w, mark, NotLineTerminator);
    } else if mark == "__" {
      NoStarIn(w, mark);
      NoFirstChar(s, "**");
      StripMarksNone(s, "**", NotLineTerminator);
      StripWrapped(w, mark, NotLineTerminator);
    } else {
      NoStarIn(w, mark);
      NoFirstChar(s, "**");
      StripMarksNone(s, "**", NotLineTerminator);
      NoFirstChar(s, "*");
      StripMarksNone(s, "*", NotStar);
      NoUnderscoreIn(w, mark);
      NoFirstChar(s, "__");
      StripMarksNone(s, "__", NotLineTerminator);
      NoFirstChar(s, "_");
      StripMarksNone(s, "_", NotUnderscore);
      StripWrapped(w, mark, NotLineTerminator);
    }
  }

  /** `formatLine("*w*")` and `formatLine("_w_")` give `w`. */
  lemma FormatRemovesItalic(w: string, mark: string)
    requires PlainWord(w)
    requires mark == "*" || mark == "_"
    ensures FormatLine(Some(mark + w + mark)) == w
  {
    var s := mark + w + mark;
    PlainUnchanged(w, "_", NotUnderscore);
    PlainUnchanged(w, "`", NotLineTerminator);
    if mark == "*" {
      NoDoubleMarkIn(w, mark);
      StripMarksNone(s, "**", NotLineTerminator);
      NoUnderscoreIn(w, mark);
      NoFirstChar(s, "__");
      StripMarksNone(s, "__", NotLineTerminator);
      StripWrapped(w, mark, NotStar);
    } else {
      NoStarIn(w, mark);
      NoFirstChar(s, "**");
      StripMarksNone(s, "**", NotLineTerminator);
      NoDoubleMarkIn(w, mark);
      StripMarksNone(s, "__", NotLineTerminator);
      NoFirstChar(s, "*");
      StripMarksNone(s, "*", NotStar);
      StripWrapped(w, mark, NotUnderscore);
    }
  }

  /** A string without the first character of the mark has no occurrence of it. */
  lemma NoFirstChar(s: string, mark: string)
    requires mark != [] && forall i :: 0 <= i < |s| ==> s[i] != mark[0]
    ensures forall j :: 0 <= j < |s| ==> !StartsWith(s[j..], mark)
  {
    forall j | 0 <= j < |s|
      ensures !StartsWith(s[j..], mark)
    {
      var x := s[j..];
      assert x[0] == s[j];
      assert |mark| <= |x| ==> x[..|mark|][0] == x[0];
    }
  }

  lemma NoStarIn(w: string, mark: string)
    requires Plain(w) && (mark == "__" || mark == "_" || mark == "`")
    ensures forall i :: 0 <= i < |mark + w + mark| ==> (mark + w + mark)[i] != '*'
  {
    var s := mark + w + mark;
    assert forall i :: |mark| <= i < |mark| + |w| ==> s[i] == w[i - |mark|];
  }

  lemma NoUnderscoreIn(w: string, mark: string)
    requires Plain(w) && (mark == "*" || mark == "`")
    ensures forall i :: 0 <= i < |mark + w + mark| ==> (mark + w + mark)[i] != '_'
  {
    var s := mark + w + mark;
    assert forall i :: |mark| <= i < |mark| + |w| ==> s[i] == w[i - |mark|];
  }

  /** The doubled mark does not occur in `m + w + m` for a plain word `w` and a one-character mark `m`. */
  lemma NoDoubleMarkIn(w: string, m: string)
    requires PlainWord(w) && (m == "*" || m == "_")
    ensures forall j :: 0 <= j < |m + w + m| ==> !StartsWith((m + w + m)[j..], m + m)
  {
    var s := m + w + m;
    var mark := m + m;
    forall j | 0 <= j < |s|
      ensures !StartsWith(s[j..], mark)
    {
      var x := s[j..];
      if |x| >= 2 {
        assert x[0] == s[j] && x[1] == s[j + 1];
        assert s[j] != m[0] || s[j + 1] != m[0] by {
          if j == 0 {
            assert s[1] == w[0];
          } else {
            assert s[j] == w[j - 1];
          }
        }
        assert x[..2][0] == x[0] && x[..2][1] == x[1];
      }
    }
  }

  // ---------------------------------------------------------------------------
  // splitSummaryIntoSections
  // ---------------------------------------------------------------------------

  datatype Section = Section(title: string, content: string)

  predicate IsHash(c: char) {
    c == '#'
  }

  /** `Hashes(h)`: a run of `h` '#' characters. */
  function Hashes(h: nat): (r: string)
    ensures |r| == h && forall i :: 0 <= i < h ==> r[i] == '#'
  {
    if h == 0 then "" else "#" + Hashes(h - 1)
  }

  /**
   * `/^#{1,6}\s+(.+)$/` on a trimmed line: the captured text. The '#' run must be
   * 1 to 6 long and whole (a shorter `#{1,6}` leaves a '#' where `\s+` needs white
   * space), the white-space run is taken whole (the line ends in a non-space, so a
   * shorter run cannot help `.+$`), and the rest must be free of line terminators.
   */
  function HeaderTitle(t: string): (r: Option<string>)
    ensures r.Some? ==> r.value != [] && |r.value| <= |t| && t[|t| - |r.value|..] == r.value
  {
    var h := RunLen(t, IsHash);
    var w := RunLen(t[h..], IsSpace);
    var rest := t[h + w..];
    if 1 <= h <= 6 && w >= 1 && rest != [] && Every(rest, NotLineTerminator) then Some(rest) else None
  }

  predicate NonEmpty(c: Section) {
    c.title != "" || c.content != ""
  }

  /** What `forEach` carries from line to line: the finished sections and `currentSection`. */
  datatype Progress = Progress(sections: seq<Section>, current: Section)

  /** How a line counts: a header with its trimmed title, a content line, or a blank line. */
  datatype LineKind = Header(title: string) | Body | Blank

  function Classify(line: string): LineKind {
    var trimmed := Trim(line);
    match HeaderTitle(trimmed)
    case Some(title) => Header(Trim(title))
    case None => if trimmed != "" then Body else Blank
  }

  /** One line of the `forEach`. */
  function Step(p: Progress, line: string): Progress {
    Apply(p, Classify(line), line)
  }

  /** The body of the `forEach` for a line of the given kind. */
  function Apply(p: Progress, kind: LineKind, line: string): Progress {
    match kind
    case Header(title) =>
      Progress(if NonEmpty(p.current) then p.sections + [p.current] else p.sections, Section(title, ""))
    case Body =>
      Progress(p.sections, Section(p.current.title, p.current.content + (if p.current.content != "" then "\n" else "") + line))
    case Blank => p
  }

  const Start := Progress([], Section("", ""))

  /** The state after the forEach over `lines`. */
  function Run(lines: seq<string>): Progress
    decreases |lines|
  {
    if lines == [] then Start else Step(Run(lines[..|lines| - 1]), lines[|lines| - 1])
  }

  function Finish(p: Progress): seq<Section> {
    if NonEmpty(p.current) then p.sections + [p.current] else p.sections
  }

  /** `splitSummaryIntoSections`: absent or empty text gives no sections. */
  function SplitSummaryIntoSections(text: Option<string>): seq<Section> {
    if text.None? || text.value == "" then [] else Finish(Run(Split(text.value, '\n')))
  }

  /** The loop over the lines, updating the current section in place as the source does. */
  method SplitSummary(text: Option<string>) returns (sections: seq<Section>)
    ensures sections == SplitSummaryIntoSections(text)
  {
    if text.None? || text.value == "" {
      return [];
    }
    var lines := Split(text.value, '\n');
    sections := [];
    var title, content := "", "";
    for i := 0 to |lines|
      invariant Run(lines[..i]) == Progress(sections, Section(title, content))
    {
      sections, title, content := TakeLine(lines, i, sections, title, content);
    }
    assert lines[..|lines|] == lines;
    if title != "" || content != "" {
      sections := sections + [Section(title, content)];
    }
  }

  /** The body of the `forEach` for line `i`: a header closes the current section and opens a new one. */
  method TakeLine(lines: seq<string>, i: nat, sections: seq<Section>, title: string, content: string)
    returns (sections': seq<Section>, title': string, content': string)
    requires i < |lines| && Run(lines[..i]) == Progress(sections, Section(title, content))
    ensures Run(lines[..i + 1]) == Progress(sections', Section(title', content'))
  {
    assert lines[..i + 1][..i] == lines[..i];
    sections', title', content' := sections, title, content;
    var line := lines[i];
    var trimmed := Trim(line);
    var header := HeaderTitle(trimmed);
    if header.Some? {
      if title != "" || content != "" {
        sections' := sections + [Section(title, content)];
      }
      title', content' := Trim(header.value), "";
    } else if trimmed != "" {
      content' := content + (if content != "" then "\n" else "") + line;
    }
  }

  function HeaderCount(lines: seq<string>): nat
    decreases |lines|
  {
    if lines == [] then 0
    else HeaderCount(lines[..|lines| - 1]) + (if Classify(lines[|lines| - 1]).Header? then 1 else 0)
  }

  /** The lines that go into section content: neither blank nor headers, in order. */
  function BodyLines(lines: seq<string>): seq<string>
    decreases |lines|
  {
    if lines == [] then []
    else
      var last := lines[|lines| - 1];
      BodyLines(lines[..|lines| - 1]) + (if Classify(last) == Body then [last] else [])
  }

  /** The lines a section's content holds. */
  function ContentLines(c: Section): seq<string> {
    LinesOf(c.content)
  }

  function LinesOf(content: string): seq<string> {
    if content == "" then [] else Split(content, '\n')
  }

  function AllContentLines(sections: seq<Section>): seq<string>
    decreases |sections|
  {
    if sections == [] then [] else AllContentLines(sections[..|sections| - 1]) + ContentLines(sections[|sections| - 1])
  }

  predicate NoNewline(line: string) {
    forall i :: 0 <= i < |line| ==> line[i] != '\n'
  }

  /** What the loop keeps true from line to line. */
  predicate Keeps(p: Progress, lines: seq<string>) {
    && (forall k :: 0 <= k < |p.sections| ==> NonEmpty(p.sections[k]))
    && |p.sections| <= HeaderCount(lines)
    && AllContentLines(p.sections) + ContentLines(p.current) == BodyLines(lines)
  }

  lemma {:induction false} RunKeeps(lines: seq<string>)
    requires forall k :: 0 <= k < |lines| ==> NoNewline(lines[k])
    ensures Keeps(Run(lines), lines)
    decreases |lines|
  {
    if lines != [] {
      var init := lines[..|lines| - 1];
      var line := lines[|lines| - 1];
      RunKeeps(init);
      assert init + [line] == lines;
      StepKeeps(Run(init), init, line);
    }
  }

  lemma StepKeeps(p: Progress, init: seq<string>, line: string)
    requires Keeps(p, init) && NoNewline(line)
    ensures Keeps(Step(p, line), init + [line])
  {
    var kind := Classify(line);
    UnfoldCounts(init, line);
    if kind == Body {
      BodyNonEmpty(line);
    }
    ApplyKeeps(p, init, kind, line);
  }

  lemma ApplyKeeps(p: Progress, init: seq<string>, kind: LineKind, line: string)
    requires Keeps(p, init) && NoNewline(line) && (kind == Body ==> line != "")
    ensures var q := Apply(p, kind, line);
      && (forall k :: 0 <= k < |q.sections| ==> NonEmpty(q.sections[k]))
      && |q.sections| <= HeaderCount(init) + (if kind.Header? then 1 else 0)
      && AllContentLines(q.sections) + ContentLines(q.current)
         == BodyLines(init) + (if kind == Body then [line] else [])
  {
    ApplySections(p, kind, line);
    ApplyContent(p, kind, line);
  }

  /** A step closes at most one section, a non-empty one, and only on a header line. */
  lemma ApplySections(p: Progress, kind: LineKind, line: string)
    requires forall k :: 0 <= k < |p.sections| ==> NonEmpty(p.sections[k])
    ensures var q := Apply(p, kind, line);
      && (forall k :: 0 <= k < |q.sections| ==> NonEmpty(q.sections[k]))
      && |q.sections| <= |p.sections| + (if kind.Header? then 1 else 0)
  {
  }

  /** A step adds the line to the content lines exactly when it is a content line. */
  lemma ApplyContent(p: Progress, kind: LineKind, line: string)
    requires NoNewline(line) && (kind == Body ==> line != "")
    ensures var q := Apply(p, kind, line);
      AllContentLines(q.sections) + ContentLines(q.current)
      == AllContentLines(p.sections) + ContentLines(p.current) + (if kind == Body then [line] else [])
  {
    match kind
    case Header(_) =>
      if NonEmpty(p.current) {
        AllContentLinesAppend(p.sections, p.current);
      }
    case Body =>
      AppendLine(p.current.content, line);
    case Blank =>
  }

  lemma UnfoldCounts(init: seq<string>, line: string)
    ensures HeaderCount(init + [line]) == HeaderCount(init) + (if Classify(line).Header? then 1 else 0)
    ensures BodyLines(init + [line])
      == BodyLines(init) + (if Classify(line) == Body then [line] else [])
  {
    var lines := init + [line];
    assert lines[..|lines| - 1] == init && lines[|lines| - 1] == line;
  }

  lemma BodyNonEmpty(line: string)
    requires Classify(line) == Body
    ensures line != ""
  {
  }

  /** Appending a line to the content adds it as one more content line. */
  lemma AppendLine(content: string, line: string)
    requires NoNewline(line) && line != ""
    ensures LinesOf(content + (if content != "" then "\n" else "") + line) == LinesOf(content) + [line]
  {
    SplitWithoutSeparator(line, '\n');
    if content != "" {
      SplitAtSeparator(content, line, '\n');
      assert content + "\n" + line == content + ['\n'] + line;
    } else {
      assert content + "" + line == line;
    }
  }

  lemma AllContentLinesAppend(sections: seq<Section>, c: Section)
    ensures AllContentLines(sections + [c]) == AllContentLines(sections) + ContentLines(c)
  {
    assert (sections + [c])[..|sections|] == sections;
  }

  /**
   * Absent or empty text gives no sections; every section has a title or content;
   * there is at most one section per header line plus one; and the content lines of
   * all sections, in order, are exactly the lines that are neither blank nor headers.
   */
  lemma SectionsShape(text: Option<string>)
    ensures text.None? || text == Some("") ==> SplitSummaryIntoSections(text) == []
    ensures var r := SplitSummaryIntoSections(text);
      && (forall k :: 0 <= k < |r| ==> NonEmpty(r[k]))
      && (text.Some? ==> |r| <= HeaderCount(Split(text.value, '\n')) + 1)
      && (text.Some? && text.value != "" ==> AllContentLines(r) == BodyLines(Split(text.value, '\n')))
  {
    if text.Some? && text.value != "" {
      var lines := Split(text.value, '\n');
      forall k | 0 <= k < |lines|
        ensures NoNewline(lines[k])
      {
      }
      RunKeeps(lines);
      FinishKeeps(Run(lines), lines);
    }
  }

  lemma FinishKeeps(p: Progress, lines: seq<string>)
    requires Keeps(p, lines)
    ensures var r := Finish(p);
      && (forall k :: 0 <= k < |r| ==> NonEmpty(r[k]))
      && |r| <= HeaderCount(lines) + 1
      && AllContentLines(r) == BodyLines(lines)
  {
    if NonEmpty(p.current) {
      AllContentLinesAppend(p.sections, p.current);
    }
  }

  /** A header line `#…# title` with 1 to 6 marks opens a section whose title is the trimmed text after the marks. */
  lemma HeaderLineTitle(h: nat, gap: string, title: string)
    requires 1 <= h <= 6 && gap != [] && Every(gap, IsSpace)
    requires title != [] && !IsSpace(title[0]) && Every(title, NotLineTerminator)
    ensures HeaderTitle(Hashes(h) + gap + title) == Some(title)
  {
    var u := gap + title;
    var t := Hashes(h) + u;
    assert Hashes(h) + gap + title == t;
    assert t[h..] == u;
    assert t[h + |gap|..] == title;
    assert !IsSpace(u[|gap|]) && u[0] != '#' by {
      assert u[|gap|] == title[0] && u[0] == gap[0];
    }
    RunOfHashes(h, u);
    RunOfGap(gap, title);
  }

  lemma {:induction false} RunOfHashes(h: nat, rest: string)
    requires rest != [] && rest[0] != '#'
    ensures RunLen(Hashes(h) + rest, IsHash) == h
    decreases h
  {
    if h > 0 {
      assert (Hashes(h) + rest)[1..] == Hashes(h - 1) + rest;
      RunOfHashes(h - 1, rest);
    } else {
      assert Hashes(h) + rest == rest;
    }
  }

  lemma {:induction false} RunOfGap(gap: string, rest: string)
    requires Every(gap, IsSpace) && rest != [] && !IsSpace(rest[0])
    ensures RunLen(gap + rest, IsSpace) == |gap|
    decreases |gap|
  {
    if gap != [] {
      assert (gap + rest)[1..] == gap[1..] + rest;
      EveryCons(gap[0], gap[1..], IsSpace);
      assert [gap[0]] + gap[1..] == gap;
      RunOfGap(gap[1..], rest);
    } else {
      assert gap + rest == rest;
    }
  }
}
