/**
 * `cleanExtractedText` of the PDF download helper: the text pdf-parse returns,
 * with newline runs and white-space runs collapsed, stand-alone page numbers
 * removed, and the ends trimmed.
 */
module PdfHelper {
  import opened JsText
  import opened JsRegex

  /**
   * The length of a `\s+\d+\s+` match at the start of `s`, or 0 when there is none.
   * Backtracking cannot shorten either white-space run or the digit run (the next
   * character would then be of the wrong class), so the match is maximal in all three.
   */
  function NumberMatchLen(s: string): (n: nat)
    ensures n <= |s|
    ensures n > 0 ==> n >= 3 && IsSpace(s[0])
    ensures n > 0 && n < |s| ==> !IsSpace(s[n])
  {
    var a := RunLen(s, IsSpace);
    var d := RunLen(s[a..], IsDigit);
    var b := RunLen(s[a + d..], IsSpace);
    if a > 0 && d > 0 && b > 0 then
      assert s[a + d..][b..] == s[a + d + b..];
      a + d + b
    else 0
  }

  /** `s.replace(/\s+\d+\s+/g, ' ')`: each match, scanned left to right, becomes one space. */
  function RemoveStandaloneNumbers(s: string): (r: string)
    ensures |r| <= |s|
    ensures r == [] <==> s == []
    ensures s != [] ==> (IsSpace(r[0]) <==> IsSpace(s[0]))
    decreases |s|
  {
    if s == [] then []
    else
      var n := NumberMatchLen(s);
      if n > 0 then " " + RemoveStandaloneNumbers(s[n..])
      else [s[0]] + RemoveStandaloneNumbers(s[1..])
  }

  /** Where the scan resumes after the first character or match, and what it wrote for it. */
  function Resume(s: string): (k: nat)
    requires s != []
    ensures 0 < k <= |s|
  {
    if NumberMatchLen(s) > 0 then NumberMatchLen(s) else 1
  }

  lemma UnfoldRemove(s: string)
    requires s != []
    ensures RemoveStandaloneNumbers(s)
      == [if NumberMatchLen(s) > 0 then ' ' else s[0]] + RemoveStandaloneNumbers(s[Resume(s)..])
  {
  }

  /** Removing numbers adds no characters but spaces. */
  lemma {:induction false} RemoveNumbersChars(s: string)
    ensures forall c :: c in RemoveStandaloneNumbers(s) ==> c == ' ' || c in s
    decreases |s|
  {
    if s != [] {
      UnfoldRemove(s);
      RemoveNumbersChars(s[Resume(s)..]);
      assert forall c :: c in s[Resume(s)..] ==> c in s;
    }
  }

  /** Removing numbers keeps a single-spaced string single-spaced. */
  lemma {:induction false} RemoveNumbersSingleSpaced(s: string)
    requires SingleSpaced(s)
    ensures SingleSpaced(RemoveStandaloneNumbers(s))
    decreases |s|
  {
    if s != [] {
      var k := Resume(s);
      var rest := RemoveStandaloneNumbers(s[k..]);
      SingleSpacedSlice(s, k, |s|);
      RemoveNumbersSingleSpaced(s[k..]);
      var head := if NumberMatchLen(s) > 0 then ' ' else s[0];
      UnfoldRemove(s);
      if IsSpace(head) && rest != [] {
        assert IsSpace(s[0]);
        if NumberMatchLen(s) == 0 {
          assert s[k] == s[1];
        }
      }
      SingleSpacedCons(head, rest);
    }
  }

  /** Without digits there is nothing to remove. */
  lemma {:induction false} RemoveNumbersWithoutDigits(s: string)
    requires forall i :: 0 <= i < |s| ==> !IsDigit(s[i])
    ensures RemoveStandaloneNumbers(s) == s
    decreases |s|
  {
    if s != [] {
      var a := RunLen(s, IsSpace);
      assert a < |s| ==> s[a..][0] == s[a];
      assert NumberMatchLen(s) == 0;
      RemoveNumbersWithoutDigits(s[1..]);
    }
  }

  /** `cleanExtractedText`: absent or empty text gives the empty string. */
  function CleanExtractedText(text: Option<string>): string {
    if text.None? || text.value == "" then ""
    else Trim(RemoveStandaloneNumbers(CollapseWs(ReplaceRuns(text.value, IsNewline))))
  }

  function Length(text: Option<string>): nat {
    if text.None? then 0 else |text.value|
  }

  /**
   * The cleaned text never grows, is trimmed, holds no newline, has the plain space
   * as its only white space and never two white-space characters in a row.
   */
  lemma CleanExtractedShape(text: Option<string>)
    ensures var r := CleanExtractedText(text);
      && |r| <= Length(text)
      && SingleSpaced(r)
      && (forall i :: 0 <= i < |r| ==> r[i] != '\n')
      && (r == [] || (!IsSpace(r[0]) && !IsSpace(r[|r| - 1])))
    ensures text.None? ==> CleanExtractedText(text) == ""
  {
    if text.Some? && text.value != "" {
      var collapsed := CollapseWs(ReplaceRuns(text.value, IsNewline));
      CollapseWsSingleSpaced(ReplaceRuns(text.value, IsNewline));
      RemoveNumbersSingleSpaced(collapsed);
      TrimSingleSpaced(RemoveStandaloneNumbers(collapsed));
    }
  }

  /** For text without digits the result is the trimmed white-space collapse of the input. */
  lemma CleanWithoutDigits(s: string)
    requires forall i :: 0 <= i < |s| ==> !IsDigit(s[i])
    ensures CleanExtractedText(Some(s)) == Trim(CollapseWs(s))
  {
    if s != "" {
      CollapseAfterNewlines(s);
      var collapsed := CollapseWs(s);
      CollapseWsSingleSpaced(s);
      forall i | 0 <= i < |collapsed|
        ensures !IsDigit(collapsed[i])
      {
        assert collapsed[i] in collapsed;
      }
      RemoveNumbersWithoutDigits(collapsed);
    }
  }
}
