/**
 * The parser that turns generated quiz text into question records
 * (`formatQuestionsToMCQ`) and the sentence-based fallback generator
 * (`generateSimpleQuestions`).
 *
 * Generated text holds blocks introduced by `Q<n>:`; in each block the first
 * non-blank line is the question, lines such as `Type: ...`, `A) ...`,
 * `Correct Answer: ...`, `Explanation: ...` and `Difficulty: ...` carry the rest.
 */
module QuizParser {
  import opened JsText

  datatype QuestionType = MultipleChoice | TrueFalse | MultiSelect
  datatype Difficulty = Easy | Medium | Hard

  /** A single answer index, or the index list of a multi-select question. */
  datatype Answer = Single(index: int) | Multi(indices: seq<int>)

  datatype Question = Question(
    questionText: string,
    questionType: QuestionType,
    options: seq<string>,
    correctAnswer: Answer,
    explanation: string,
    difficulty: Difficulty)

  // ---------------------------------------------------------------- blocks and lines

  /** The length of a `Q\d+:` match at the start of `s`, or 0 when there is none. */
  function MarkerLen(s: string): (k: nat)
    ensures k == 0 || (3 <= k <= |s| && s[0] == 'Q' && s[k - 1] == ':' && AllDigits(s[1..k - 1]))
  {
    if s == [] || s[0] != 'Q' then 0
    else
      var d := DigitCount(s[1..]);
      if d >= 1 && 1 + d < |s| && s[1 + d] == ':' then
        assert s[1..1 + d] == s[1..][..d];
        d + 2
      else 0
  }

  /** The length of the run of `\d` characters at the start of `s`. */
  function DigitCount(s: string): (k: nat)
    ensures k <= |s| && AllDigits(s[..k]) && (k < |s| ==> !IsDigit(s[k]))
  {
    if s != [] && IsDigit(s[0]) then
      var k := 1 + DigitCount(s[1..]);
      assert s[..k] == [s[0]] + s[1..][..k - 1];
      k
    else 0
  }

  /** `s.split(/Q\d+:/g)`: the pieces between the non-overlapping leftmost markers. */
  function SplitBlocks(s: string): (r: seq<string>)
    ensures |r| >= 1
    decreases |s|
  {
    if s == [] then [""]
    else
      var k := MarkerLen(s);
      if k > 0 then [""] + SplitBlocks(s[k..])
      else
        var rest := SplitBlocks(s[1..]);
        [[s[0]] + rest[0]] + rest[1..]
  }

  /** `lines.find(line => line.includes(p))`. */
  function FindLine(lines: seq<string>, p: string): (r: Option<string>)
    ensures r.Some? ==> r.value in lines && Includes(r.value, p)
    ensures r.None? ==> forall l :: l in lines ==> !Includes(l, p)
  {
    if lines == [] then None
    else if Includes(lines[0], p) then Some(lines[0])
    else FindLine(lines[1..], p)
  }

  /** `lines.find(line => line.includes(p) || line.includes(q))`. */
  function FindLineEither(lines: seq<string>, p: string, q: string): (r: Option<string>)
    ensures r.Some? ==> r.value in lines && (Includes(r.value, p) || Includes(r.value, q))
    ensures r.None? ==> forall l :: l in lines ==> !Includes(l, p) && !Includes(l, q)
  {
    if lines == [] then None
    else if Includes(lines[0], p) || Includes(lines[0], q) then Some(lines[0])
    else FindLineEither(lines[1..], p, q)
  }

  // ---------------------------------------------------------------- fields

  /** The question type: a Type line mentioning true-false wins over multi-select; the default is multiple-choice. */
  function TypeOf(typeLine: Option<string>): (t: QuestionType)
    ensures t == TrueFalse <==> typeLine.Some? && Includes(typeLine.value, "true-false")
    ensures t == MultiSelect <==>
      typeLine.Some? && !Includes(typeLine.value, "true-false") && Includes(typeLine.value, "multi-select")
  {
    if typeLine.None? then MultipleChoice
    else if Includes(typeLine.value, "true-false") then TrueFalse
    else if Includes(typeLine.value, "multi-select") then MultiSelect
    else MultipleChoice
  }

  predicate IsAnswerLetter(c: char) {
    'A' <= c <= 'D'
  }

  function LetterIndex(c: char): (i: int)
    requires IsAnswerLetter(c)
    ensures 0 <= i <= 3
  {
    (c as int) - ('A' as int)
  }

  /** `s` starts with `/^[A-D]\)/`. */
  predicate StartsWithOptionMarker(s: string) {
    |s| >= 2 && IsAnswerLetter(s[0]) && s[1] == ')'
  }

  /** A line counts as an option when its trimmed text starts with a letter marker. */
  predicate IsOptionLine(line: string) {
    StartsWithOptionMarker(Trim(line))
  }

  /**
   * The option text as the source computes it: the marker is matched on the trimmed line
   * but removed from the untrimmed one, so an indented option keeps its marker.
   */
  function OptionTextAsWritten(line: string): string {
    Trim(if StartsWithOptionMarker(line) then line[2..] else line)
  }

  /** The option text with the marker removed from the trimmed line. */
  function OptionText(line: string): (r: string)
    requires IsOptionLine(line)
    ensures |r| <= |Trim(line)| - 2
  {
    Trim(Trim(line)[2..])
  }

  /** The options of a block, in line order. */
  function OptionsOf(lines: seq<string>): (r: seq<string>)
    ensures |r| <= |lines|
  {
    if lines == [] then []
    else
      var init := lines[..|lines| - 1];
      var last := lines[|lines| - 1];
      OptionsOf(init) + OptionOf(last)
  }

  /**
   * What one line contributes to the options: its text, as the source computes it,
   * when it is an option line.
   */
  function OptionOf(line: string): (r: seq<string>)
    ensures |r| <= 1
    ensures |r| == 1 <==> IsOptionLine(line)
  {
    if IsOptionLine(line) then [OptionTextAsWritten(line)] else []
  }

  /** The indices of every letter A-D in `s`, in order. */
  function LetterIndices(s: string): (r: seq<int>)
    ensures forall i :: 0 <= i < |r| ==> 0 <= r[i] <= 3
    ensures |r| == 0 <==> forall i :: 0 <= i < |s| ==> !IsAnswerLetter(s[i])
  {
    if s == [] then []
    else if IsAnswerLetter(s[0]) then [LetterIndex(s[0])] + LetterIndices(s[1..])
    else
      assert forall i :: 1 <= i < |s| ==> s[i] == s[1..][i - 1];
      LetterIndices(s[1..])
  }

  /** `/:\s*([A-D])/`: the letter after the leftmost colon that is followed by white space and a letter. */
  function LetterAfterColon(s: string): (r: Option<int>)
    ensures r.Some? ==> 0 <= r.value <= 3
    decreases |s|
  {
    if s == [] then None
    else if s[0] == ':' && TrimStart(s[1..]) != [] && IsAnswerLetter(TrimStart(s[1..])[0]) then
      Some(LetterIndex(TrimStart(s[1..])[0]))
    else LetterAfterColon(s[1..])
  }

  /**
   * The correct answer: for multi-select, the letters between the first and second colon,
   * with fallback [0]; otherwise the first letter after a colon, with fallback 0.
   */
  function AnswerOf(t: QuestionType, answerLine: Option<string>): (a: Answer)
    ensures t == MultiSelect ==> a.Multi? && |a.indices| >= 1 && forall i :: 0 <= i < |a.indices| ==> 0 <= a.indices[i] <= 3
    ensures t != MultiSelect ==> a.Single? && 0 <= a.index <= 3
    ensures answerLine.None? ==> a == (if t == MultiSelect then Multi([0]) else Single(0))
  {
    if answerLine.None? then
      if t == MultiSelect then Multi([0]) else Single(0)
    else if t == MultiSelect then
      var pieces := Split(answerLine.value, ':');
      if |pieces| < 2 || pieces[1] == "" then Multi([0])
      else
        var letters := LetterIndices(pieces[1]);
        if |letters| > 0 then Multi(letters) else Multi([0])
    else
      var m := LetterAfterColon(answerLine.value);
      if m.Some? then Single(m.value) else Single(0)
  }

  /** The explanation: the line with its first case-insensitive `explanation:` removed, trimmed. */
  function ExplanationOf(explanationLine: Option<string>): string {
    if explanationLine.None? then ""
    else
      var line := explanationLine.value;
      match FindCI(line, "explanation:", 0)
      case None => Trim(line)
      case Some(i) =>
        if i + 12 <= |line| then Trim(line[..i] + line[i + 12..]) else Trim(line)
  }

  /** The difficulty: easy if the Difficulty line mentions it, else hard if it mentions that, else medium. */
  function DifficultyOf(difficultyLine: Option<string>): Difficulty {
    if difficultyLine.None? then Medium
    else if Includes(difficultyLine.value, "easy") then Easy
    else if Includes(difficultyLine.value, "hard") then Hard
    else Medium
  }

  /** Easy wins over hard; a missing line, or one naming neither, is medium. */
  lemma DifficultyCases(difficultyLine: Option<string>)
    ensures DifficultyOf(difficultyLine) == Easy <==> difficultyLine.Some? && Includes(difficultyLine.value, "easy")
    ensures DifficultyOf(difficultyLine) == Hard <==>
      difficultyLine.Some? && !Includes(difficultyLine.value, "easy") && Includes(difficultyLine.value, "hard")
    ensures DifficultyOf(difficultyLine) == Medium <==>
      difficultyLine.None? || (!Includes(difficultyLine.value, "easy") && !Includes(difficultyLine.value, "hard"))
  {
  }

  function RequiredOptions(t: QuestionType): nat {
    if t == TrueFalse then 2 else 4
  }

  /** The question a block's non-blank lines describe, or none when it has too few options. */
  function ParseLines(lines: seq<string>): Option<Question> {
    if lines == [] || Trim(lines[0]) == "" then None
    else
      var t := TypeOf(FindLine(lines, "Type:"));
      var options := OptionsOf(lines);
      var required := RequiredOptions(t);
      if |options| < required then None
      else Some(Question(Trim(lines[0]), t, options[..required],
                         AnswerOf(t, FindLineEither(lines, "Correct Answer:", "Correct Answers:")),
                         ExplanationOf(FindLine(lines, "Explanation:")),
                         DifficultyOf(FindLine(lines, "Difficulty:"))))
  }

  function ParseBlock(block: string): Option<Question> {
    ParseLines(NonBlank(Split(block, '\n')))
  }

  /** The questions of the non-blank blocks, in order. */
  function ParseBlocks(blocks: seq<string>): seq<Question> {
    if blocks == [] then []
    else
      var init := blocks[..|blocks| - 1];
      var q := ParseBlock(blocks[|blocks| - 1]);
      if q.Some? then ParseBlocks(init) + [q.value] else ParseBlocks(init)
  }

  /** `formatQuestionsToMCQ` as a function of `generated_text` (`None` when absent). */
  function Parse(generatedText: Option<string>): seq<Question> {
    if generatedText.None? || generatedText.value == "" then []
    else ParseBlocks(NonBlank(SplitBlocks(generatedText.value)))
  }

  // ---------------------------------------------------------------- the parser

  lemma OptionsOfSnoc(lines: seq<string>, j: nat)
    requires j < |lines|
    ensures OptionsOf(lines[..j + 1]) == OptionsOf(lines[..j]) + OptionOf(lines[j])
  {
    assert lines[..j + 1][..j] == lines[..j];
  }

  /**
   * The option loop: every line whose trimmed text starts with a marker contributes
   * its text, with the marker removed only where the untrimmed line starts with it.
   */
  method ExtractOptions(lines: seq<string>) returns (options: seq<string>)
    ensures options == OptionsOf(lines)
  {
    options := [];
    var j := 0;
    while j < |lines|
      invariant 0 <= j <= |lines|
      invariant options == OptionsOf(lines[..j])
    {
      OptionsOfSnoc(lines, j);
      if IsOptionLine(lines[j]) {
        options := options + [OptionTextAsWritten(lines[j])];
      }
      j := j + 1;
    }
    assert lines[..j] == lines;
  }

  /** The fields of one block, read line by line. */
  method ParseBlockLines(lines: seq<string>) returns (q: Option<Question>)
    ensures q == ParseLines(lines)
  {
    if lines == [] || Trim(lines[0]) == "" {
      return None;
    }
    var questionLine := Trim(lines[0]);
    var questionType := TypeOf(FindLine(lines, "Type:"));
    var options := ExtractOptions(lines);
    var requiredOptions := RequiredOptions(questionType);
    if |options| < requiredOptions {
      return None;
    }
    var correctAnswer := AnswerOf(questionType, FindLineEither(lines, "Correct Answer:", "Correct Answers:"));
    var explanation := ExplanationOf(FindLine(lines, "Explanation:"));
    var difficulty := DifficultyOf(FindLine(lines, "Difficulty:"));
    q := Some(Question(questionLine, questionType, options[..requiredOptions], correctAnswer, explanation, difficulty));
  }

  lemma ParseBlocksSnoc(blocks: seq<string>, b: nat)
    requires b < |blocks|
    ensures ParseBlocks(blocks[..b + 1]) ==
      ParseBlocks(blocks[..b]) + (if ParseBlock(blocks[b]).Some? then [ParseBlock(blocks[b]).value] else [])
  {
    assert blocks[..b + 1][..b] == blocks[..b];
  }

  /**
   * `formatQuestionsToMCQ`: splits the text into blocks, parses each, and keeps the
   * questions with enough options. The random fallback used when nothing parses is not
   * modelled: an empty result stands for it.
   */
  method FormatQuestionsToMCQ(generatedText: Option<string>) returns (questions: seq<Question>)
    ensures questions == Parse(generatedText)
  {
    questions := [];
    if generatedText.None? || generatedText.value == "" {
      return;
    }
    questions := ParseEachBlock(NonBlank(SplitBlocks(generatedText.value)));
  }

  /** The loop over the blocks: each one that parses contributes its question, in order. */
  method ParseEachBlock(blocks: seq<string>) returns (questions: seq<Question>)
    ensures questions == ParseBlocks(blocks)
  {
    questions := [];
    var b := 0;
    while b < |blocks|
      invariant 0 <= b <= |blocks|
      invariant questions == ParseBlocks(blocks[..b])
    {
      questions := AppendParsedBlock(blocks, b, questions);
      b := b + 1;
    }
    assert blocks[..b] == blocks;
  }

  /** One turn of the loop: block `b`, split into its non-blank lines, adds its question when it parses. */
  method AppendParsedBlock(blocks: seq<string>, b: nat, questions: seq<Question>) returns (next: seq<Question>)
    requires b < |blocks| && questions == ParseBlocks(blocks[..b])
    ensures next == ParseBlocks(blocks[..b + 1])
  {
    ParseBlocksSnoc(blocks, b);
    var q := ParseBlockLines(NonBlank(Split(blocks[b], '\n')));
    if q.Some? {
      next := questions + [q.value];
    } else {
      next := questions;
    }
  }

  // ---------------------------------------------------------------- properties

  /** A well-formed question: 2 options for true-false and 4 otherwise, and an answer of the right shape in 0..3. */
  predicate WellFormed(q: Question) {
    && |q.options| == RequiredOptions(q.questionType)
    && q.questionText != "" && q.questionText == Trim(q.questionText)
    && (q.questionType == MultiSelect ==>
          q.correctAnswer.Multi? && |q.correctAnswer.indices| >= 1
          && forall i :: 0 <= i < |q.correctAnswer.indices| ==> 0 <= q.correctAnswer.indices[i] <= 3)
    && (q.questionType != MultiSelect ==> q.correctAnswer.Single? && 0 <= q.correctAnswer.index <= 3)
  }

  lemma ParseLinesWellFormed(lines: seq<string>)
    requires ParseLines(lines).Some?
    ensures WellFormed(ParseLines(lines).value)
  {
    TrimIdempotent(lines[0]);
  }

  /** Every parsed question is well formed. */
  lemma {:induction false} ParseBlocksWellFormed(blocks: seq<string>)
    ensures forall q :: q in ParseBlocks(blocks) ==> WellFormed(q)
  {
    if blocks != [] {
      ParseBlocksWellFormed(blocks[..|blocks| - 1]);
      var block := blocks[|blocks| - 1];
      if ParseBlock(block).Some? {
        ParseLinesWellFormed(NonBlank(Split(block, '\n')));
      }
    }
  }

  /** Missing or empty generated text yields no questions; every parsed question is well formed. */
  lemma ParseProperties(generatedText: Option<string>)
    ensures generatedText.None? || generatedText == Some("") ==> Parse(generatedText) == []
    ensures forall q :: q in Parse(generatedText) ==> WellFormed(q)
  {
    if generatedText.Some? && generatedText.value != "" {
      ParseBlocksWellFormed(NonBlank(SplitBlocks(generatedText.value)));
    }
  }

  /** A block with fewer options than its type requires yields no question. */
  lemma TooFewOptionsDropped(lines: seq<string>)
    requires lines != []
    requires |OptionsOf(lines)| < RequiredOptions(TypeOf(FindLine(lines, "Type:")))
    ensures ParseLines(lines).None?
  {
  }

  /** The two option-text computations agree on lines that start with their marker. */
  lemma OptionTextAgreesUnindented(line: string)
    requires StartsWithOptionMarker(line)
    ensures IsOptionLine(line) && OptionTextAsWritten(line) == OptionText(line)
  {
    var e := TrimEnd(line);
    assert TrimStart(line) == line;
    assert Trim(line) == e;
    // removing trailing space before or after dropping the marker gives the same text
    TrimEndDrop2(line);
  }

  lemma TrimEndDrop2(s: string)
    requires |s| >= 2 && !IsSpace(s[0]) && !IsSpace(s[1])
    ensures |TrimEnd(s)| >= 2 && Trim(TrimEnd(s)[2..]) == Trim(s[2..])
  {
    var e := TrimEnd(s);
    var a := s[2..];
    var b := e[2..];
    assert a == b + s[|e|..];
    TrimEndOfSpaceSuffix(b, s[|e|..]);
  }

  lemma {:induction false} TrimEndOfSpaceSuffix(b: string, tail: string)
    requires forall i :: 0 <= i < |tail| ==> IsSpace(tail[i])
    ensures Trim(b + tail) == Trim(b)
    decreases |b|
  {
    if b == [] {
      assert forall i :: 0 <= i < |tail| ==> IsSpace((b + tail)[i]);
      TrimEmptyIffBlank(tail);
      TrimEmptyIffBlank(b);
    } else if IsSpace(b[0]) {
      assert (b + tail)[1..] == b[1..] + tail;
      TrimEndOfSpaceSuffix(b[1..], tail);
    } else {
      assert TrimStart(b + tail) == b + tail;
      assert TrimStart(b) == b;
      TrimEndAppendSpaces(b, tail);
    }
  }

  lemma {:induction false} TrimEndAppendSpaces(b: string, tail: string)
    requires forall i :: 0 <= i < |tail| ==> IsSpace(tail[i])
    ensures TrimEnd(b + tail) == TrimEnd(b)
    decreases |tail|
  {
    if tail == [] {
      assert b + tail == b;
    } else {
      var t' := tail[..|tail| - 1];
      assert (b + tail)[..|b + tail| - 1] == b + t';
      TrimEndAppendSpaces(b, t');
    }
  }

  lemma {:induction false} TrimStartOfSpaces(sp: string, m: string)
    requires forall i :: 0 <= i < |sp| ==> IsSpace(sp[i])
    ensures TrimStart(sp + m) == TrimStart(m)
    decreases |sp|
  {
    if sp == [] {
      assert sp + m == m;
    } else {
      assert (sp + m)[1..] == sp[1..] + m;
      TrimStartOfSpaces(sp[1..], m);
    }
  }

  /**
   * On an option line `m` indented by white space `sp`, the corrected text is the
   * trimmed text after the marker, while the source's text keeps the marker whenever
   * there is any indentation.
   */
  lemma OptionTextOfIndentedLine(sp: string, m: string)
    requires forall i :: 0 <= i < |sp| ==> IsSpace(sp[i])
    requires StartsWithOptionMarker(m)
    ensures IsOptionLine(sp + m) && OptionText(sp + m) == Trim(m[2..])
    ensures sp != [] ==> OptionTextAsWritten(sp + m) == Trim(m)
  {
    TrimStartOfSpaces(sp, m);
    assert TrimStart(m) == m by { assert !IsSpace(m[0]); }
    TrimEndDrop2(m);
    if sp != [] {
      assert !StartsWithOptionMarker(sp + m) by { assert (sp + m)[0] == sp[0]; }
    }
  }

  lemma TrimOfIndentedOption()
    ensures Trim(" A) x") == "A) x"
  {
    var s := " A) x";
    assert IsSpace(s[0]) && !IsSpace(s[1]);
    assert TrimStart(s[1..]) == s[1..];
    assert TrimStart(s) == "A) x";
    assert !IsSpace("A) x"[3]);
  }

  lemma TrimOfOptionTail()
    ensures Trim(" x") == "x"
  {
    var s := " x";
    assert IsSpace(s[0]) && !IsSpace(s[1]);
    assert TrimStart(s[1..]) == s[1..];
    assert TrimStart(s) == "x";
  }

  /** An indented option line keeps its marker in the source's computation: " A) x" gives "A) x", not "x". */
  lemma IndentedOptionKeepsMarker()
    ensures IsOptionLine(" A) x")
    ensures OptionTextAsWritten(" A) x") == "A) x"
    ensures OptionText(" A) x") == "x"
  {
    TrimOfIndentedOption();
    TrimOfOptionTail();
    assert !StartsWithOptionMarker(" A) x");
    assert "A) x"[2..] == " x";
  }

  // ---------------------------------------------------------------- simple questions

  predicate IsTerminator(c: char) {
    c == '.' || c == '!' || c == '?'
  }

  /** The length of the run of characters satisfying `terminator == IsTerminator(c)` at the start of `s`. */
  function RunOf(s: string, terminator: bool): (k: nat)
    ensures k <= |s|
    ensures forall i :: 0 <= i < k ==> IsTerminator(s[i]) == terminator
    ensures k < |s| ==> IsTerminator(s[k]) != terminator
  {
    if s != [] && IsTerminator(s[0]) == terminator then 1 + RunOf(s[1..], terminator) else 0
  }

  /** `text.match(/[^\.!\?]+[\.!\?]+/g) || []`: the maximal sentence-then-terminators runs, left to right. */
  function Sentences(s: string): (r: seq<string>)
    ensures forall x :: x in r ==> |x| >= 2 && !IsTerminator(x[0]) && IsTerminator(x[|x| - 1])
    decreases |s|
  {
    if s == [] then []
    else if IsTerminator(s[0]) then Sentences(s[1..])
    else
      var a := RunOf(s, false);
      if a == |s| then []
      else
        var b := RunOf(s[a..], true);
        [s[..a + b]] + Sentences(s[a + b..])
  }

  function SimpleQuestion(sentence: string): string {
    "What is the main concept discussed in: \"" + Prefix(sentence, 150) + "...\"?"
  }

  /** The generated text for each trimmed sentence longer than 20 characters. */
  function SimpleQuestionsOf(sentences: seq<string>): (r: seq<string>)
    ensures |r| <= |sentences|
  {
    if sentences == [] then []
    else SimpleQuestionsOf(sentences[..|sentences| - 1]) + SimpleQuestionFor(sentences[|sentences| - 1])
  }

  /** Every simple question is made from the trimmed text of a sentence longer than 20 characters. */
  lemma {:induction false} SimpleQuestionsFromLongSentences(sentences: seq<string>)
    ensures forall q :: q in SimpleQuestionsOf(sentences) ==>
      exists x :: x in sentences && |Trim(x)| > 20 && q == SimpleQuestion(Trim(x))
  {
    if sentences != [] {
      var init := sentences[..|sentences| - 1];
      var last := sentences[|sentences| - 1];
      SimpleQuestionsFromLongSentences(init);
      assert forall x :: x in init ==> x in sentences;
      forall q | q in SimpleQuestionsOf(sentences)
        ensures exists x :: x in sentences && |Trim(x)| > 20 && q == SimpleQuestion(Trim(x))
      {
        if q !in SimpleQuestionsOf(init) {
          assert q in SimpleQuestionFor(last);
          assert last in sentences;
        }
      }
    }
  }

  /** The question one sentence contributes: one when its trimmed text is longer than 20 characters. */
  function SimpleQuestionFor(sentence: string): (r: seq<string>)
    ensures |r| <= 1
    ensures |r| == 1 <==> |Trim(sentence)| > 20
    ensures |r| == 1 ==> r[0] == SimpleQuestion(Trim(sentence))
  {
    var t := Trim(sentence);
    if |t| > 20 then [SimpleQuestion(t)] else []
  }

  lemma SimpleQuestionsSnoc(sentences: seq<string>, i: nat)
    requires i < |sentences|
    ensures SimpleQuestionsOf(sentences[..i + 1]) == SimpleQuestionsOf(sentences[..i]) + SimpleQuestionFor(sentences[i])
  {
    assert sentences[..i + 1][..i] == sentences[..i];
  }

  /**
   * `generateSimpleQuestions`: one question per trimmed sentence longer than 20 characters
   * among the first ten sentences.
   */
  method GenerateSimpleQuestions(text: string) returns (questions: seq<string>)
    ensures |questions| <= 10
    ensures var sentences := Sentences(text);
      questions == SimpleQuestionsOf(sentences[..if |sentences| < 10 then |sentences| else 10])
  {
    questions := AskFirstTen(Sentences(text));
  }

  /** The loop over the first ten sentences. */
  method AskFirstTen(sentences: seq<string>) returns (questions: seq<string>)
    ensures |questions| <= 10
    ensures questions == SimpleQuestionsOf(sentences[..if |sentences| < 10 then |sentences| else 10])
  {
    questions := [];
    var n := if |sentences| < 10 then |sentences| else 10;
    for i := 0 to n
      invariant questions == SimpleQuestionsOf(sentences[..i])
    {
      questions := AppendSimpleQuestion(sentences, i, questions);
    }
  }

  /** One turn of the loop: sentence `i`, trimmed, adds a question when it is longer than 20 characters. */
  method AppendSimpleQuestion(sentences: seq<string>, i: nat, questions: seq<string>) returns (next: seq<string>)
    requires i < |sentences| && questions == SimpleQuestionsOf(sentences[..i])
    ensures next == SimpleQuestionsOf(sentences[..i + 1])
  {
    SimpleQuestionsSnoc(sentences, i);
    var sentence := Trim(sentences[i]);
    if |sentence| > 20 {
      next := questions + [SimpleQuestion(sentence)];
    } else {
      next := questions;
    }
  }

}
