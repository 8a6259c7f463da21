/**
 * The stored question bank as students see it: the course listing, which withholds
 * the answers, and answer checking.
 */
module QuestionBank {
  import opened JsText
  import P = QuizParser

  /** The schema bounds `correctAnswer` to 0..3. */
  type AnswerIndex = x: int | 0 <= x <= 3

  datatype StoredQuestion = StoredQuestion(
    id: nat,
    courseId: nat,
    questionText: string,
    options: seq<string>,
    correctAnswer: AnswerIndex,
    difficulty: P.Difficulty)

  /** What a student receives: the question without its answer. */
  datatype PublicQuestion = PublicQuestion(id: nat, questionText: string, options: seq<string>, difficulty: P.Difficulty)

  datatype Listing = Listing(count: nat, data: seq<PublicQuestion>)

  datatype CheckReply = NotFound | Checked(isCorrect: bool, correctAnswer: AnswerIndex, explanation: string)

  /** `Question.find({ courseId })`, in stored order. */
  function OfCourse(bank: seq<StoredQuestion>, courseId: nat): (r: seq<StoredQuestion>)
    ensures |r| <= |bank|
    ensures forall q :: q in r <==> q in bank && q.courseId == courseId
  {
    if bank == [] then []
    else
      var rest := OfCourse(bank[..|bank| - 1], courseId);
      var last := bank[|bank| - 1];
      assert forall q :: q in bank <==> q in bank[..|bank| - 1] || q == last;
      if last.courseId == courseId then rest + [last] else rest
  }

  function Strip(q: StoredQuestion): PublicQuestion {
    PublicQuestion(q.id, q.questionText, q.options, q.difficulty)
  }

  /** `getQuestionsByCourse`: every question of the course, in order, with only id, text, options and difficulty. */
  function QuestionsByCourse(bank: seq<StoredQuestion>, courseId: nat): (r: Listing)
    ensures r.count == |r.data| == |OfCourse(bank, courseId)|
    ensures forall i :: 0 <= i < r.count ==>
      var q := OfCourse(bank, courseId)[i];
      r.data[i].id == q.id && r.data[i].questionText == q.questionText
      && r.data[i].options == q.options && r.data[i].difficulty == q.difficulty
  {
    var questions := OfCourse(bank, courseId);
    Listing(|questions|, seq(|questions|, i requires 0 <= i < |questions| => Strip(questions[i])))
  }

  /** `Question.findById`. */
  function FindQuestion(bank: seq<StoredQuestion>, id: nat): (r: Option<StoredQuestion>)
    ensures r.Some? ==> r.value in bank && r.value.id == id
    ensures r.None? ==> forall q :: q in bank ==> q.id != id
  {
    if bank == [] then None
    else if bank[0].id == id then Some(bank[0])
    else FindQuestion(bank[1..], id)
  }

  /** `${options[correctAnswer]}`: the option text, or "undefined" when the list is too short. */
  function OptionText(options: seq<string>, i: AnswerIndex): string {
    if i < |options| then options[i] else "undefined"
  }

  /**
   * `checkAnswer`: 404 for an unknown id; otherwise the verdict `correctAnswer === parseInt(answer)`
   * together with the stored answer and the text of its option. `answer` is the submitted value's text.
   */
  function CheckAnswer(bank: seq<StoredQuestion>, questionId: nat, answer: string): (r: CheckReply)
    ensures r.NotFound? <==> FindQuestion(bank, questionId).None?
    ensures r.Checked? ==>
      var q := FindQuestion(bank, questionId).value;
      && (r.isCorrect <==> ParseInt(answer) == Some(q.correctAnswer as int))
      && r.correctAnswer == q.correctAnswer
      && r.explanation == "The correct answer is: " + OptionText(q.options, q.correctAnswer)
  {
    match FindQuestion(bank, questionId)
    case None => NotFound
    case Some(q) =>
      Checked(ParseInt(answer) == Some(q.correctAnswer as int), q.correctAnswer,
              "The correct answer is: " + OptionText(q.options, q.correctAnswer))
  }

  /** Submitting the number `k` (sent as its decimal text) is judged correct exactly when `k` is the stored answer. */
  lemma CheckNumericAnswer(bank: seq<StoredQuestion>, questionId: nat, k: int)
    requires FindQuestion(bank, questionId).Some?
    ensures CheckAnswer(bank, questionId, IntToString(k)).isCorrect <==> k == FindQuestion(bank, questionId).value.correctAnswer
  {
    ParseIntOfIntToString(k);
  }

  lemma ReadsTwo()
    ensures ParseDigits("2x", 10) == Some(2)
  {
    assert DigitIn('x', 10).None?;
    assert DigitRun("2x"[1..], 10) == 0;
    assert DigitRun("2x", 10) == 1;
    assert "2x"[..1] == "2";
    assert "2"[..0] == "";
  }

  lemma SkipsOneSpace()
    ensures TrimStart(" 2x") == "2x"
  {
    var s := " 2x";
    assert IsSpace(s[0]) && !IsSpace(s[1]);
    assert TrimStart(s[1..]) == s[1..];
  }

  /** Leading white space and trailing text after the digits do not change the verdict: " 2x" counts as 2. */
  lemma CheckAnswerReadsLeadingNumber(bank: seq<StoredQuestion>, questionId: nat)
    requires FindQuestion(bank, questionId).Some? && FindQuestion(bank, questionId).value.correctAnswer == 2
    ensures CheckAnswer(bank, questionId, " 2x").isCorrect
  {
    SkipsOneSpace();
    ReadsTwo();
    assert ParseMagnitude("2x") == Some(2);
    assert ParseInt(" 2x") == Some(2);
  }

  /** Every question of the course appears in the listing, stripped of its answer. */
  lemma ListingCountsCourse(bank: seq<StoredQuestion>, courseId: nat)
    ensures QuestionsByCourse(bank, courseId).count == |OfCourse(bank, courseId)|
    ensures forall q :: q in bank && q.courseId == courseId ==> Strip(q) in QuestionsByCourse(bank, courseId).data
  {
    var questions := OfCourse(bank, courseId);
    var data := QuestionsByCourse(bank, courseId).data;
    forall q | q in bank && q.courseId == courseId
      ensures Strip(q) in data
    {
      var i :| 0 <= i < |questions| && questions[i] == q;
      assert data[i] == Strip(q);
    }
  }
}
