/**
 * The front-end transformer that turns stored multiple-choice questions into a mix of
 * multiple-choice, true/false and multi-select questions.
 *
 * Every `Math.random()` draw is a parameter: `pick(i)` is the draw that the Fisher-Yates loop
 * uses at position `i` (reduced modulo `i + 1`), `makeTrue` and `falsePick` are the two draws
 * of the true/false conversion, and `draws` is the sequence the multi-select `do ... while`
 * loop consumes (each reduced modulo the number of options).
 */
module QuestionTransformer {
  import opened JsText
  import opened Sorting
  import P = QuizParser

  /** The `correctAnswer` field: absent (undefined or null), a number, or an index list. */
  datatype Answer = NoAnswer | Index(index: int) | Indices(indices: seq<int>)

  /** A question as the front end holds it; `questionType` is `None` when it is falsy. */
  datatype Question = Question(
    questionText: string,
    questionType: Option<P.QuestionType>,
    options: seq<string>,
    correctAnswer: Answer,
    explanation: string,
    originalQuestion: Option<string>)

  // ---------------------------------------------------------------- shuffling

  function Swap<T>(s: seq<T>, i: nat, j: nat): (r: seq<T>)
    requires i < |s| && j < |s|
    ensures |r| == |s| && multiset(r) == multiset(s)
    ensures r[i] == s[j] && r[j] == s[i]
    ensures forall k :: 0 <= k < |s| && k != i && k != j ==> r[k] == s[k]
  {
    s[i := s[j]][j := s[i]]
  }

  /** The Fisher-Yates swaps for positions `k - 1` down to 1. */
  function Shuffled<T>(s: seq<T>, k: nat, pick: nat -> nat): (r: seq<T>)
    requires k <= |s|
    ensures |r| == |s| && multiset(r) == multiset(s)
    decreases k
  {
    if k <= 1 then s else Shuffled(Swap(s, k - 1, pick(k - 1) % k), k - 1, pick)
  }

  /** The order the in-place Fisher-Yates loop leaves `s` in. */
  function FisherYates<T>(s: seq<T>, pick: nat -> nat): seq<T> {
    Shuffled(s, |s|, pick)
  }

  /** Fisher-Yates is a permutation, whatever the draws. */
  lemma FisherYatesPermutes<T>(s: seq<T>, pick: nat -> nat)
    ensures |FisherYates(s, pick)| == |s|
    ensures multiset(FisherYates(s, pick)) == multiset(s)
  {
  }

  /** The in-place swap loop `for (i = n - 1; i > 0; i--) swap(a[i], a[floor(random * (i + 1))])`. */
  method ShuffleArray<T>(a: array<T>, pick: nat -> nat)
    modifies a
    ensures a[..] == FisherYates(old(a[..]), pick)
  {
    var i := a.Length - 1;
    while i > 0
      invariant -1 <= i < a.Length
      invariant a.Length > 0 ==> i >= 0
      invariant Shuffled(a[..], i + 1, pick) == FisherYates(old(a[..]), pick)
    {
      var j := pick(i) % (i + 1);
      ghost var before := a[..];
      a[i], a[j] := a[j], a[i];
      assert a[..] == Swap(before, i, j);
      i := i - 1;
    }
  }

  /** `shuffleQuestions`: a shuffled copy; the input sequence is a value and stays as it was. */
  method ShuffleQuestions(questions: seq<Question>, pick: nat -> nat) returns (shuffled: seq<Question>)
    ensures shuffled == FisherYates(questions, pick)
    ensures multiset(shuffled) == multiset(questions)
  {
    var a := new Question[|questions|](i requires 0 <= i < |questions| => questions[i]);
    assert a[..] == questions;
    ShuffleArray(a, pick);
    shuffled := a[..];
  }

  // ---------------------------------------------------------------- distinct index permutations

  /** The set of elements of a sequence. */
  function Elements<T(!new)>(s: seq<T>): (r: set<T>)
    ensures forall x :: x in r <==> x in s
  {
    set x | x in s
  }

  lemma {:induction false} DistinctSetSize<T(!new)>(s: seq<T>)
    requires Distinct(s)
    ensures |Elements(s)| == |s|
  {
    if s != [] {
      var init := s[..|s| - 1];
      assert Distinct(init);
      DistinctSetSize(init);
      assert s == init + [s[|s| - 1]];
      assert Elements(s) == Elements(init) + {s[|s| - 1]};
      assert s[|s| - 1] !in init;
    }
  }

  function Range(n: nat): (r: seq<nat>)
    ensures |r| == n && forall i :: 0 <= i < n ==> r[i] == i
  {
    seq(n, i => i)
  }

  /** The shuffled position list `indices` of the transformer. */
  function ShuffledIndices(n: nat, pick: nat -> nat): (r: seq<nat>)
    ensures |r| == n
  {
    FisherYates(Range(n), pick)
  }

  lemma ShuffledIndicesDistinct(n: nat, pick: nat -> nat)
    ensures Distinct(ShuffledIndices(n, pick))
    ensures forall i :: 0 <= i < n ==> ShuffledIndices(n, pick)[i] < n
  {
    var s := ShuffledIndices(n, pick);
    FisherYatesPermutes(Range(n), pick);
    PermutationKeepsDistinct(s, Range(n));
    forall i | 0 <= i < n
      ensures s[i] < n
    {
      assert s[i] in multiset(Range(n));
    }
  }

  /** The distinct elements of `s[lo..hi]` are `hi - lo` many. */
  lemma PrefixSetSize(s: seq<nat>, hi: nat)
    requires hi <= |s| && Distinct(s)
    ensures |Elements(s[..hi])| == hi
  {
    SliceSetSize(s, 0, hi);
    assert s[0..hi] == s[..hi];
  }

  lemma SliceSetSize(s: seq<nat>, lo: nat, hi: nat)
    requires lo <= hi <= |s| && Distinct(s)
    ensures |Elements(s[lo..hi])| == hi - lo
  {
    assert Distinct(s[lo..hi]);
    DistinctSetSize(s[lo..hi]);
  }

  // ---------------------------------------------------------------- true/false

  /** `options[correctAnswer]`: a number or a one-element list selects that position. */
  function CorrectOption(options: seq<string>, a: Answer): Option<string> {
    match a
    case Index(i) => if 0 <= i < |options| then Some(options[i]) else None
    case Indices(s) => if |s| == 1 && 0 <= s[0] < |options| then Some(options[s[0]]) else None
    case NoAnswer => None
  }

  /** `options.filter((_, idx) => idx !== correctAnswer)`, as the positions kept. */
  function OtherPositions(n: nat, a: Answer): (r: seq<nat>)
    ensures forall k :: 0 <= k < |r| ==> r[k] < n && Index(r[k]) != a
    ensures |r| == n - (if a.Index? && 0 <= a.index < n then 1 else 0)
  {
    if n == 0 then []
    else if Index(n - 1) != a then OtherPositions(n - 1, a) + [n - 1]
    else OtherPositions(n - 1, a)
  }

  /** True/false conversion is possible when the correct option exists and is non-empty and there are two options. */
  predicate CanMakeTrueFalse(q: Question) {
    var c := CorrectOption(q.options, q.correctAnswer);
    c.Some? && c.value != "" && |q.options| >= 2
  }

  function Quoted(text: string, option: string): string {
    text + "\n\n\"" + option + "\""
  }

  /**
   * `convertToTrueFalse`: a true statement quoting the correct option (answer 0), or a false
   * one quoting the option at position `falsePick` among the others (answer 1).
   */
  function ConvertToTrueFalse(q: Question, makeTrue: bool, falsePick: nat): (r: Question)
    ensures !CanMakeTrueFalse(q) ==> r == q.(questionType := Some(P.MultipleChoice))
    ensures CanMakeTrueFalse(q) ==>
      && r.questionType == Some(P.TrueFalse) && r.options == ["True", "False"]
      && r.originalQuestion == Some(q.questionText)
      && (r.correctAnswer == Index(0) <==> makeTrue)
      && (r.correctAnswer == Index(1) <==> !makeTrue)
    ensures CanMakeTrueFalse(q) && makeTrue ==>
      r.questionText == Quoted(q.questionText, CorrectOption(q.options, q.correctAnswer).value)
    ensures CanMakeTrueFalse(q) && !makeTrue ==>
      exists j :: 0 <= j < |q.options| && Index(j) != q.correctAnswer && r.questionText == Quoted(q.questionText, q.options[j])
  {
    var correct := CorrectOption(q.options, q.correctAnswer);
    if !CanMakeTrueFalse(q) then q.(questionType := Some(P.MultipleChoice))
    else if makeTrue then
      q.(questionType := Some(P.TrueFalse), questionText := Quoted(q.questionText, correct.value),
         options := ["True", "False"], correctAnswer := Index(0), originalQuestion := Some(q.questionText),
         explanation := "This statement is TRUE. " + correct.value + " is the correct answer to the question.")
    else
      var others := OtherPositions(|q.options|, q.correctAnswer);
      var j := others[falsePick % |others|];
      q.(questionType := Some(P.TrueFalse), questionText := Quoted(q.questionText, q.options[j]),
         options := ["True", "False"], correctAnswer := Index(1), originalQuestion := Some(q.questionText),
         explanation := "This statement is FALSE. The correct answer is: " + correct.value + ".")
  }

  // ---------------------------------------------------------------- multi-select

  /** `s < t` on strings, as JavaScript compares them, character by character (the same order as code units on the digit texts compared here). */
  predicate LexLess(s: string, t: string)
    decreases |s|
  {
    if s == [] then t != []
    else if t == [] then false
    else if s[0] != t[0] then s[0] < t[0]
    else LexLess(s[1..], t[1..])
  }

  /** `[c, s].sort()` as the source writes it: the default sort compares the numbers' decimal texts. */
  function LexSortedPair(c: int, s: int): (r: seq<int>)
    ensures |r| == 2 && multiset(r) == multiset{c, s}
  {
    if LexLess(IntToString(s), IntToString(c)) then [s, c] else [c, s]
  }

  /** The two indices in ascending numeric order. */
  function AscendingPair(c: int, s: int): (r: seq<int>)
    ensures |r| == 2 && r[0] <= r[1]
    ensures multiset(r) == multiset{c, s}
  {
    if s < c then [s, c] else [c, s]
  }

  /** The draws make the `do ... while` loop stop: one of them differs from the correct answer. */
  predicate DrawsEnd(draws: seq<nat>, n: nat, a: Answer) {
    n > 0 ==> exists k :: 0 <= k < |draws| && Index(draws[k] % n) != a
  }

  /** The index the `do ... while` loop settles on: the first draw that is not the correct answer. */
  function SecondPick(draws: seq<nat>, n: nat, a: Answer): (r: nat)
    requires n > 0 && DrawsEnd(draws, n, a)
    ensures r < n && Index(r) != a
  {
    if Index(draws[0] % n) != a then draws[0] % n
    else
      assert forall k :: 1 <= k < |draws| ==> draws[k] == draws[1..][k - 1];
      SecondPick(draws[1..], n, a)
  }

  /**
   * `convertToMultiSelect` once the second index is chosen: with at least 3 options and both
   * chosen options present and non-empty, the two indices become the answer list.
   */
  function MultiSelectOf(q: Question, second: nat): (r: Question)
    ensures r.questionType == Some(P.MultiSelect) || r == q.(questionType := Some(P.MultipleChoice))
    ensures r.questionType == Some(P.MultiSelect) ==>
      && q.correctAnswer.Index? && |q.options| >= 3
      && r.correctAnswer == Indices(LexSortedPair(q.correctAnswer.index, second))
      && r.options == q.options && r.originalQuestion == Some(q.questionText)
      && r.questionText == q.questionText + " (Select all that apply)"
    ensures |q.options| < 3 ==> r == q.(questionType := Some(P.MultipleChoice))
  {
    if |q.options| < 3 || !q.correctAnswer.Index? then q.(questionType := Some(P.MultipleChoice))
    else
      var pair := LexSortedPair(q.correctAnswer.index, second);
      var first := CorrectOption(q.options, Index(pair[0]));
      var other := CorrectOption(q.options, Index(pair[1]));
      if first.None? || first.value == "" || other.None? || other.value == "" then
        q.(questionType := Some(P.MultipleChoice))
      else
        q.(questionType := Some(P.MultiSelect), questionText := q.questionText + " (Select all that apply)",
           correctAnswer := Indices(pair), originalQuestion := Some(q.questionText),
           explanation := "Both \"" + first.value + "\" and \"" + other.value + "\" are correct answers for this question.")
  }

  /** `convertToMultiSelect`, with its retry loop over the draws. */
  method ConvertToMultiSelect(q: Question, draws: seq<nat>) returns (r: Question)
    requires |q.options| >= 3 ==> DrawsEnd(draws, |q.options|, q.correctAnswer)
    ensures |q.options| < 3 ==> r == q.(questionType := Some(P.MultipleChoice))
    ensures |q.options| >= 3 ==> r == MultiSelectOf(q, SecondPick(draws, |q.options|, q.correctAnswer))
  {
    var n := |q.options|;
    if n < 3 {
      return q.(questionType := Some(P.MultipleChoice));
    }
    var k := 0;
    var secondCorrectIndex := draws[0] % n;
    while Index(secondCorrectIndex) == q.correctAnswer
      invariant 0 <= k < |draws| && secondCorrectIndex == draws[k] % n
      invariant exists m :: k <= m < |draws| && Index(draws[m] % n) != q.correctAnswer
      invariant SecondPick(draws, n, q.correctAnswer) == SecondPick(draws[k..], n, q.correctAnswer)
      decreases |draws| - k
    {
      assert draws[k..][1..] == draws[k + 1..];
      k := k + 1;
      secondCorrectIndex := draws[k] % n;
    }
    r := MultiSelectOf(q, secondCorrectIndex);
  }

  /**
   * A multi-select conversion always yields the correct answer and the second pick as
   * two distinct in-range indices; they are in ascending order when there are at most
   * ten options, where the string sort agrees with the numeric one.
   */
  lemma MultiSelectAnswer(q: Question, draws: seq<nat>)
    requires |q.options| >= 3 && DrawsEnd(draws, |q.options|, q.correctAnswer)
    ensures var s := SecondPick(draws, |q.options|, q.correctAnswer);
      var r := MultiSelectOf(q, s);
      r.questionType == Some(P.MultiSelect) ==>
        && q.correctAnswer.Index? && r.correctAnswer.Indices? && |r.correctAnswer.indices| == 2
        && multiset(r.correctAnswer.indices) == multiset{q.correctAnswer.index, s}
        && r.correctAnswer.indices[0] != r.correctAnswer.indices[1]
        && 0 <= r.correctAnswer.indices[0] < |q.options| && 0 <= r.correctAnswer.indices[1] < |q.options|
        && (|q.options| <= 10 ==> r.correctAnswer.indices[0] < r.correctAnswer.indices[1])
  {
    var s := SecondPick(draws, |q.options|, q.correctAnswer);
    var r := MultiSelectOf(q, s);
    if r.questionType == Some(P.MultiSelect) {
      var c := q.correctAnswer.index;
      assert c != s;
      var pair := LexSortedPair(c, s);
      assert CorrectOption(q.options, Index(pair[0])).Some?;
      assert CorrectOption(q.options, Index(pair[1])).Some?;
      assert pair == [c, s] || pair == [s, c];
      if |q.options| <= 10 {
        LexSortAgreesBelowTen(c, s);
      }
    }
  }

  lemma LexLessSingleDigits(x: nat, y: nat)
    requires x < 10 && y < 10
    ensures LexLess(IntToString(x), IntToString(y)) <==> x < y
  {
    assert IntToString(x) == [Digit(x)] && IntToString(y) == [Digit(y)];
  }

  /** With at most ten options the source's string sort agrees with the numeric one. */
  lemma LexSortAgreesBelowTen(c: nat, s: nat)
    requires c < 10 && s < 10 && c != s
    ensures LexSortedPair(c, s) == AscendingPair(c, s)
  {
    LexLessSingleDigits(s, c);
  }

  /** With eleven options, correct answer 2 and second pick 10, the source's sort gives [10, 2]. */
  lemma LexSortMisordersTen()
    ensures LexSortedPair(2, 10) == [10, 2]
    ensures AscendingPair(2, 10) == [2, 10]
  {
    assert NatToString(1) == "1";
    assert NatToString(10) == NatToString(1) + [Digit(0)];
    assert IntToString(10) == "10";
    assert IntToString(2) == "2";
    assert LexLess("10", "2");
  }

  // ---------------------------------------------------------------- transformQuestions

  /** Questions that cannot be checked locally, are already transformed, or have too few options stay as they are. */
  predicate Skipped(q: Question) {
    q.correctAnswer.NoAnswer?
    || (q.questionType.Some? && q.questionType.value != P.MultipleChoice)
    || |q.options| < 4
  }

  /**
   * Whether `transformQuestions` reaches the retry loop of `convertToMultiSelect` for
   * this question: it is not skipped, not chosen for true/false, and chosen for multi-select.
   */
  predicate ReachesRetry(q: Question, inTrueFalse: bool, inMultiSelect: bool) {
    !Skipped(q) && !inTrueFalse && inMultiSelect
  }

  function DefaultType(q: Question): Option<P.QuestionType> {
    if q.questionType.Some? then q.questionType else Some(P.MultipleChoice)
  }

  /** The transformation of one question, given whether its position was chosen for each type. */
  function TransformOne(q: Question, inTrueFalse: bool, inMultiSelect: bool,
                        makeTrue: bool, falsePick: nat, draws: seq<nat>): Question
    requires ReachesRetry(q, inTrueFalse, inMultiSelect) ==> DrawsEnd(draws, |q.options|, q.correctAnswer)
  {
    if Skipped(q) then q.(questionType := DefaultType(q))
    else if inTrueFalse then ConvertToTrueFalse(q, makeTrue, falsePick)
    else if inMultiSelect then MultiSelectOf(q, SecondPick(draws, |q.options|, q.correctAnswer))
    else q.(questionType := Some(P.MultipleChoice))
  }

  function NumTrueFalse(n: nat): nat { n * 3 / 10 }
  function NumMultiSelect(n: nat): nat { n / 10 }

  /** The two quotas together take at most four tenths of the questions. */
  lemma QuotasFit(n: nat)
    ensures 10 * (NumTrueFalse(n) + NumMultiSelect(n)) <= 4 * n
  {
    assert 10 * (n * 3 / 10) <= n * 3;
    assert 10 * (n / 10) <= n;
  }

  /** `trueFalseIndices`: the first floor(0.3 n) shuffled positions. */
  function TrueFalseIndices(n: nat, pick: nat -> nat): set<nat> {
    Elements(ShuffledIndices(n, pick)[..NumTrueFalse(n)])
  }

  /** `multiSelectIndices`: the next floor(0.1 n) shuffled positions. */
  function MultiSelectIndices(n: nat, pick: nat -> nat): set<nat> {
    Elements(ShuffledIndices(n, pick)[NumTrueFalse(n)..NumTrueFalse(n) + NumMultiSelect(n)])
  }

  /** `Array.from({ length: n }, (_, i) => i)`, shuffled in place. */
  method ShufflePositions(n: nat, pick: nat -> nat) returns (indices: seq<nat>)
    ensures indices == ShuffledIndices(n, pick)
  {
    var a := new nat[n](i => i);
    assert a[..] == Range(n);
    ShuffleArray(a, pick);
    indices := a[..];
  }

  /** The type quotas and the position sets taken from one shuffle of 0..n-1. */
  method ChooseTypePositions(n: nat, pick: nat -> nat) returns (trueFalseIndices: set<nat>, multiSelectIndices: set<nat>)
    ensures trueFalseIndices == TrueFalseIndices(n, pick)
    ensures multiSelectIndices == MultiSelectIndices(n, pick)
  {
    var numTrueFalse := n * 3 / 10;
    var numMultiSelect := n / 10;
    var indices := ShufflePositions(n, pick);
    trueFalseIndices := Elements(indices[..numTrueFalse]);
    multiSelectIndices := Elements(indices[numTrueFalse..numTrueFalse + numMultiSelect]);
  }

  /** The two chosen position sets are disjoint, in range, and of sizes floor(0.3 n) and floor(0.1 n). */
  lemma TypeIndexSets(n: nat, pick: nat -> nat)
    ensures TrueFalseIndices(n, pick) * MultiSelectIndices(n, pick) == {}
    ensures |TrueFalseIndices(n, pick)| == NumTrueFalse(n)
    ensures |MultiSelectIndices(n, pick)| == NumMultiSelect(n)
    ensures forall x :: x in TrueFalseIndices(n, pick) + MultiSelectIndices(n, pick) ==> x < n
  {
    TypeIndexSizes(n, pick);
    TypeIndexDisjoint(n, pick);
    TypeIndexRange(n, pick);
  }

  lemma TypeIndexSizes(n: nat, pick: nat -> nat)
    ensures |TrueFalseIndices(n, pick)| == NumTrueFalse(n)
    ensures |MultiSelectIndices(n, pick)| == NumMultiSelect(n)
  {
    var s := ShuffledIndices(n, pick);
    var a := NumTrueFalse(n);
    QuotasFit(n);
    ShuffledIndicesDistinct(n, pick);
    PrefixSetSize(s, a);
    SliceSetSize(s, a, a + NumMultiSelect(n));
  }

  lemma TypeIndexDisjoint(n: nat, pick: nat -> nat)
    ensures TrueFalseIndices(n, pick) * MultiSelectIndices(n, pick) == {}
  {
    QuotasFit(n);
    ShuffledIndicesDistinct(n, pick);
    SlicesDisjoint(ShuffledIndices(n, pick), NumTrueFalse(n), NumTrueFalse(n) + NumMultiSelect(n));
  }

  lemma TypeIndexRange(n: nat, pick: nat -> nat)
    ensures forall x :: x in TrueFalseIndices(n, pick) + MultiSelectIndices(n, pick) ==> x < n
  {
    QuotasFit(n);
    ShuffledIndicesDistinct(n, pick);
    SlicesBelow(ShuffledIndices(n, pick), NumTrueFalse(n) + NumMultiSelect(n), n);
  }

  /** Two adjacent slices of a sequence without repetitions share no element. */
  lemma SlicesDisjoint(s: seq<nat>, a: nat, b: nat)
    requires a <= b <= |s| && Distinct(s)
    ensures Elements(s[..a]) * Elements(s[a..b]) == {}
  {
    forall x | x in Elements(s[..a])
      ensures x !in Elements(s[a..b])
    {
      var i :| 0 <= i < a && s[i] == x;
      forall j | a <= j < b
        ensures s[j] != x
      {
        assert i < j;
      }
    }
  }

  /** Every element of a prefix of a sequence bounded by `n` is below `n`. */
  lemma SlicesBelow(s: seq<nat>, b: nat, n: nat)
    requires b <= |s| && forall i :: 0 <= i < |s| ==> s[i] < n
    ensures forall x :: x in Elements(s[..b]) ==> x < n
  {
  }

  /** The draws end the retry loop at every position where the loop is reached. */
  predicate AllDrawsEnd(questions: seq<Question>, pick: nat -> nat, draws: nat -> seq<nat>) {
    forall i :: 0 <= i < |questions| ==>
      ReachesRetry(questions[i], i in TrueFalseIndices(|questions|, pick), i in MultiSelectIndices(|questions|, pick))
      ==> DrawsEnd(draws(i), |questions[i].options|, questions[i].correctAnswer)
  }

  lemma DrawsEndAt(questions: seq<Question>, pick: nat -> nat, draws: nat -> seq<nat>, i: nat)
    requires AllDrawsEnd(questions, pick, draws) && i < |questions|
    ensures ReachesRetry(questions[i], i in TrueFalseIndices(|questions|, pick), i in MultiSelectIndices(|questions|, pick))
      ==> DrawsEnd(draws(i), |questions[i].options|, questions[i].correctAnswer)
  {
  }

  /**
   * `transformQuestions`: every output position is the transformation of the same input
   * position, with the position sets drawn from one Fisher-Yates shuffle of 0..n-1.
   */
  method TransformQuestions(questions: seq<Question>, pick: nat -> nat, makeTrue: nat -> bool,
                            falsePick: nat -> nat, draws: nat -> seq<nat>)
    returns (transformed: seq<Question>)
    requires AllDrawsEnd(questions, pick, draws)
    ensures |transformed| == |questions|
    ensures forall i :: 0 <= i < |questions| ==>
      transformed[i] == TransformOne(questions[i], i in TrueFalseIndices(|questions|, pick),
                                     i in MultiSelectIndices(|questions|, pick),
                                     makeTrue(i), falsePick(i), draws(i))
  {
    if |questions| == 0 {
      return [];
    }
    var n := |questions|;
    var trueFalseIndices, multiSelectIndices := ChooseTypePositions(n, pick);
    transformed := [];
    for i := 0 to n
      invariant |transformed| == i
      invariant forall k :: 0 <= k < i ==>
        transformed[k] == TransformOne(questions[k], k in trueFalseIndices, k in multiSelectIndices,
                                       makeTrue(k), falsePick(k), draws(k))
    {
      DrawsEndAt(questions, pick, draws, i);
      var result := TransformAt(questions[i], i in trueFalseIndices, i in multiSelectIndices,
                                makeTrue(i), falsePick(i), draws(i));
      transformed := transformed + [result];
    }
  }

  /** The body of the `forEach` in `transformQuestions`, for one question. */
  method TransformAt(question: Question, inTrueFalse: bool, inMultiSelect: bool,
                     makeTrue: bool, falsePick: nat, draws: seq<nat>) returns (result: Question)
    requires ReachesRetry(question, inTrueFalse, inMultiSelect) ==> DrawsEnd(draws, |question.options|, question.correctAnswer)
    ensures result == TransformOne(question, inTrueFalse, inMultiSelect, makeTrue, falsePick, draws)
  {
    if Skipped(question) {
      result := question.(questionType := DefaultType(question));
    } else if inTrueFalse {
      result := ConvertToTrueFalse(question, makeTrue, falsePick);
    } else if inMultiSelect {
      result := ConvertToMultiSelect(question, draws);
    } else {
      result := question.(questionType := Some(P.MultipleChoice));
    }
  }

  /** A true/false or multi-select output at a position whose input had another type was chosen for that type. */
  lemma TransformOneTypes(q: Question, inTrueFalse: bool, inMultiSelect: bool,
                          makeTrue: bool, falsePick: nat, draws: seq<nat>)
    requires ReachesRetry(q, inTrueFalse, inMultiSelect) ==> DrawsEnd(draws, |q.options|, q.correctAnswer)
    ensures var r := TransformOne(q, inTrueFalse, inMultiSelect, makeTrue, falsePick, draws);
      && (r.questionType == Some(P.TrueFalse) && q.questionType != Some(P.TrueFalse) ==> inTrueFalse && !Skipped(q))
      && (r.questionType == Some(P.MultiSelect) && q.questionType != Some(P.MultiSelect) ==> inMultiSelect && !inTrueFalse && !Skipped(q))
      && (Skipped(q) ==> r == q.(questionType := DefaultType(q)))
      && r.questionType.Some?
  {
  }

  /** At most floor(0.3 n) questions become true/false and at most floor(0.1 n) become multi-select. */
  lemma TransformConvertsAtMost(questions: seq<Question>, transformed: seq<Question>, pick: nat -> nat,
                                makeTrue: nat -> bool, falsePick: nat -> nat, draws: nat -> seq<nat>)
    requires AllDrawsEnd(questions, pick, draws) && |transformed| == |questions|
    requires forall i :: 0 <= i < |questions| ==>
      transformed[i] == TransformOne(questions[i], i in TrueFalseIndices(|questions|, pick),
                                     i in MultiSelectIndices(|questions|, pick),
                                     makeTrue(i), falsePick(i), draws(i))
    ensures |set i: nat | i < |questions| && transformed[i].questionType == Some(P.TrueFalse)
                          && questions[i].questionType != Some(P.TrueFalse)| <= NumTrueFalse(|questions|)
    ensures |set i: nat | i < |questions| && transformed[i].questionType == Some(P.MultiSelect)
                          && questions[i].questionType != Some(P.MultiSelect)| <= NumMultiSelect(|questions|)
  {
    var n := |questions|;
    var tf := TrueFalseIndices(n, pick);
    var ms := MultiSelectIndices(n, pick);
    TypeIndexSets(n, pick);
    var toTf := set i: nat | i < n && transformed[i].questionType == Some(P.TrueFalse)
                             && questions[i].questionType != Some(P.TrueFalse);
    var toMs := set i: nat | i < n && transformed[i].questionType == Some(P.MultiSelect)
                             && questions[i].questionType != Some(P.MultiSelect);
    forall i | i in toTf
      ensures i in tf
    {
      TransformOneTypes(questions[i], i in tf, i in ms, makeTrue(i), falsePick(i), draws(i));
    }
    forall i | i in toMs
      ensures i in ms
    {
      TransformOneTypes(questions[i], i in tf, i in ms, makeTrue(i), falsePick(i), draws(i));
    }
    SubsetSize(toTf, tf);
    SubsetSize(toMs, ms);
  }

  lemma SubsetSize(a: set<nat>, b: set<nat>)
    requires a <= b
    ensures |a| <= |b|
  {
    assert b == a + (b - a);
  }

  /** `getBalancedQuestions`: the transformed questions, shuffled. */
  method GetBalancedQuestions(questions: seq<Question>, pick: nat -> nat, makeTrue: nat -> bool,
                              falsePick: nat -> nat, draws: nat -> seq<nat>, orderPick: nat -> nat)
    returns (balanced: seq<Question>)
    requires AllDrawsEnd(questions, pick, draws)
    ensures |balanced| == |questions|
    ensures exists t :: && |t| == |questions| && balanced == FisherYates(t, orderPick)
                        && multiset(balanced) == multiset(t)
                        && (forall i :: 0 <= i < |questions| ==>
                              t[i] == TransformOne(questions[i], i in TrueFalseIndices(|questions|, pick),
                                                   i in MultiSelectIndices(|questions|, pick),
                                                   makeTrue(i), falsePick(i), draws(i)))
  {
    var transformed := TransformQuestions(questions, pick, makeTrue, falsePick, draws);
    balanced := ShuffleQuestions(transformed, orderPick);
  }

  // ---------------------------------------------------------------- convertHalfToTrueFalse

  /** A question can become true/false here when it has an answer and exactly four options. */
  predicate CanHalve(q: Question) {
    !q.correctAnswer.NoAnswer? && |q.options| == 4
  }

  function HalfOne(q: Question, chosen: bool, makeTrue: bool, falsePick: nat): Question {
    if CanHalve(q) && chosen then ConvertToTrueFalse(q, makeTrue, falsePick)
    else q.(questionType := DefaultType(q))
  }

  /** The first floor(0.5 n) shuffled positions. */
  function HalfIndices(n: nat, pick: nat -> nat): set<nat> {
    Elements(ShuffledIndices(n, pick)[..n / 2])
  }

  lemma HalfIndicesSize(n: nat, pick: nat -> nat)
    ensures |HalfIndices(n, pick)| == n / 2
    ensures forall x :: x in HalfIndices(n, pick) ==> x < n
  {
    var s := ShuffledIndices(n, pick);
    ShuffledIndicesDistinct(n, pick);
    SliceSetSize(s, 0, n / 2);
    assert s[0..n / 2] == s[..n / 2];
  }

  function HalfConverted(questions: seq<Question>, chosen: set<nat>, makeTrue: nat -> bool, falsePick: nat -> nat)
    : (r: seq<Question>)
    ensures |r| == |questions|
    ensures forall i :: 0 <= i < |questions| ==> r[i] == HalfOne(questions[i], i in chosen, makeTrue(i), falsePick(i))
  {
    seq(|questions|, i requires 0 <= i < |questions| => HalfOne(questions[i], i in chosen, makeTrue(i), falsePick(i)))
  }

  /** `convertHalfToTrueFalse`: converts the chosen convertible questions, then shuffles the result. */
  method ConvertHalfToTrueFalse(questions: seq<Question>, pick: nat -> nat, makeTrue: nat -> bool,
                                falsePick: nat -> nat, orderPick: nat -> nat)
    returns (result: seq<Question>)
    ensures |questions| == 0 ==> result == []
    ensures result == FisherYates(HalfConverted(questions, HalfIndices(|questions|, pick), makeTrue, falsePick), orderPick)
  {
    if |questions| == 0 {
      return [];
    }
    var n := |questions|;
    var numToConvert := n / 2;
    var indices := ShufflePositions(n, pick);
    var trueFalseIndices := Elements(indices[..numToConvert]);
    var transformed := HalveEach(questions, trueFalseIndices, makeTrue, falsePick);
    result := ShuffleQuestions(transformed, orderPick);
  }

  /** The `map` of `convertHalfToTrueFalse` over the questions. */
  method HalveEach(questions: seq<Question>, trueFalseIndices: set<nat>, makeTrue: nat -> bool, falsePick: nat -> nat)
    returns (transformed: seq<Question>)
    ensures transformed == HalfConverted(questions, trueFalseIndices, makeTrue, falsePick)
  {
    transformed := [];
    for i := 0 to |questions|
      invariant |transformed| == i
      invariant forall k :: 0 <= k < i ==> transformed[k] == HalfOne(questions[k], k in trueFalseIndices, makeTrue(k), falsePick(k))
    {
      var result := HalveAt(questions[i], i in trueFalseIndices, makeTrue(i), falsePick(i));
      transformed := transformed + [result];
    }
  }

  /** The body of that `map`, for one question. */
  method HalveAt(question: Question, chosen: bool, makeTrue: bool, falsePick: nat) returns (result: Question)
    ensures result == HalfOne(question, chosen, makeTrue, falsePick)
  {
    var canTransform := !question.correctAnswer.NoAnswer? && |question.options| == 4;
    if canTransform && chosen {
      result := ConvertToTrueFalse(question, makeTrue, falsePick);
    } else {
      result := question.(questionType := DefaultType(question));
    }
  }

  /** Only chosen questions with an answer and four options become true/false, at most floor(n / 2) of them. */
  lemma HalfConvertsAtMost(questions: seq<Question>, pick: nat -> nat, makeTrue: nat -> bool, falsePick: nat -> nat)
    ensures var t := HalfConverted(questions, HalfIndices(|questions|, pick), makeTrue, falsePick);
      && (forall i :: 0 <= i < |questions| && t[i].questionType == Some(P.TrueFalse) && questions[i].questionType != Some(P.TrueFalse)
            ==> CanHalve(questions[i]) && i in HalfIndices(|questions|, pick))
      && |set i: nat | i < |questions| && t[i].questionType == Some(P.TrueFalse)
                       && questions[i].questionType != Some(P.TrueFalse)| <= |questions| / 2
  {
    var n := |questions|;
    var h := HalfIndices(n, pick);
    var t := HalfConverted(questions, h, makeTrue, falsePick);
    HalfIndicesSize(n, pick);
    var converted := set i: nat | i < n && t[i].questionType == Some(P.TrueFalse) && questions[i].questionType != Some(P.TrueFalse);
    assert converted <= h;
    SubsetSize(converted, h);
  }
}
