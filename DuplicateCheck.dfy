/**
 * The assignment duplicate check: one text is compared with every previous
 * submission of the same assignment and with the web, and the two verdicts are
 * combined. The language model's answers are inputs.
 */
module DuplicateCheck {
  import opened JsText
  import opened Sorting

  /** A stored earlier submission of the same assignment. */
  datatype PreviousSubmission = PreviousSubmission(studentId: string, studentName: string, text: string, submittedAt: int)

  /** The parsed answer of one pairwise comparison. */
  datatype PairAnswer = PairAnswer(plagiarismScore: int, verdict: string, analysis: string, similarSections: seq<string>)

  datatype SubmissionMatch = SubmissionMatch(
    studentId: string,
    studentName: string,
    plagiarismScore: int,
    verdict: string,
    analysis: string,
    similarSections: seq<string>)

  datatype DatabaseVerdict = DbPlagiarized | DbSuspicious | DbOriginal

  /**
   * The database half of the check. `highestMatch` is `None` for both `null` and an
   * absent key; `allMatches` is `None` when the key is absent (no previous submissions).
   */
  datatype DatabaseResult = DatabaseResult(
    totalChecked: nat,
    matchesFound: nat,
    highestMatch: Option<SubmissionMatch>,
    allMatches: Option<seq<SubmissionMatch>>,
    overallVerdict: DatabaseVerdict)

  /** The parsed answer of the web check. */
  datatype WebCheck = WebCheck(originalityScore: Option<int>, verdict: string, analysis: string, indicators: seq<string>)

  datatype FinalVerdict = Plagiarized | NeedsReview | Original

  datatype Comprehensive = Comprehensive(databaseCheck: DatabaseResult, webCheck: WebCheck, finalVerdict: FinalVerdict, timestamp: int)

  /** Pairwise scores at or above this are reported. */
  const MatchThreshold := 41
  /** A top score at or above this makes the database verdict PLAGIARIZED. */
  const PlagiarizedThreshold := 61

  /** The order of `matches.sort((a, b) => b.plagiarismScore - a.plagiarismScore)`. */
  const ByScore := (a: SubmissionMatch, b: SubmissionMatch) => a.plagiarismScore > b.plagiarismScore

  function MatchOf(s: PreviousSubmission, a: PairAnswer): SubmissionMatch {
    SubmissionMatch(s.studentId, s.studentName, a.plagiarismScore, a.verdict, a.analysis, a.similarSections)
  }

  /**
   * The matches pushed while comparing with `previous` in order, or the error of the
   * first comparison that throws. `compare` gives the model's answer for a previous text.
   */
  function Collect(previous: seq<PreviousSubmission>, compare: string -> Result<PairAnswer>): (r: Result<seq<SubmissionMatch>>)
    ensures r.Failure? <==> exists s :: s in previous && compare(s.text).Failure?
    ensures r.Success? ==> |r.value| <= |previous|
    ensures r.Success? ==> forall m :: m in r.value ==> m.plagiarismScore >= MatchThreshold
    ensures r.Success? ==> forall m :: m in r.value ==> exists s :: s in previous && m == MatchOf(s, compare(s.text).value)
    ensures r.Success? ==>
      forall s :: s in previous && compare(s.text).value.plagiarismScore >= MatchThreshold ==> MatchOf(s, compare(s.text).value) in r.value
  {
    if previous == [] then Success([])
    else
      var init := previous[..|previous| - 1];
      var last := previous[|previous| - 1];
      assert forall s :: s in previous <==> s in init || s == last;
      match Collect(init, compare)
      case Failure(e) => Failure(e)
      case Success(ms) =>
        match compare(last.text)
        case Failure(e) => Failure(e)
        case Success(a) => Success(if a.plagiarismScore >= MatchThreshold then ms + [MatchOf(last, a)] else ms)
  }

  function VerdictOf(matches: seq<SubmissionMatch>): DatabaseVerdict {
    if |matches| > 0 && matches[0].plagiarismScore >= PlagiarizedThreshold then DbPlagiarized
    else if |matches| > 0 then DbSuspicious
    else DbOriginal
  }

  /** The database half as a function of the previous submissions and the answers. */
  function SubmissionsCheckOf(previous: seq<PreviousSubmission>, compare: string -> Result<PairAnswer>): Result<DatabaseResult> {
    match Collect(previous, compare)
    case Failure(e) => Failure(e)
    case Success(ms) =>
      var sorted := Sort(ms, ByScore);
      Success(DatabaseResult(|previous|, |sorted|, if sorted == [] then None else Some(sorted[0]), Some(sorted), VerdictOf(sorted)))
  }

  /**
   * `checkAgainstSubmissions`: compares with every previous submission in order; any
   * comparison that throws makes the whole check throw.
   */
  method CheckAgainstSubmissions(previous: seq<PreviousSubmission>, compare: string -> Result<PairAnswer>)
    returns (r: Result<DatabaseResult>)
    ensures r == SubmissionsCheckOf(previous, compare)
  {
    var matches: seq<SubmissionMatch> := [];
    var i := 0;
    while i < |previous|
      invariant 0 <= i <= |previous|
      invariant Collect(previous[..i], compare) == Success(matches)
    {
      assert previous[..i + 1][..i] == previous[..i];
      var submission := previous[i];
      var result := compare(submission.text);
      if result.Failure? {
        assert previous[..i + 1][i] == submission;
        CollectFailurePropagates(previous, i + 1, compare);
        return Failure(result.error);
      }
      if result.value.plagiarismScore >= MatchThreshold {
        matches := matches + [MatchOf(submission, result.value)];
      }
      i := i + 1;
    }
    assert previous[..i] == previous;
    matches := Sort(matches, ByScore);
    r := Success(DatabaseResult(|previous|, |matches|, if |matches| > 0 then Some(matches[0]) else None,
                                Some(matches), VerdictOf(matches)));
  }

  /** Once a prefix fails, the whole sequence fails with the same error. */
  lemma {:induction false} CollectFailurePropagates(previous: seq<PreviousSubmission>, k: nat, compare: string -> Result<PairAnswer>)
    requires k <= |previous| && Collect(previous[..k], compare).Failure?
    ensures Collect(previous, compare) == Collect(previous[..k], compare)
    decreases |previous| - k
  {
    if k < |previous| {
      assert previous[..k + 1][..k] == previous[..k];
      CollectFailurePropagates(previous, k + 1, compare);
    } else {
      assert previous[..k] == previous;
    }
  }

  lemma ByScoreIsWeakOrder()
    ensures StrictWeakOrder(ByScore)
  {
  }

  /**
   * The promises of the database half: everything is counted, only scores of 41 or more
   * are reported, sorted highest first, the top match is the first, and the verdict is
   * PLAGIARIZED iff the top score is at least 61, SUSPICIOUS iff there are matches below
   * that, ORIGINAL iff there are none.
   */
  lemma SubmissionsCheckProperties(previous: seq<PreviousSubmission>, compare: string -> Result<PairAnswer>)
    requires SubmissionsCheckOf(previous, compare).Success?
    ensures var r := SubmissionsCheckOf(previous, compare).value;
      && r.allMatches.Some?
      && r.totalChecked == |previous|
      && r.matchesFound == |r.allMatches.value| <= r.totalChecked
      && (forall m :: m in r.allMatches.value ==> m.plagiarismScore >= MatchThreshold)
      && (forall i, j :: 0 <= i < j < |r.allMatches.value| ==>
            r.allMatches.value[i].plagiarismScore >= r.allMatches.value[j].plagiarismScore)
      && (r.highestMatch.None? <==> r.allMatches.value == [])
      && (r.highestMatch.Some? ==> r.highestMatch.value == r.allMatches.value[0])
      && (r.overallVerdict == DbPlagiarized <==> r.highestMatch.Some? && r.highestMatch.value.plagiarismScore >= PlagiarizedThreshold)
      && (r.overallVerdict == DbSuspicious <==> r.highestMatch.Some? && r.highestMatch.value.plagiarismScore < PlagiarizedThreshold)
      && (r.overallVerdict == DbOriginal <==> r.matchesFound == 0)
  {
    var ms := Collect(previous, compare).value;
    var sorted := Sort(ms, ByScore);
    ByScoreIsWeakOrder();
    SortSorted(ms, ByScore);
    forall m | m in sorted ensures m.plagiarismScore >= MatchThreshold {
      assert m in multiset(sorted);
      assert m in multiset(ms);
    }
    forall i, j | 0 <= i < j < |sorted| ensures sorted[i].plagiarismScore >= sorted[j].plagiarismScore {
      assert !ByScore(sorted[j], sorted[i]);
    }
  }

  /** Every previous submission scoring 41 or more is reported. */
  lemma SubmissionsCheckComplete(previous: seq<PreviousSubmission>, compare: string -> Result<PairAnswer>, s: PreviousSubmission)
    requires SubmissionsCheckOf(previous, compare).Success?
    requires s in previous && compare(s.text).value.plagiarismScore >= MatchThreshold
    ensures MatchOf(s, compare(s.text).value) in SubmissionsCheckOf(previous, compare).value.allMatches.value
  {
    var ms := Collect(previous, compare).value;
    var m := MatchOf(s, compare(s.text).value);
    assert m in multiset(ms);
    assert m in multiset(Sort(ms, ByScore));
  }

  /** The database half when there is nothing to compare with: ORIGINAL, 0 checked, no match keys. */
  const NoPrevious := DatabaseResult(0, 0, None, None, DbOriginal)

  /**
   * `determineFinalVerdict`: PLAGIARIZED when the database says PLAGIARIZED or the web
   * says LIKELY_COPIED; otherwise NEEDS_REVIEW when the database says SUSPICIOUS or the
   * web says NEEDS_REVIEW; otherwise ORIGINAL.
   */
  function DetermineFinalVerdict(db: DatabaseVerdict, webVerdict: string): (r: FinalVerdict)
    ensures r == Plagiarized <==> db == DbPlagiarized || webVerdict == "LIKELY_COPIED"
    ensures r == NeedsReview <==>
      !(db == DbPlagiarized || webVerdict == "LIKELY_COPIED") && (db == DbSuspicious || webVerdict == "NEEDS_REVIEW")
    ensures r == Original <==> db == DbOriginal && webVerdict != "LIKELY_COPIED" && webVerdict != "NEEDS_REVIEW"
  {
    if db == DbPlagiarized || webVerdict == "LIKELY_COPIED" then Plagiarized
    else if db == DbSuspicious || webVerdict == "NEEDS_REVIEW" then NeedsReview
    else
      assert db == DbOriginal;
      Original
  }

  /** The comprehensive check as a function of its inputs. */
  function ComprehensiveOf(previous: seq<PreviousSubmission>, compare: string -> Result<PairAnswer>,
                           web: Result<WebCheck>, now: int): Result<Comprehensive>
  {
    var dbCheck := if previous == [] then Success(NoPrevious) else SubmissionsCheckOf(previous, compare);
    if dbCheck.Failure? then Failure(dbCheck.error)
    else if web.Failure? then Failure(web.error)
    else Success(Comprehensive(dbCheck.value, web.value, DetermineFinalVerdict(dbCheck.value.overallVerdict, web.value.verdict), now))
  }

  /**
   * `comprehensivePlagiarismCheck`: both halves must succeed. The two run concurrently
   * in the source; here the database half runs first.
   */
  method ComprehensiveCheck(previous: seq<PreviousSubmission>, compare: string -> Result<PairAnswer>,
                            web: Result<WebCheck>, now: int)
    returns (r: Result<Comprehensive>)
    ensures r == ComprehensiveOf(previous, compare, web, now)
  {
    var databaseCheck: DatabaseResult;
    if |previous| > 0 {
      var d := CheckAgainstSubmissions(previous, compare);
      if d.Failure? {
        return Failure(d.error);
      }
      databaseCheck := d.value;
    } else {
      databaseCheck := NoPrevious;
    }
    if web.Failure? {
      return Failure(web.error);
    }
    r := Success(Comprehensive(databaseCheck, web.value, DetermineFinalVerdict(databaseCheck.overallVerdict, web.value.verdict), now));
  }

  /**
   * The comprehensive check fails exactly when the web check or one of the comparisons
   * throws; with no previous submissions its database half is ORIGINAL with 0 checked;
   * its final verdict combines the two halves.
   */
  lemma ComprehensiveProperties(previous: seq<PreviousSubmission>, compare: string -> Result<PairAnswer>,
                                web: Result<WebCheck>, now: int)
    ensures var r := ComprehensiveOf(previous, compare, web, now);
      && (r.Failure? <==> web.Failure? || exists s :: s in previous && compare(s.text).Failure?)
      && (r.Success? && previous == [] ==>
            r.value.databaseCheck.overallVerdict == DbOriginal && r.value.databaseCheck.totalChecked == 0)
      && (r.Success? ==> r.value.webCheck == web.value && r.value.timestamp == now)
      && (r.Success? ==> r.value.finalVerdict == DetermineFinalVerdict(r.value.databaseCheck.overallVerdict, web.value.verdict))
  {
  }

  /** A check with no previous submissions is ORIGINAL exactly when the web verdict raises no concern. */
  lemma NoPreviousVerdict(webVerdict: string)
    ensures (DetermineFinalVerdict(NoPrevious.overallVerdict, webVerdict) == Original) <==>
      webVerdict != "LIKELY_COPIED" && webVerdict != "NEEDS_REVIEW"
  {
  }
}
