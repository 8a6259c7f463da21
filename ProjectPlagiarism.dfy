/**
 * Plagiarism scoring of an academic project: matching against the projects
 * already handed in, the weighted overall score, the four-band verdict and the
 * assembly of the final report. Every language-model answer is an input.
 */
module ProjectPlagiarism {
  import opened JsText
  import opened Sorting
  import opened ProjectModel

  /** What the pairwise language-model comparison with one corpus project yields. */
  datatype Comparison =
    | Threw                 // the call or `JSON.parse` threw
    | NoJson                // the answer holds no `{...}`
    | Compared(similarityScore: int, matchedSections: seq<string>, analysis: string)

  /** What one whole-project analysis call yields. */
  datatype Outcome<T> =
    | CallFailed            // the call or `JSON.parse` threw: the fixed fallback is used
    | ParsedNull            // the answer parsed to `null`: reading a field of it throws later
    | Parsed(value: T)

  datatype DatabaseCheck = DatabaseCheck(matches: seq<DatabaseMatch>, highestSimilarity: int)

  datatype Verdict = Verdict(status: ReportStatus, message: string, detailedAnalysis: string, recommendations: seq<string>)

  datatype FinalReport = FinalReport(
    overallScore: int,
    status: ReportStatus,
    verdict: string,
    detailedAnalysis: string,
    databaseMatches: seq<DatabaseMatch>,
    webSources: seq<WebSource>,
    geminiInsights: Insights,
    recommendations: seq<string>,
    checkedAt: int)

  /** At most this many corpus projects are compared. */
  const MaxCompared := 10
  /** Similarities at or above this are reported. */
  const ReportThreshold := 30

  /** The order of `matches.sort((a, b) => b.similarity - a.similarity)`. */
  const BySimilarity := (a: DatabaseMatch, b: DatabaseMatch) => a.similarity > b.similarity

  // ---------------------------------------------------------------- corpus matching

  predicate IsCandidate(p: Project, currentStudentId: nat) {
    p.studentId != currentStudentId && IsHandedIn(p.submissionStatus)
  }

  /** The query result: other students' handed-in projects, in collection order. */
  function Candidates(projects: seq<Project>, currentStudentId: nat): (r: seq<Project>)
    ensures |r| <= |projects|
    ensures forall p :: p in r <==> p in projects && IsCandidate(p, currentStudentId)
  {
    if projects == [] then []
    else
      var rest := Candidates(projects[1..], currentStudentId);
      assert forall p :: p in projects <==> p == projects[0] || p in projects[1..];
      if IsCandidate(projects[0], currentStudentId) then [projects[0]] + rest else rest
  }

  /** The projects actually compared: `slice(0, 10)` of the candidates. */
  function ToCheck(projects: seq<Project>, currentStudentId: nat): (r: seq<Project>)
    ensures |r| <= MaxCompared
    ensures |r| <= |Candidates(projects, currentStudentId)| && r == Candidates(projects, currentStudentId)[..|r|]
    ensures |r| < MaxCompared ==> r == Candidates(projects, currentStudentId)
  {
    var c := Candidates(projects, currentStudentId);
    if |c| <= MaxCompared then c else c[..MaxCompared]
  }

  /** `project.studentId?.name || 'Unknown'`: `nameOf` gives "" for a student without a user record or name. */
  function StudentName(studentId: nat, nameOf: nat -> string): string {
    var n := nameOf(studentId);
    if n == "" then "Unknown" else n
  }

  /** The match one comparison contributes, if any. */
  function MatchFor(p: Project, nameOf: nat -> string, outcomeOf: nat -> Comparison): Option<DatabaseMatch> {
    match outcomeOf(p.id)
    case Compared(score, sections, analysis) =>
      if score >= ReportThreshold
      then Some(DatabaseMatch(p.id, p.title, StudentName(p.studentId, nameOf), score, sections, analysis))
      else None
    case _ => None
  }

  /** The matches pushed while comparing `checked` in order, before sorting. */
  function Collect(checked: seq<Project>, nameOf: nat -> string, outcomeOf: nat -> Comparison): (r: seq<DatabaseMatch>)
    ensures |r| <= |checked|
    ensures forall m :: m in r ==> m.similarity >= ReportThreshold
    ensures forall m :: m in r ==> exists p :: p in checked && MatchFor(p, nameOf, outcomeOf) == Some(m)
    ensures forall p :: p in checked && MatchFor(p, nameOf, outcomeOf).Some? ==> MatchFor(p, nameOf, outcomeOf).value in r
  {
    if checked == [] then []
    else
      var init := checked[..|checked| - 1];
      var last := checked[|checked| - 1];
      var pre := Collect(init, nameOf, outcomeOf);
      assert forall p :: p in checked <==> p in init || p == last;
      match MatchFor(last, nameOf, outcomeOf)
      case None => pre
      case Some(m) => pre + [m]
  }

  function HighestOf(matches: seq<DatabaseMatch>): int {
    if matches == [] then 0 else matches[0].similarity
  }

  /** The database check as a function of the corpus and the comparison answers. */
  function DatabaseCheckOf(projects: seq<Project>, currentStudentId: nat, nameOf: nat -> string,
                           outcomeOf: nat -> Comparison, queryFailed: bool): DatabaseCheck
  {
    if queryFailed then DatabaseCheck([], 0)
    else
      var matches := Sort(Collect(ToCheck(projects, currentStudentId), nameOf, outcomeOf), BySimilarity);
      DatabaseCheck(matches, HighestOf(matches))
  }

  /**
   * `checkAgainstDatabase`: compares the new project with the first ten other students'
   * handed-in projects, skipping every comparison that throws or yields no JSON, keeps
   * similarities of 30 or more, and sorts them by similarity, highest first. A failing
   * query yields no matches and 0.
   */
  method CheckAgainstDatabase(projects: seq<Project>, currentStudentId: nat, nameOf: nat -> string,
                              outcomeOf: nat -> Comparison, queryFailed: bool)
    returns (r: DatabaseCheck)
    ensures r == DatabaseCheckOf(projects, currentStudentId, nameOf, outcomeOf, queryFailed)
  {
    if queryFailed {
      return DatabaseCheck([], 0);
    }
    if |Candidates(projects, currentStudentId)| == 0 {
      return DatabaseCheck([], 0);
    }
    var toCheck := ToCheck(projects, currentStudentId);
    var matches: seq<DatabaseMatch> := [];
    var i := 0;
    while i < |toCheck|
      invariant 0 <= i <= |toCheck|
      invariant matches == Collect(toCheck[..i], nameOf, outcomeOf)
    {
      // a comparison that throws or yields no JSON contributes nothing
      var m := MatchFor(toCheck[i], nameOf, outcomeOf);
      if m.Some? {
        matches := matches + [m.value];
      }
      assert toCheck[..i + 1][..i] == toCheck[..i];
      i := i + 1;
    }
    assert toCheck[..i] == toCheck;
    matches := Sort(matches, BySimilarity);
    r := DatabaseCheck(matches, if |matches| > 0 then matches[0].similarity else 0);
  }

  lemma BySimilarityIsWeakOrder()
    ensures StrictWeakOrder(BySimilarity)
  {
  }

  /**
   * The promises of the database check: at most ten matches, each from a compared
   * candidate and at or above the threshold, sorted highest first, and
   * `highestSimilarity` the top match's score, or 0 when there is none.
   */
  lemma DatabaseCheckProperties(projects: seq<Project>, currentStudentId: nat, nameOf: nat -> string,
                                outcomeOf: nat -> Comparison, queryFailed: bool)
    ensures var r := DatabaseCheckOf(projects, currentStudentId, nameOf, outcomeOf, queryFailed);
      && |r.matches| <= MaxCompared
      && (forall m :: m in r.matches ==> m.similarity >= ReportThreshold)
      && (forall m :: m in r.matches ==> exists p :: p in projects && IsCandidate(p, currentStudentId) && m.projectId == p.id)
      && (forall i, j :: 0 <= i < j < |r.matches| ==> r.matches[i].similarity >= r.matches[j].similarity)
      && (r.matches == [] ==> r.highestSimilarity == 0)
      && (r.matches != [] ==> r.highestSimilarity == r.matches[0].similarity)
      && (forall m :: m in r.matches ==> m.similarity <= r.highestSimilarity)
  {
    if !queryFailed {
      MatchesFromCandidates(projects, currentStudentId, nameOf, outcomeOf);
      MatchesSorted(projects, currentStudentId, nameOf, outcomeOf);
    }
  }

  lemma MatchesFromCandidates(projects: seq<Project>, currentStudentId: nat, nameOf: nat -> string, outcomeOf: nat -> Comparison)
    ensures var r := DatabaseCheckOf(projects, currentStudentId, nameOf, outcomeOf, false);
      && |r.matches| <= MaxCompared
      && (forall m :: m in r.matches ==> m.similarity >= ReportThreshold)
      && (forall m :: m in r.matches ==> exists p :: p in projects && IsCandidate(p, currentStudentId) && m.projectId == p.id)
  {
    var r := DatabaseCheckOf(projects, currentStudentId, nameOf, outcomeOf, false);
    var c := Candidates(projects, currentStudentId);
    var checked := ToCheck(projects, currentStudentId);
    assert forall p :: p in checked ==> p in c;
    var collected := Collect(checked, nameOf, outcomeOf);
    assert multiset(r.matches) == multiset(collected);
    forall m | m in r.matches
      ensures m in collected
    {
      assert m in multiset(r.matches);
    }
    forall m | m in r.matches
      ensures exists p :: p in projects && IsCandidate(p, currentStudentId) && m.projectId == p.id
    {
      var p :| p in checked && MatchFor(p, nameOf, outcomeOf) == Some(m);
    }
  }

  lemma MatchesSorted(projects: seq<Project>, currentStudentId: nat, nameOf: nat -> string, outcomeOf: nat -> Comparison)
    ensures var r := DatabaseCheckOf(projects, currentStudentId, nameOf, outcomeOf, false);
      && (forall i, j :: 0 <= i < j < |r.matches| ==> r.matches[i].similarity >= r.matches[j].similarity)
      && (r.matches == [] ==> r.highestSimilarity == 0)
      && (r.matches != [] ==> r.highestSimilarity == r.matches[0].similarity)
      && (forall m :: m in r.matches ==> m.similarity <= r.highestSimilarity)
  {
    var r := DatabaseCheckOf(projects, currentStudentId, nameOf, outcomeOf, false);
    var collected := Collect(ToCheck(projects, currentStudentId), nameOf, outcomeOf);
    BySimilarityIsWeakOrder();
    SortSorted(collected, BySimilarity);
    forall i, j | 0 <= i < j < |r.matches| ensures r.matches[i].similarity >= r.matches[j].similarity {
      assert !BySimilarity(r.matches[j], r.matches[i]);
    }
    forall m | m in r.matches ensures m.similarity <= r.highestSimilarity {
      var k :| 0 <= k < |r.matches| && r.matches[k] == m;
      if k > 0 {
        assert !BySimilarity(r.matches[k], r.matches[0]);
      }
    }
  }

  /** Every one of the first ten candidates whose comparison scores 30 or more is reported. */
  lemma DatabaseCheckComplete(projects: seq<Project>, currentStudentId: nat, nameOf: nat -> string,
                              outcomeOf: nat -> Comparison, p: Project)
    requires p in ToCheck(projects, currentStudentId)
    requires outcomeOf(p.id).Compared? && outcomeOf(p.id).similarityScore >= ReportThreshold
    ensures exists m :: m in DatabaseCheckOf(projects, currentStudentId, nameOf, outcomeOf, false).matches
                        && m.projectId == p.id && m.similarity == outcomeOf(p.id).similarityScore
  {
    var collected := Collect(ToCheck(projects, currentStudentId), nameOf, outcomeOf);
    var m := MatchFor(p, nameOf, outcomeOf).value;
    assert m in collected;
    var sorted := Sort(collected, BySimilarity);
    assert multiset(sorted) == multiset(collected);
    assert m in multiset(sorted);
  }

  // ---------------------------------------------------------------- overall score

  /** `100 - (originalityScore || 50)`: a missing or zero originality counts as 50. */
  function GeminiScore(originalityScore: Option<int>): int {
    if originalityScore.None? || originalityScore.value == 0 then 50 else 100 - originalityScore.value
  }

  /** `webPlagiarismScore || 0`. */
  function WebScore(webPlagiarismScore: Option<int>): int {
    if webPlagiarismScore.None? then 0 else webPlagiarismScore.value
  }

  /** Hundred times the weighted sum 0.40 database + 0.35 model + 0.25 web. */
  function WeightedSum(database: int, originalityScore: Option<int>, webPlagiarismScore: Option<int>): int {
    40 * database + 35 * GeminiScore(originalityScore) + 25 * WebScore(webPlagiarismScore)
  }

  /**
   * `calculateOverallScore`: the weighted sum rounded to the nearest integer (halves up,
   * as `Math.round` does) and clamped to 0..100.
   */
  function OverallScore(highestSimilarity: int, originalityScore: Option<int>, webPlagiarismScore: Option<int>): (r: int)
    ensures 0 <= r <= 100
    ensures var x := WeightedSum(highestSimilarity, originalityScore, webPlagiarismScore);
      && (r == 0 <==> x < 50)
      && (r == 100 <==> x >= 9950)
      && (0 < r < 100 ==> 100 * r - 50 <= x < 100 * r + 50)
  {
    var rounded := (WeightedSum(highestSimilarity, originalityScore, webPlagiarismScore) + 50) / 100;
    if rounded < 0 then 0 else if rounded > 100 then 100 else rounded
  }

  lemma DivMonotone(a: int, b: int)
    requires a <= b
    ensures a / 100 <= b / 100
  {
  }

  lemma OverallScoreMonotoneInSum(d1: int, o1: Option<int>, w1: Option<int>, d2: int, o2: Option<int>, w2: Option<int>)
    requires WeightedSum(d1, o1, w1) <= WeightedSum(d2, o2, w2)
    ensures OverallScore(d1, o1, w1) <= OverallScore(d2, o2, w2)
  {
    DivMonotone(WeightedSum(d1, o1, w1) + 50, WeightedSum(d2, o2, w2) + 50);
  }

  /** A higher database similarity never lowers the overall score. */
  lemma OverallScoreMonotoneInDatabase(d1: int, d2: int, o: Option<int>, w: Option<int>)
    requires d1 <= d2
    ensures OverallScore(d1, o, w) <= OverallScore(d2, o, w)
  {
    OverallScoreMonotoneInSum(d1, o, w, d2, o, w);
  }

  /** A higher web-plagiarism score never lowers the overall score. */
  lemma OverallScoreMonotoneInWeb(d: int, o: Option<int>, w1: int, w2: int)
    requires w1 <= w2
    ensures OverallScore(d, o, Some(w1)) <= OverallScore(d, o, Some(w2))
  {
    OverallScoreMonotoneInSum(d, o, Some(w1), d, o, Some(w2));
  }

  /** Over originality scores 1..100 a more original project never scores higher. */
  lemma OverallScoreAntitoneInOriginality(d: int, o1: int, o2: int, w: Option<int>)
    requires 1 <= o1 <= o2 <= 100
    ensures OverallScore(d, Some(o2), w) <= OverallScore(d, Some(o1), w)
  {
    OverallScoreMonotoneInSum(d, Some(o2), w, d, Some(o1), w);
  }

  /** A zero or missing originality score counts as 50; a missing web score counts as 0. */
  lemma OverallScoreFallbacks(d: int, w: Option<int>)
    ensures OverallScore(d, Some(0), w) == OverallScore(d, None, w) == OverallScore(d, Some(50), w)
    ensures OverallScore(d, None, None) == OverallScore(d, None, Some(0))
  {
  }

  // ---------------------------------------------------------------- verdict

  const MsgPlagiarized := "SEVERE PLAGIARISM DETECTED - Project Rejected"
  const MsgManualReview := "SUSPICIOUS - Requires Manual Review"
  const MsgModerate := "MODERATE CONCERNS - Proceed with Caution"
  const MsgOriginal := "ORIGINAL WORK - Passed Plagiarism Check"

  /** The four verdict messages are distinct (they differ in length). */
  lemma MessagesDistinct()
    ensures MsgPlagiarized != MsgManualReview && MsgPlagiarized != MsgModerate && MsgPlagiarized != MsgOriginal
    ensures MsgManualReview != MsgModerate && MsgManualReview != MsgOriginal && MsgModerate != MsgOriginal
  {
    assert |MsgPlagiarized| == 45 && |MsgManualReview| == 35 && |MsgModerate| == 40 && |MsgOriginal| == 39;
  }

  function CountText(prefix: string, n: nat, suffix: string): string {
    if n > 0 then prefix + NatToString(n) + suffix else ""
  }

  function AnalysisText(score: int, matchCount: nat, insights: Insights, web: WebAnalysis): string {
    if score >= 70 then
      "This project has been flagged for severe plagiarism with an overall score of " + IntToString(score) + "%. "
      + CountText("Found ", matchCount, " similar existing project(s). ")
      + CountText("AI detected ", |insights.redFlags|, " red flags. ")
      + "This submission cannot be accepted."
    else if score >= 45 then
      "This project shows concerning similarity patterns (" + IntToString(score) + "%). "
      + CountText("Similar to ", matchCount, " existing project(s). ")
      + (if |insights.suspiciousPatterns| > 0 then "Suspicious patterns detected. " else "")
      + "Manual review by supervisor required before approval."
    else if score >= 25 then
      "Some similarities detected (" + IntToString(score) + "%). "
      + "While not conclusive, this requires attention. "
      + (if |web.commonPatterns| > 0 then "Contains common patterns found online. " else "")
      + "Review recommended before final submission."
    else
      "This project appears to be original work (" + IntToString(score) + "% similarity score). "
      + (if |insights.strengths| > 0 then "Strengths identified: " + Join(insights.strengths, ", ") + ". " else "")
      + "Approved for submission pending final review."
  }

  /** The status band of a score: PLAGIARIZED from 70, SUSPICIOUS from 25, ORIGINAL below. */
  function StatusOf(score: int): ReportStatus {
    if score >= 70 then Plagiarized else if score >= 25 then Suspicious else Original
  }

  /** The verdict band of a score: its status, its message and its four recommendations. */
  datatype Band = Band(status: ReportStatus, message: string, recommendations: seq<string>)

  function BandOf(score: int): (b: Band)
    ensures b.status == StatusOf(score)
    ensures b.status == Plagiarized <==> score >= 70
    ensures b.status == Suspicious <==> 25 <= score < 70
    ensures b.status == Original <==> score < 25
    ensures b.message == MsgManualReview <==> 45 <= score < 70
    ensures b.message == MsgModerate <==> 25 <= score < 45
    ensures b.message == MsgPlagiarized <==> score >= 70
    ensures b.message == MsgOriginal <==> score < 25
    ensures |b.recommendations| == 4 && b.message != ""
  {
    MessagesDistinct();
    if score >= 70 then
      Band(Plagiarized, MsgPlagiarized,
        ["Submit completely original work", "Properly cite all sources",
         "Rewrite content in your own words", "Consult with supervisor before resubmission"])
    else if score >= 45 then
      Band(Suspicious, MsgManualReview,
        ["Review and revise flagged sections", "Add proper citations where missing",
         "Explain similar content to reviewer", "Provide evidence of original work"])
    else if score >= 25 then
      Band(Suspicious, MsgModerate,
        ["Review citation formatting", "Ensure all quotes are attributed",
         "Add more original analysis", "Consider supervisor consultation"])
    else
      Band(Original, MsgOriginal,
        ["Proceed with submission", "Double-check citation formatting",
         "Maintain academic integrity", "Keep documentation of your work process"])
  }

  /**
   * `determinePlagiarismVerdict`: PLAGIARIZED from 70, SUSPICIOUS needing manual review
   * from 45, SUSPICIOUS with moderate concerns from 25, ORIGINAL below; each band comes
   * with four recommendations and the analysis text of its band.
   */
  function DeterminePlagiarismVerdict(score: int, matchCount: nat, insights: Insights, web: WebAnalysis): (r: Verdict)
    ensures r.status == StatusOf(score)
    ensures r.status == Plagiarized <==> score >= 70
    ensures r.status == Suspicious <==> 25 <= score < 70
    ensures r.status == Original <==> score < 25
    ensures r.message == MsgManualReview <==> 45 <= score < 70
    ensures r.message == MsgModerate <==> 25 <= score < 45
    ensures r.message == MsgPlagiarized <==> score >= 70
    ensures r.message == MsgOriginal <==> score < 25
    ensures |r.recommendations| == 4 && r.message != ""
  {
    var b := BandOf(score);
    Verdict(b.status, b.message, AnalysisText(score, matchCount, insights, web), b.recommendations)
  }

  /** How severe a verdict status is: ORIGINAL 0, SUSPICIOUS 1, PLAGIARIZED 2. */
  function Severity(s: ReportStatus): nat {
    match s
    case Plagiarized => 2
    case Suspicious => 1
    case _ => 0
  }

  /** A higher overall score never yields a milder verdict. */
  lemma VerdictMonotone(s1: int, s2: int, n1: nat, n2: nat, i1: Insights, i2: Insights, w1: WebAnalysis, w2: WebAnalysis)
    requires s1 <= s2
    ensures Severity(DeterminePlagiarismVerdict(s1, n1, i1, w1).status) <= Severity(DeterminePlagiarismVerdict(s2, n2, i2, w2).status)
  {
    StatusMonotone(s1, s2);
  }

  lemma StatusMonotone(s1: int, s2: int)
    requires s1 <= s2
    ensures Severity(StatusOf(s1)) <= Severity(StatusOf(s2))
  {
  }

  // ---------------------------------------------------------------- report

  /** The object `analyzeWithGemini` returns when its call fails. */
  const GeminiFallback := Insights(Some(50), "SUSPICIOUS", ["Analysis failed - manual review required"], [], [],
                                   "Automated analysis encountered an error. Manual review recommended.", Some(0))

  /** The object `analyzeWebPresence` returns when its call fails. */
  const WebFallback := WebAnalysis(Some(50), [], [], "POSSIBLY_COPIED", "Analysis incomplete - manual review recommended")

  /** The final report built from the three analyses, stamped with `now`. */
  function AssembleReport(db: DatabaseCheck, insights: Insights, web: WebAnalysis, now: int): FinalReport {
    var score := OverallScore(db.highestSimilarity, insights.originalityScore, web.webPlagiarismScore);
    var v := DeterminePlagiarismVerdict(score, |db.matches|, insights, web);
    FinalReport(score, v.status, v.message, v.detailedAnalysis, db.matches, web.suspiciousSources,
                insights, v.recommendations, now)
  }

  /** The analysis an outcome stands for; a `null` answer has none. */
  function Resolve<T>(o: Outcome<T>, fallback: T): Option<T> {
    match o
    case CallFailed => Some(fallback)
    case ParsedNull => None
    case Parsed(v) => Some(v)
  }

  /** The outcome of `checkProjectPlagiarism` as a function of its inputs. */
  function ProjectCheckOf(projects: seq<Project>, studentId: nat, nameOf: nat -> string, outcomeOf: nat -> Comparison,
                          queryFailed: bool, gemini: Outcome<Insights>, webPresence: Outcome<WebAnalysis>, now: int)
    : Result<FinalReport>
  {
    if gemini.ParsedNull? || webPresence.ParsedNull? then Failure(NullFailure)
    else Success(AssembleReport(DatabaseCheckOf(projects, studentId, nameOf, outcomeOf, queryFailed),
                                Resolve(gemini, GeminiFallback).value, Resolve(webPresence, WebFallback).value, now))
  }

  const NullFailure := "Failed to complete plagiarism check: Cannot read properties of null"

  /**
   * `checkProjectPlagiarism`: runs the database check and both analyses and assembles
   * the report; it throws exactly when an analysis answer was `null`.
   */
  method CheckProjectPlagiarism(projects: seq<Project>, studentId: nat, nameOf: nat -> string,
                                outcomeOf: nat -> Comparison, queryFailed: bool,
                                gemini: Outcome<Insights>, webPresence: Outcome<WebAnalysis>, now: int)
    returns (r: Result<FinalReport>)
    ensures r.Failure? <==> gemini.ParsedNull? || webPresence.ParsedNull?
    ensures r == ProjectCheckOf(projects, studentId, nameOf, outcomeOf, queryFailed, gemini, webPresence, now)
  {
    var databaseCheck := CheckAgainstDatabase(projects, studentId, nameOf, outcomeOf, queryFailed);
    var insights := Resolve(gemini, GeminiFallback);
    var web := Resolve(webPresence, WebFallback);
    if insights.None? || web.None? {
      return Failure(NullFailure);
    }
    r := Success(AssembleReport(databaseCheck, insights.value, web.value, now));
  }

  /** The report's score is in 0..100, its status is the score's band, and it carries four recommendations. */
  lemma ReportProperties(db: DatabaseCheck, insights: Insights, web: WebAnalysis, now: int)
    ensures var r := AssembleReport(db, insights, web, now);
      && 0 <= r.overallScore <= 100
      && (r.status == Plagiarized <==> r.overallScore >= 70)
      && (r.status == Original <==> r.overallScore < 25)
      && |r.recommendations| == 4
      && r.databaseMatches == db.matches && r.webSources == web.suspiciousSources
  {
  }

  /**
   * When both analyses fail and no match is reported, the project lands in the
   * moderate-concerns band with score 30: the fallbacks alone never pass it as ORIGINAL.
   */
  lemma FallbacksAloneAreModerate(now: int)
    ensures var r := AssembleReport(DatabaseCheck([], 0), GeminiFallback, WebFallback, now);
      r.overallScore == 30 && r.status == Suspicious && r.verdict == MsgModerate
  {
    assert WeightedSum(0, GeminiFallback.originalityScore, WebFallback.webPlagiarismScore) == 3000;
    assert OverallScore(0, GeminiFallback.originalityScore, WebFallback.webPlagiarismScore) == 30;
  }

  /** With both fallbacks, any non-negative database similarity keeps the verdict out of ORIGINAL. */
  lemma FallbacksNeverOriginal(db: DatabaseCheck, now: int)
    requires db.highestSimilarity >= 0
    ensures AssembleReport(db, GeminiFallback, WebFallback, now).status != Original
  {
    OverallScoreMonotoneInDatabase(0, db.highestSimilarity, GeminiFallback.originalityScore, WebFallback.webPlagiarismScore);
  }
}
