/**
 * The project-submission document: its submission lifecycle, its embedded
 * plagiarism report and the records the plagiarism checker produces.
 * Object ids are natural numbers; dates are integer timestamps.
 */
module ProjectModel {
  import opened JsText

  /**
   * `submissionStatus`, default DRAFT. The admin review writes the requested value
   * without running the schema's enum validator, so a text outside the enumeration
   * (`Unlisted`) or a null (`Unset`) can be stored as well.
   */
  datatype SubmissionStatus = Draft | Submitted | UnderReview | Approved | Rejected | Unlisted(text: string) | Unset

  /** The enumeration of the schema. */
  predicate ListedStatusText(t: string) {
    t in {"DRAFT", "SUBMITTED", "UNDER_REVIEW", "APPROVED", "REJECTED"}
  }

  /** The enum validator that `save` runs accepts only the five enumerated statuses. */
  predicate PassesEnum(s: SubmissionStatus) {
    !s.Unlisted? && !s.Unset?
  }

  /** The stored value of a status: its text, or null (`None`). */
  function StatusText(s: SubmissionStatus): Option<string> {
    match s
    case Draft => Some("DRAFT")
    case Submitted => Some("SUBMITTED")
    case UnderReview => Some("UNDER_REVIEW")
    case Approved => Some("APPROVED")
    case Rejected => Some("REJECTED")
    case Unlisted(t) => Some(t)
    case Unset => None
  }

  /** The status a stored text reads as: one of the enumeration, or `Unlisted` for any other text. */
  function StatusOfText(t: string): (s: SubmissionStatus)
    ensures PassesEnum(s) <==> ListedStatusText(t)
    ensures !s.Unset?
  {
    if t == "DRAFT" then Draft
    else if t == "SUBMITTED" then Submitted
    else if t == "UNDER_REVIEW" then UnderReview
    else if t == "APPROVED" then Approved
    else if t == "REJECTED" then Rejected
    else Unlisted(t)
  }

  /** Reading a text as a status and writing it back gives the same text, and a listed status reads back as itself. */
  lemma StatusTextRoundTrip(t: string, s: SubmissionStatus)
    ensures StatusText(StatusOfText(t)) == Some(t)
    ensures PassesEnum(s) ==> StatusText(s).Some? && StatusOfText(StatusText(s).value) == s
  {
  }

  /** `plagiarismReport.status`, default PENDING. */
  datatype ReportStatus = Pending | Checking | Original | Suspicious | Plagiarized | Failed

  /** A corpus project whose content resembles the new one. */
  datatype DatabaseMatch = DatabaseMatch(
    projectId: nat,
    projectTitle: string,
    studentName: string,
    similarity: int,
    matchedSections: seq<string>,
    analysis: string)

  /** A web source that the web-presence analysis suspects. */
  datatype WebSource = WebSource(
    sourceType: string,
    likelihood: int,
    reason: string,
    indicators: seq<string>,
    possibleUrls: seq<string>)

  /**
   * The originality analysis returned by the language model. A missing number is
   * `None`; a missing list is the empty list, which every reader treats alike.
   */
  datatype Insights = Insights(
    originalityScore: Option<int>,
    verdict: string,
    redFlags: seq<string>,
    strengths: seq<string>,
    suspiciousPatterns: seq<string>,
    detailedAnalysis: string,
    confidence: Option<int>)

  /** The web-presence analysis returned by the language model. */
  datatype WebAnalysis = WebAnalysis(
    webPlagiarismScore: Option<int>,
    suspiciousSources: seq<WebSource>,
    commonPatterns: seq<string>,
    verdict: string,
    analysis: string)

  /** The embedded `plagiarismReport` of a project. */
  datatype Report = Report(
    overallScore: int,
    status: ReportStatus,
    webSources: seq<WebSource>,
    databaseMatches: seq<DatabaseMatch>,
    geminiInsights: Option<Insights>,
    recommendations: seq<string>,
    detailedAnalysis: string,
    checkedAt: Option<int>,
    verdict: string)

  /** The report of a freshly created project: every field at its schema default. */
  const DefaultReport := Report(0, Pending, [], [], None, [], "", None, "")

  datatype Project = Project(
    id: nat,
    studentId: nat,
    title: string,
    abstractText: string,
    fullText: string,
    department: Option<nat>,
    courseId: Option<nat>,
    report: Report,
    submissionStatus: SubmissionStatus,
    reviewerNotes: Option<string>,
    reviewedBy: Option<nat>,
    submittedAt: Option<int>)

  /** The statuses that count as handed in: SUBMITTED, UNDER_REVIEW or APPROVED. */
  predicate IsHandedIn(s: SubmissionStatus) {
    s == Submitted || s == UnderReview || s == Approved
  }
}
