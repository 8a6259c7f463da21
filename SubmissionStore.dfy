/**
 * The in-memory per-assignment submission store behind the assignment plagiarism
 * endpoints. Only submissions judged ORIGINAL are kept for later comparisons.
 * The empty string stands for every falsy request value.
 */
module SubmissionStore {
  import opened JsText
  import opened DuplicateCheck

  datatype SubmissionSummary = SubmissionSummary(studentId: string, studentName: string, submittedAt: int, textLength: nat)

  datatype AssignmentStats = AssignmentStats(assignmentId: string, totalSubmissions: nat, submissions: seq<SubmissionSummary>)

  /** The previous submissions of an assignment: its stored list, or none when it has no entry. */
  function PreviousOf(db: map<string, seq<PreviousSubmission>>, assignmentId: string): seq<PreviousSubmission> {
    if assignmentId in db then db[assignmentId] else []
  }

  function Summary(s: PreviousSubmission): (r: SubmissionSummary)
    ensures r.studentId == s.studentId && r.studentName == s.studentName
    ensures r.submittedAt == s.submittedAt && r.textLength == |s.text|
  {
    SubmissionSummary(s.studentId, s.studentName, s.submittedAt, |s.text|)
  }

  function Summaries(subs: seq<PreviousSubmission>): (r: seq<SubmissionSummary>)
    ensures |r| == |subs|
    ensures forall i :: 0 <= i < |subs| ==> r[i] == Summary(subs[i])
  {
    if subs == [] then [] else [Summary(subs[0])] + Summaries(subs[1..])
  }

  /** `getAssignmentStats`: the stored list summarised in order, empty for an unknown assignment. */
  function StatsOf(db: map<string, seq<PreviousSubmission>>, assignmentId: string): (r: AssignmentStats)
    ensures r.totalSubmissions == |PreviousOf(db, assignmentId)| == |r.submissions|
    ensures assignmentId !in db ==> r.totalSubmissions == 0
    ensures forall i :: 0 <= i < |r.submissions| ==> r.submissions[i].textLength == |PreviousOf(db, assignmentId)[i].text|
  {
    var subs := PreviousOf(db, assignmentId);
    AssignmentStats(assignmentId, |subs|, Summaries(subs))
  }

  class Store {
    /** `submissionDatabase`: assignment id to its stored ORIGINAL submissions, oldest first. */
    var db: map<string, seq<PreviousSubmission>>

    constructor ()
      ensures db == map[]
    {
      db := map[];
    }

    /**
     * `checkPlagiarism`: 400 without text or assignment id; 500 when the check throws;
     * otherwise 200, and an ORIGINAL verdict appends the submission to its assignment's list.
     * `userId` and `userName` are the authenticated user's, used when the body omits them.
     */
    method CheckPlagiarism(text: string, assignmentId: string, studentId: string, studentName: string,
                           userId: string, userName: string,
                           compare: string -> Result<PairAnswer>, web: Result<WebCheck>, now: int)
      returns (status: int, result: Option<Comprehensive>)
      modifies this
      ensures text == "" || assignmentId == "" ==> status == 400 && result.None? && db == old(db)
      ensures text != "" && assignmentId != "" ==>
        var previous := PreviousOf(old(db), assignmentId);
        var check := ComprehensiveOf(previous, compare, web, now);
        && (check.Failure? ==> status == 500 && result.None? && db == old(db))
        && (check.Success? ==> status == 200 && result == Some(check.value))
        && (check.Success? && check.value.finalVerdict == Original ==>
              db == old(db)[assignmentId := previous + [PreviousSubmission(
                                 if studentId != "" then studentId else userId,
                                 if studentName != "" then studentName else userName, text, now)]])
        && (check.Success? && check.value.finalVerdict != Original ==> db == old(db))
    {
      if text == "" || assignmentId == "" {
        return 400, None;
      }
      var previous := PreviousOf(db, assignmentId);
      var check := ComprehensiveCheck(previous, compare, web, now);
      if check.Failure? {
        return 500, None;
      }
      if check.value.finalVerdict == Original {
        if assignmentId !in db {
          db := db[assignmentId := []];
        }
        var sid := if studentId != "" then studentId else userId;
        var sname := if studentName != "" then studentName else userName;
        db := db[assignmentId := db[assignmentId] + [PreviousSubmission(sid, sname, text, now)]];
      }
      return 200, Some(check.value);
    }

    /** `getAssignmentStats`. */
    function Stats(assignmentId: string): AssignmentStats
      reads this
    {
      StatsOf(db, assignmentId)
    }

    /** `clearAssignmentSubmissions`: drops that assignment's list and nothing else. */
    method Clear(assignmentId: string)
      modifies this
      ensures db == old(db) - {assignmentId}
    {
      if assignmentId in db {
        db := db - {assignmentId};
      }
    }
  }

  /** Storing a submission adds exactly one to its assignment's count and leaves every other assignment's stats alone. */
  lemma StoreAddsOne(db: map<string, seq<PreviousSubmission>>, a: string, s: PreviousSubmission)
    ensures StatsOf(db[a := PreviousOf(db, a) + [s]], a).totalSubmissions == StatsOf(db, a).totalSubmissions + 1
    ensures forall b :: b != a ==> StatsOf(db[a := PreviousOf(db, a) + [s]], b) == StatsOf(db, b)
  {
  }

  /** After clearing, the assignment reports no submissions, and clearing again changes nothing. */
  lemma ClearIsFinal(db: map<string, seq<PreviousSubmission>>, a: string)
    ensures StatsOf(db - {a}, a).totalSubmissions == 0
    ensures (db - {a}) - {a} == db - {a}
    ensures forall b :: b != a ==> StatsOf(db - {a}, b) == StatsOf(db, b)
  {
  }
}
