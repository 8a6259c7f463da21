/**
 * The project-submission lifecycle over an in-memory collection: creating a
 * DRAFT, running the plagiarism check (PENDING -> CHECKING -> verdict or FAILED),
 * finalizing, the admin review and deletion. Each handler's guards answer with an
 * HTTP status before anything is saved.
 */
module ProjectLifecycle {
  import opened JsText
  import opened ProjectModel
  import opened ProjectPlagiarism

  // ---------------------------------------------------------------- guards

  /** `submitProject`'s guards: 400 for a missing field or an existing handed-in project for the course. */
  function SubmitGuard(projects: seq<Project>, userId: nat, title: string, abstractText: string, fullText: string,
                       department: Option<nat>, courseId: Option<nat>): (code: int)
    ensures code == 400 <==>
      title == "" || abstractText == "" || fullText == "" || department.None?
      || exists p :: p in projects && p.studentId == userId && p.courseId == courseId && IsHandedIn(p.submissionStatus)
    ensures code == 500 <==>
      title != "" && abstractText != "" && fullText != "" && department.Some? && Trim(title) == ""
      && !exists p :: p in projects && p.studentId == userId && p.courseId == courseId && IsHandedIn(p.submissionStatus)
    ensures code == 400 || code == 500 || code == 201
  {
    if title == "" || abstractText == "" || fullText == "" || department.None? then 400
    else if exists p :: p in projects && p.studentId == userId && p.courseId == courseId && IsHandedIn(p.submissionStatus) then 400
    // the schema trims the title and requires it: a blank title fails validation on create
    else if Trim(title) == "" then 500
    else 201
  }

  /** Only the owner or an admin may run a check. */
  function CheckGuard(p: Project, userId: nat, isAdmin: bool): (code: int)
    ensures code == 200 <==> p.studentId == userId || isAdmin
    ensures code == 200 || code == 403
  {
    if p.studentId != userId && !isAdmin then 403 else 200
  }

  /** `finalizeSubmission`'s guards: owner only; blocked while PENDING or CHECKING and when PLAGIARIZED. */
  function FinalizeGuard(p: Project, userId: nat): (code: int)
    ensures code == 200 <==>
      p.studentId == userId && (p.report.status == Original || p.report.status == Suspicious || p.report.status == Failed)
    ensures code == 403 <==> p.studentId != userId
    ensures code == 200 || code == 400 || code == 403
  {
    if p.studentId != userId then 403
    else if p.report.status == Pending || p.report.status == Checking then 400
    else if p.report.status == Plagiarized then 400
    else
      assert p.report.status.Original? || p.report.status.Suspicious? || p.report.status.Failed?;
      200
  }

  /** `deleteProject`'s guards: owner only, DRAFT only. */
  function DeleteGuard(p: Project, userId: nat): (code: int)
    ensures code == 200 <==> p.studentId == userId && p.submissionStatus == Draft
    ensures code == 403 <==> p.studentId != userId
    ensures code == 200 || code == 400 || code == 403
  {
    if p.studentId != userId then 403
    else if p.submissionStatus != Draft then 400
    else 200
  }

  /** The new document `submitProject` creates. */
  function NewProject(id: nat, userId: nat, title: string, abstractText: string, fullText: string,
                      department: Option<nat>, courseId: Option<nat>): (p: Project)
    ensures p.submissionStatus == Draft && p.report.status == Pending
    ensures p.id == id && p.studentId == userId && p.title == Trim(title) && p.submittedAt.None?
  {
    Project(id, userId, Trim(title), abstractText, fullText, department, courseId, DefaultReport, Draft, None, None, None)
  }

  /**
   * The stored report after a completed check: score, status, verdict, analysis, web
   * sources, database matches and `checkedAt` come from the check; every other field
   * keeps its previous value.
   */
  function MergeReport(previous: Report, r: FinalReport): (m: Report)
    ensures m.overallScore == r.overallScore && m.status == r.status && m.verdict == r.verdict
    ensures m.detailedAnalysis == r.detailedAnalysis && m.webSources == r.webSources
    ensures m.databaseMatches == r.databaseMatches && m.checkedAt == Some(r.checkedAt)
    ensures m.geminiInsights == previous.geminiInsights && m.recommendations == previous.recommendations
  {
    previous.(overallScore := r.overallScore, status := r.status, verdict := r.verdict,
              detailedAnalysis := r.detailedAnalysis, webSources := r.webSources,
              databaseMatches := r.databaseMatches, checkedAt := Some(r.checkedAt))
  }

  /** The position of the project with id `id`. */
  function Find(projects: seq<Project>, id: nat): (r: Option<nat>)
    ensures r.Some? ==> r.value < |projects| && projects[r.value].id == id
    ensures r.None? ==> forall p :: p in projects ==> p.id != id
    ensures r.Some? ==> forall k :: 0 <= k < r.value ==> projects[k].id != id
  {
    if projects == [] then None
    else if projects[0].id == id then Some(0)
    else
      match Find(projects[1..], id)
      case None => None
      case Some(k) => Some(k + 1)
  }

  predicate DistinctIds(projects: seq<Project>) {
    forall i, j :: 0 <= i < j < |projects| ==> projects[i].id != projects[j].id
  }

  /** Removing one document keeps the ids distinct. */
  lemma RemoveKeepsDistinct(projects: seq<Project>, i: nat)
    requires DistinctIds(projects) && i < |projects|
    ensures DistinctIds(projects[..i] + projects[i + 1..])
    ensures forall p :: p in projects[..i] + projects[i + 1..] ==> p in projects
  {
    var r := projects[..i] + projects[i + 1..];
    forall a, b | 0 <= a < b < |r| ensures r[a].id != r[b].id {
      var a' := if a < i then a else a + 1;
      var b' := if b < i then b else b + 1;
      assert r[a] == projects[a'] && r[b] == projects[b'];
    }
  }

  /** Replacing a document by one with the same id keeps the ids distinct and below the bound. */
  lemma SetKeepsDistinct(projects: seq<Project>, i: nat, q: Project, bound: nat)
    requires DistinctIds(projects) && (forall p :: p in projects ==> p.id < bound)
    requires i < |projects| && q.id == projects[i].id
    ensures DistinctIds(projects[i := q]) && forall p :: p in projects[i := q] ==> p.id < bound
  {
    var r := projects[i := q];
    forall a, b | 0 <= a < b < |r| ensures r[a].id != r[b].id {
      assert r[a].id == projects[a].id && r[b].id == projects[b].id;
    }
    forall p | p in r ensures p.id < bound {
      var k :| 0 <= k < |r| && r[k] == p;
      assert p.id == projects[k].id;
    }
  }

  /** Appending a document with a fresh id keeps the ids distinct and below the new bound. */
  lemma AppendKeepsDistinct(projects: seq<Project>, p: Project, bound: nat)
    requires DistinctIds(projects) && (forall q :: q in projects ==> q.id < bound) && p.id == bound
    ensures DistinctIds(projects + [p]) && forall q :: q in projects + [p] ==> q.id < bound + 1
  {
    var r := projects + [p];
    forall a, b | 0 <= a < b < |r| ensures r[a].id != r[b].id {
      if b == |projects| {
        assert r[a] in projects;
      }
    }
  }

  class ProjectStore {
    /** The `ProjectSubmission` collection, in insertion order. */
    var projects: seq<Project>
    /** The id the next created document receives. */
    var nextId: nat

    ghost predicate Valid()
      reads this
    {
      DistinctIds(projects) && forall p :: p in projects ==> p.id < nextId
    }

    constructor ()
      ensures Valid() && projects == [] && nextId == 0
    {
      projects := [];
      nextId := 0;
    }

    /** `submitProject`: creates a DRAFT with a PENDING report unless a guard answers first. */
    method SubmitProject(userId: nat, title: string, abstractText: string, fullText: string,
                         department: Option<nat>, courseId: Option<nat>)
      returns (code: int, created: Option<Project>)
      requires Valid()
      modifies this
      ensures Valid()
      ensures code == SubmitGuard(old(projects), userId, title, abstractText, fullText, department, courseId)
      ensures code != 201 ==> created.None? && projects == old(projects) && nextId == old(nextId)
      ensures code == 201 ==>
        && created == Some(NewProject(old(nextId), userId, title, abstractText, fullText, department, courseId))
        && projects == old(projects) + [created.value]
    {
      code := SubmitGuard(projects, userId, title, abstractText, fullText, department, courseId);
      if code != 201 {
        return code, None;
      }
      var p := NewProject(nextId, userId, title, abstractText, fullText, department, courseId);
      AppendKeepsDistinct(projects, p, nextId);
      projects := projects + [p];
      nextId := nextId + 1;
      created := Some(p);
    }

    /**
     * `checkPlagiarism`: 404 for an unknown project, 403 unless owner or admin. The first
     * `save` validates the stored submission status, so a status outside the enumeration
     * makes it throw: the report becomes FAILED (500) and the checker does not run.
     * Otherwise the report becomes CHECKING, the checker runs over the whole collection
     * for the project's owner, and the report becomes the checker's result, or FAILED
     * (500) when the checker throws. Nothing else in the collection changes.
     */
    method CheckPlagiarism(projectId: nat, userId: nat, isAdmin: bool, nameOf: nat -> string,
                           outcomeOf: nat -> Comparison, queryFailed: bool,
                           gemini: Outcome<Insights>, webPresence: Outcome<WebAnalysis>, now: int)
      returns (code: int)
      requires Valid()
      modifies this
      ensures Valid() && nextId == old(nextId) && |projects| == |old(projects)|
      ensures Find(old(projects), projectId).None? ==> code == 404 && projects == old(projects)
      ensures Find(old(projects), projectId).Some? ==>
        var i := Find(old(projects), projectId).value;
        var p := old(projects)[i];
        var checking := old(projects)[i := p.(report := p.report.(status := Checking))];
        var result := ProjectCheckOf(checking, p.studentId, nameOf, outcomeOf, queryFailed, gemini, webPresence, now);
        && (CheckGuard(p, userId, isAdmin) == 403 ==> code == 403 && projects == old(projects))
        && (CheckGuard(p, userId, isAdmin) == 200 && !PassesEnum(p.submissionStatus) ==>
              code == 500 && projects == old(projects)[i := p.(report := p.report.(status := Failed))])
        && (CheckGuard(p, userId, isAdmin) == 200 && PassesEnum(p.submissionStatus) && result.Failure? ==>
              code == 500 && projects == old(projects)[i := p.(report := p.report.(status := Failed))])
        && (CheckGuard(p, userId, isAdmin) == 200 && PassesEnum(p.submissionStatus) && result.Success? ==>
              code == 200 && projects == old(projects)[i := p.(report := MergeReport(p.report.(status := Checking), result.value))])
    {
      var found := Find(projects, projectId);
      if found.None? {
        return 404;
      }
      var i := found.value;
      var p := projects[i];
      if CheckGuard(p, userId, isAdmin) == 403 {
        return 403;
      }
      var original := projects;
      if !PassesEnum(p.submissionStatus) {
        var failed := p.(report := p.report.(status := Failed));
        SetKeepsDistinct(original, i, failed, nextId);
        projects := original[i := failed];
        return 500;
      }
      var checking := original[i := p.(report := p.report.(status := Checking))];
      SetKeepsDistinct(original, i, checking[i], nextId);
      projects := checking;
      var result := CheckProjectPlagiarism(checking, p.studentId, nameOf, outcomeOf, queryFailed, gemini, webPresence, now);
      var final := if result.Failure? then p.(report := p.report.(status := Failed))
                   else p.(report := MergeReport(p.report.(status := Checking), result.value));
      SetKeepsDistinct(original, i, final, nextId);
      projects := original[i := final];
      code := if result.Failure? then 500 else 200;
    }

    /**
     * `finalizeSubmission`: once the guards pass, the submission becomes SUBMITTED,
     * stamped with `now`, whatever its previous submission status.
     */
    method FinalizeSubmission(projectId: nat, userId: nat, now: int) returns (code: int)
      requires Valid()
      modifies this
      ensures Valid() && nextId == old(nextId)
      ensures Find(old(projects), projectId).None? ==> code == 404 && projects == old(projects)
      ensures Find(old(projects), projectId).Some? ==>
        var i := Find(old(projects), projectId).value;
        var p := old(projects)[i];
        && code == FinalizeGuard(p, userId)
        && (code != 200 ==> projects == old(projects))
        && (code == 200 ==> projects == old(projects)[i := p.(submissionStatus := Submitted, submittedAt := Some(now))])
    {
      var found := Find(projects, projectId);
      if found.None? {
        return 404;
      }
      var i := found.value;
      var p := projects[i];
      code := FinalizeGuard(p, userId);
      if code != 200 {
        return;
      }
      projects := projects[i := p.(submissionStatus := Submitted, submittedAt := Some(now))];
    }

    /**
     * `reviewProject` (admin route): an update of the submission status, the reviewer
     * notes and the reviewer; 404 for an unknown project. The update runs no validators,
     * so any status text is stored, and a field missing from the request (`None`) is
     * written as null.
     */
    method ReviewProject(projectId: nat, reviewerId: nat, isAdmin: bool, status: Option<string>, notes: Option<string>)
      returns (code: int)
      requires Valid()
      modifies this
      ensures Valid() && nextId == old(nextId)
      ensures !isAdmin ==> code == 403 && projects == old(projects)
      ensures isAdmin && Find(old(projects), projectId).None? ==> code == 404 && projects == old(projects)
      ensures isAdmin && Find(old(projects), projectId).Some? ==>
        var i := Find(old(projects), projectId).value;
        var p := old(projects)[i];
        && code == 200
        && projects == old(projects)[i := p.(
             submissionStatus := if status.Some? then StatusOfText(status.value) else Unset,
             reviewerNotes := notes,
             reviewedBy := Some(reviewerId))]
    {
      if !isAdmin {
        return 403;
      }
      var found := Find(projects, projectId);
      if found.None? {
        return 404;
      }
      var i := found.value;
      var p := projects[i];
      var submissionStatus := if status.Some? then StatusOfText(status.value) else Unset;
      projects := projects[i := p.(submissionStatus := submissionStatus, reviewerNotes := notes, reviewedBy := Some(reviewerId))];
      code := 200;
    }

    /** `deleteProject`: removes exactly the targeted project once the guards pass. */
    method DeleteProject(projectId: nat, userId: nat) returns (code: int)
      requires Valid()
      modifies this
      ensures Valid() && nextId == old(nextId)
      ensures Find(old(projects), projectId).None? ==> code == 404 && projects == old(projects)
      ensures Find(old(projects), projectId).Some? ==>
        var i := Find(old(projects), projectId).value;
        && code == DeleteGuard(old(projects)[i], userId)
        && (code != 200 ==> projects == old(projects))
        && (code == 200 ==> projects == old(projects)[..i] + old(projects)[i + 1..])
    {
      var found := Find(projects, projectId);
      if found.None? {
        return 404;
      }
      var i := found.value;
      code := DeleteGuard(projects[i], userId);
      if code != 200 {
        return;
      }
      RemoveKeepsDistinct(projects, i);
      projects := projects[..i] + projects[i + 1..];
    }
  }

  // ---------------------------------------------------------------- lifecycle lemmas

  /** A PLAGIARIZED verdict always blocks finalizing; FAILED does not. */
  lemma FinalizeBlocksOnlyUnfinishedOrPlagiarized(p: Project, userId: nat)
    requires p.studentId == userId
    ensures FinalizeGuard(p, userId) == 400 <==>
      p.report.status == Pending || p.report.status == Checking || p.report.status == Plagiarized
  {
  }

  /** A project freshly created cannot be finalized before it is checked, but can be deleted by its owner. */
  lemma NewProjectNeedsCheck(id: nat, userId: nat, title: string, abstractText: string, fullText: string,
                             department: Option<nat>, courseId: Option<nat>, other: nat)
    requires other != userId
    ensures var p := NewProject(id, userId, title, abstractText, fullText, department, courseId);
      && FinalizeGuard(p, userId) == 400
      && DeleteGuard(p, userId) == 200
      && DeleteGuard(p, other) == 403 && FinalizeGuard(p, other) == 403
  {
  }

  /** A completed check leaves the report PENDING-free: its status is the score's verdict band. */
  lemma CheckedStatusIsVerdict(previous: Report, db: DatabaseCheck, insights: Insights, web: WebAnalysis, now: int)
    ensures var m := MergeReport(previous, AssembleReport(db, insights, web, now));
      && (m.status == Original || m.status == Suspicious || m.status == Plagiarized)
      && 0 <= m.overallScore <= 100
      && (m.status == Plagiarized <==> m.overallScore >= 70)
  {
    ReportProperties(db, insights, web, now);
  }

  /** Once handed in, a student cannot create a second project for the same course. */
  lemma HandedInBlocksResubmission(projects: seq<Project>, p: Project, title: string, abstractText: string,
                                   fullText: string, department: Option<nat>)
    requires p in projects && IsHandedIn(p.submissionStatus)
    ensures SubmitGuard(projects, p.studentId, title, abstractText, fullText, department, p.courseId) == 400
  {
  }

  /**
   * A review sent without a status stores null, and a project whose status is null no
   * longer counts as handed in: the student can then create a second project for the course.
   */
  lemma ReviewWithoutStatusUnblocks(p: Project, title: string, abstractText: string, fullText: string,
                                    department: Option<nat>)
    requires IsHandedIn(p.submissionStatus)
    requires title != "" && abstractText != "" && fullText != "" && department.Some? && Trim(title) != ""
    ensures SubmitGuard([p], p.studentId, title, abstractText, fullText, department, p.courseId) == 400
    ensures SubmitGuard([p.(submissionStatus := Unset)], p.studentId, title, abstractText, fullText, department, p.courseId) == 201
  {
    assert p in [p];
    var reviewed := p.(submissionStatus := Unset);
    assert forall q :: q in [reviewed] ==> q == reviewed;
  }
}
