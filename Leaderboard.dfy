/**
 * The course leaderboard and a student's rank, over an in-memory list of exam results.
 *
 * A result is ahead of another when its percentage is higher, or equal with a smaller
 * `timeTaken`. Each student is represented by their best result: the first one in that
 * order, with ties left in stored order. Percentages are kept in hundredths, as the
 * two-decimal values the results are saved with.
 */
module Leaderboard {
  import opened JsText
  import opened Sorting

  datatype ExamResult = ExamResult(
    studentId: nat, courseId: nat, score: int, totalQuestions: int,
    percentage: int, timeTaken: int, completedAt: int)

  datatype User = User(name: string, email: string)

  datatype Entry = Entry(
    studentId: nat, studentName: string, studentEmail: string, score: int,
    percentage: int, totalQuestions: int, timeTaken: int, completedAt: int)

  datatype RankedEntry = RankedEntry(entry: Entry, rank: nat)

  datatype RankReply = NoResults | Rank(rank: nat, score: int, percentage: int, totalQuestions: int, timeTaken: int)

  const DefaultLimit := 100

  /** `{ percentage: -1, timeTaken: 1 }`: the first pair ranks before the second. */
  predicate Ahead(p1: int, t1: int, p2: int, t2: int) {
    p1 > p2 || (p1 == p2 && t1 < t2)
  }

  predicate ResultAhead(a: ExamResult, b: ExamResult) {
    Ahead(a.percentage, a.timeTaken, b.percentage, b.timeTaken)
  }

  function EntryOrder(): (Entry, Entry) -> bool {
    (a: Entry, b: Entry) => Ahead(a.percentage, a.timeTaken, b.percentage, b.timeTaken)
  }

  lemma EntryOrderIsWeakOrder()
    ensures StrictWeakOrder(EntryOrder())
  {
  }

  // ---------------------------------------------------------------- grouping

  function OfCourse(results: seq<ExamResult>, courseId: nat): (r: seq<ExamResult>)
    ensures forall x :: x in r <==> x in results && x.courseId == courseId
  {
    if results == [] then []
    else
      var init := results[..|results| - 1];
      var last := results[|results| - 1];
      assert forall x :: x in results <==> x in init || x == last;
      if last.courseId == courseId then OfCourse(init, courseId) + [last] else OfCourse(init, courseId)
  }

  function OfStudent(results: seq<ExamResult>, studentId: nat): (r: seq<ExamResult>)
    ensures forall x :: x in r <==> x in results && x.studentId == studentId
  {
    if results == [] then []
    else
      var init := results[..|results| - 1];
      var last := results[|results| - 1];
      assert forall x :: x in results <==> x in init || x == last;
      if last.studentId == studentId then OfStudent(init, studentId) + [last] else OfStudent(init, studentId)
  }

  /** The first result of `rs` in leaderboard order: no result of `rs` is ahead of it. */
  function BestIn(rs: seq<ExamResult>): (r: ExamResult)
    requires rs != []
    ensures r in rs
    ensures forall y :: y in rs ==> !ResultAhead(y, r)
  {
    if |rs| == 1 then rs[0]
    else
      var b := BestIn(rs[1..]);
      assert forall y :: y in rs ==> y == rs[0] || y in rs[1..];
      if ResultAhead(b, rs[0]) then b else rs[0]
  }

  /** The students with a result in `rs`, each once, in order of first appearance. */
  function StudentsIn(rs: seq<ExamResult>): (r: seq<nat>)
    ensures forall s :: s in r <==> exists x :: x in rs && x.studentId == s
    ensures forall i, j :: 0 <= i < j < |r| ==> r[i] != r[j]
  {
    if rs == [] then []
    else
      var init := rs[..|rs| - 1];
      var last := rs[|rs| - 1];
      assert forall x :: x in rs <==> x in init || x == last;
      var earlier := StudentsIn(init);
      if last.studentId in earlier then earlier else earlier + [last.studentId]
  }

  lemma StudentHasResults(rs: seq<ExamResult>, s: nat)
    requires s in StudentsIn(rs)
    ensures OfStudent(rs, s) != []
  {
    var x :| x in rs && x.studentId == s;
    assert x in OfStudent(rs, s);
  }

  /** A student's best result in `rs` (the `$group` with `$first` after the sort). */
  function BestOf(rs: seq<ExamResult>, s: nat): (r: ExamResult)
    requires OfStudent(rs, s) != []
    ensures r in rs && r.studentId == s
    ensures forall y :: y in rs && y.studentId == s ==> !ResultAhead(y, r)
  {
    BestIn(OfStudent(rs, s))
  }

  function EntryOf(best: ExamResult, user: User): Entry {
    Entry(best.studentId, user.name, user.email, best.score, best.percentage, best.totalQuestions, best.timeTaken, best.completedAt)
  }

  /** The grouped entries of `students` that have a user record (`$lookup` with `$unwind` drops the rest). */
  function Entries(rs: seq<ExamResult>, students: seq<nat>, users: map<nat, User>): (r: seq<Entry>)
    requires forall s :: s in students ==> OfStudent(rs, s) != []
    ensures |r| <= |students|
    ensures forall e :: e in r ==> e.studentId in students && e.studentId in users
                                   && e == EntryOf(BestOf(rs, e.studentId), users[e.studentId])
    ensures forall s :: s in students && s in users ==> EntryOf(BestOf(rs, s), users[s]) in r
    ensures (forall i, j :: 0 <= i < j < |students| ==> students[i] != students[j]) ==>
              forall i, j :: 0 <= i < j < |r| ==> r[i].studentId != r[j].studentId
  {
    if students == [] then []
    else
      var init := students[..|students| - 1];
      var s := students[|students| - 1];
      assert forall t :: t in students <==> t in init || t == s;
      var earlier := Entries(rs, init, users);
      if s in users then earlier + [EntryOf(BestOf(rs, s), users[s])] else earlier
  }

  /** The groups of a course, before sorting. */
  function CourseEntries(results: seq<ExamResult>, courseId: nat, users: map<nat, User>): seq<Entry> {
    var course := OfCourse(results, courseId);
    var students := StudentsIn(course);
    assert forall s :: s in students ==> OfStudent(course, s) != [] by {
      forall s | s in students ensures OfStudent(course, s) != [] {
        StudentHasResults(course, s);
      }
    }
    Entries(course, students, users)
  }

  /** `parseInt(limit)` with the default 100 when the query has no limit. */
  function LimitOf(limit: Option<string>): Option<int> {
    if limit.None? then Some(DefaultLimit) else ParseInt(limit.value)
  }

  function Min(a: int, b: int): int {
    if a < b then a else b
  }

  /**
   * `getCourseLeaderboard`: the best entry of each student of the course who has a user record,
   * sorted by percentage (descending) and time (ascending), cut to the limit and ranked from 1.
   * A limit that is not a positive integer makes the `$limit` stage fail.
   */
  function CourseLeaderboard(results: seq<ExamResult>, users: map<nat, User>, courseId: nat, limit: Option<string>)
    : (r: Result<seq<RankedEntry>>)
    ensures r.Failure? <==> LimitOf(limit).None? || LimitOf(limit).value <= 0
  {
    var n := LimitOf(limit);
    if n.None? || n.value <= 0 then Failure("invalid $limit")
    else
      var sorted := Sort(CourseEntries(results, courseId, users), EntryOrder());
      var top := sorted[..Min(n.value, |sorted|)];
      Success(seq(|top|, i requires 0 <= i < |top| => RankedEntry(top[i], i + 1)))
  }

  // ---------------------------------------------------------------- leaderboard properties

  lemma PermutationKeepsDistinctIds(s: seq<Entry>, t: seq<Entry>)
    requires multiset(s) == multiset(t)
    requires forall i, j :: 0 <= i < j < |t| ==> t[i].studentId != t[j].studentId
    ensures forall i, j :: 0 <= i < j < |s| ==> s[i].studentId != s[j].studentId
  {
    assert Distinct(t);
    PermutationKeepsDistinct(s, t);
    forall i, j | 0 <= i < j < |s|
      ensures s[i].studentId != s[j].studentId
    {
      assert s[i] in multiset(t) && s[j] in multiset(t);
      var p :| 0 <= p < |t| && t[p] == s[i];
      var q :| 0 <= q < |t| && t[q] == s[j];
      assert p != q;
    }
  }

  function SortedEntries(results: seq<ExamResult>, users: map<nat, User>, courseId: nat): seq<Entry> {
    Sort(CourseEntries(results, courseId, users), EntryOrder())
  }

  /** The leaderboard is the sorted entry list cut to the limit, each entry ranked by its position. */
  lemma BoardIsRankedPrefix(results: seq<ExamResult>, users: map<nat, User>, courseId: nat, limit: Option<string>)
    requires CourseLeaderboard(results, users, courseId, limit).Success?
    ensures var board := CourseLeaderboard(results, users, courseId, limit).value;
      var sorted := SortedEntries(results, users, courseId);
      && |board| == Min(LimitOf(limit).value, |sorted|)
      && forall i :: 0 <= i < |board| ==> board[i] == RankedEntry(sorted[i], i + 1)
  {
  }

  /**
   * At most `limit` entries (100 when the query has none), ranked 1, 2, ... in list order,
   * in leaderboard order, and each student at most once.
   */
  lemma LeaderboardShape(results: seq<ExamResult>, users: map<nat, User>, courseId: nat, limit: Option<string>)
    requires CourseLeaderboard(results, users, courseId, limit).Success?
    ensures var board := CourseLeaderboard(results, users, courseId, limit).value;
      && |board| <= LimitOf(limit).value
      && (limit.None? ==> |board| <= 100)
      && (forall i :: 0 <= i < |board| ==> board[i].rank == i + 1)
      && (forall i, j :: 0 <= i < j < |board| ==> !EntryOrder()(board[j].entry, board[i].entry))
      && (forall i, j :: 0 <= i < j < |board| ==> board[i].entry.studentId != board[j].entry.studentId)
  {
    var entries := CourseEntries(results, courseId, users);
    var sorted := SortedEntries(results, users, courseId);
    BoardIsRankedPrefix(results, users, courseId, limit);
    EntryOrderIsWeakOrder();
    SortSorted(entries, EntryOrder());
    PermutationKeepsDistinctIds(sorted, entries);
  }

  /** Every entry carries the student's best result for the course, and the student has a user record. */
  lemma LeaderboardBestAttempts(results: seq<ExamResult>, users: map<nat, User>, courseId: nat, limit: Option<string>)
    requires CourseLeaderboard(results, users, courseId, limit).Success?
    ensures var board := CourseLeaderboard(results, users, courseId, limit).value;
      forall i :: 0 <= i < |board| ==>
        var e := board[i].entry;
        e.studentId in users &&
        exists x :: x in results && x.courseId == courseId && x.studentId == e.studentId
                    && x.percentage == e.percentage && x.timeTaken == e.timeTaken && x.score == e.score
                    && forall y :: y in results && y.courseId == courseId && y.studentId == e.studentId ==> !ResultAhead(y, x)
  {
    var entries := CourseEntries(results, courseId, users);
    var course := OfCourse(results, courseId);
    var sorted := SortedEntries(results, users, courseId);
    var board := CourseLeaderboard(results, users, courseId, limit).value;
    BoardIsRankedPrefix(results, users, courseId, limit);
    forall i | 0 <= i < |board|
      ensures var e := board[i].entry;
        e.studentId in users &&
        exists x :: x in results && x.courseId == courseId && x.studentId == e.studentId
                    && x.percentage == e.percentage && x.timeTaken == e.timeTaken && x.score == e.score
                    && forall y :: y in results && y.courseId == courseId && y.studentId == e.studentId ==> !ResultAhead(y, x)
    {
      var e := board[i].entry;
      assert e == sorted[i];
      assert sorted[i] in multiset(entries);
      assert e in entries;
      var x := BestOf(course, e.studentId);
      assert x in results && x.courseId == courseId;
    }
  }

  lemma StudentSorted(results: seq<ExamResult>, users: map<nat, User>, courseId: nat, x: ExamResult)
    requires x in results && x.courseId == courseId && x.studentId in users
    ensures exists i :: 0 <= i < |SortedEntries(results, users, courseId)| &&
                        SortedEntries(results, users, courseId)[i].studentId == x.studentId
  {
    var course := OfCourse(results, courseId);
    var entries := CourseEntries(results, courseId, users);
    var sorted := SortedEntries(results, users, courseId);
    var s := x.studentId;
    assert x in course;
    assert s in StudentsIn(course);
    StudentHasResults(course, s);
    var e := EntryOf(BestOf(course, s), users[s]);
    assert e in entries;
    assert e in multiset(sorted);
    var i :| 0 <= i < |sorted| && sorted[i] == e;
  }

  /** A leaderboard shorter than its limit lists every student of the course who has a user record. */
  lemma LeaderboardComplete(results: seq<ExamResult>, users: map<nat, User>, courseId: nat, limit: Option<string>)
    requires CourseLeaderboard(results, users, courseId, limit).Success?
    requires |CourseLeaderboard(results, users, courseId, limit).value| < LimitOf(limit).value
    ensures var board := CourseLeaderboard(results, users, courseId, limit).value;
      forall x :: x in results && x.courseId == courseId && x.studentId in users ==>
        exists i :: 0 <= i < |board| && board[i].entry.studentId == x.studentId
  {
    var sorted := SortedEntries(results, users, courseId);
    var board := CourseLeaderboard(results, users, courseId, limit).value;
    BoardIsRankedPrefix(results, users, courseId, limit);
    assert |board| == |sorted|;
    forall x | x in results && x.courseId == courseId && x.studentId in users
      ensures exists i :: 0 <= i < |board| && board[i].entry.studentId == x.studentId
    {
      StudentSorted(results, users, courseId, x);
      var i :| 0 <= i < |sorted| && sorted[i].studentId == x.studentId;
      assert board[i].entry == sorted[i];
    }
  }

  // ---------------------------------------------------------------- rank

  /** The students of the course whose best result is ahead of `mine`. */
  function StudentsAhead(course: seq<ExamResult>, mine: ExamResult): set<nat> {
    set s | s in StudentsIn(course) && OfStudent(course, s) != [] && ResultAhead(BestOf(course, s), mine)
  }

  /**
   * `getMyRank`: no results for the course gives 404; otherwise the rank is one more than the
   * number of students whose best result is ahead of the caller's best.
   */
  function MyRank(results: seq<ExamResult>, courseId: nat, studentId: nat): (r: RankReply)
    ensures r.NoResults? <==> forall x :: x in results ==> x.courseId != courseId || x.studentId != studentId
    ensures r.Rank? ==>
      var course := OfCourse(results, courseId);
      && OfStudent(course, studentId) != []
      && r.rank == |StudentsAhead(course, BestOf(course, studentId))| + 1
      && r.percentage == BestOf(course, studentId).percentage
      && r.timeTaken == BestOf(course, studentId).timeTaken
  {
    var course := OfCourse(results, courseId);
    var mine := OfStudent(course, studentId);
    if mine == [] then
      assert forall x :: x in results && x.courseId == courseId && x.studentId == studentId ==> x in mine;
      NoResults
    else
      var myBest := BestIn(mine);
      Rank(|StudentsAhead(course, myBest)| + 1, myBest.score, myBest.percentage, myBest.totalQuestions, myBest.timeTaken)
  }

  lemma SubsetSmaller(a: set<nat>, b: set<nat>, x: nat)
    requires a <= b && x in b && x !in a
    ensures |a| < |b|
  {
    assert b == a + (b - a);
    assert x in b - a;
  }

  /** The caller is never ahead of themself: a rank is at least 1, and it is 1 exactly when nobody is ahead. */
  lemma RankBounds(results: seq<ExamResult>, courseId: nat, studentId: nat)
    requires MyRank(results, courseId, studentId).Rank?
    ensures var course := OfCourse(results, courseId);
      && StudentsAhead(course, BestOf(course, studentId)) <= set s | s in StudentsIn(course)
      && studentId !in StudentsAhead(course, BestOf(course, studentId))
      && (MyRank(results, courseId, studentId).rank == 1 <==> StudentsAhead(course, BestOf(course, studentId)) == {})
  {
  }

  /** A student whose best result is ahead of another's has the smaller rank. */
  lemma RankOrder(results: seq<ExamResult>, courseId: nat, a: nat, b: nat)
    requires MyRank(results, courseId, a).Rank? && MyRank(results, courseId, b).Rank?
    requires var course := OfCourse(results, courseId); ResultAhead(BestOf(course, a), BestOf(course, b))
    ensures MyRank(results, courseId, a).rank < MyRank(results, courseId, b).rank
  {
    var course := OfCourse(results, courseId);
    var ba := BestOf(course, a);
    var bb := BestOf(course, b);
    var aheadA := StudentsAhead(course, ba);
    var aheadB := StudentsAhead(course, bb);
    assert a in StudentsIn(course);
    assert aheadA <= aheadB;
    assert a in aheadB;
    SubsetSmaller(aheadA, aheadB, a);
  }
}
