/**
 * IT placement applications: a student applies once while no earlier application
 * is still active, an admin updates the status and placement fields, and the admin
 * listing filters, orders newest first and pages. The collection is a sequence in
 * which an application's id is its position; clock readings are parameters.
 */
module ItPlacement {
  import opened JsText
  import opened Sorting

  const Pending := "Pending"
  const UnderReview := "Under Review"
  const Matched := "Matched"
  const Placed := "Placed"
  const Rejected := "Rejected"
  const Withdrawn := "Withdrawn"

  /** The status enumeration of the schema. */
  predicate ValidStatus(s: string) {
    s == Pending || s == UnderReview || s == Matched || s == Placed || s == Rejected || s == Withdrawn
  }

  /** The form fields the controller logic reads (the others are passed through unchanged). */
  datatype Application = Application(
    id: nat, studentId: string, track: string, studyCenter: string,
    status: string, company: string, details: string, notes: string,
    createdAt: int, reviewedAt: Option<int>, placedAt: Option<int>)

  /** An application that still blocks a new one: its status is neither Rejected nor Withdrawn. */
  predicate Active(a: Application) {
    a.status != Rejected && a.status != Withdrawn
  }

  predicate HasActive(apps: seq<Application>, studentId: string) {
    exists i :: 0 <= i < |apps| && apps[i].studentId == studentId && Active(apps[i])
  }

  /** The track enumeration of the schema. */
  predicate ValidTrack(t: string) {
    t in {"Frontend Development", "Backend Development", "Mobile App Development", "Cloud Engineering",
          "Full Stack Development", "DevOps", "Data Science"}
  }

  /**
   * The fields of the application form as the request body gives them; `None` is an
   * absent field, and an absent or unreadable start date is `None` too.
   */
  datatype Form = Form(
    fullName: Option<string>, email: Option<string>, phone: Option<string>,
    matricNumber: Option<string>, department: Option<string>, level: Option<string>,
    studyCenter: Option<string>, track: Option<string>, experienceLevel: Option<string>,
    hasLaptop: Option<bool>, internetAccess: Option<bool>, availableStartDate: Option<int>,
    duration: Option<string>, locationPreference: Option<string>)

  /** A required string field: present and not empty. */
  predicate Given(f: Option<string>) {
    f.Some? && f.value != ""
  }

  /** A required string field with the `trim` setter: not empty once trimmed. */
  predicate GivenTrimmed(f: Option<string>) {
    f.Some? && Trim(f.value) != ""
  }

  /** A required string field restricted to an enumeration. */
  predicate OneOf(f: Option<string>, values: set<string>) {
    f.Some? && f.value in values
  }

  /**
   * The schema validators `ITPlacement.create` runs: every required field present,
   * and the level, track, experience level, duration and location preference in
   * their enumerations.
   */
  predicate ValidForm(f: Form) {
    && GivenTrimmed(f.fullName) && GivenTrimmed(f.email) && Given(f.phone)
    && GivenTrimmed(f.matricNumber) && Given(f.department)
    && OneOf(f.level, {"100", "200", "300", "400", "500"})
    && Given(f.studyCenter)
    && f.track.Some? && ValidTrack(f.track.value)
    && OneOf(f.experienceLevel, {"Beginner", "Intermediate", "Advanced"})
    && f.hasLaptop.Some? && f.internetAccess.Some? && f.availableStartDate.Some?
    && OneOf(f.duration, {"3 months", "6 months", "12 months"})
    && OneOf(f.locationPreference, {"Remote", "On-site", "Hybrid"})
  }

  /**
   * What the schema guarantees of a stored application: a valid status and track, a
   * study centre, and trimmed placement fields.
   */
  predicate Stored(a: Application) {
    && ValidStatus(a.status) && ValidTrack(a.track) && a.studyCenter != ""
    && Trimmed(a.company) && Trimmed(a.details) && Trimmed(a.notes)
  }

  /** `ITPlacement.create` on a valid form: the status defaults to Pending; the placement fields start empty. */
  function NewApplication(id: nat, studentId: string, track: string, studyCenter: string, now: int): (a: Application)
    requires ValidTrack(track) && studyCenter != ""
    ensures a.status == Pending && Active(a) && Stored(a)
    ensures a.reviewedAt.None? && a.placedAt.None?
  {
    Application(id, studentId, track, studyCenter, Pending, "", "", "", now, None, None)
  }

  /**
   * The assignments of `updateApplicationStatus` before `save`: each field takes the
   * provided value when it is non-empty and its old value otherwise (the schema trims
   * the placement fields); the review and placement times are stamped from the
   * requested status.
   */
  function Revised(a: Application, status: string, company: string, details: string, notes: string, now: int): Application {
    a.(status := if status != "" then status else a.status,
       company := Trim(if company != "" then company else a.company),
       details := Trim(if details != "" then details else a.details),
       notes := Trim(if notes != "" then notes else a.notes),
       reviewedAt := if status == UnderReview then Some(now) else a.reviewedAt,
       placedAt := if status == Placed then Some(now) else a.placedAt)
  }

  datatype ApplyOutcome = AlreadyActive | FormRejected | Created(app: Application)
  datatype UpdateOutcome = NotFound | ValidationFailed | Updated(app: Application)

  class Registry {
    var apps: seq<Application>

    ghost predicate Valid()
      reads this
    {
      forall i :: 0 <= i < |apps| ==> apps[i].id == i && Stored(apps[i])
    }

    constructor()
      ensures Valid() && apps == []
    {
      apps := [];
    }

    /**
     * `applyForIT`: 400 while the student has an active application; a form the schema
     * rejects makes `create` throw, answered with 500 and nothing stored; otherwise a
     * new Pending application is appended.
     */
    method Apply(studentId: string, form: Form, now: int) returns (r: ApplyOutcome)
      requires Valid()
      modifies this
      ensures Valid()
      ensures HasActive(old(apps), studentId) ==> r == AlreadyActive && apps == old(apps)
      ensures !HasActive(old(apps), studentId) && !ValidForm(form) ==> r == FormRejected && apps == old(apps)
      ensures !HasActive(old(apps), studentId) && ValidForm(form) ==>
        r == Created(NewApplication(|old(apps)|, studentId, form.track.value, form.studyCenter.value, now))
        && apps == old(apps) + [r.app]
    {
      if exists i :: 0 <= i < |apps| && apps[i].studentId == studentId && Active(apps[i]) {
        return AlreadyActive;
      }
      if !ValidForm(form) {
        return FormRejected;
      }
      var a := NewApplication(|apps|, studentId, form.track.value, form.studyCenter.value, now);
      apps := apps + [a];
      return Created(a);
    }

    /**
     * `updateApplicationStatus`: 404 for an unknown id; a status outside the enumeration
     * fails validation on save; otherwise the revised application replaces the old one.
     */
    method UpdateStatus(id: nat, status: string, company: string, details: string, notes: string, now: int)
      returns (r: UpdateOutcome)
      requires Valid()
      modifies this
      ensures Valid()
      ensures id >= |old(apps)| ==> r == NotFound && apps == old(apps)
      ensures id < |old(apps)| ==>
        var b := Revised(old(apps)[id], status, company, details, notes, now);
        if ValidStatus(b.status) then r == Updated(b) && apps == old(apps)[id := b]
        else r == ValidationFailed && apps == old(apps)
    {
      if id >= |apps| {
        return NotFound;
      }
      ghost var a := apps[id];
      var b := apps[id];
      b := b.(status := if status != "" then status else b.status);
      b := b.(company := Trim(if company != "" then company else b.company));
      b := b.(details := Trim(if details != "" then details else b.details));
      b := b.(notes := Trim(if notes != "" then notes else b.notes));
      if status == UnderReview {
        b := b.(reviewedAt := Some(now));
      }
      if status == Placed {
        b := b.(placedAt := Some(now));
      }
      assert b == Revised(a, status, company, details, notes, now);
      if !ValidStatus(b.status) {
        return ValidationFailed;
      }
      RevisedStored(a, status, company, details, notes, now);
      apps := apps[id := b];
      forall i | 0 <= i < |apps|
        ensures apps[i].id == i && Stored(apps[i])
      {
        if i != id {
          assert apps[i] == old(apps)[i];
        }
      }
      return Updated(b);
    }
  }

  /** At most one active application per student. */
  predicate OneActiveEach(apps: seq<Application>) {
    forall i, j :: 0 <= i < j < |apps| && apps[i].studentId == apps[j].studentId ==> !(Active(apps[i]) && Active(apps[j]))
  }

  /** Applying alone never gives a student a second active application. */
  lemma ApplyKeepsOneActive(apps: seq<Application>, studentId: string, track: string, studyCenter: string, now: int)
    requires OneActiveEach(apps) && !HasActive(apps, studentId)
    requires ValidTrack(track) && studyCenter != ""
    ensures OneActiveEach(apps + [NewApplication(|apps|, studentId, track, studyCenter, now)])
  {
    var s := apps + [NewApplication(|apps|, studentId, track, studyCenter, now)];
    forall i, j | 0 <= i < j < |s| && s[i].studentId == s[j].studentId
      ensures !(Active(s[i]) && Active(s[j]))
    {
      if j == |apps| {
        assert s[i] == apps[i];
      }
    }
  }

  /**
   * Each field is replaced when a non-empty value is given and keeps its stored
   * value otherwise; `reviewedAt` changes only for "Under Review" and `placedAt`
   * only for "Placed"; the owner, track, centre and creation time never change.
   */
  lemma RevisedFields(a: Application, status: string, company: string, details: string, notes: string, now: int)
    requires Stored(a)
    ensures var b := Revised(a, status, company, details, notes, now);
      && b.status == (if status != "" then status else a.status)
      && (company != "" ==> b.company == Trim(company)) && (company == "" ==> b.company == a.company)
      && (details != "" ==> b.details == Trim(details)) && (details == "" ==> b.details == a.details)
      && (notes != "" ==> b.notes == Trim(notes)) && (notes == "" ==> b.notes == a.notes)
      && (b.reviewedAt != a.reviewedAt ==> status == UnderReview) && (status == UnderReview ==> b.reviewedAt == Some(now))
      && (b.placedAt != a.placedAt ==> status == Placed) && (status == Placed ==> b.placedAt == Some(now))
      && b.id == a.id && b.studentId == a.studentId && b.track == a.track
      && b.studyCenter == a.studyCenter && b.createdAt == a.createdAt
  {
    KeepOrReplace(a.company, company);
    KeepOrReplace(a.details, details);
    KeepOrReplace(a.notes, notes);
  }

  /** `given || stored` through the schema's trim setter. */
  lemma KeepOrReplace(stored: string, given: string)
    requires Trimmed(stored)
    ensures Trim(if given != "" then given else stored) == if given != "" then Trim(given) else stored
  {
    TrimOfTrimmed(stored);
  }

  /** A revision with a valid status is again fit to store. */
  lemma RevisedStored(a: Application, status: string, company: string, details: string, notes: string, now: int)
    requires Stored(a) && ValidStatus(Revised(a, status, company, details, notes, now).status)
    ensures Stored(Revised(a, status, company, details, notes, now))
    ensures Revised(a, status, company, details, notes, now).id == a.id
  {
  }

  /** An update with nothing provided changes nothing. */
  lemma EmptyUpdateChangesNothing(a: Application, now: int)
    requires Stored(a)
    ensures Revised(a, "", "", "", "", now) == a
  {
    RevisedFields(a, "", "", "", "", now);
  }

  /** An admin can return a rejected application to an active status, so two can then be active at once. */
  lemma ReactivationAllowsTwoActive()
    ensures var old1 := NewApplication(0, "s", "DevOps", "Lagos", 1).(status := Rejected);
      var second := NewApplication(1, "s", "DevOps", "Lagos", 2);
      var apps := [old1, second];
      && OneActiveEach(apps)
      && !OneActiveEach(apps[0 := Revised(old1, Pending, "", "", "", 3)])
  {
    var old1 := NewApplication(0, "s", "DevOps", "Lagos", 1).(status := Rejected);
    var second := NewApplication(1, "s", "DevOps", "Lagos", 2);
    var apps := [old1, second];
    var revived := apps[0 := Revised(old1, Pending, "", "", "", 3)];
    assert revived[0].status == Pending && revived[1].status == Pending;
  }

  // ---------------------------------------------------------------------------
  // getAllApplications and getMyApplication
  // ---------------------------------------------------------------------------

  /** The query from `status`, `track` and `studyCenter`; an empty value adds no condition. */
  datatype Query = Query(status: string, track: string, studyCenter: string)

  predicate Selects(q: Query, a: Application) {
    && (q.status == "" || a.status == q.status)
    && (q.track == "" || a.track == q.track)
    && (q.studyCenter == "" || a.studyCenter == q.studyCenter)
  }

  /** `ITPlacement.find(query)`: the selected applications, in collection order. */
  function Find(apps: seq<Application>, q: Query): (r: seq<Application>)
    ensures |r| <= |apps|
    ensures forall a :: a in r <==> a in apps && Selects(q, a)
    decreases |apps|
  {
    if apps == [] then []
    else (if Selects(q, apps[0]) then [apps[0]] else []) + Find(apps[1..], q)
  }

  function CreatedAt(a: Application): int {
    a.createdAt
  }

  /** `.sort({ createdAt: -1 })`. */
  function NewestFirst(apps: seq<Application>): seq<Application> {
    Sort(apps, ByKeyDesc(CreatedAt))
  }

  /** How many matches come before page `page`. */
  function Skip(page: nat, limit: nat): nat
    requires page >= 1
  {
    MulNat(page - 1, limit);
    (page - 1) * limit
  }

  /** `.skip((page - 1) * limit).limit(limit)`. */
  function PageOf(s: seq<Application>, page: nat, limit: nat): (r: seq<Application>)
    requires page >= 1 && limit >= 1
    ensures var skip := Skip(page, limit);
      && |r| == (if skip >= |s| then 0 else if |s| - skip < limit then |s| - skip else limit)
      && forall k :: 0 <= k < |r| ==> r[k] == s[skip + k]
  {
    var skip := Skip(page, limit);
    if skip >= |s| then [] else if |s| - skip < limit then s[skip..] else s[skip..skip + limit]
  }

  /** `Math.ceil(count / limit)`. */
  function PageCount(total: nat, limit: nat): nat
    requires limit >= 1
  {
    (total + limit - 1) / limit
  }

  datatype Listing = Listing(items: seq<Application>, total: nat, page: nat, pages: nat)

  /** The defaults `page = 1, limit = 20` of the query destructuring. */
  const DefaultPage := 1
  const DefaultListLimit := 20

  function OrDefault(x: Option<nat>, d: nat): nat {
    if x.Some? then x.value else d
  }

  /** A page or limit the query gives must be at least 1; an absent one takes its default. */
  predicate ValidPaging(page: Option<nat>, limit: Option<nat>) {
    (page.Some? ==> page.value >= 1) && (limit.Some? ==> limit.value >= 1)
  }

  function ListApplications(apps: seq<Application>, q: Query, page: Option<nat>, limit: Option<nat>): Listing
    requires ValidPaging(page, limit)
  {
    var p := OrDefault(page, DefaultPage);
    var l := OrDefault(limit, DefaultListLimit);
    var found := Find(apps, q);
    Listing(PageOf(NewestFirst(found), p, l), |found|, p, PageCount(|found|, l))
  }

  /**
   * Page 1 and a limit of 20 stand in for absent query values. The page holds only
   * applications that match every given filter, at most `limit` of them, newest first; they are the sorted matches at offsets
   * `(page - 1) * limit` onwards; `total` counts all matches.
   */
  lemma ListingShape(apps: seq<Application>, q: Query, page: Option<nat>, limit: Option<nat>)
    requires ValidPaging(page, limit)
    ensures var p := if page.Some? then page.value else 1;
      var l := if limit.Some? then limit.value else 20;
      var r := ListApplications(apps, q, page, limit);
      && r.page == p
      && |r.items| <= l
      && (forall a :: a in r.items ==> a in apps && Selects(q, a))
      && (forall i, j :: 0 <= i < j < |r.items| ==> r.items[i].createdAt >= r.items[j].createdAt)
      && r.total == |Find(apps, q)|
      && r.items == PageOf(NewestFirst(Find(apps, q)), p, l)
      && r.pages == PageCount(|Find(apps, q)|, l)
  {
    var found := Find(apps, q);
    var sorted := NewestFirst(found);
    NewestFirstShape(found);
    PageWithin(sorted, OrDefault(page, DefaultPage), OrDefault(limit, DefaultListLimit));
  }

  /** Newest first holds the same applications, in non-increasing creation time. */
  lemma NewestFirstShape(s: seq<Application>)
    ensures forall a :: a in NewestFirst(s) <==> a in s
    ensures forall i, j :: 0 <= i < j < |NewestFirst(s)| ==> NewestFirst(s)[i].createdAt >= NewestFirst(s)[j].createdAt
  {
    var sorted := NewestFirst(s);
    ByKeyDescIsWeakOrder(CreatedAt);
    SortSorted(s, ByKeyDesc(CreatedAt));
    SortedByKeyDesc(sorted, CreatedAt);
    forall a
      ensures a in sorted <==> a in s
    {
      assert a in sorted <==> a in multiset(sorted);
      assert a in s <==> a in multiset(s);
    }
  }

  /** A page holds elements of the sequence it is cut from, in their order. */
  lemma PageWithin(s: seq<Application>, page: nat, limit: nat)
    requires page >= 1 && limit >= 1
    ensures forall a :: a in PageOf(s, page, limit) ==> a in s
    ensures (forall i, j :: 0 <= i < j < |s| ==> s[i].createdAt >= s[j].createdAt) ==>
      forall i, j :: 0 <= i < j < |PageOf(s, page, limit)| ==> PageOf(s, page, limit)[i].createdAt >= PageOf(s, page, limit)[j].createdAt
  {
    var r := PageOf(s, page, limit);
    var skip := Skip(page, limit);
    assert forall k :: 0 <= k < |r| ==> r[k] == s[skip + k] && skip + k < |s|;
  }

  /** Every match is on exactly one page: `pages` pages of `limit` cover `total`, and one page fewer does not. */
  lemma PageCountBounds(total: nat, limit: nat)
    requires limit >= 1
    ensures var p := PageCount(total, limit);
      && total <= p * limit
      && (p >= 1 ==> (p - 1) * limit < total)
      && (p == 0 <==> total == 0)
  {
    var n := total + limit - 1;
    var p := n / limit;
    var r := n % limit;
    assert n == p * limit + r;
    if p >= 1 {
      assert (p - 1) * limit == p * limit - limit;
    }
  }

  function OwnedBy(apps: seq<Application>, studentId: string): (r: seq<Application>)
    ensures forall a :: a in r <==> a in apps && a.studentId == studentId
    decreases |apps|
  {
    if apps == [] then []
    else (if apps[0].studentId == studentId then [apps[0]] else []) + OwnedBy(apps[1..], studentId)
  }

  /** `getMyApplication`: `findOne({ studentId })` after `.sort({ createdAt: -1 })`. */
  function MyApplication(apps: seq<Application>, studentId: string): Option<Application> {
    var mine := NewestFirst(OwnedBy(apps, studentId));
    if mine == [] then None else Some(mine[0])
  }

  /** The result is the student's own application, there is one whenever the student has any, and none is newer. */
  lemma MyApplicationNewest(apps: seq<Application>, studentId: string)
    ensures var r := MyApplication(apps, studentId);
      && (r.Some? <==> exists a :: a in apps && a.studentId == studentId)
      && (r.Some? ==> r.value in apps && r.value.studentId == studentId)
      && (r.Some? ==> forall a :: a in apps && a.studentId == studentId ==> a.createdAt <= r.value.createdAt)
  {
    var own := OwnedBy(apps, studentId);
    var mine := NewestFirst(own);
    ByKeyDescIsWeakOrder(CreatedAt);
    SortSorted(own, ByKeyDesc(CreatedAt));
    SortedByKeyDesc(mine, CreatedAt);
    assert forall a :: a in mine <==> a in own by {
      forall a ensures a in mine <==> a in own {
        assert a in mine <==> a in multiset(mine);
        assert a in own <==> a in multiset(own);
      }
    }
    if mine != [] {
      forall a | a in apps && a.studentId == studentId
        ensures a.createdAt <= mine[0].createdAt
      {
        var k :| 0 <= k < |mine| && mine[k] == a;
        if k > 0 {
          assert mine[0].createdAt >= mine[k].createdAt;
        }
      }
    }
  }
}
