/**
 * Reading reminders: each user creates, lists, updates, toggles and deletes their
 * own reminders. Every lookup is by id and owner together, so a reminder of another
 * user is "not found". The collection is a sequence; ids come from a counter and
 * clock readings are parameters.
 */
module ReadingReminders {
  import opened JsText
  import opened Sorting

  const DefaultTitle := "Reading Time"

  predicate Weekday(d: string) {
    d == "Monday" || d == "Tuesday" || d == "Wednesday" || d == "Thursday"
    || d == "Friday" || d == "Saturday" || d == "Sunday"
  }

  datatype Reminder = Reminder(id: nat, userId: string, title: string, days: seq<string>, time: string,
                               isActive: bool, createdAt: int)

  /** What `save` accepts: a non-empty title and time, and only weekday names as days. */
  predicate Storable(r: Reminder) {
    r.title != "" && r.time != "" && forall k :: 0 <= k < |r.days| ==> Weekday(r.days[k])
  }

  /** The body of a create or update request; `None` is a field left undefined. */
  datatype Fields = Fields(title: Option<string>, days: Option<seq<string>>, time: Option<string>, isActive: Option<bool>)

  function Or<T>(given: Option<T>, otherwise: T): T {
    if given.Some? then given.value else otherwise
  }

  /** `ReadingReminder.create`: omitted fields take the schema defaults, and a new reminder is active. */
  function NewReminder(id: nat, userId: string, f: Fields, now: int): (r: Reminder)
    ensures f.title.None? ==> r.title == DefaultTitle
    ensures f.days.None? ==> r.days == []
  {
    Reminder(id, userId, Or(f.title, DefaultTitle), Or(f.days, []), Or(f.time, ""), true, now)
  }

  /** The `!== undefined` assignments of `updateReminder`. */
  function Patched(r: Reminder, f: Fields): Reminder {
    r.(title := Or(f.title, r.title), days := Or(f.days, r.days), time := Or(f.time, r.time),
       isActive := Or(f.isActive, r.isActive))
  }

  function Toggled(r: Reminder): Reminder {
    r.(isActive := !r.isActive)
  }

  /** The position of the reminder with this id and owner, as `findOne({ _id, userId })` finds it. */
  function Locate(items: seq<Reminder>, id: nat, userId: string): (r: Option<nat>)
    ensures r.Some? ==> r.value < |items| && items[r.value].id == id && items[r.value].userId == userId
    ensures r.None? ==> forall k :: 0 <= k < |items| ==> !(items[k].id == id && items[k].userId == userId)
    decreases |items|
  {
    if items == [] then None
    else if items[0].id == id && items[0].userId == userId then Some(0)
    else match Locate(items[1..], id, userId)
      case None => None
      case Some(k) => Some(k + 1)
  }

  datatype Outcome = NotFound | ValidationFailed | Saved(reminder: Reminder)

  /** What `updateReminder` does to the collection, and its answer. */
  function UpdateSpec(items: seq<Reminder>, id: nat, userId: string, f: Fields): (seq<Reminder>, Outcome) {
    match Locate(items, id, userId)
    case None => (items, NotFound)
    case Some(k) =>
      var p := Patched(items[k], f);
      if Storable(p) then (items[k := p], Saved(p)) else (items, ValidationFailed)
  }

  function ToggleSpec(items: seq<Reminder>, id: nat, userId: string): (seq<Reminder>, Outcome) {
    match Locate(items, id, userId)
    case None => (items, NotFound)
    case Some(k) => (items[k := Toggled(items[k])], Saved(Toggled(items[k])))
  }

  function DeleteSpec(items: seq<Reminder>, id: nat, userId: string): (seq<Reminder>, bool) {
    match Locate(items, id, userId)
    case None => (items, false)
    case Some(k) => (items[..k] + items[k + 1..], true)
  }

  /** Ids are unique. */
  predicate UniqueIds(items: seq<Reminder>) {
    forall i, j :: 0 <= i < j < |items| ==> items[i].id != items[j].id
  }

  class Store {
    var items: seq<Reminder>
    var nextId: nat

    ghost predicate Valid()
      reads this
    {
      UniqueIds(items) && forall k :: 0 <= k < |items| ==> items[k].id < nextId && Storable(items[k])
    }

    constructor()
      ensures Valid() && items == []
    {
      items := [];
      nextId := 0;
    }

    /** `createReminder`: a new active reminder for the caller, or a validation failure with nothing stored. */
    method Create(userId: string, f: Fields, now: int) returns (r: Outcome)
      requires Valid()
      modifies this
      ensures Valid()
      ensures var n := NewReminder(old(nextId), userId, f, now);
        if Storable(n) then r == Saved(n) && items == old(items) + [n] && nextId == old(nextId) + 1
        else r == ValidationFailed && items == old(items) && nextId == old(nextId)
    {
      var n := NewReminder(nextId, userId, f, now);
      if !Storable(n) {
        return ValidationFailed;
      }
      items := items + [n];
      nextId := nextId + 1;
      return Saved(n);
    }

    method Update(id: nat, userId: string, f: Fields) returns (r: Outcome)
      requires Valid()
      modifies this
      ensures Valid()
      ensures (items, r) == UpdateSpec(old(items), id, userId, f)
      ensures nextId == old(nextId)
    {
      var k := Locate(items, id, userId);
      if k.None? {
        return NotFound;
      }
      var reminder := items[k.value];
      if f.title.Some? { reminder := reminder.(title := f.title.value); }
      if f.days.Some? { reminder := reminder.(days := f.days.value); }
      if f.time.Some? { reminder := reminder.(time := f.time.value); }
      if f.isActive.Some? { reminder := reminder.(isActive := f.isActive.value); }
      assert reminder == Patched(items[k.value], f);
      if !Storable(reminder) {
        return ValidationFailed;
      }
      SetKeepsValid(items, k.value, reminder, nextId);
      items := items[k.value := reminder];
      return Saved(reminder);
    }

    method Toggle(id: nat, userId: string) returns (r: Outcome)
      requires Valid()
      modifies this
      ensures Valid()
      ensures (items, r) == ToggleSpec(old(items), id, userId)
      ensures nextId == old(nextId)
    {
      var k := Locate(items, id, userId);
      if k.None? {
        return NotFound;
      }
      var reminder := items[k.value];
      reminder := reminder.(isActive := !reminder.isActive);
      SetKeepsValid(items, k.value, reminder, nextId);
      items := items[k.value := reminder];
      return Saved(reminder);
    }

    method Delete(id: nat, userId: string) returns (found: bool)
      requires Valid()
      modifies this
      ensures Valid()
      ensures (items, found) == DeleteSpec(old(items), id, userId)
      ensures nextId == old(nextId)
    {
      var k := Locate(items, id, userId);
      if k.None? {
        return false;
      }
      RemoveKeepsValid(items, k.value, nextId);
      items := items[..k.value] + items[k.value + 1..];
      return true;
    }
  }

  lemma SetKeepsValid(items: seq<Reminder>, k: nat, r: Reminder, nextId: nat)
    requires k < |items| && r.id == items[k].id && Storable(r)
    requires UniqueIds(items) && forall i :: 0 <= i < |items| ==> items[i].id < nextId && Storable(items[i])
    ensures var s := items[k := r];
      UniqueIds(s) && forall i :: 0 <= i < |s| ==> s[i].id < nextId && Storable(s[i])
  {
  }

  lemma RemoveKeepsValid(items: seq<Reminder>, k: nat, nextId: nat)
    requires k < |items|
    requires UniqueIds(items) && forall i :: 0 <= i < |items| ==> items[i].id < nextId && Storable(items[i])
    ensures var s := items[..k] + items[k + 1..];
      UniqueIds(s) && forall i :: 0 <= i < |s| ==> s[i].id < nextId && Storable(s[i])
  {
    var s := items[..k] + items[k + 1..];
    assert forall i :: 0 <= i < |s| ==> s[i] == items[if i < k then i else i + 1];
  }

  /** A new reminder is active; an omitted title is "Reading Time". */
  lemma NewReminderDefaults(id: nat, userId: string, f: Fields, now: int)
    ensures NewReminder(id, userId, f, now).isActive
    ensures f.title.None? ==> NewReminder(id, userId, f, now).title == DefaultTitle
    ensures NewReminder(id, userId, f, now).userId == userId
  {
  }

  /** A stored reminder's days are always weekday names. */
  lemma StoredDaysAreWeekdays(r: Reminder, k: nat)
    requires Storable(r) && k < |r.days|
    ensures r.days[k] in ["Monday", "Tuesday", "Wednesday", "Thursday", "Friday", "Saturday", "Sunday"]
  {
  }

  /** Update replaces exactly the fields that are given and keeps the others. */
  lemma PatchedFields(r: Reminder, f: Fields)
    ensures var p := Patched(r, f);
      && (p.title == if f.title.Some? then f.title.value else r.title)
      && (p.days == if f.days.Some? then f.days.value else r.days)
      && (p.time == if f.time.Some? then f.time.value else r.time)
      && (p.isActive == if f.isActive.Some? then f.isActive.value else r.isActive)
      && p.id == r.id && p.userId == r.userId && p.createdAt == r.createdAt
  {
  }

  lemma EmptyPatchChangesNothing(r: Reminder)
    ensures Patched(r, Fields(None, None, None, None)) == r
  {
  }

  /** Update, toggle and delete change nothing unless the id and the owner both match. */
  lemma OwnerScoped(items: seq<Reminder>, id: nat, userId: string, f: Fields)
    requires forall k :: 0 <= k < |items| ==> !(items[k].id == id && items[k].userId == userId)
    ensures UpdateSpec(items, id, userId, f) == (items, NotFound)
    ensures ToggleSpec(items, id, userId) == (items, NotFound)
    ensures DeleteSpec(items, id, userId) == (items, false)
  {
    assert Locate(items, id, userId).None?;
  }

  /** Another user's reminders come through update, toggle and delete untouched. */
  lemma OthersUntouched(items: seq<Reminder>, id: nat, userId: string, f: Fields, x: Reminder)
    requires x in items && x.userId != userId
    ensures x in UpdateSpec(items, id, userId, f).0
    ensures x in ToggleSpec(items, id, userId).0
    ensures x in DeleteSpec(items, id, userId).0
  {
    var i :| 0 <= i < |items| && items[i] == x;
    match Locate(items, id, userId)
    case None =>
    case Some(k) =>
      assert i != k;
      assert items[k := Patched(items[k], f)][i] == x;
      assert items[k := Toggled(items[k])][i] == x;
      var s := items[..k] + items[k + 1..];
      if i < k {
        assert s[i] == x;
      } else {
        assert s[i - 1] == x;
      }
  }

  /**
   * Toggling flips `isActive` of the found reminder, and every other field and every
   * other reminder stays as it was; toggling twice restores the collection.
   */
  lemma ToggleTwice(items: seq<Reminder>, id: nat, userId: string)
    requires UniqueIds(items)
    ensures var once := ToggleSpec(items, id, userId).0;
      ToggleSpec(once, id, userId).0 == items
    ensures match Locate(items, id, userId)
      case None => ToggleSpec(items, id, userId).0 == items
      case Some(k) => var once := ToggleSpec(items, id, userId).0;
        && |once| == |items|
        && once[k].isActive == !items[k].isActive
        && once[k].(isActive := items[k].isActive) == items[k]
        && forall i :: 0 <= i < |items| && i != k ==> once[i] == items[i]
  {
    match Locate(items, id, userId)
    case None =>
    case Some(k) =>
      var once := items[k := Toggled(items[k])];
      LocateUnique(once, id, userId, k);
      assert once[k := Toggled(once[k])] == items;
  }

  /** With unique ids, the reminder with that id and owner is the one found. */
  lemma LocateUnique(items: seq<Reminder>, id: nat, userId: string, k: nat)
    requires UniqueIds(items) && k < |items| && items[k].id == id && items[k].userId == userId
    ensures Locate(items, id, userId) == Some(k)
  {
    var r := Locate(items, id, userId);
    assert r.Some?;
  }

  /** Delete removes exactly the targeted reminder and keeps the others in order. */
  lemma DeleteExact(items: seq<Reminder>, id: nat, userId: string)
    requires UniqueIds(items)
    ensures var (after, found) := DeleteSpec(items, id, userId);
      && (found <==> exists k :: 0 <= k < |items| && items[k].id == id && items[k].userId == userId)
      && (found ==> |after| == |items| - 1)
      && (forall x :: x in after <==> x in items && !(x.id == id && x.userId == userId))
      && (found ==> exists k :: 0 <= k < |items| && items[k].id == id && items[k].userId == userId
                               && after == items[..k] + items[k + 1..])
  {
    DeleteMembership(items, id, userId);
    match Locate(items, id, userId)
    case None =>
    case Some(k) =>
      assert DeleteSpec(items, id, userId).0 == items[..k] + items[k + 1..];
  }

  /** The reminders left after a delete are the others, one fewer when one was found. */
  lemma DeleteMembership(items: seq<Reminder>, id: nat, userId: string)
    requires UniqueIds(items)
    ensures var (after, found) := DeleteSpec(items, id, userId);
      && (found <==> exists k :: 0 <= k < |items| && items[k].id == id && items[k].userId == userId)
      && (found ==> |after| == |items| - 1)
      && (forall x :: x in after <==> x in items && !(x.id == id && x.userId == userId))
  {
    var (after, found) := DeleteSpec(items, id, userId);
    match Locate(items, id, userId)
    case None =>
    case Some(k) =>
      forall x
        ensures x in after <==> x in items && !(x.id == id && x.userId == userId)
      {
        if x in items && !(x.id == id && x.userId == userId) {
          var i :| 0 <= i < |items| && items[i] == x;
          assert after[if i < k then i else i - 1] == x;
        }
        if x in after {
          var i :| 0 <= i < |after| && after[i] == x;
          var j := if i < k then i else i + 1;
          assert items[j] == x && j != k;
        }
      }
  }

  // ---------------------------------------------------------------------------
  // getReminders
  // ---------------------------------------------------------------------------

  function CreatedAt(r: Reminder): int {
    r.createdAt
  }

  function OwnedBy(items: seq<Reminder>, userId: string): (r: seq<Reminder>)
    ensures forall x :: x in r <==> x in items && x.userId == userId
    decreases |items|
  {
    if items == [] then []
    else (if items[0].userId == userId then [items[0]] else []) + OwnedBy(items[1..], userId)
  }

  /** `find({ userId }).sort({ createdAt: -1 })`. */
  function ListReminders(items: seq<Reminder>, userId: string): seq<Reminder> {
    Sort(OwnedBy(items, userId), ByKeyDesc(CreatedAt))
  }

  /** The listing is a permutation of exactly the caller's reminders, newest first. */
  lemma ListingOwnNewestFirst(items: seq<Reminder>, userId: string)
    ensures var l := ListReminders(items, userId);
      && multiset(l) == multiset(OwnedBy(items, userId))
      && (forall x :: x in l <==> x in items && x.userId == userId)
      && (forall i, j :: 0 <= i < j < |l| ==> l[i].createdAt >= l[j].createdAt)
  {
    var own := OwnedBy(items, userId);
    var l := ListReminders(items, userId);
    ByKeyDescIsWeakOrder(CreatedAt);
    SortSorted(own, ByKeyDesc(CreatedAt));
    SortedByKeyDesc(l, CreatedAt);
    forall x
      ensures x in l <==> x in own
    {
      assert x in l <==> x in multiset(l);
      assert x in own <==> x in multiset(own);
    }
  }
}
