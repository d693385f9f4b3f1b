/**
 * The dashboard's derived views (src/components/dashboard.tsx): incomplete
 * records per category in this week and next week, and the merged feed of the
 * three soonest incomplete records. Its completion toggles are
 * Managers.HandleToggleComplete.
 */
module Dashboard {
  import opened Schedule
  import Sorting
  import Store

  /** One week in milliseconds: what addWeeks(_, 1) adds when no clock change intervenes. */
  const WeekMs: int := 7 * 24 * 60 * 60 * 1000

  /** An interval of timestamps; isWithinInterval includes both ends. */
  datatype Window = Window(start: int, end: int)

  /** The next-week window: this week's bounds each moved one week later. */
  function NextWeek(w: Window): (n: Window)
    ensures n.start - w.start == WeekMs && n.end - w.end == WeekMs
    ensures n.end - n.start == w.end - w.start
  {
    Window(w.start + WeekMs, w.end + WeekMs)
  }

  /** The filter condition of every count: not complete and dated inside the window. */
  predicate IsDue(r: ScheduleRecord, w: Window) {
    !r.isComplete && w.start <= r.dateToAdminister <= w.end
  }

  /** `s.filter(r => !r.isComplete && isWithinInterval(r.dateToAdminister, w)).length`. */
  function CountDue(s: seq<ScheduleRecord>, w: Window): (n: nat)
    ensures n <= |s|
    ensures n == 0 <==> forall i :: 0 <= i < |s| ==> !IsDue(s[i], w)
    ensures n == |s| <==> forall i :: 0 <= i < |s| ==> IsDue(s[i], w)
  {
    if |s| == 0 then 0
    else
      assert forall i :: 0 < i < |s| ==> s[i] == s[1..][i - 1];
      (if IsDue(s[0], w) then 1 else 0) + CountDue(s[1..], w)
  }

  /** Counting is additive over concatenation: each record contributes on its own. */
  lemma {:induction false} CountDueConcat(a: seq<ScheduleRecord>, b: seq<ScheduleRecord>, w: Window)
    ensures CountDue(a + b, w) == CountDue(a, w) + CountDue(b, w)
    decreases |a|
  {
    if |a| == 0 {
      assert a + b == b;
    } else {
      assert (a + b)[1..] == a[1..] + b;
      CountDueConcat(a[1..], b, w);
    }
  }

  /** A single record counts exactly when it is incomplete and inside the window, ends included. */
  lemma CountDueSingle(r: ScheduleRecord, w: Window)
    ensures CountDue([r], w) == if !r.isComplete && w.start <= r.dateToAdminister <= w.end then 1 else 0
  {
    assert [r][1..] == [];
  }

  /**
   * When this week runs from its first to its last millisecond, this week and
   * next week split the fortnight between them: no record is counted twice or
   * lost at the boundary.
   */
  lemma {:induction false} WeeksSplitFortnight(s: seq<ScheduleRecord>, w: Window)
    requires w.end == w.start + WeekMs - 1
    ensures CountDue(s, w) + CountDue(s, NextWeek(w)) == CountDue(s, Window(w.start, NextWeek(w).end))
    decreases |s|
  {
    if |s| > 0 {
      WeeksSplitFortnight(s[1..], w);
    }
  }

  /** A record completed through an update stops counting; nothing else changes. */
  lemma {:induction false} CompletingRemovesFromCount(s: seq<ScheduleRecord>, k: nat, w: Window)
    requires k < |s|
    ensures CountDue(s[k := s[k].(isComplete := true)], w)
         == CountDue(s, w) - (if IsDue(s[k], w) then 1 else 0)
  {
    var t := s[k := s[k].(isComplete := true)];
    assert s == s[..k] + [s[k]] + s[k + 1..];
    assert t == s[..k] + [t[k]] + s[k + 1..];
    CountDueConcat(s[..k] + [s[k]], s[k + 1..], w);
    CountDueConcat(s[..k], [s[k]], w);
    CountDueConcat(s[..k] + [t[k]], s[k + 1..], w);
    CountDueConcat(s[..k], [t[k]], w);
    CountDueSingle(s[k], w);
    CountDueSingle(t[k], w);
  }

  datatype CategoryCounts = CategoryCounts(vaccinations: nat, medications: nat, appointments: nat)

  datatype WeekSummary = WeekSummary(thisWeek: CategoryCounts, nextWeek: CategoryCounts)

  /** The six counts behind the "This Week" and "Next Week" cards. */
  function Summarize(v: seq<ScheduleRecord>, m: seq<ScheduleRecord>, a: seq<ScheduleRecord>, thisWeek: Window): (r: WeekSummary)
    ensures r.thisWeek.vaccinations <= |v| && r.nextWeek.vaccinations <= |v|
    ensures r.thisWeek.medications <= |m| && r.nextWeek.medications <= |m|
    ensures r.thisWeek.appointments <= |a| && r.nextWeek.appointments <= |a|
    ensures r.thisWeek == CategoryCounts(CountDue(v, thisWeek), CountDue(m, thisWeek), CountDue(a, thisWeek))
    ensures r.nextWeek == CategoryCounts(CountDue(v, NextWeek(thisWeek)), CountDue(m, NextWeek(thisWeek)), CountDue(a, NextWeek(thisWeek)))
  {
    var next := NextWeek(thisWeek);
    WeekSummary(
      CategoryCounts(CountDue(v, thisWeek), CountDue(m, thisWeek), CountDue(a, thisWeek)),
      CategoryCounts(CountDue(v, next), CountDue(m, next), CountDue(a, next)))
  }

  /**
   * Each card count is bounded by its collection, and for a full week the two
   * cards together count exactly the fortnight's due records.
   */
  lemma SummaryCoversFortnight(v: seq<ScheduleRecord>, m: seq<ScheduleRecord>, a: seq<ScheduleRecord>, thisWeek: Window)
    requires thisWeek.end == thisWeek.start + WeekMs - 1
    ensures var r := Summarize(v, m, a, thisWeek);
      var fortnight := Window(thisWeek.start, thisWeek.end + WeekMs);
      && r.thisWeek.vaccinations + r.nextWeek.vaccinations == CountDue(v, fortnight)
      && r.thisWeek.medications + r.nextWeek.medications == CountDue(m, fortnight)
      && r.thisWeek.appointments + r.nextWeek.appointments == CountDue(a, fortnight)
  {
    var next := NextWeek(thisWeek);
    var r := Summarize(v, m, a, thisWeek);
    assert r.thisWeek == CategoryCounts(CountDue(v, thisWeek), CountDue(m, thisWeek), CountDue(a, thisWeek));
    assert r.nextWeek == CategoryCounts(CountDue(v, next), CountDue(m, next), CountDue(a, next));
    assert Window(thisWeek.start, thisWeek.end + WeekMs) == Window(thisWeek.start, next.end);
    WeeksSplitFortnight(v, thisWeek);
    WeeksSplitFortnight(m, thisWeek);
    WeeksSplitFortnight(a, thisWeek);
  }

  /** An entry of the upcoming feed: a record and the collection it came from. */
  datatype UpcomingEvent = UpcomingEvent(kind: Category, data: ScheduleRecord)

  function EventDate(e: UpcomingEvent): int {
    e.data.dateToAdminister
  }

  /** `s.filter(r => !r.isComplete).map(r => ({ type: c, data: r }))`. */
  function Tagged(s: seq<ScheduleRecord>, c: Category): (t: seq<UpcomingEvent>)
    ensures |t| <= |s|
    ensures forall i :: 0 <= i < |t| ==> t[i].kind == c && !t[i].data.isComplete
  {
    if |s| == 0 then []
    else (if s[0].isComplete then [] else [UpcomingEvent(c, s[0])]) + Tagged(s[1..], c)
  }

  /** The tagged events are exactly the incomplete records of the list, each tagged with c. */
  lemma {:induction false} TaggedMembers(s: seq<ScheduleRecord>, c: Category)
    ensures forall e :: e in Tagged(s, c) <==> e.kind == c && e.data in s && !e.data.isComplete
    decreases |s|
  {
    if |s| > 0 {
      TaggedMembers(s[1..], c);
      assert forall x :: x in s <==> x == s[0] || x in s[1..];
    }
  }

  /** Tagging keeps the filtered records in order: it distributes over concatenation. */
  lemma {:induction false} TaggedConcat(a: seq<ScheduleRecord>, b: seq<ScheduleRecord>, c: Category)
    ensures Tagged(a + b, c) == Tagged(a, c) + Tagged(b, c)
    decreases |a|
  {
    if |a| == 0 {
      assert a + b == b;
    } else {
      var x, rest := a[0], a[1..];
      assert a == [x] + rest;
      assert a + b == [x] + (rest + b);
      TaggedCons(x, rest + b, c);
      TaggedCons(x, rest, c);
      TaggedConcat(rest, b, c);
      if !x.isComplete {
        var head := [UpcomingEvent(c, x)];
        assert head + (Tagged(rest, c) + Tagged(b, c)) == (head + Tagged(rest, c)) + Tagged(b, c);
      }
    }
  }

  /** Tagging a list with a record in front tags that record first. */
  lemma TaggedCons(x: ScheduleRecord, s: seq<ScheduleRecord>, c: Category)
    ensures Tagged([x] + s, c) == (if x.isComplete then [] else [UpcomingEvent(c, x)]) + Tagged(s, c)
  {
    assert ([x] + s)[0] == x && ([x] + s)[1..] == s;
  }

  /** One record yields one tagged event when it is incomplete, and none otherwise. */
  lemma TaggedSingle(r: ScheduleRecord, c: Category)
    ensures Tagged([r], c) == if r.isComplete then [] else [UpcomingEvent(c, r)]
  {
    assert [r][1..] == [];
  }

  /** Every incomplete record, vaccinations first, then medications, then appointments. */
  function Pending(v: seq<ScheduleRecord>, m: seq<ScheduleRecord>, a: seq<ScheduleRecord>): (p: seq<UpcomingEvent>)
    ensures |p| <= |v| + |m| + |a|
    ensures forall e :: e in p <==> !e.data.isComplete && e.data in Source(e.kind, v, m, a)
  {
    TaggedMembers(v, Vaccination);
    TaggedMembers(m, Medication);
    TaggedMembers(a, Appointment);
    Tagged(v, Vaccination) + Tagged(m, Medication) + Tagged(a, Appointment)
  }

  /** The collection a category names. */
  function Source(c: Category, v: seq<ScheduleRecord>, m: seq<ScheduleRecord>, a: seq<ScheduleRecord>): seq<ScheduleRecord> {
    match c
    case Vaccination => v
    case Medication => m
    case Appointment => a
  }

  /** The feed: pending events sorted by date (stably) and cut to the first three. */
  function UpcomingEvents(v: seq<ScheduleRecord>, m: seq<ScheduleRecord>, a: seq<ScheduleRecord>): (r: seq<UpcomingEvent>)
    ensures |r| == if |Pending(v, m, a)| < 3 then |Pending(v, m, a)| else 3
  {
    var sorted := Sorting.SortBy(Pending(v, m, a), EventDate);
    sorted[..if |sorted| < 3 then |sorted| else 3]
  }

  /** The feed is ordered by date and drawn from the pending events. */
  lemma FeedSortedSubset(v: seq<ScheduleRecord>, m: seq<ScheduleRecord>, a: seq<ScheduleRecord>)
    ensures Sorting.SortedBy(UpcomingEvents(v, m, a), EventDate)
    ensures multiset(UpcomingEvents(v, m, a)) <= multiset(Pending(v, m, a))
  {
    var p := Pending(v, m, a);
    Sorting.SortByPrefix(p, EventDate, if |p| < 3 then |p| else 3);
  }

  /** Every feed entry is incomplete and tagged with the collection it came from. */
  lemma FeedEntriesTagged(v: seq<ScheduleRecord>, m: seq<ScheduleRecord>, a: seq<ScheduleRecord>, e: UpcomingEvent)
    requires e in UpcomingEvents(v, m, a)
    ensures !e.data.isComplete && e.data in Source(e.kind, v, m, a)
  {
    FeedSortedSubset(v, m, a);
    assert e in multiset(UpcomingEvents(v, m, a));
    assert e in Pending(v, m, a);
  }

  /** The feed holds the earliest pending events: none left out is dated before one shown. */
  lemma FeedIsEarliest(v: seq<ScheduleRecord>, m: seq<ScheduleRecord>, a: seq<ScheduleRecord>, e: UpcomingEvent, t: UpcomingEvent)
    requires e in UpcomingEvents(v, m, a)
    requires t in Pending(v, m, a) && t !in UpcomingEvents(v, m, a)
    ensures EventDate(e) <= EventDate(t)
  {
    var p := Pending(v, m, a);
    var sorted := Sorting.SortBy(p, EventDate);
    var r := UpcomingEvents(v, m, a);
    Sorting.SortBySorted(p, EventDate);
    Sorting.SortByPermutes(p, EventDate);
    assert t in multiset(sorted);
    var j :| 0 <= j < |sorted| && sorted[j] == t;
    var i :| 0 <= i < |r| && r[i] == e;
    assert sorted[i] == e;
  }

  /**
   * The feed is the front of the date-sorted pending list, and every entry
   * shown is dated no later than every entry behind it, duplicates included.
   */
  lemma FeedIsEarliestByIndex(v: seq<ScheduleRecord>, m: seq<ScheduleRecord>, a: seq<ScheduleRecord>)
    ensures var sorted := Sorting.SortBy(Pending(v, m, a), EventDate);
      var r := UpcomingEvents(v, m, a);
      && r == sorted[..|r|]
      && forall i, j :: 0 <= i < |r| <= j < |sorted| ==> EventDate(sorted[i]) <= EventDate(sorted[j])
  {
    Sorting.SortBySorted(Pending(v, m, a), EventDate);
  }

  /**
   * Ties keep the concatenation order: the feed's entries on any one date are
   * the first pending events on that date, in vaccination, medication,
   * appointment order.
   */
  lemma FeedTiesFollowCategoryOrder(v: seq<ScheduleRecord>, m: seq<ScheduleRecord>, a: seq<ScheduleRecord>, d: int)
    ensures var shown := Sorting.KeyFilter(UpcomingEvents(v, m, a), EventDate, d);
      var all := Sorting.KeyFilter(Pending(v, m, a), EventDate, d);
      |shown| <= |all| && shown == all[..|shown|]
  {
    var p := Pending(v, m, a);
    var sorted := Sorting.SortBy(p, EventDate);
    var r := UpcomingEvents(v, m, a);
    assert sorted == r + sorted[|r|..];
    Sorting.KeyFilterConcat(r, sorted[|r|..], EventDate, d);
    Sorting.SortByStable(p, EventDate, d);
  }

  /**
   * With the initial records, the feed lists the medication (3 days out), the
   * vaccination (7 days) and the appointment (14 days), in that order.
   */
  lemma InitialFeed(now: int)
    ensures UpcomingEvents(Store.InitialRecords(Vaccination, now), Store.InitialRecords(Medication, now),
                           Store.InitialRecords(Appointment, now))
         == [UpcomingEvent(Medication, Store.InitialRecords(Medication, now)[0]),
             UpcomingEvent(Vaccination, Store.InitialRecords(Vaccination, now)[0]),
             UpcomingEvent(Appointment, Store.InitialRecords(Appointment, now)[0])]
  {
    var v := Store.InitialRecords(Vaccination, now);
    var m := Store.InitialRecords(Medication, now);
    var a := Store.InitialRecords(Appointment, now);
    var ev, em, ea := UpcomingEvent(Vaccination, v[0]), UpcomingEvent(Medication, m[0]), UpcomingEvent(Appointment, a[0]);
    assert Pending(v, m, a) == [ev, em, ea] by {
      TaggedSingle(v[0], Vaccination);
      TaggedSingle(m[0], Medication);
      TaggedSingle(a[0], Appointment);
      assert v == [v[0]] && m == [m[0]] && a == [a[0]];
    }
    SortThree(ev, em, ea);
  }

  /** Three events whose dates run second, first, third sort into that order. */
  lemma SortThree(x: UpcomingEvent, y: UpcomingEvent, z: UpcomingEvent)
    requires EventDate(y) < EventDate(x) < EventDate(z)
    ensures Sorting.SortBy([x, y, z], EventDate) == [y, x, z]
  {
    assert [x, y, z][..2] == [x, y] && [x, y, z][2] == z;
    assert [x, y][..1] == [x] && [x, y][1] == y;
    assert [x][..0] == [];
    assert Sorting.SortBy([x], EventDate) == [x];
    assert Sorting.InsertBy([x], y, EventDate) == [y, x];
    assert Sorting.SortBy([x, y], EventDate) == [y, x];
    assert [y, x][..1] == [y] && [y, x][1] == x;
    assert Sorting.InsertBy([y, x], z, EventDate) == [y, x, z];
  }

}
