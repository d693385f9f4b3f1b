/**
 * The record store of the top-level view (src/components/pet-health-tracker.tsx):
 * three collections, each replaced wholesale by add, update and delete.
 */
module Store {
  import opened Schedule
  import Sorting

  /** `[...s, r]`: the record goes at the end. */
  function Add(s: seq<ScheduleRecord>, r: ScheduleRecord): (t: seq<ScheduleRecord>)
    ensures |t| == |s| + 1 && t[..|s|] == s && t[|s|] == r
    ensures forall id :: HasId(t, id) <==> HasId(s, id) || id == r.id
    ensures UniqueIds(s) && !HasId(s, r.id) ==> UniqueIds(t)
  {
    var t := s + [r];
    assert forall id :: HasId(t, id) <==> HasId(s, id) || id == r.id by {
      forall id ensures HasId(t, id) <==> HasId(s, id) || id == r.id {
        if HasId(s, id) {
          var i :| 0 <= i < |s| && s[i].id == id;
          assert t[i] == s[i];
        }
        if HasId(t, id) {
          var i :| 0 <= i < |t| && t[i].id == id;
          if i < |s| { assert s[i] == t[i]; }
        }
        assert t[|s|] == r;
      }
    }
    t
  }

  /** `s.map(v => v.id === r.id ? r : v)`: every record with r's id is replaced by r. */
  function Update(s: seq<ScheduleRecord>, r: ScheduleRecord): (t: seq<ScheduleRecord>)
    ensures |t| == |s|
    ensures forall i :: 0 <= i < |s| ==> t[i] == if s[i].id == r.id then r else s[i]
    ensures forall i :: 0 <= i < |s| ==> t[i].id == s[i].id
    ensures !HasId(s, r.id) ==> t == s
    ensures UniqueIds(s) ==> UniqueIds(t)
  {
    seq(|s|, i requires 0 <= i < |s| => if s[i].id == r.id then r else s[i])
  }

  /** `s.filter(v => v.id !== id)`: every record with that id is dropped. */
  function Delete(s: seq<ScheduleRecord>, id: string): (t: seq<ScheduleRecord>)
    ensures |t| <= |s|
    ensures forall x :: x in t <==> x in s && x.id != id
    ensures !HasId(t, id)
    ensures !HasId(s, id) ==> t == s
  {
    if |s| == 0 then []
    else
      var rest := Delete(s[1..], id);
      var t := if s[0].id == id then rest else [s[0]] + rest;
      assert s == [s[0]] + s[1..];
      assert !HasId(s, id) ==> !HasId(s[1..], id) by {
        if HasId(s[1..], id) {
          var i :| 0 <= i < |s[1..]| && s[1..][i].id == id;
          assert s[i + 1].id == id;
        }
      }
      t
  }

  /** Delete preserves the id-uniqueness invariant. */
  lemma {:induction false} DeleteKeepsUnique(s: seq<ScheduleRecord>, id: string)
    requires UniqueIds(s)
    ensures UniqueIds(Delete(s, id))
    decreases |s|
  {
    if |s| > 0 {
      var tail := s[1..];
      TailUnique(s);
      DeleteKeepsUnique(tail, id);
      var rest := Delete(tail, id);
      if s[0].id != id {
        forall k | 0 <= k < |rest|
          ensures rest[k].id != s[0].id
        {
          assert rest[k] in tail;
        }
        ConsKeepsUnique(s[0], rest);
      }
    }
  }

  /** Below a unique-id head, the tail has unique ids and none equal to the head's. */
  lemma TailUnique(s: seq<ScheduleRecord>)
    requires UniqueIds(s) && |s| > 0
    ensures UniqueIds(s[1..])
    ensures forall x :: x in s[1..] ==> x.id != s[0].id
  {
    var tail := s[1..];
    forall i, j | 0 <= i < j < |tail|
      ensures tail[i].id != tail[j].id
    {
      assert tail[i] == s[i + 1] && tail[j] == s[j + 1];
    }
    forall x | x in tail
      ensures x.id != s[0].id
    {
      var j :| 0 <= j < |tail| && tail[j] == x;
      assert s[j + 1] == x;
    }
  }

  /** Putting a record with a new id in front keeps ids unique. */
  lemma ConsKeepsUnique(h: ScheduleRecord, rest: seq<ScheduleRecord>)
    requires UniqueIds(rest)
    requires forall k :: 0 <= k < |rest| ==> rest[k].id != h.id
    ensures UniqueIds([h] + rest)
  {
    var t := [h] + rest;
    forall i, j | 0 <= i < j < |t|
      ensures t[i].id != t[j].id
    {
      if i == 0 {
        assert t[j] == rest[j - 1];
      } else {
        assert t[i] == rest[i - 1] && t[j] == rest[j - 1];
      }
    }
  }

  /**
   * What the store does with one callback from a component: onAdd, onUpdate
   * and onDelete are wired to the add, update and delete handlers of the
   * collection the component shows. Only an add with an id already in use can
   * break the id invariant.
   */
  function Apply(s: seq<ScheduleRecord>, call: Callback): (t: seq<ScheduleRecord>)
    ensures call.OnAdd? ==> |t| == |s| + 1
    ensures call.OnUpdate? ==> |t| == |s|
    ensures call.OnDelete? ==> |t| <= |s|
    ensures UniqueIds(s) && !(call.OnAdd? && HasId(s, call.record.id)) ==> UniqueIds(t)
  {
    match call
    case OnAdd(r) => Add(s, r)
    case OnUpdate(r) => Update(s, r)
    case OnDelete(id) =>
      assert UniqueIds(s) ==> UniqueIds(Delete(s, id)) by {
        if UniqueIds(s) {
          DeleteKeepsUnique(s, id);
        }
      }
      Delete(s, id)
  }

  /** The store after a component's callbacks, applied in the order they are made. */
  function ApplyAll(s: seq<ScheduleRecord>, calls: seq<Callback>): (t: seq<ScheduleRecord>)
    ensures |t| <= |s| + |calls|
    ensures UniqueIds(s) && (forall i :: 0 <= i < |calls| ==> !calls[i].OnAdd?) ==> UniqueIds(t)
    decreases |calls|
  {
    if |calls| == 0 then s else ApplyAll(Apply(s, calls[0]), calls[1..])
  }

  lemma ApplyAllPair(s: seq<ScheduleRecord>, first: Callback, second: Callback)
    ensures ApplyAll(s, [first, second]) == Apply(Apply(s, first), second)
  {
    assert [first, second][1..] == [second];
    ApplyAllSingle(Apply(s, first), second);
  }

  lemma ApplyAllSingle(s: seq<ScheduleRecord>, call: Callback)
    ensures ApplyAll(s, [call]) == Apply(s, call)
  {
    assert [call][1..] == [];
  }

  /** With unique ids, updating with a record already in the list changes nothing. */
  lemma {:induction false} UpdateWithOwnRecord(s: seq<ScheduleRecord>, k: nat)
    requires UniqueIds(s) && k < |s|
    ensures Update(s, s[k]) == s
  {
    var t := Update(s, s[k]);
    forall i | 0 <= i < |s|
      ensures t[i] == s[i]
    {
      if s[i].id == s[k].id {
        assert i == k;
      }
    }
  }

  /** Deleting the same id twice is the same as deleting it once. */
  lemma DeleteIdempotent(s: seq<ScheduleRecord>, id: string)
    ensures Delete(Delete(s, id), id) == Delete(s, id)
  {
  }

  /** Delete keeps the relative order of the records it keeps: it distributes over concatenation. */
  lemma {:induction false} DeleteConcat(a: seq<ScheduleRecord>, b: seq<ScheduleRecord>, id: string)
    ensures Delete(a + b, id) == Delete(a, id) + Delete(b, id)
    decreases |a|
  {
    if |a| > 0 {
      assert (a + b)[1..] == a[1..] + b;
      DeleteConcat(a[1..], b, id);
    } else {
      assert a + b == b;
    }
  }

  /** With unique ids, deleting the id held at position k removes exactly that one record. */
  lemma {:induction false} DeleteUnique(s: seq<ScheduleRecord>, k: nat)
    requires UniqueIds(s) && k < |s|
    ensures Delete(s, s[k].id) == s[..k] + s[k + 1..]
  {
    var id, a, b := s[k].id, s[..k], s[k + 1..];
    assert s == a + ([s[k]] + b);
    DeleteConcat(a, [s[k]] + b, id);
    DeleteConcat([s[k]], b, id);
    forall i | 0 <= i < |a| ensures a[i].id != id {
      assert a[i] == s[i];
    }
    forall i | 0 <= i < |b| ensures b[i].id != id {
      assert b[i] == s[k + 1 + i];
    }
    assert Delete(a, id) == a;
    assert Delete(b, id) == b;
    assert [s[k]][1..] == [];
    assert Delete([s[k]], id) == [];
  }

  /**
   * With unique ids, deleting the record at position k and adding it back gives
   * the same records, the re-added one now last.
   */
  lemma {:induction false} AddBackAfterDelete(s: seq<ScheduleRecord>, k: nat)
    requires UniqueIds(s) && k < |s|
    ensures Add(Delete(s, s[k].id), s[k]) == s[..k] + s[k + 1..] + [s[k]]
    ensures multiset(Add(Delete(s, s[k].id), s[k])) == multiset(s)
  {
    DeleteUnique(s, k);
    var a, b := s[..k], s[k + 1..];
    assert Add(a + b, s[k]) == a + b + [s[k]];
    assert s == a + [s[k]] + b;
    assert multiset(a + b + [s[k]]) == multiset(a) + multiset(b) + multiset{s[k]};
    assert multiset(a + [s[k]] + b) == multiset(a) + multiset{s[k]} + multiset(b);
  }

  /**
   * Update after a delete of the same id changes nothing: update only replaces
   * records that are present, and the delete left none with that id.
   */
  lemma UpdateAfterDeleteIsInert(s: seq<ScheduleRecord>, r: ScheduleRecord)
    ensures Update(Delete(s, r.id), r) == Delete(s, r.id)
  {
  }

  const DayMs: int := 24 * 60 * 60 * 1000

  /**
   * The single record each collection starts with; `now` stands for `Date.now()`.
   * The medication is due first (in three days), then the vaccination (seven),
   * then the appointment (fourteen); none is complete.
   */
  function InitialRecords(c: Category, now: int): (r: seq<ScheduleRecord>)
    ensures |r| == 1 && UniqueIds(r) && !r[0].isComplete && r[0].doctorName == "Dr. Smith"
    ensures r[0].id == match c case Vaccination => "v1" case Medication => "m1" case Appointment => "a1"
    ensures r[0].dateToAdminister - now == DayMs * match c case Vaccination => 7 case Medication => 3 case Appointment => 14
  {
    match c
    case Vaccination =>
      [ScheduleRecord("v1", "Annual Rabies Shot", "Rabies Vaccine",
        "Required by law, administered annually", now + 7 * DayMs, false, "Dr. Smith")]
    case Medication =>
      [ScheduleRecord("m1", "Heartworm Prevention", "HeartGuard Plus",
        "Monthly oral medication", now + 3 * DayMs, false, "Dr. Smith")]
    case Appointment =>
      [ScheduleRecord("a1", "Annual Checkup", "N/A",
        "Routine wellness exam", now + 14 * DayMs, false, "Dr. Smith")]
  }

  /** With unique ids no record occurs twice. */
  lemma {:induction false} UniqueOccursOnce(s: seq<ScheduleRecord>, x: ScheduleRecord)
    requires UniqueIds(s)
    ensures multiset(s)[x] <= 1
    decreases |s|
  {
    if |s| > 0 {
      var init, last := s[..|s| - 1], s[|s| - 1];
      assert s == init + [last];
      UniqueOccursOnce(init, x);
      if x == last {
        forall p | 0 <= p < |init|
          ensures init[p] != x
        {
          assert s[p].id != s[|s| - 1].id;
        }
      }
    }
  }

  /** A record at two positions occurs at least twice. */
  lemma TwoPositions(t: seq<ScheduleRecord>, i: nat, j: nat)
    requires i < j < |t| && t[i] == t[j]
    ensures multiset(t)[t[i]] >= 2
  {
    assert t == t[..j] + t[j..];
    assert t[..j][i] == t[i];
    assert t[j..][0] == t[i];
  }

  /** Reordering a collection keeps its ids unique. */
  lemma PermutationKeepsUnique(s: seq<ScheduleRecord>, t: seq<ScheduleRecord>)
    requires UniqueIds(s) && multiset(s) == multiset(t)
    ensures UniqueIds(t)
  {
    forall i, j | 0 <= i < j < |t|
      ensures t[i].id != t[j].id
    {
      assert t[i] in multiset(t) && t[j] in multiset(t);
      var p :| 0 <= p < |s| && s[p] == t[i];
      var q :| 0 <= q < |s| && s[q] == t[j];
      if p == q {
        TwoPositions(t, i, j);
        UniqueOccursOnce(s, t[i]);
        assert false;
      }
    }
  }

  /** Sorting a collection with unique ids never changes which record an id finds. */
  lemma SortKeepsLookup(s: seq<ScheduleRecord>, id: string)
    requires UniqueIds(s)
    ensures Find(Sorting.SortBy(s, DateKey), id) == Find(s, id)
  {
    var t := Sorting.SortBy(s, DateKey);
    Sorting.SortByPermutes(s, DateKey);
    PermutationKeepsUnique(s, t);
    if HasId(s, id) {
      var k := FindIndex(s, id);
      assert s[k] in multiset(t);
      var q :| 0 <= q < |t| && t[q] == s[k];
      FindUnique(t, q);
      FindUnique(s, k);
    } else {
      forall q | 0 <= q < |t|
        ensures t[q].id != id
      {
        assert t[q] in multiset(s);
      }
    }
  }

  /**
   * The top-level view's state: one collection per category, replaced by the
   * handlers. The handlers accept any collection; `Valid` (unique ids) is an
   * invariant they preserve, not a precondition of any of them.
   */
  class PetHealthTracker {
    var vaccinations: seq<ScheduleRecord>
    var medications: seq<ScheduleRecord>
    var appointments: seq<ScheduleRecord>

    function Collection(c: Category): seq<ScheduleRecord>
      reads this
    {
      match c
      case Vaccination => vaccinations
      case Medication => medications
      case Appointment => appointments
    }

    /**
     * Every collection satisfies the id-uniqueness invariant. The initial
     * state has it, and every handler keeps it (add only for a fresh id).
     */
    ghost predicate Valid()
      reads this
    {
      forall c :: UniqueIds(Collection(c))
    }

    constructor (now: int)
      ensures forall c :: Collection(c) == InitialRecords(c, now)
      ensures forall c :: |Collection(c)| == 1 && !Collection(c)[0].isComplete
      ensures Valid()
    {
      vaccinations := InitialRecords(Vaccination, now);
      medications := InitialRecords(Medication, now);
      appointments := InitialRecords(Appointment, now);
    }

    /** Replaces the collection of category c and leaves the other two as they were. */
    method SetCollection(c: Category, s: seq<ScheduleRecord>)
      modifies this
      ensures Collection(c) == s
      ensures forall d :: d != c ==> Collection(d) == old(Collection(d))
    {
      match c
      case Vaccination => vaccinations := s;
      case Medication => medications := s;
      case Appointment => appointments := s;
    }

    /**
     * What rendering a list does to the store: each manager calls `.sort` by
     * date on the array it is given, which is this collection, so the
     * collection is reordered in place.
     */
    method SortCollection(c: Category)
      modifies this
      ensures Collection(c) == Sorting.SortBy(old(Collection(c)), DateKey)
      ensures forall d :: d != c ==> Collection(d) == old(Collection(d))
      ensures old(Valid()) ==> Valid()
    {
      var sorted := Sorting.SortBy(Collection(c), DateKey);
      if Valid() {
        Sorting.SortByPermutes(Collection(c), DateKey);
        PermutationKeepsUnique(Collection(c), sorted);
      }
      SetCollection(c, sorted);
    }

    /** handleAddVaccination / handleAddMedication / handleAddAppointment. */
    method HandleAdd(c: Category, r: ScheduleRecord)
      modifies this
      ensures Collection(c) == Add(old(Collection(c)), r)
      ensures forall d :: d != c ==> Collection(d) == old(Collection(d))
      ensures old(Valid()) && !HasId(old(Collection(c)), r.id) ==> Valid()
    {
      SetCollection(c, Add(Collection(c), r));
    }

    /** handleUpdateVaccination / handleUpdateMedication / handleUpdateAppointment. */
    method HandleUpdate(c: Category, r: ScheduleRecord)
      modifies this
      ensures Collection(c) == Update(old(Collection(c)), r)
      ensures forall d :: d != c ==> Collection(d) == old(Collection(d))
      ensures old(Valid()) ==> Valid()
    {
      SetCollection(c, Update(Collection(c), r));
    }

    /** handleDeleteVaccination / handleDeleteMedication / handleDeleteAppointment. */
    method HandleDelete(c: Category, id: string)
      modifies this
      ensures Collection(c) == Delete(old(Collection(c)), id)
      ensures forall d :: d != c ==> Collection(d) == old(Collection(d))
      ensures old(Valid()) ==> Valid()
    {
      if Valid() {
        DeleteKeepsUnique(Collection(c), id);
      }
      SetCollection(c, Delete(Collection(c), id));
    }
  }
}
