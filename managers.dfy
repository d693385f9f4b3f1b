/**
 * The three list components (src/components/vaccination-manager.tsx,
 * medication-manager.tsx, appointment-manager.tsx). Each handler is modelled by
 * the callbacks it makes on the store, in order; the handlers that the three
 * files (and the dashboard's completion toggles) share line for line are
 * defined once here.
 */
module Managers {
  import opened Wrappers
  import opened Schedule
  import Sorting
  import Store

  /** handleAdd: the submitted record is forwarded with a fresh id in place of its own. */
  function HandleAdd(r: ScheduleRecord, freshId: string): (calls: seq<Callback>)
    ensures |calls| == 1 && calls[0].OnAdd?
    ensures calls[0].record.id == freshId && SameExceptId(calls[0].record, r)
  {
    [OnAdd(r.(id := freshId))]
  }

  /**
   * handleEdit and handleDeleteClick (medication and appointment lists): the
   * first record with the id becomes the current record; an absent id leaves
   * the current record as it was.
   */
  function HandleSelect(s: seq<ScheduleRecord>, id: string, current: Option<ScheduleRecord>): (next: Option<ScheduleRecord>)
    ensures !HasId(s, id) ==> next == current
    ensures HasId(s, id) ==> next.Some? && next.value.id == id && next.value in s
    ensures HasId(s, id) ==> next == Some(s[FindIndex(s, id)])
  {
    match Find(s, id)
    case Some(r) => Some(r)
    case None => current
  }

  /**
   * handleToggleComplete with an explicit value (medication and appointment
   * lists, and the dashboard's three toggles): the first record with the id is
   * re-submitted with only isComplete replaced; nothing happens for an absent id.
   */
  function HandleToggleComplete(s: seq<ScheduleRecord>, id: string, isComplete: bool): (calls: seq<Callback>)
    ensures |calls| <= 1
    ensures |calls| == 1 <==> HasId(s, id)
    ensures |calls| == 1 ==> calls[0].OnUpdate? && calls[0].record.isComplete == isComplete
    ensures |calls| == 1 ==> SameExceptCompletion(calls[0].record, s[FindIndex(s, id)])
  {
    match Find(s, id)
    case Some(r) => [OnUpdate(r.(isComplete := isComplete))]
    case None => []
  }

  /** The vaccination list's toggle: the record's completion flag is negated. */
  function Flipped(r: ScheduleRecord): (f: ScheduleRecord)
    ensures f.isComplete != r.isComplete && SameExceptCompletion(f, r)
  {
    r.(isComplete := !r.isComplete)
  }

  /** handleToggleComplete (vaccination list): the clicked record is re-submitted flipped. */
  function HandleToggleFlip(r: ScheduleRecord): (calls: seq<Callback>)
    ensures |calls| == 1 && calls[0].OnUpdate? && calls[0].record == Flipped(r)
  {
    [OnUpdate(Flipped(r))]
  }

  /** Toggling twice gives back the original record. */
  lemma FlipTwice(r: ScheduleRecord)
    ensures Flipped(Flipped(r)) == r
  {
  }

  /** handleDelete (vaccination and appointment lists): the id is forwarded once, unchanged. */
  function HandleDelete(id: string): (calls: seq<Callback>)
    ensures |calls| == 1 && calls[0] == OnDelete(id)
  {
    [OnDelete(id)]
  }

  /**
   * What the medication list's delete leaves behind: its callbacks, the record
   * kept for undo, and the list the undo's onUpdate works on. The toast keeps
   * the onUpdate of the render in which the delete ran, and that handler maps
   * over the collection of the same render: the list before the delete.
   */
  datatype DeleteOutcome = DeleteOutcome(calls: seq<Callback>, captured: Option<ScheduleRecord>, snapshot: seq<ScheduleRecord>)

  /**
   * handleDelete (medication list): the record at findIndex(id) is captured
   * before the id is forwarded to onDelete, and the undo action closes over
   * the current list.
   */
  function HandleDeleteWithUndo(s: seq<ScheduleRecord>, id: string): (out: DeleteOutcome)
    ensures out.calls == [OnDelete(id)]
    ensures out.captured.Some? <==> HasId(s, id)
    ensures out.captured.Some? ==> out.captured.value == s[FindIndex(s, id)] && out.captured.value.id == id
    ensures out.snapshot == s
  {
    var k := FindIndex(s, id);
    DeleteOutcome([OnDelete(id)], if k < 0 then None else Some(s[k]), s)
  }

  /**
   * The toast's undo action, as written: the captured record goes through the
   * captured onUpdate, which replaces the records with its id in the snapshot
   * and makes the result the collection, whatever the collection holds when
   * undo is pressed.
   */
  function Undo(out: DeleteOutcome, current: seq<ScheduleRecord>): (next: seq<ScheduleRecord>)
    ensures out.captured.Some? ==> next == Store.Update(out.snapshot, out.captured.value)
    ensures out.captured.Some? ==> |next| == |out.snapshot|
    ensures out.captured.None? ==> next == current
  {
    match out.captured
    case Some(r) => Store.Update(out.snapshot, r)
    case None => current
  }

  /**
   * With unique ids, undo gives back exactly the list as it was before the
   * delete, the record in its old place with its old id, whatever list it is
   * pressed on.
   */
  lemma {:induction false} UndoRestoresSnapshot(s: seq<ScheduleRecord>, id: string, current: seq<ScheduleRecord>)
    requires UniqueIds(s) && HasId(s, id)
    ensures Undo(HandleDeleteWithUndo(s, id), current) == s
  {
    Store.UpdateWithOwnRecord(s, FindIndex(s, id));
  }

  /**
   * As written, undo also brings back records deleted after it: delete a,
   * delete b, undo a, and b is in the list again.
   */
  lemma {:induction false} UndoRevivesLaterDelete(s: seq<ScheduleRecord>, a: string, b: string)
    requires UniqueIds(s) && HasId(s, a) && HasId(s, b) && a != b
    ensures var out := HandleDeleteWithUndo(s, a);
      var afterB := Store.Delete(Store.ApplyAll(s, out.calls), b);
      !HasId(afterB, b) && HasId(Undo(out, afterB), b)
  {
    var out := HandleDeleteWithUndo(s, a);
    Store.ApplyAllSingle(s, OnDelete(a));
    UndoRestoresSnapshot(s, a, Store.Delete(Store.Delete(s, a), b));
  }

  /** As written, a record added between the delete and the undo is lost by the undo. */
  lemma {:induction false} UndoDropsLaterAdd(s: seq<ScheduleRecord>, a: string, r: ScheduleRecord)
    requires UniqueIds(s) && HasId(s, a) && !HasId(s, r.id)
    ensures var out := HandleDeleteWithUndo(s, a);
      var afterAdd := Store.Add(Store.ApplyAll(s, out.calls), r);
      HasId(afterAdd, r.id) && !HasId(Undo(out, afterAdd), r.id)
  {
    var out := HandleDeleteWithUndo(s, a);
    Store.ApplyAllSingle(s, OnDelete(a));
    UndoRestoresSnapshot(s, a, Store.Add(Store.Delete(s, a), r));
  }

  /**
   * The evidently intended undo: the captured record, id included, is added
   * back to the collection as it is when undo is pressed (a functional state
   * update; the app's onAdd would close over the old list as well).
   */
  function UndoByAdd(captured: Option<ScheduleRecord>): (calls: seq<Callback>)
    ensures captured.Some? ==> calls == [OnAdd(captured.value)]
    ensures captured.None? ==> calls == []
  {
    match captured
    case Some(r) => [OnAdd(r)]
    case None => []
  }

  /**
   * With unique ids, delete followed at once by the corrected undo gives back
   * the same records (the restored one at the end), with the id invariant intact.
   */
  lemma {:induction false} UndoByAddRestores(s: seq<ScheduleRecord>, id: string)
    requires UniqueIds(s) && HasId(s, id)
    ensures var out := HandleDeleteWithUndo(s, id);
      var t := Store.ApplyAll(s, out.calls + UndoByAdd(out.captured));
      multiset(t) == multiset(s) && UniqueIds(t) && Find(t, id) == Find(s, id)
  {
    var out := HandleDeleteWithUndo(s, id);
    var k := FindIndex(s, id);
    var r := s[k];
    assert out.calls + UndoByAdd(out.captured) == [OnDelete(id), OnAdd(r)];
    Store.ApplyAllPair(s, OnDelete(id), OnAdd(r));
    var t := Store.Add(Store.Delete(s, id), r);
    Store.AddBackAfterDelete(s, k);
    assert UniqueIds(t) by {
      Store.DeleteKeepsUnique(s, id);
    }
    assert Find(t, id) == Find(s, id) by {
      FindUnique(t, |t| - 1);
      FindUnique(s, k);
    }
  }

  /** The corrected undo brings back only its own record: a later delete stays deleted. */
  lemma {:induction false} UndoByAddKeepsLaterDelete(s: seq<ScheduleRecord>, a: string, b: string)
    requires HasId(s, a) && a != b
    ensures var out := HandleDeleteWithUndo(s, a);
      var afterB := Store.Delete(Store.ApplyAll(s, out.calls), b);
      var t := Store.ApplyAll(afterB, UndoByAdd(out.captured));
      HasId(t, a) && !HasId(t, b)
  {
    var out := HandleDeleteWithUndo(s, a);
    Store.ApplyAllSingle(s, OnDelete(a));
    Store.ApplyAllSingle(Store.Delete(Store.Delete(s, a), b), OnAdd(out.captured.value));
  }

  /** handleAdd followed by the store's add keeps ids unique when the new id is fresh. */
  lemma {:induction false} AddWithFreshIdKeepsUnique(s: seq<ScheduleRecord>, r: ScheduleRecord, freshId: string)
    requires UniqueIds(s) && !HasId(s, freshId)
    ensures var t := Store.ApplyAll(s, HandleAdd(r, freshId));
      UniqueIds(t) && |t| == |s| + 1 && t[..|s|] == s && t[|s|].id == freshId
  {
    Store.ApplyAllSingle(s, HandleAdd(r, freshId)[0]);
  }

  /**
   * A toggle applied by the store sets the flag on the record with that id and
   * changes nothing else.
   */
  lemma {:induction false} ToggleThroughStore(s: seq<ScheduleRecord>, k: nat, isComplete: bool)
    requires UniqueIds(s) && k < |s|
    ensures var t := Store.ApplyAll(s, HandleToggleComplete(s, s[k].id, isComplete));
      |t| == |s| && t[k].isComplete == isComplete && SameExceptCompletion(t[k], s[k])
      && forall j :: 0 <= j < |s| && j != k ==> t[j] == s[j]
  {
    FindUnique(s, k);
    assert HasId(s, s[k].id);
    var calls := HandleToggleComplete(s, s[k].id, isComplete);
    Store.ApplyAllSingle(s, calls[0]);
  }

  /**
   * Where the stable insertion puts x: behind position j when the element
   * before j is dated no later than x and every element from j on is dated later.
   */
  lemma {:induction false} InsertByAt(sorted: seq<ScheduleRecord>, x: ScheduleRecord, j: nat)
    requires j <= |sorted|
    requires j == 0 || sorted[j - 1].dateToAdminister <= x.dateToAdminister
    requires forall k :: j <= k < |sorted| ==> sorted[k].dateToAdminister > x.dateToAdminister
    ensures Sorting.InsertBy(sorted, x, DateKey) == sorted[..j] + [x] + sorted[j..]
    decreases |sorted|
  {
    if j == |sorted| {
      assert sorted[..j] == sorted && sorted[j..] == [];
    } else {
      var init, last := sorted[..|sorted| - 1], sorted[|sorted| - 1];
      assert DateKey(last) > DateKey(x);
      InsertByAt(init, x, j);
      assert init[..j] == sorted[..j];
      assert init[j..] + [last] == sorted[j..];
    }
  }

  /** A sequence that holds `sorted` with x spliced in at position j starts with that splice. */
  lemma Spliced(t: seq<ScheduleRecord>, sorted: seq<ScheduleRecord>, x: ScheduleRecord, j: nat)
    requires j <= |sorted| < |t|
    requires forall k :: 0 <= k < j ==> t[k] == sorted[k]
    requires t[j] == x
    requires forall k :: j < k <= |sorted| ==> t[k] == sorted[k - 1]
    ensures t[..|sorted| + 1] == sorted[..j] + [x] + sorted[j..]
  {
    var inserted := sorted[..j] + [x] + sorted[j..];
    forall k | 0 <= k <= |sorted| ensures t[k] == inserted[k] {
      if k > j {
        assert inserted[k] == sorted[k - 1];
      }
    }
  }

  /**
   * Inserts a[i] into the date-ordered prefix a[..i], shifting later-dated
   * records one place right, as the sort's inner pass does.
   */
  method InsertIntoPrefix(a: array<ScheduleRecord>, i: nat)
    requires i < a.Length
    modifies a
    ensures a[..i + 1] == Sorting.InsertBy(old(a[..i]), old(a[i]), DateKey)
    ensures a[i + 1..] == old(a[i + 1..])
  {
    ghost var sorted := a[..i];
    var x := a[i];
    var j := i;
    while j > 0 && a[j - 1].dateToAdminister > x.dateToAdminister
      invariant 0 <= j <= i
      invariant forall k :: 0 <= k < j ==> a[k] == sorted[k]
      invariant forall k :: j < k <= i ==> a[k] == sorted[k - 1]
      invariant forall k :: i < k < a.Length ==> a[k] == old(a[k])
      invariant forall k :: j <= k < i ==> sorted[k].dateToAdminister > x.dateToAdminister
    {
      a[j] := a[j - 1];
      j := j - 1;
    }
    a[j] := x;
    InsertByAt(sorted, x, j);
    Spliced(a[..], sorted, x, j);
    assert a[i + 1..] == old(a[i + 1..]);
  }

  /**
   * The display sort: `list.sort((a, b) => a.dateToAdminister.getTime() -
   * b.dateToAdminister.getTime())`, in place. The result is the stable sort of
   * the old contents, hence ordered by date and a permutation of them
   * (Sorting.SortBy).
   */
  method SortByDate(a: array<ScheduleRecord>)
    modifies a
    ensures a[..] == Sorting.SortBy(old(a[..]), DateKey)
    ensures Sorting.SortedBy(a[..], DateKey) && multiset(a[..]) == multiset(old(a[..]))
  {
    ghost var orig := a[..];
    var i := 0;
    while i < a.Length
      invariant 0 <= i <= a.Length
      invariant a[..i] == Sorting.SortBy(orig[..i], DateKey)
      invariant a[i..] == orig[i..]
    {
      InsertIntoPrefix(a, i);
      assert orig[..i + 1][..i] == orig[..i];
      i := i + 1;
    }
    assert a[..] == a[..a.Length];
    assert orig == orig[..a.Length];
    Sorting.SortBySorted(orig, DateKey);
    Sorting.SortByPermutes(orig, DateKey);
  }
}
