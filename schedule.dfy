/**
 * The record shared by vaccinations, medications and appointments
 * (src/lib/types.ts), with the lookups every component performs on a
 * collection of them.
 */
module Schedule {
  import opened Wrappers

  /** One scheduled event. `dateToAdminister` is a timestamp in milliseconds. */
  datatype ScheduleRecord = ScheduleRecord(
    id: string,
    title: string,
    medicationName: string,
    details: string,
    dateToAdminister: int,
    isComplete: bool,
    doctorName: string)

  /** Which of the three collections a record belongs to. */
  datatype Category = Vaccination | Medication | Appointment

  /** A call a component makes on one of the store's `onAdd`, `onUpdate` or `onDelete` props. */
  datatype Callback = OnAdd(record: ScheduleRecord) | OnUpdate(record: ScheduleRecord) | OnDelete(id: string)

  /** The sort key every list uses: `dateToAdminister.getTime()`. */
  function DateKey(r: ScheduleRecord): int {
    r.dateToAdminister
  }

  predicate HasId(s: seq<ScheduleRecord>, id: string) {
    exists i :: 0 <= i < |s| && s[i].id == id
  }

  /** The collection invariant: no two records share an id. */
  predicate UniqueIds(s: seq<ScheduleRecord>) {
    forall i, j :: 0 <= i < j < |s| ==> s[i].id != s[j].id
  }

  /** `a` and `b` agree on every field except possibly `id`. */
  predicate SameExceptId(a: ScheduleRecord, b: ScheduleRecord) {
    a.title == b.title && a.medicationName == b.medicationName && a.details == b.details
    && a.dateToAdminister == b.dateToAdminister && a.isComplete == b.isComplete
    && a.doctorName == b.doctorName
  }

  /** `a` and `b` agree on every field except possibly `isComplete`. */
  predicate SameExceptCompletion(a: ScheduleRecord, b: ScheduleRecord) {
    a.id == b.id && a.title == b.title && a.medicationName == b.medicationName
    && a.details == b.details && a.dateToAdminister == b.dateToAdminister
    && a.doctorName == b.doctorName
  }

  /** `Array.prototype.findIndex` on the id: the first matching position, or -1. */
  function FindIndex(s: seq<ScheduleRecord>, id: string): (k: int)
    ensures -1 <= k < |s|
    ensures k == -1 <==> !HasId(s, id)
    ensures 0 <= k ==> s[k].id == id && forall j :: 0 <= j < k ==> s[j].id != id
  {
    if |s| == 0 then -1
    else if s[0].id == id then 0
    else
      var k := FindIndex(s[1..], id);
      assert HasId(s, id) ==> HasId(s[1..], id) by {
        if HasId(s, id) {
          var i :| 0 <= i < |s| && s[i].id == id;
          assert s[1..][i - 1].id == id;
        }
      }
      if k == -1 then -1 else k + 1
  }

  /** `Array.prototype.find` on the id: the first record with that id, if any. */
  function Find(s: seq<ScheduleRecord>, id: string): (r: Option<ScheduleRecord>)
    ensures r.Some? <==> HasId(s, id)
    ensures r.Some? ==> r.value.id == id && r.value in s
    ensures r.Some? ==> r.value == s[FindIndex(s, id)]
  {
    var k := FindIndex(s, id);
    if k < 0 then None else Some(s[k])
  }

  /** With unique ids, the record found for an id is the one at any position holding it. */
  lemma FindUnique(s: seq<ScheduleRecord>, k: nat)
    requires UniqueIds(s) && k < |s|
    ensures FindIndex(s, s[k].id) == k && Find(s, s[k].id) == Some(s[k])
  {
  }
}
