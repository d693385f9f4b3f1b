/**
 * The three add/edit dialogs (src/components/modals/add-edit-vaccination-modal.tsx,
 * add-edit-medication-modal.tsx, add-edit-appointment-modal.tsx): the zod form
 * schema, the values the form is reset to, and the record onSubmit builds.
 * The vaccination and medication dialogs are the same code; the appointment
 * dialog makes medicationName optional and takes isComplete from the record
 * being edited.
 */
module Modals {
  import opened Wrappers
  import opened Schedule

  /** The values handed to onSubmit; fields the schema marks optional may be absent. */
  datatype FormValues = FormValues(
    title: string,
    medicationName: Option<string>,
    details: Option<string>,
    dateToAdminister: Option<int>,
    doctorName: string,
    isComplete: Option<bool>)

  /** The schema's messages: "Title is required", "Medication name is required", ... */
  datatype FieldError = TitleRequired | MedicationNameRequired | DateRequired | DoctorNameRequired

  predicate MissingText(v: Option<string>) {
    v.None? || v.value == ""
  }

  /** formSchema: the rules the resolver checks before onSubmit runs, in schema order. */
  function Validate(c: Category, f: FormValues): (errors: seq<FieldError>)
    ensures TitleRequired in errors <==> f.title == ""
    ensures MedicationNameRequired in errors <==> c != Appointment && MissingText(f.medicationName)
    ensures DateRequired in errors <==> f.dateToAdminister.None?
    ensures DoctorNameRequired in errors <==> f.doctorName == ""
    ensures |errors| <= 4
  {
    (if f.title == "" then [TitleRequired] else [])
    + (if c != Appointment && MissingText(f.medicationName) then [MedicationNameRequired] else [])
    + (if f.dateToAdminister.None? then [DateRequired] else [])
    + (if f.doctorName == "" then [DoctorNameRequired] else [])
  }

  /** `editing?.id || Math.random().toString()`: an empty id counts as missing. */
  function KeptId(existing: Option<ScheduleRecord>, randomId: string): (id: string)
    ensures existing.Some? && existing.value.id != "" ==> id == existing.value.id
    ensures existing.None? || existing.value.id == "" ==> id == randomId
  {
    if existing.Some? && existing.value.id != "" then existing.value.id else randomId
  }

  /**
   * Validation followed by onSubmit: a rejected form yields its errors and
   * nothing is saved; an accepted one yields the record passed to onSave.
   * `randomId` stands for Math.random().toString().
   */
  function Submit(c: Category, existing: Option<ScheduleRecord>, f: FormValues, randomId: string)
    : (r: Result<ScheduleRecord, seq<FieldError>>)
    ensures r.Failure? <==> (f.title == "" || f.doctorName == "" || f.dateToAdminister.None?
                             || (c != Appointment && MissingText(f.medicationName)))
    ensures r.Failure? ==> r.error == Validate(c, f) && |r.error| > 0
    ensures r.Success? ==> r.value.title == f.title && r.value.title != ""
    ensures r.Success? ==> r.value.doctorName == f.doctorName && r.value.doctorName != ""
    ensures r.Success? ==> f.dateToAdminister == Some(r.value.dateToAdminister)
    ensures r.Success? ==> r.value.details == (if f.details.Some? then f.details.value else "")
    ensures r.Success? ==> r.value.medicationName == (if f.medicationName.Some? then f.medicationName.value else "")
    ensures r.Success? && c != Appointment ==> r.value.medicationName != ""
    ensures r.Success? && existing.Some? && existing.value.id != "" ==> r.value.id == existing.value.id
    ensures r.Success? && (existing.None? || existing.value.id == "") ==> r.value.id == randomId
    ensures r.Success? && c == Appointment ==> r.value.isComplete == (existing.Some? && existing.value.isComplete)
    ensures r.Success? && c != Appointment ==> r.value.isComplete == (f.isComplete == Some(true))
  {
    var errors := Validate(c, f);
    if |errors| > 0 then Failure(errors)
    else
      Success(ScheduleRecord(
        KeptId(existing, randomId),
        f.title,
        f.medicationName.GetOr(""),
        f.details.GetOr(""),
        f.dateToAdminister.value,
        if c == Appointment then existing.Some? && existing.value.isComplete else f.isComplete.GetOr(false),
        f.doctorName))
  }

  /**
   * The values the form is reset to when the dialog opens: the edited record's
   * fields, or empty text and `now` when adding. No reset sets isComplete.
   */
  function ResetValues(existing: Option<ScheduleRecord>, now: int): (f: FormValues)
    ensures f.isComplete.None?
    ensures existing.Some? ==> var r := existing.value;
      f == FormValues(r.title, Some(r.medicationName), Some(r.details), Some(r.dateToAdminister), r.doctorName, None)
    ensures existing.None? ==> f == FormValues("", Some(""), Some(""), Some(now), "", None)
  {
    match existing
    case Some(r) => FormValues(r.title, Some(r.medicationName), Some(r.details), Some(r.dateToAdminister), r.doctorName, None)
    case None => FormValues("", Some(""), Some(""), Some(now), "", None)
  }

  /** Submitting the add form untouched is rejected for the missing title and doctor name. */
  lemma UntouchedAddFormRejected(c: Category, now: int, randomId: string)
    ensures var r := Submit(c, None, ResetValues(None, now), randomId);
      r.Failure? && TitleRequired in r.error && DoctorNameRequired in r.error
      && (MedicationNameRequired in r.error <==> c != Appointment)
  {
  }

  /** A well-formed record. */
  predicate Complete(c: Category, r: ScheduleRecord) {
    r.id != "" && r.title != "" && r.doctorName != "" && (c != Appointment ==> r.medicationName != "")
  }

  /** Opening an appointment for edit and saving it unchanged gives back the same record. */
  lemma AppointmentEditRoundTrip(r: ScheduleRecord, now: int, randomId: string)
    requires Complete(Appointment, r)
    ensures Submit(Appointment, Some(r), ResetValues(Some(r), now), randomId) == Success(r)
  {
  }

  /**
   * As written, saving an unchanged vaccination or medication marks it
   * incomplete: the form never holds isComplete, so `values.isComplete || false`
   * is false.
   */
  lemma EditClearsCompletion(c: Category, r: ScheduleRecord, now: int, randomId: string)
    requires c != Appointment && Complete(c, r)
    ensures Submit(c, Some(r), ResetValues(Some(r), now), randomId) == Success(r.(isComplete := false))
  {
  }

  /** The evidently intended onSubmit: every dialog keeps the edited record's completion flag. */
  function SubmitKeepingCompletion(c: Category, existing: Option<ScheduleRecord>, f: FormValues, randomId: string)
    : (r: Result<ScheduleRecord, seq<FieldError>>)
    ensures r.Success? ==> r.value.isComplete == (existing.Some? && existing.value.isComplete)
    ensures r.Failure? <==> Submit(c, existing, f, randomId).Failure?
  {
    match Submit(c, existing, f, randomId)
    case Success(rec) => Success(rec.(isComplete := existing.Some? && existing.value.isComplete))
    case Failure(e) => Failure(e)
  }

  /** With the correction, an unchanged edit gives back the record in every dialog. */
  lemma CorrectedEditRoundTrip(c: Category, r: ScheduleRecord, now: int, randomId: string)
    requires Complete(c, r)
    ensures SubmitKeepingCompletion(c, Some(r), ResetValues(Some(r), now), randomId) == Success(r)
  {
  }
}
