# Pet health tracker: a Dafny model of its schedule logic

The pet health tracker is a single-page React app. It keeps three lists of
schedule records for one pet: vaccinations, medications and appointments.
Every record has an id, a title, a medication name, details, a date to
administer, a completion flag and a doctor's name. This project models, in
Dafny, the logic under the markup:

- the record store held by the top-level component, with its add, update
  (replace by id) and delete (filter by id) handlers;
- the dashboard: per-category counts of incomplete records due this week and
  next week, and the feed of the three earliest incomplete records;
- the three list managers:
  - handlers that forward records to the store;
  - the medication list's delete with an "undo" action;
  - completion toggles;
  - the in-place sort by date;
- the three add/edit dialogs: the form schema and the record built on submit;
- the two time pickers: the typed 12-hour picker and the calendar picker with
  hour, minute and AM/PM buttons.

Timestamps are integers (milliseconds since the epoch). Week windows are
inputs. Ids that the code draws from `crypto.randomUUID()` or
`Math.random()` are parameters, and so are the current time and the presence
of an `onChange` prop. The callbacks a manager invokes (`onAdd`, `onUpdate`,
`onDelete`) are returned as a list of `Callback` values. `Store.ApplyAll`
interprets that list against a collection, so a handler and the store can be
reasoned about together.

Files (each is one module):

| file | models |
|---|---|
| `wrappers.dfy` | `Option` and `Result` |
| `schedule.dfy` | the record type, categories, callbacks, lookup by id (`Array.prototype.find`/`findIndex`) |
| `sorting.dfy` | a stable insertion sort by an integer key, the order `Array.prototype.sort` produces with a subtracting comparator |
| `store.dfy` | `pet-health-tracker.tsx`: initial state and the add/update/delete handlers, as pure functions and as the `PetHealthTracker` class whose three fields the handlers replace |
| `managers.dfy` | the three manager components, including the in-place sort on an `array` |
| `dashboard.dfy` | `dashboard.tsx`: week counts, upcoming feed, toggle handlers |
| `modals.dfy` | the three add/edit dialogs |
| `clock.dfy` | the hours/minutes view of a JavaScript `Date`, and a mutable `Date` object |
| `time_picker.dfy` | `time-picker.tsx`, with its state as the `TimePickerState` class |
| `date_time_picker.dfy` | `ui/date-time-picker.tsx` |

Handlers shared in kind across files are modelled once:

- The medication and appointment managers and the dashboard look a record up
  by id and emit it with a new completion flag. That is
  `Managers.HandleToggleComplete`.
- The vaccination manager flips the flag of the record it is given. That is
  `Managers.HandleToggleFlip`.
- All three managers replace the id on add, forward ids on delete and sort
  by date in the same way.
- The store's three handler triples differ only in the list they touch. A
  `Category` parameter selects the list.

The managers sort the list they are given with `.sort`, which reorders the
array in place. That array is the store's own state, so rendering reorders
the store's collection (`Store.PetHealthTracker.SortCollection`). With unique
ids the reordering never changes what a lookup by id finds
(`Store.SortKeepsLookup`).

The medication list's delete offers an undo on its toast. The comment at
`src/components/medication-manager.tsx:69` says the undo calls onUpdate
rather than onAdd so that the record comes back with the same id, and the
toast at line 71 reports "Medication restored". The onUpdate the undo calls
is the one from the render in which the delete ran. That handler maps over
that render's list, which still holds the record. So undo does bring the
record back, with its id and in its old place (`Managers.UndoRestoresSnapshot`).
But it also resets the whole list to that earlier state: records deleted or
added between the delete and the undo are reverted as well (see Findings).

## Model

| member | source | states |
|---|---|---|
| Schedule.FindIndex | src/components/medication-manager.tsx:57 | returns -1 exactly when no record has the id; otherwise the index of the first record with it |
| Schedule.Find | src/components/medication-manager.tsx:42 | finds a record exactly when one has the id; that record has the id, is in the list and is the first such record |
| Schedule.FindUnique | src/components/medication-manager.tsx:78 | with unique ids, looking up a record's id finds that record at its own index |
| Store.Add | src/components/pet-health-tracker.tsx:55-57 | appends: one longer, earlier records unchanged and in order, the record last; the ids are the old ones plus the new one; a fresh id keeps ids unique |
| Store.Update | src/components/pet-health-tracker.tsx:59-65 | same length; each position holding the id becomes the new record and every other position is untouched; ids unchanged; an absent id leaves the list equal; unique ids stay unique |
| Store.Delete | src/components/pet-health-tracker.tsx:67-69 | keeps exactly the records whose id differs; no record with the id is left; an absent id leaves the list equal |
| Store.DeleteKeepsUnique | src/components/pet-health-tracker.tsx:67-69 | deleting keeps ids unique |
| Store.DeleteIdempotent | src/components/pet-health-tracker.tsx:67-69 | deleting twice equals deleting once |
| Store.DeleteConcat | src/components/pet-health-tracker.tsx:67-69 | deleting distributes over concatenation, so the order of the kept records is preserved |
| Store.DeleteUnique | src/components/pet-health-tracker.tsx:67-69 | with unique ids, deleting a record's id removes exactly that position |
| Store.AddBackAfterDelete | src/components/pet-health-tracker.tsx:55-69 | re-adding a deleted record puts it at the end, and the list is a permutation of the original |
| Store.UpdateAfterDeleteIsInert | src/components/pet-health-tracker.tsx:59-69 | update with the id just deleted leaves the list as the delete left it |
| Store.ApplyAllSingle | src/components/pet-health-tracker.tsx:55-69 | running one callback equals applying it |
| Store.UpdateWithOwnRecord | src/components/pet-health-tracker.tsx:59-65 | with unique ids, updating with a record already in the list leaves the list equal |
| Store.InitialRecords | src/components/pet-health-tracker.tsx:18-52 | each list starts with one incomplete record of Dr. Smith: v1 due in 7 days, m1 in 3, a1 in 14 |
| Store.PermutationKeepsUnique | src/components/medication-manager.tsx:120-124 | reordering a list keeps its ids unique |
| Store.SortKeepsLookup | src/components/medication-manager.tsx:120-124 | with unique ids, sorting the list by date never changes the record a lookup by id finds |
| Store.PetHealthTracker.SortCollection | src/components/medication-manager.tsx:120-124 | rendering a list reorders that collection of the store into its stable sort by date; the other two are unchanged; unique ids are kept |
| Store.Apply | src/components/pet-health-tracker.tsx:142-162 | each callback prop runs its collection's handler: an add makes the list one longer, an update keeps its length, a delete never lengthens it; ids stay unique unless an add reuses one |
| Store.ApplyAll | src/components/pet-health-tracker.tsx:142-162 | callbacks run in the order they are made; the list grows by at most one per callback, and without adds unique ids stay unique (the order itself is pinned by ApplyAllSingle and ApplyAllPair) |
| Store.ApplyAllPair | src/components/pet-health-tracker.tsx:55-69 | running two callbacks applies them in order |
| Store.PetHealthTracker.constructor | src/components/pet-health-tracker.tsx:18-52 | each list starts as its one incomplete sample record (v1, m1, a1, due in 7, 3 and 14 days), ids unique |
| Store.PetHealthTracker.SetCollection | src/components/pet-health-tracker.tsx:56 | replaces one list and leaves the other two alone |
| Store.PetHealthTracker.HandleAdd | src/components/pet-health-tracker.tsx:55-57 | (and its copies at 71-73, 87-89) the chosen list becomes `Add` of the old one, the other two are unchanged, unique ids hold if the id is fresh |
| Store.PetHealthTracker.HandleUpdate | src/components/pet-health-tracker.tsx:59-65 | (and its copies at 75-81, 91-97) the chosen list becomes `Update` of the old one, the other two are unchanged, unique ids are kept |
| Store.PetHealthTracker.HandleDelete | src/components/pet-health-tracker.tsx:67-69 | (and its copies at 83-85, 99-101) the chosen list becomes `Delete` of the old one, the other two are unchanged, unique ids are kept |
| Managers.HandleAdd | src/components/medication-manager.tsx:32-36 | emits one onAdd whose record differs from the submitted one only in its fresh id |
| Managers.AddWithFreshIdKeepsUnique | src/components/vaccination-manager.tsx:27-31 | adding through the manager with an unused fresh id keeps ids unique and puts the record last |
| Managers.HandleSelect | src/components/appointment-manager.tsx:41-47 | edit and delete-click select the record at findIndex(id), which holds the id, and leave the selection alone when the id is absent |
| Managers.HandleToggleComplete | src/components/medication-manager.tsx:77-88 | emits nothing for an absent id; otherwise one onUpdate of the found record with only isComplete set to the given value |
| Managers.ToggleThroughStore | src/components/appointment-manager.tsx:61-72 | through the store, a toggle changes only that record's flag, in place |
| Managers.Flipped | src/components/vaccination-manager.tsx:53-57 | the flag is negated and every other field equal |
| Managers.HandleToggleFlip | src/components/vaccination-manager.tsx:53-57 | emits one onUpdate carrying the flipped record |
| Managers.FlipTwice | src/components/vaccination-manager.tsx:53-57 | flipping twice gives the original record |
| Managers.HandleDelete | src/components/vaccination-manager.tsx:47-49 | emits exactly one onDelete with the id unchanged |
| Managers.HandleDeleteWithUndo | src/components/medication-manager.tsx:55-74 | emits onDelete(id), captures the record at findIndex(id) (nothing when the id is absent), and keeps the list of the render the delete ran in, which the undo's onUpdate maps over |
| Managers.Undo | src/components/medication-manager.tsx:68-71 | undo makes the collection the kept list with the captured record's id replaced by it, whatever the collection holds when pressed |
| Managers.UndoRestoresSnapshot | src/components/medication-manager.tsx:55-71 | with unique ids, undo gives back exactly the list before the delete, the record in its old place with its old id |
| Managers.UndoRevivesLaterDelete | src/components/medication-manager.tsx:55-71 | delete a, delete b, undo: b is in the list again |
| Managers.UndoDropsLaterAdd | src/components/medication-manager.tsx:55-71 | a record added between the delete and the undo is gone after the undo |
| Managers.UndoByAdd | src/components/medication-manager.tsx:68-71 | corrected undo: re-submits the captured record through onAdd |
| Managers.UndoByAddRestores | src/components/medication-manager.tsx:55-71 | with the corrected undo, the list is a permutation of the original, ids stay unique and the id finds the same record |
| Managers.UndoByAddKeepsLaterDelete | src/components/medication-manager.tsx:55-71 | with the corrected undo applied to the current list, a deleted then undone record is back and a record deleted in between stays deleted |
| Managers.InsertByAt | src/components/medication-manager.tsx:120-124 | the stable insertion puts the element right after the last element dated no later than it |
| Managers.InsertIntoPrefix | src/components/medication-manager.tsx:120-124 | inserts one element into the sorted prefix in place; the rest of the array is untouched |
| Managers.SortByDate | src/components/medication-manager.tsx:120-124 | sorts the array in place: non-decreasing by date, a permutation of the input, and equal to the stable sort |
| Sorting.SortBy | src/components/dashboard.tsx:126-129 | the stable sort by key that `.sort` with a subtracting comparator produces here and in the three managers; its own contract gives the length, and SortByPermutes, SortBySorted and SortByStable pin down the rest |
| Sorting.InsertByPermutes | src/components/vaccination-manager.tsx:77-78 | insertion adds exactly the one element |
| Sorting.InsertBySorted | src/components/vaccination-manager.tsx:77-78 | insertion into a sorted list is sorted |
| Sorting.SortByPermutes | src/components/appointment-manager.tsx:104-108 | the sort is a permutation |
| Sorting.SortBySorted | src/components/appointment-manager.tsx:104-108 | the sort is non-decreasing by key |
| Sorting.SortByPrefix | src/components/dashboard.tsx:126-130 | every prefix of the sorted list is sorted and drawn from the input |
| Sorting.KeyFilterConcat | src/components/dashboard.tsx:115-125 | the records with a given key in a concatenation are those of each part, in order |
| Sorting.InsertByStable | src/components/dashboard.tsx:126-129 | insertion keeps the order of records with equal keys, putting the new one last among them |
| Sorting.SortByStable | src/components/dashboard.tsx:126-129 | the sort is stable: records with equal keys keep their input order |
| Dashboard.NextWeek | src/components/dashboard.tsx:53-56 | next week's bounds are this week's, each moved one week later, so the window keeps its length |
| Dashboard.CountDue | src/components/dashboard.tsx:59-66 | counts incomplete records with start <= date <= end; at most the list's length; zero exactly when none is due, the length exactly when all are |
| Dashboard.CountDueConcat | src/components/dashboard.tsx:59-112 | counts add up over concatenation |
| Dashboard.CountDueSingle | src/components/dashboard.tsx:59-66 | one record counts 1 exactly when it is incomplete and inside both inclusive bounds |
| Dashboard.WeeksSplitFortnight | src/components/dashboard.tsx:53-112 | for a one-week window, this week's count plus next week's equals the count over both weeks, so the windows neither overlap nor leave a gap |
| Dashboard.CompletingRemovesFromCount | src/components/dashboard.tsx:59-66 | marking a record complete lowers the count by one if it was due, else leaves it |
| Dashboard.Summarize | src/components/dashboard.tsx:53-112 | the This Week cards count each collection over this week's window and the Next Week cards over the window one week later (so CountDue's lemmas carry over to the cards); each count is at most its collection's size |
| Dashboard.SummaryCoversFortnight | src/components/dashboard.tsx:53-112 | for each category, this week's and next week's counts add up to the two-week count |
| Dashboard.Tagged | src/components/dashboard.tsx:116-124 | at most one event per record, each incomplete and tagged with the list's category |
| Dashboard.TaggedMembers | src/components/dashboard.tsx:116-124 | the tagged events are exactly the incomplete records of the list, each tagged with its category |
| Dashboard.TaggedConcat | src/components/dashboard.tsx:116-124 | tagging distributes over concatenation, so the records keep their order |
| Dashboard.TaggedSingle | src/components/dashboard.tsx:116-124 | one record gives one event when incomplete and none when complete |
| Dashboard.Pending | src/components/dashboard.tsx:115-125 | the merged list holds exactly the incomplete records of the three collections, each tagged with the collection it came from |
| Dashboard.UpcomingEvents | src/components/dashboard.tsx:115-130 | the feed holds min(3, number of incomplete records) events |
| Dashboard.FeedSortedSubset | src/components/dashboard.tsx:126-130 | the feed is sorted by date and drawn from the incomplete records |
| Dashboard.FeedEntriesTagged | src/components/dashboard.tsx:115-125 | every feed entry is incomplete and comes from the list its tag names |
| Dashboard.FeedIsEarliest | src/components/dashboard.tsx:126-130 | no pending event left out of the feed is earlier than one shown |
| Dashboard.FeedIsEarliestByIndex | src/components/dashboard.tsx:126-130 | the feed is the front of the date-sorted pending list, each shown entry dated no later than every entry behind it, duplicates included |
| Dashboard.FeedTiesFollowCategoryOrder | src/components/dashboard.tsx:115-129 | among events with equal dates, the feed shows a prefix of the vaccination, medication, appointment order |
| Dashboard.SortThree | src/components/dashboard.tsx:126-129 | three events whose dates are in the order second, first, third sort into that order |
| Dashboard.InitialFeed | src/components/pet-health-tracker.tsx:18-52 | with the sample data the feed is the medication, the vaccination, then the appointment |
| Modals.Validate | src/components/modals/add-edit-vaccination-modal.tsx:28-37 | an error is reported exactly for an empty title, an empty or missing medication name (not required for appointments), a missing date or an empty doctor's name |
| Modals.KeptId | src/components/modals/add-edit-medication-modal.tsx:85 | the edited record's id is kept when it is non-empty; with no record or an empty id the random one is taken |
| Modals.Submit | src/components/modals/add-edit-medication-modal.tsx:83-93 | rejected exactly when a required field is empty; otherwise copies title, name, date and doctor, defaults details and medication name to "", keeps a non-empty existing id or takes the random one, and sets isComplete from the form (vaccination, medication) or from the edited record (appointment) |
| Modals.ResetValues | src/components/modals/add-edit-appointment-modal.tsx:62-80 | editing loads every field of the record, adding loads empty text and `now` as the date; no reset ever sets isComplete |
| Modals.UntouchedAddFormRejected | src/components/modals/add-edit-appointment-modal.tsx:72-78 | an untouched add form is rejected for title and doctor's name, and for medication name except in the appointment dialog |
| Modals.AppointmentEditRoundTrip | src/components/modals/add-edit-appointment-modal.tsx:62-92 | saving an unchanged appointment gives back the same record |
| Modals.EditClearsCompletion | src/components/modals/add-edit-vaccination-modal.tsx:63-93 | saving an unchanged vaccination or medication gives it back with isComplete false |
| Modals.SubmitKeepingCompletion | src/components/modals/add-edit-medication-modal.tsx:83-93 | corrected submit: completion taken from the edited record, rejections unchanged |
| Modals.CorrectedEditRoundTrip | src/components/modals/add-edit-medication-modal.tsx:83-93 | with the correction, saving any unchanged record gives it back |
| Clock.Date.constructor | src/components/ui/date-time-picker.tsx:41 | a fresh copy of the date |
| Clock.Date.SetHours | src/components/ui/date-time-picker.tsx:45 | changes the hours only |
| Clock.Date.SetHoursMinutes | src/components/ui/date-time-picker.tsx:30 | changes the time of day and keeps the date |
| Clock.Date.SetMinutes | src/components/ui/date-time-picker.tsx:47 | changes the minutes only |
| TimePicker.DisplayHour | src/components/time-picker.tsx:26-32 | a 24-hour hour shows as 1..12 on the same clock-face position |
| TimePicker.Clamp | src/components/time-picker.tsx:45-51 | the value in the range nearest to the input, the input itself when in range |
| TimePicker.ClampHour | src/components/time-picker.tsx:38-51 | a typed hour becomes the nearest value in 0..12; NaN becomes 0 |
| TimePicker.ClampMinute | src/components/time-picker.tsx:58-72 | a typed minute becomes the nearest value in 0..59; NaN becomes 0 |
| TimePicker.To24 | src/components/time-picker.tsx:80-86 | for a box hour 0..12 gives a valid 24-hour hour in the half the AM/PM flag names, on the same clock-face position |
| TimePicker.DisplayThenTo24 | src/components/time-picker.tsx:80-86 | displaying a 24-hour hour and converting back gives it again |
| TimePicker.To24ThenDisplay | src/components/time-picker.tsx:26-32 | converting a 12-hour hour and displaying it gives it again |
| TimePicker.ToggleShiftsTwelveHours | src/components/time-picker.tsx:74-86 | flipping AM/PM moves the pushed hour by exactly twelve |
| TimePicker.PendingDate | src/components/time-picker.tsx:78-99 | pushes nothing exactly when the computed time equals the date's; otherwise the date's day at the computed time |
| TimePicker.PushSettles | src/components/time-picker.tsx:90-99 | once the pushed date is the prop, the same state pushes nothing more |
| TimePicker.TimePickerState.constructor | src/components/time-picker.tsx:18-22 | first render: hour holds the raw 24-hour hour |
| TimePicker.TimePickerState.Displayed | src/components/time-picker.tsx:18-32 | corrected first render: hour holds the display hour |
| TimePicker.TimePickerState.SyncFromDate | src/components/time-picker.tsx:24-36 | state becomes the display hour, the minutes and the PM flag of the date |
| TimePicker.TimePickerState.HandleHourChange | src/components/time-picker.tsx:38-56 | hour becomes the clamped typed hour; the rest of the state is unchanged |
| TimePicker.TimePickerState.HandleMinuteChange | src/components/time-picker.tsx:58-72 | minute becomes the clamped typed minute; the rest of the state is unchanged |
| TimePicker.TimePickerState.TogglePM | src/components/time-picker.tsx:74-76 | negates the flag (so two presses restore it) and changes nothing else |
| TimePicker.TimePickerState.PushTime | src/components/time-picker.tsx:78-100 | what the effect passes to setDate is exactly the pending date |
| TimePicker.MountPushesShiftedHour | src/components/time-picker.tsx:78-99 | on first render (state from lines 18-22) a 13..23 o'clock date is pushed back twelve hours later |
| TimePicker.SyncedStatePushesNothing | src/components/time-picker.tsx:24-36 | starting from the displayed hour, a valid date is never pushed |
| DateTimePicker.HandleDateSelect | src/components/ui/date-time-picker.tsx:26-33 | emits only with a day and an onChange: the picked day at the current hours and minutes |
| DateTimePicker.ChangedTime | src/components/ui/date-time-picker.tsx:41-55 | the day never changes; hour buttons keep minutes; buttons 1..11 keep the half of the day; button 12 gives 12 in the morning and 24 in the afternoon; minute buttons keep hours; AM/PM keep minutes and clock-face hour and move a valid time into their half, leaving it alone when already there |
| DateTimePicker.HandleTimeChange | src/components/ui/date-time-picker.tsx:35-58 | emits the changed time when there is an onChange and nothing otherwise |
| DateTimePicker.MeridiemIdempotent | src/components/ui/date-time-picker.tsx:48-55 | pressing AM or PM twice equals pressing it once |
| DateTimePicker.AmThenPmRestores | src/components/ui/date-time-picker.tsx:48-55 | from 12..23 o'clock, AM then PM restores the time |
| DateTimePicker.IsHourHighlighted | src/components/ui/date-time-picker.tsx:97-99 | a button is highlighted exactly when the hours are a whole number of half-days away from it |
| DateTimePicker.HighlightedIsDisplayHour | src/components/ui/date-time-picker.tsx:91-101 | the highlighted hour button is exactly the display hour, so exactly one is highlighted |
| DateTimePicker.TwelveButtonAsWritten | src/components/ui/date-time-picker.tsx:43-45 | the 12 button moves every morning time to noon, midnight included although its button is highlighted, and sets hours to 24 in the afternoon |
| DateTimePicker.PickHour | src/components/ui/date-time-picker.tsx:43-45 | corrected hour button: a valid hour in the same half of the day, with the pressed button highlighted |
| DateTimePicker.PickHourCorrectsTwelve | src/components/ui/date-time-picker.tsx:43-45 | the correction agrees with buttons 1..11 as written and leaves the time alone when the pressed button is already highlighted |

## Left out

- Rendering, styling, icons, the theme components, toast messages and the
  dialogs' open/closed flags are not modelled: they are presentation only.
- React's scheduling of state updates and effects is not modelled.
  Each handler is one atomic step on the state it reads. The first-render
  finding assumes React's documented order: both effects of the first commit
  see the initial state.
- Time zones, daylight saving, seconds and milliseconds are not modelled.
  The day rollover that `setHours(24)` performs is also left out: `Clock.Date`
  keeps an out-of-range hour as given.
- The week window bounds come from date-fns `startOfWeek`/`endOfWeek`
  (Monday start) and `addWeeks`. Here they are inputs, and a week is
  `WeekMs` milliseconds.
- Id generation (`crypto.randomUUID`, `Math.random`) and the current time are
  parameters.
- Parsing of typed text (`parseInt`) is a parameter: `None` stands for NaN.
  The focus move after a two-digit hour is presentation.
- The zod and react-hook-form internals are not modelled. Only the field
  rules in the schema are. A date that is present but invalid is not
  modelled.
- Managers.Undo: when the id is absent, the source captures `undefined`.
  Its undo then throws in the update handler unless the list was empty, in
  which case the list is set to empty. The delete dialog opens only for a
  listed record, so the case is unreachable. The model leaves the list as
  it is in that case.
- The list the undo resets to is the list as last rendered. Rendering sorts
  it in place, so it is the sorted list; the model's lemmas hold for any
  order with unique ids.
- The vaccination manager's edit and update handlers and the other managers'
  update handlers only forward the record (to the dialog or to `onUpdate`).
  They are covered by `Store.Update`.
- Managers.SortByDate: `Array.prototype.sort` is specified by ECMAScript as
  stable, but the engine's algorithm is not fixed. The model uses insertion
  sort, which yields the same (unique) stable order.
- Sorting.SortBy: its own ensures gives only the length; order, permutation
  and stability are stated in the lemmas beside it, because those
  quantified properties make the recursive definition too costly to check.
- Dashboard.UpcomingEvents: the feed's ordering, source and earliest-first
  properties are stated in the lemmas beside it rather than in its own
  ensures.

## Findings

| source | as written | input that shows it | evidently intended | confidence | as-written member | corrected member |
|---|---|---|---|---|---|---|
| src/components/medication-manager.tsx:68-71 | undo calls the onUpdate captured at delete time, which maps over the list from before the delete, so the collection is reset to that earlier list | delete A, delete B, undo A: B comes back; a record added in between is lost | undo re-inserts only the deleted record into the current list | high, not executed | Managers.UndoRevivesLaterDelete | Managers.UndoByAddKeepsLaterDelete |
| src/components/modals/add-edit-medication-modal.tsx:63-81, 90 | the vaccination and medication dialogs never put isComplete in the form, so saving sets it to false | edit a completed medication and save it unchanged: it becomes incomplete | an edit keeps the completion flag, as the appointment dialog does | high, not executed | Modals.EditClearsCompletion | Modals.CorrectedEditRoundTrip |
| src/components/ui/date-time-picker.tsx:43-45 | the 12 button adds 12 in the afternoon and not at all in the morning | at 15:00 press 12: hours 24 (next midnight); at 00:30 press the highlighted 12: noon | 12 means 12 o'clock in the current half of the day | high, not executed | DateTimePicker.TwelveButtonAsWritten | DateTimePicker.PickHourCorrectsTwelve |
| src/components/time-picker.tsx:18-22, 78-99 | the hour state starts as the raw 24-hour hour, and the push effect adds 12 again for PM | mount with a date at 15:00: the effect pushes hour 27, that is 03:00 next day | mounting does not change the date | medium (depends on effect order), not executed | TimePicker.MountPushesShiftedHour | TimePicker.SyncedStatePushesNothing |
