/**
 * The calendar-and-buttons date picker used by the three dialogs
 * (src/components/ui/date-time-picker.tsx): a day picked from the calendar
 * keeps the current time, and the hour, minute and AM/PM buttons change the
 * time of the current value.
 */
module DateTimePicker {
  import opened Wrappers
  import opened Clock
  import TimePicker

  /** A button press: an hour button 1..12, a minute button 0, 5, ..., 55, or "AM"/"PM". */
  datatype TimeChange = HourPick(hour: int) | MinutePick(minute: int) | MeridiemPick(half: string)

  /**
   * handleDateSelect: with a day and an onChange, the picked day at the
   * current value's hours and minutes is emitted; otherwise nothing is.
   */
  method HandleDateSelect(value: DateTime, date: Option<DateTime>, hasOnChange: bool) returns (emitted: Option<DateTime>)
    ensures emitted.Some? <==> date.Some? && hasOnChange
    ensures emitted.Some? ==> emitted.value.day == date.value.day
    ensures emitted.Some? ==> emitted.value.hours == value.hours && emitted.value.minutes == value.minutes
  {
    emitted := None;
    if date.Some? && hasOnChange {
      var newDate := new Date(date.value);
      newDate.SetHoursMinutes(value.hours, value.minutes);
      emitted := Some(newDate.Value());
    }
  }

  /**
   * The date handleTimeChange emits for a button press. The date never
   * changes; an hour button keeps the minutes, buttons 1..11 keep the half
   * of the day, and button 12 gives 12 in the morning and 24 in the
   * afternoon; a minute button keeps the hours, and AM/PM keep the minutes
   * and the clock-face hour while moving a valid time into the half they name.
   */
  function ChangedTime(value: DateTime, change: TimeChange): (d: DateTime)
    ensures d.day == value.day
    ensures change.HourPick? ==> d.minutes == value.minutes
    ensures change.HourPick? && 1 <= change.hour <= 11 && 0 <= value.hours <= 23
      ==> 0 <= d.hours <= 23 && (d.hours >= 12 <==> value.hours >= 12) && d.hours % 12 == change.hour
    ensures change == HourPick(12) && 0 <= value.hours <= 23 ==> d.hours == (if value.hours >= 12 then 24 else 12)
    ensures change.MinutePick? ==> d.hours == value.hours && d.minutes == change.minute
    ensures change.MeridiemPick? ==> d.minutes == value.minutes && d.hours % 12 == value.hours % 12
    ensures change == MeridiemPick("AM") && 0 <= value.hours <= 23 ==> 0 <= d.hours < 12
    ensures change == MeridiemPick("PM") && 0 <= value.hours <= 23 ==> 12 <= d.hours <= 23
    ensures change.MeridiemPick? && (value.hours < 12 <==> change.half == "AM") ==> d == value
    ensures change.MeridiemPick? && change.half != "AM" && change.half != "PM" ==> d == value
  {
    match change
    case HourPick(hour) => value.(hours := if value.hours >= 12 then hour + 12 else hour)
    case MinutePick(minute) => value.(minutes := minute)
    case MeridiemPick(half) =>
      if half == "AM" && value.hours >= 12 then value.(hours := value.hours - 12)
      else if half == "PM" && value.hours < 12 then value.(hours := value.hours + 12)
      else value
  }

  /** handleTimeChange: without an onChange nothing is emitted. */
  method HandleTimeChange(value: DateTime, change: TimeChange, hasOnChange: bool) returns (emitted: Option<DateTime>)
    ensures hasOnChange ==> emitted == Some(ChangedTime(value, change))
    ensures !hasOnChange ==> emitted.None?
  {
    if !hasOnChange {
      return None;
    }
    var newDate := new Date(value);
    match change {
      case HourPick(hour) =>
        newDate.SetHours(if newDate.hours >= 12 then hour + 12 else hour);
      case MinutePick(minute) =>
        newDate.SetMinutes(minute);
      case MeridiemPick(half) =>
        var hours := newDate.hours;
        if half == "AM" && hours >= 12 {
          newDate.SetHours(hours - 12);
        } else if half == "PM" && hours < 12 {
          newDate.SetHours(hours + 12);
        }
    }
    emitted := Some(newDate.Value());
  }

  /** Pressing the same AM/PM button twice does what pressing it once does. */
  lemma MeridiemIdempotent(value: DateTime, half: string)
    requires 0 <= value.hours <= 23
    ensures ChangedTime(ChangedTime(value, MeridiemPick(half)), MeridiemPick(half))
         == ChangedTime(value, MeridiemPick(half))
  {
  }

  /** From an afternoon or evening time, AM then PM returns to it. */
  lemma AmThenPmRestores(value: DateTime)
    requires 12 <= value.hours <= 23
    ensures ChangedTime(ChangedTime(value, MeridiemPick("AM")), MeridiemPick("PM")) == value
  {
  }

  /**
   * The hour button drawn as selected for the current hours: the one on the
   * same clock-face position, that is, a whole number of half-days away.
   */
  function IsHourHighlighted(hours: int, button: int): (lit: bool)
    ensures lit <==> (hours - button) % 12 == 0
  {
    hours % 12 == button % 12
  }

  /**
   * The highlighted hour button is the one the typed picker would display:
   * for a valid hour exactly one of the buttons 1..12 is highlighted.
   */
  lemma HighlightedIsDisplayHour(hours: int, button: int)
    requires 0 <= hours <= 23 && 1 <= button <= 12
    ensures IsHourHighlighted(hours, button) <==> button == TimePicker.DisplayHour(hours)
  {
  }

  /**
   * As written, the "12" button misbehaves: every morning time goes to noon,
   * midnight included although its button is the highlighted 12, and in the
   * afternoon it sets hours to 24, which JavaScript turns into midnight of
   * the next day.
   */
  lemma TwelveButtonAsWritten(value: DateTime)
    requires 0 <= value.hours <= 23
    ensures value.hours == 0 ==> IsHourHighlighted(value.hours, 12)
    ensures value.hours < 12 ==> ChangedTime(value, HourPick(12)).hours == 12
    ensures value.hours >= 12 ==> ChangedTime(value, HourPick(12)).hours == 24
  {
  }

  /** The evidently intended hour button: the clock-face hour in the current half of the day. */
  function PickHour(value: DateTime, button: int): (d: DateTime)
    requires 0 <= value.hours <= 23 && 1 <= button <= 12
    ensures 0 <= d.hours <= 23 && (d.hours >= 12 <==> value.hours >= 12)
    ensures IsHourHighlighted(d.hours, button)
    ensures d.day == value.day && d.minutes == value.minutes
  {
    value.(hours := button % 12 + (if value.hours >= 12 then 12 else 0))
  }

  /**
   * The correction agrees with the buttons 1..11 as written, and pressing the
   * button already highlighted leaves the time alone.
   */
  lemma PickHourCorrectsTwelve(value: DateTime, button: int)
    requires 0 <= value.hours <= 23 && 1 <= button <= 12
    ensures button <= 11 ==> PickHour(value, button) == ChangedTime(value, HourPick(button))
    ensures IsHourHighlighted(value.hours, button) ==> PickHour(value, button) == value
  {
  }
}
