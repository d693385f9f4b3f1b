/**
 * The typed 12-hour time picker (src/components/time-picker.tsx): an hour
 * box, a minute box and an AM/PM button whose state is synchronised from
 * the `date` prop and pushed back through `setDate` when it differs.
 */
module TimePicker {
  import opened Wrappers
  import opened Clock

  /** The 12-hour clock hour shown for a 24-hour hour: 0 shows as 12, 13..23 as 1..11. */
  function DisplayHour(h: int): (d: int)
    ensures 0 <= h <= 23 ==> 1 <= d <= 12 && d % 12 == h % 12
  {
    if h > 12 then h - 12 else if h == 0 then 12 else h
  }

  /** The value in lo..hi nearest to v. */
  function Clamp(v: int, lo: int, hi: int): (c: int)
    requires lo <= hi
    ensures lo <= c <= hi
    ensures lo <= v <= hi ==> c == v
    ensures forall k :: lo <= k <= hi ==> Distance(c, v) <= Distance(k, v)
  {
    if v > hi then hi else if v < lo then lo else v
  }

  function Distance(a: int, b: int): nat {
    if a <= b then b - a else a - b
  }

  /**
   * handleHourChange: the hour typed (None when parseInt yields NaN) becomes
   * the nearest value in 0..12, and NaN becomes 0.
   */
  function ClampHour(parsed: Option<int>): (h: int)
    ensures 0 <= h <= 12
    ensures parsed.None? ==> h == 0
    ensures parsed.Some? ==> forall k :: 0 <= k <= 12 ==> Distance(h, parsed.value) <= Distance(k, parsed.value)
    ensures parsed.Some? && 0 <= parsed.value <= 12 ==> h == parsed.value
  {
    match parsed
    case None => 0
    case Some(v) => Clamp(v, 0, 12)
  }

  /** handleMinuteChange: the nearest value in 0..59, and NaN becomes 0. */
  function ClampMinute(parsed: Option<int>): (m: int)
    ensures 0 <= m <= 59
    ensures parsed.None? ==> m == 0
    ensures parsed.Some? ==> forall k :: 0 <= k <= 59 ==> Distance(m, parsed.value) <= Distance(k, parsed.value)
    ensures parsed.Some? && 0 <= parsed.value <= 59 ==> m == parsed.value
  {
    match parsed
    case None => 0
    case Some(v) => Clamp(v, 0, 59)
  }

  /**
   * The 24-hour hour for a 12-hour hour and the AM/PM flag. For the hours
   * the hour box can hold (0..12, where 0 behaves as 12) the result is a
   * valid hour in the half of the day the flag names, on the same clock face
   * position.
   */
  function To24(hour: int, isPM: bool): (h: int)
    ensures 0 <= hour <= 12 ==> 0 <= h <= 23 && (h >= 12 <==> isPM) && h % 12 == hour % 12
  {
    if isPM then (if hour == 12 then 12 else hour + 12)
    else (if hour == 12 then 0 else hour)
  }

  /** Showing a 24-hour hour on the 12-hour face and reading it back gives it again. */
  lemma DisplayThenTo24(h: int)
    requires 0 <= h <= 23
    ensures To24(DisplayHour(h), h >= 12) == h
  {
  }

  /** Converting a 12-hour hour to 24 hours and displaying it gives it again. */
  lemma To24ThenDisplay(hour: int, isPM: bool)
    requires 1 <= hour <= 12
    ensures DisplayHour(To24(hour, isPM)) == hour
  {
  }

  /** Flipping AM/PM moves the pushed hour by exactly twelve hours. */
  lemma ToggleShiftsTwelveHours(hour: int, isPM: bool)
    requires 0 <= hour <= 12
    ensures To24(hour, !isPM) == To24(hour, isPM) + (if isPM then -12 else 12)
  {
  }

  /**
   * The date the push effect passes to setDate, or None when the picker's
   * time already equals the date's, so that nothing is pushed.
   */
  function PendingDate(hour: int, minute: int, isPM: bool, date: DateTime): (p: Option<DateTime>)
    ensures p.None? <==> To24(hour, isPM) == date.hours && minute == date.minutes
    ensures p.Some? ==> p.value.day == date.day && p.value.hours == To24(hour, isPM) && p.value.minutes == minute
  {
    var hours := To24(hour, isPM);
    if hours != date.hours || minute != date.minutes then Some(DateTime(date.day, hours, minute)) else None
  }

  /** Once a pushed date comes back as the prop, the same state pushes nothing more. */
  lemma PushSettles(hour: int, minute: int, isPM: bool, date: DateTime)
    requires PendingDate(hour, minute, isPM, date).Some?
    ensures PendingDate(hour, minute, isPM, PendingDate(hour, minute, isPM, date).value).None?
  {
  }

  /** The picker's three pieces of state. */
  class TimePickerState {
    var hour: int
    var minute: int
    var isPM: bool

    /** The first render: hour holds the raw 24-hour getHours(), not its display form. */
    constructor (date: DateTime)
      ensures hour == date.hours && minute == date.minutes && isPM == (date.hours >= 12)
    {
      hour, minute, isPM := date.hours, date.minutes, date.hours >= 12;
    }

    /** The evidently intended first render: the hour box starts on the display hour. */
    constructor Displayed(date: DateTime)
      ensures hour == DisplayHour(date.hours) && minute == date.minutes && isPM == (date.hours >= 12)
    {
      hour, minute, isPM := DisplayHour(date.hours), date.minutes, date.hours >= 12;
    }

    /** The effect on `date`: show the prop's time on the 12-hour face. */
    method SyncFromDate(date: DateTime)
      modifies this
      ensures hour == DisplayHour(date.hours) && minute == date.minutes && isPM == (date.hours >= 12)
    {
      hour := DisplayHour(date.hours);
      minute := date.minutes;
      isPM := date.hours >= 12;
    }

    method HandleHourChange(parsed: Option<int>)
      modifies this
      ensures hour == ClampHour(parsed) && minute == old(minute) && isPM == old(isPM)
    {
      match parsed {
        case None =>
          hour := 0;
        case Some(value) =>
          if value > 12 {
            hour := 12;
          } else if value < 0 {
            hour := 0;
          } else {
            hour := value;
          }
      }
    }

    method HandleMinuteChange(parsed: Option<int>)
      modifies this
      ensures minute == ClampMinute(parsed) && hour == old(hour) && isPM == old(isPM)
    {
      match parsed {
        case None =>
          minute := 0;
        case Some(value) =>
          if value > 59 {
            minute := 59;
          } else if value < 0 {
            minute := 0;
          } else {
            minute := value;
          }
      }
    }

    /** The AM/PM button; two presses restore the flag. */
    method TogglePM()
      modifies this
      ensures isPM == !old(isPM) && hour == old(hour) && minute == old(minute)
    {
      isPM := !isPM;
    }

    /**
     * The effect on hour, minute and isPM: copy the date, set its time from
     * the state, and push it only when the time differs from the date's.
     */
    method PushTime(date: DateTime) returns (pushed: Option<DateTime>)
      ensures pushed == PendingDate(hour, minute, isPM, date)
    {
      var newDate := new Date(date);
      var hours := if isPM then (if hour == 12 then 12 else hour + 12) else (if hour == 12 then 0 else hour);
      newDate.SetHours(hours);
      newDate.SetMinutes(minute);
      var hasTimeChanged := hours != date.hours || minute != date.minutes;
      if hasTimeChanged {
        pushed := Some(newDate.Value());
      } else {
        pushed := None;
      }
    }
  }

  /**
   * On the first render the push effect sees the raw hour: for an afternoon
   * or evening date (13..23) with isPM set it pushes hour + 12, a time
   * twelve hours later than the date it was given.
   */
  lemma MountPushesShiftedHour(date: DateTime)
    requires 13 <= date.hours <= 23
    ensures PendingDate(date.hours, date.minutes, date.hours >= 12, date) == Some(date.(hours := date.hours + 12))
  {
  }

  /**
   * Starting from the displayed hour instead, as the sync effect computes it,
   * the push effect pushes nothing for any valid date.
   */
  lemma SyncedStatePushesNothing(date: DateTime)
    requires ValidTime(date)
    ensures PendingDate(DisplayHour(date.hours), date.minutes, date.hours >= 12, date).None?
  {
    DisplayThenTo24(date.hours);
  }
}
