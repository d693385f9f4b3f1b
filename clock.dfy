/** The part of a JavaScript Date the two time pickers read and write. */
module Clock {
  /**
   * A point in time as the pickers see it: `day` stands for the calendar
   * date (an opaque day number), `hours` and `minutes` for what getHours()
   * and getMinutes() return.
   */
  datatype DateTime = DateTime(day: int, hours: int, minutes: int)

  /** A normalised time of day: hours 0..23, minutes 0..59. */
  predicate ValidTime(d: DateTime) {
    0 <= d.hours <= 23 && 0 <= d.minutes <= 59
  }

  /**
   * A mutable Date object, as built by `new Date(d)` and changed by
   * setHours/setMinutes. An hour outside 0..23 is kept as given: the
   * rollover into a neighbouring day that JavaScript performs is not modelled.
   */
  class Date {
    var day: int
    var hours: int
    var minutes: int

    function Value(): DateTime
      reads this
    {
      DateTime(day, hours, minutes)
    }

    /** `new Date(d)`: a fresh copy of d. */
    constructor (d: DateTime)
      ensures Value() == d
    {
      day, hours, minutes := d.day, d.hours, d.minutes;
    }

    /** `setHours(h)`: only the hours change. */
    method SetHours(h: int)
      modifies this
      ensures Value() == old(Value()).(hours := h)
    {
      hours := h;
    }

    /** `setHours(h, m)`: the time of day changes, the date does not. */
    method SetHoursMinutes(h: int, m: int)
      modifies this
      ensures Value() == DateTime(old(day), h, m)
    {
      hours, minutes := h, m;
    }

    /** `setMinutes(m)`: only the minutes change. */
    method SetMinutes(m: int)
      modifies this
      ensures Value() == old(Value()).(minutes := m)
    {
      minutes := m;
    }
  }
}
