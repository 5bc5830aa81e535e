/** The two fields of a Python `datetime` that the core reads. The other
    fields (date, minutes, time zone) are stored and passed along
    unchanged and influence nothing, so they are not represented. */
module DateTimes {
  /** `datetime.hour`. */
  type Hour = h: int | 0 <= h < 24

  /** `datetime.weekday()`: Monday is 0, Sunday is 6. */
  type Weekday = d: int | 0 <= d < 7

  datatype DateTime = DateTime(hour: Hour, weekday: Weekday)
}
