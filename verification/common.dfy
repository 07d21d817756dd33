/** Values shared by every part of the booking engine: optional values,
    times of day and calendar dates. */
module Common {

  datatype Option<+T> = None | Some(value: T)

  /** Seconds in a day; a time of day is always strictly below it. */
  const SecondsPerDay: nat := 86400

  /** A Python `datetime.time` without microseconds: whole seconds since midnight. */
  type TimeOfDay = t: nat | t < SecondsPerDay

  /** The time of day `h:m:s`, as `time(h, m, s)` builds it. */
  function Hms(h: nat, m: nat, s: nat): (t: TimeOfDay)
    requires h < 24 && m < 60 && s < 60
    ensures t / 3600 == h && (t % 3600) / 60 == m && t % 60 == s
  {
    h * 3600 + m * 60 + s
  }

  /** The `'HH:MM'` label of a time (what `strftime('%H:%M')` and MySQL's
      `TIME_FORMAT(hora, '%H:%i')` print), as minutes since midnight. */
  function Minute(t: TimeOfDay): (m: nat)
    ensures m < 1440
    ensures m * 60 <= t < m * 60 + 60
  {
    t / 60
  }

  /** A calendar date, identified by its proleptic Gregorian ordinal
      (Python's `date.toordinal()`, where 0001-01-01 is day 1). */
  datatype Date = Date(ordinal: int)

  /** Python's `date.weekday()`: Monday is 0 and Sunday is 6. */
  function Weekday(d: Date): (w: nat)
    ensures w < 7
  {
    (d.ordinal + 6) % 7
  }

  /** 0001-01-01, ordinal 1, was a Monday. */
  lemma WeekdayLunes()
    ensures Weekday(Date(1)) == 0
  {
  }

  /** The next day is the next weekday, Sunday (6) being followed by Monday (0). */
  lemma {:induction false} WeekdaySiguiente(d: Date)
    ensures Weekday(Date(d.ordinal + 1)) == (Weekday(d) + 1) % 7
  {
    var q := (d.ordinal + 6) / 7;
    assert d.ordinal + 6 == 7 * q + Weekday(d);
    assert d.ordinal + 7 == 7 * q + (Weekday(d) + 1);
  }
}
