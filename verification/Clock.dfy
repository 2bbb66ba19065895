/** The time arithmetic of backend/app/core/time.py over whole seconds, with a time zone
    reduced to its fixed offset from UTC. */
module Clock {

  const DAY: int := 86400

  /** The calendar date, counted in days, that an instant falls on in a zone. */
  function LocalDate(moment: int, offset: int): (d: int)
    ensures DAY * d <= moment + offset < DAY * (d + 1)
  {
    (moment + offset) / DAY
  }

  /** Seconds since local midnight. */
  function LocalTime(moment: int, offset: int): (s: int)
    ensures 0 <= s < DAY
    ensures moment + offset == DAY * LocalDate(moment, offset) + s
  {
    (moment + offset) % DAY
  }

  /** The instant at which a zone's clock shows `time` on `date`. */
  function Combine(date: int, time: int, offset: int): (moment: int)
    ensures 0 <= time < DAY ==> LocalDate(moment, offset) == date && LocalTime(moment, offset) == time
  {
    DAY * date + time - offset
  }

  /** Whole days from `start` to `end`, rounded down; negative when `end` is past. */
  function DaysBetween(start: int, end: int): (d: int)
    ensures DAY * d <= end - start < DAY * (d + 1)
  {
    (end - start) / DAY
  }

  lemma LocalDateIsMonotone(earlier: int, later: int, offset: int)
    requires earlier <= later
    ensures LocalDate(earlier, offset) <= LocalDate(later, offset)
  {}
}
