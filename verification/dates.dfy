/** Calendar dates as day numbers.  The source keeps dates as `YYYY-MM-DD`
    strings and converts them with the C library; here a date is the number
    of its day, so adding days and taking differences are plain arithmetic. */
module Dates {
  import opened Outcomes

  type Day = int

  /** A date typed in by a user: it either parses to a day or it does not. */
  datatype DateText = Valid(day: Day) | Unparseable

  /** The day `n` days after `d`. */
  function AddDays(d: Day, n: int): (r: Day)
    ensures r - d == n
  {
    d + n
  }

  /** Whole days from `due` to `ret`; fails when `ret` does not parse.
      The difference is the number of days that must be added to `due`
      to reach the return date. */
  function DaysDifference(due: Day, ret: DateText): (r: Result<int>)
    ensures r.Ok? <==> ret.Valid?
    ensures r.Err? ==> r.error == InvalidDate
    ensures r.Ok? ==> AddDays(due, r.value) == ret.day
  {
    match ret
    case Valid(d) => Ok(d - due)
    case Unparseable => Err(InvalidDate)
  }
}
