/**
  Calendar arithmetic on day numbers: a day is its proleptic Gregorian
  ordinal, as Python's `date.toordinal()` gives it (day 1 is Monday,
  1 January of year 1). Covers `_get_day_range` (app.py:3786-3796) and the
  date range of the hours PDF export (app.py:5488-5505).
*/
module Calendar {

  /** `date.weekday()`: 0 for Monday up to 6 for Sunday. */
  function Weekday(day: int): int {
    (day - 1) % 7
  }

  lemma WeekdayNext(day: int)
    ensures 0 <= Weekday(day) < 7
    ensures Weekday(day + 1) == (Weekday(day) + 1) % 7
    ensures Weekday(day + 7) == Weekday(day)
  {
  }

  /** The Monday of the week holding `day`. */
  function MondayOf(day: int): int {
    day - Weekday(day)
  }

  /** `MondayOf` is the Monday on or before the day, less than a week before it. */
  lemma MondayOfSpec(day: int)
    ensures Weekday(MondayOf(day)) == 0
    ensures MondayOf(day) <= day < MondayOf(day) + 7
  {
  }

  /** `max(1, min(int(weeks or 1), 12))`. */
  function ClampWeeks(weeks: int): (r: int)
    ensures 1 <= r <= 12
    ensures 1 <= weeks <= 12 ==> r == weeks
    ensures weeks < 1 ==> r == 1
    ensures weeks > 12 ==> r == 12
  {
    var w := if weeks == 0 then 1 else weeks;
    var capped := if w < 12 then w else 12;
    if capped > 1 then capped else 1
  }

  /** `_get_day_range(start, weeks)`; a caller without a start day passes today. */
  function GetDayRange(start: int, weeks: int): seq<int> {
    var monday := MondayOf(start);
    seq(7 * ClampWeeks(weeks), i => monday + i)
  }

  /**
    The range holds `7 * ClampWeeks(weeks)` consecutive days. It starts on the
    Monday of the start day's week, so it contains the start day, and every
    seventh day of it is a Monday.
  */
  lemma GetDayRangeSpec(start: int, weeks: int)
    ensures var r := GetDayRange(start, weeks);
      && |r| == 7 * ClampWeeks(weeks)
      && Weekday(r[0]) == 0
      && r[0] <= start < r[0] + 7
      && start in r
      && (forall i | 0 < i < |r| :: r[i] == r[i - 1] + 1)
      && (forall i | 0 <= i < |r| :: Weekday(r[i]) == i % 7)
  {
    var r := GetDayRange(start, weeks);
    MondayOfSpec(start);
    assert r[start - r[0]] == start;
  }

  /** A `start_date` or `end_date` query argument. */
  datatype DateArg = Absent | Unparsable | Given(day: int)

  datatype DateRange = InvalidStart | InvalidEnd | Range(first: int, last: int)

  /**
    The range of the hours PDF: an unparsable argument is refused (the start
    first); a missing start is the Monday of today's week and a missing end
    six days after the start; the two are swapped when the end comes first.
  */
  function HoursPdfRange(startArg: DateArg, endArg: DateArg, today: int): DateRange {
    if startArg.Unparsable? then InvalidStart
    else
      var s := if startArg.Given? then startArg.day else MondayOf(today);
      if endArg.Unparsable? then InvalidEnd
      else
        var e := if endArg.Given? then endArg.day else s + 6;
        if e < s then Range(e, s) else Range(s, e)
  }

  /**
    A range is ordered and consists of the given or defaulted start and end;
    with no arguments it is the current week from Monday to Sunday.
  */
  lemma HoursPdfRangeSpec(startArg: DateArg, endArg: DateArg, today: int)
    ensures var r := HoursPdfRange(startArg, endArg, today);
      && (r == InvalidStart <==> startArg.Unparsable?)
      && (r == InvalidEnd <==> !startArg.Unparsable? && endArg.Unparsable?)
      && (r.Range? ==> r.first <= r.last)
      && (startArg.Given? && endArg.Given? ==>
            r == Range(if startArg.day <= endArg.day then startArg.day else endArg.day,
                       if startArg.day <= endArg.day then endArg.day else startArg.day))
      && (startArg.Absent? && endArg.Absent? ==>
            r.Range? && r.first <= today <= r.last && Weekday(r.first) == 0 && r.last == r.first + 6)
      && (startArg.Given? && endArg.Absent? ==> r == Range(startArg.day, startArg.day + 6))
  {
    MondayOfSpec(today);
  }
}
