/**
  Shifts and their durations: `_shift_scheduled_duration` and
  `_shift_actual_duration` (app.py:3817-3831), and the employee dashboard's
  `_format_minutes`, `_scheduled_minutes` and `_status_text`
  (app.py:4455-4493) with the actual-minutes computation of its cards
  (app.py:4527-4531).

  A time of day is a number of seconds after midnight; a clock stamp is a
  number of seconds on a common time line. Fractions of a second are left out.
*/
module Shifts {
  import opened Wrappers
  import opened Text

  const SECONDS_PER_DAY := 86400

  type TimeOfDay = t: int | 0 <= t < 86400

  datatype Shift = Shift(
    id: int,
    employeeId: int,
    siteId: int,
    day: int,
    start: TimeOfDay,
    end: TimeOfDay,
    clockIn: Option<int>,
    clockOut: Option<int>)

  /** `_shift_scheduled_duration`, in seconds: one day is added when the end is not after the start. */
  function ScheduledDuration(s: Shift): int {
    if s.end <= s.start then s.end - s.start + SECONDS_PER_DAY else s.end - s.start
  }

  /**
    The scheduled duration is more than nothing and at most a day, and working
    it from the start time ends at the end time (on the next day when the
    shift crosses midnight); it is a full day exactly when start and end agree.
  */
  lemma ScheduledDurationSpec(s: Shift)
    ensures 0 < ScheduledDuration(s) <= SECONDS_PER_DAY
    ensures (s.start + ScheduledDuration(s)) % SECONDS_PER_DAY == s.end
    ensures s.start + ScheduledDuration(s) >= SECONDS_PER_DAY <==> s.end <= s.start
    ensures ScheduledDuration(s) == SECONDS_PER_DAY <==> s.start == s.end
  {
  }

  /**
    `_shift_actual_duration`, in seconds: nothing unless both stamps exist;
    one day is added to a negative difference.
  */
  function ActualDuration(s: Shift): Option<int> {
    if s.clockIn.None? || s.clockOut.None? then None
    else
      var delta := s.clockOut.value - s.clockIn.value;
      if delta < 0 then Some(delta + SECONDS_PER_DAY) else Some(delta)
  }

  /**
    A duration exists exactly when both stamps do. It is the stamp difference
    when that is not negative; a negative difference has one day added, so one
    of at most a day is read as a shift across midnight and lands in [0, 1 day),
    while one of more than a day stays negative.
  */
  lemma ActualDurationSpec(s: Shift)
    ensures ActualDuration(s).Some? <==> s.clockIn.Some? && s.clockOut.Some?
    ensures ActualDuration(s).Some? ==>
      var delta := s.clockOut.value - s.clockIn.value;
      && (delta >= 0 ==> ActualDuration(s).value == delta)
      && (delta < 0 ==> ActualDuration(s).value == delta + SECONDS_PER_DAY)
      && (-SECONDS_PER_DAY <= delta < 0 ==> 0 <= ActualDuration(s).value < SECONDS_PER_DAY)
      && (delta < -SECONDS_PER_DAY ==> ActualDuration(s).value < 0)
      && ActualDuration(s).value % SECONDS_PER_DAY == delta % SECONDS_PER_DAY
  {
  }

  // ---------------------------------------------------------------------------
  // The employee dashboard

  /** `_status_text`: the clock-out stamp decides first, then the clock-in stamp. */
  function StatusText(s: Shift): string {
    if s.clockOut.Some? then "Completed"
    else if s.clockIn.Some? then "In progress"
    else "Scheduled"
  }

  lemma StatusTextSpec(s: Shift)
    ensures StatusText(s) == "Completed" <==> s.clockOut.Some?
    ensures StatusText(s) == "In progress" <==> s.clockOut.None? && s.clockIn.Some?
    ensures StatusText(s) == "Scheduled" <==> s.clockOut.None? && s.clockIn.None?
  {
  }

  /**
    `_scheduled_minutes` as written: both times are put on the same day, so
    a shift across midnight has a negative difference, clamped to 0.
  */
  function ScheduledMinutesAsWritten(s: Shift): int {
    var minutes := (s.end - s.start) / 60;
    if minutes > 0 then minutes else 0
  }

  /** The dashboard's scheduled minutes, from the same wrapped duration the hours report uses. */
  function ScheduledMinutes(s: Shift): int {
    ScheduledDuration(s) / 60
  }

  /**
    The two agree on shifts that end later the same day; on a shift across
    midnight or of a full day the one as written shows no duration.
  */
  lemma ScheduledMinutesDiffer(s: Shift)
    ensures s.start < s.end ==> ScheduledMinutesAsWritten(s) == ScheduledMinutes(s)
    ensures s.end <= s.start ==> ScheduledMinutesAsWritten(s) == 0 && ScheduledMinutes(s) >= 0
    ensures s.end <= s.start && ScheduledDuration(s) >= 60 ==> ScheduledMinutes(s) > 0
    ensures ScheduledMinutes(s) * 60 <= ScheduledDuration(s) < ScheduledMinutes(s) * 60 + 60
  {
  }

  /** A shift from 22:00 to 02:00 shows "—" on the dashboard as written, and "4h" as corrected. */
  lemma OvernightShiftShowsNoDuration(s: Shift)
    requires s.start == 22 * 3600 && s.end == 2 * 3600
    ensures ScheduledMinutesAsWritten(s) == 0 && FormatMinutes(Some(ScheduledMinutesAsWritten(s))) == "—"
    ensures ScheduledMinutes(s) == 240 && FormatMinutes(Some(ScheduledMinutes(s))) == "4h"
  {
    assert ShowNat(4) == "4";
  }

  /**
    The actual minutes of a card: with both stamps, the stamp difference in
    whole minutes (rounded down), clamped to 0; no wrap past midnight here.
  */
  function DashboardActualMinutes(s: Shift): Option<int> {
    if s.clockIn.None? || s.clockOut.None? then None
    else
      var minutes := (s.clockOut.value - s.clockIn.value) / 60;
      Some(if minutes > 0 then minutes else 0)
  }

  lemma DashboardActualMinutesSpec(s: Shift)
    ensures DashboardActualMinutes(s).Some? <==> s.clockIn.Some? && s.clockOut.Some?
    ensures DashboardActualMinutes(s).Some? ==>
      var delta := s.clockOut.value - s.clockIn.value;
      && DashboardActualMinutes(s).value >= 0
      && (delta >= 0 ==> DashboardActualMinutes(s).value * 60 <= delta < DashboardActualMinutes(s).value * 60 + 60)
      && (delta < 60 ==> DashboardActualMinutes(s).value == 0)
  {
  }

  /** `_format_minutes`: "—" for none or nothing, otherwise "<h>h <m>m" leaving out a zero part. */
  function FormatMinutes(total: Option<int>): string {
    if total.None? || total.value <= 0 then "—"
    else
      var hours := total.value / 60;
      var minutes := total.value % 60;
      var parts := (if hours != 0 then [ShowNat(hours) + "h"] else [])
                 + (if minutes != 0 then [ShowNat(minutes) + "m"] else []);
      if |parts| == 2 then parts[0] + " " + parts[1]
      else if |parts| == 1 then parts[0]
      else "<1m"
  }

  /** The number of trailing decimal digits of `s`. */
  function TrailingDigits(s: string): nat {
    if s != [] && IsDigit(s[|s| - 1]) then TrailingDigits(s[..|s| - 1]) + 1 else 0
  }

  lemma {:induction false} TrailingDigitsOfNumeral(p: string, d: string)
    requires AllDigits(d)
    requires p == [] || !IsDigit(p[|p| - 1])
    ensures TrailingDigits(p + d) == |d|
  {
    if d != [] {
      var init := d[..|d| - 1];
      assert (p + d)[..|p + d| - 1] == p + init;
      TrailingDigitsOfNumeral(p, init);
    } else {
      assert p + d == p;
    }
  }

  /** Reads back a duration written by `FormatMinutes`: "<h>h", "<m>m" or "<h>h <m>m". */
  function ParseDuration(text: string): Option<int> {
    if text == [] then None
    else if text[|text| - 1] == 'h' then
      var h := text[..|text| - 1];
      if IsDigitString(h) then Some(ParseNat(h) * 60) else None
    else if text[|text| - 1] == 'm' then
      var body := text[..|text| - 1];
      var n := TrailingDigits(body);
      if n == 0 || n > |body| then None
      else
        var rest := body[..|body| - n];
        var digits := body[|body| - n..];
        if !AllDigits(digits) then None
        else if rest == [] then Some(ParseNat(digits))
        else if |rest| >= 3 && rest[|rest| - 2..] == "h " && IsDigitString(rest[..|rest| - 2]) then
          Some(ParseNat(rest[..|rest| - 2]) * 60 + ParseNat(digits))
        else None
    else None
  }

  /**
    A positive number of minutes is shown in a form that reads back as the
    same number; "<1m" is never produced.
  */
  lemma {:induction false} FormatMinutesRoundTrip(total: int)
    requires total > 0
    ensures FormatMinutes(Some(total)) != "<1m"
    ensures ParseDuration(FormatMinutes(Some(total))) == Some(total)
  {
    var hours := total / 60;
    var minutes := total % 60;
    var hs := ShowNat(hours);
    var ms := ShowNat(minutes);
    ParseShowNat(hours);
    ParseShowNat(minutes);
    var text := FormatMinutes(Some(total));
    if hours != 0 && minutes != 0 {
      assert text == hs + "h" + " " + ms + "m";
      ReadHoursAndMinutes(hs, ms);
    } else if hours != 0 {
      assert text == hs + "h";
      ReadHours(hs);
    } else {
      assert text == ms + "m";
      ReadMinutes(ms);
    }
  }

  lemma {:induction false} ReadHours(hs: string)
    requires IsDigitString(hs)
    ensures ParseDuration(hs + "h") == Some(ParseNat(hs) * 60)
  {
    var text := hs + "h";
    assert text[..|text| - 1] == hs;
  }

  lemma {:induction false} ReadMinutes(ms: string)
    requires IsDigitString(ms)
    ensures ParseDuration(ms + "m") == Some(ParseNat(ms))
  {
    var text := ms + "m";
    assert text[..|text| - 1] == ms;
    TrailingDigitsOfNumeral([], ms);
    assert [] + ms == ms;
    assert ms[..|ms| - |ms|] == [];
    assert ms[|ms| - |ms|..] == ms;
  }

  lemma {:induction false} ReadHoursAndMinutes(hs: string, ms: string)
    requires IsDigitString(hs) && IsDigitString(ms)
    ensures ParseDuration(hs + "h" + " " + ms + "m") == Some(ParseNat(hs) * 60 + ParseNat(ms))
  {
    var text := hs + "h" + " " + ms + "m";
    var body := text[..|text| - 1];
    assert body == (hs + "h ") + ms;
    TrailingDigitsOfNumeral(hs + "h ", ms);
    assert body[..|body| - |ms|] == hs + "h ";
    assert body[|body| - |ms|..] == ms;
    assert (hs + "h ")[..|hs + "h "| - 2] == hs;
  }
}
