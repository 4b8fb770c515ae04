/**
  The POST branch of `schedule_dashboard` (app.py:4792-4840): one shift per
  distinct day of the form, all with the same employee, site, start time and
  duration.

  Parsing a day with `strptime("%Y-%m-%d")` is the parameter `parseDay`. The
  start time and the duration come in already read: `None` stands for a blank
  or unreadable field, which the source treats alike (no shift is created).
  The duration is a whole number of minutes rather than fractional hours, and
  the employee and site ids are `None` for a blank field.
*/
module ScheduleForm {
  import opened Wrappers
  import opened Text
  import opened Seqs
  import opened Shifts

  type DayParser = string -> Option<int>

  datatype ScheduleRequest = ScheduleRequest(
    employee: Option<int>,
    site: Option<int>,
    dayFields: seq<string>,
    dayDisplay: string,
    start: Option<TimeOfDay>,
    durationMinutes: Option<int>,
    instructions: string)

  /** A shift the request adds, before the database gives it an id. */
  datatype NewShift = NewShift(
    employeeId: int,
    siteId: int,
    day: int,
    start: TimeOfDay,
    end: TimeOfDay,
    instructions: Option<string>)

  const MINUTES_PER_DAY := 1440

  // ---------------------------------------------------------------------------
  // The day list

  /** `[part.strip() for part in parts if part.strip()]`. */
  function NonBlankParts(parts: seq<string>): seq<string> {
    if parts == [] then []
    else
      var p := NonBlankParts(parts[..|parts| - 1]);
      var t := Strip(parts[|parts| - 1]);
      if t != [] then p + [t] else p
  }

  /** `[(d or "").strip() for d in fields]`. */
  function StrippedFields(fields: seq<string>): seq<string> {
    if fields == [] then [] else StrippedFields(fields[..|fields| - 1]) + [Strip(fields[|fields| - 1])]
  }

  /**
    The raw day list: the stripped `day` fields, or, when all of them are
    blank, the non-blank comma-separated parts of `day_display`.
  */
  function DayInputs(fields: seq<string>, display: string): seq<string> {
    var raw := StrippedFields(fields);
    if exists i | 0 <= i < |raw| :: raw[i] != [] then raw
    else if Strip(display) != [] then NonBlankParts(Split(Strip(display), ','))
    else raw
  }

  /** The days of the list that are non-blank and parse, in order. */
  function ParsedDays(raw: seq<string>, parseDay: DayParser): seq<int> {
    if raw == [] then []
    else
      var p := ParsedDays(raw[..|raw| - 1], parseDay);
      var s := raw[|raw| - 1];
      if s != [] && parseDay(s).Some? then p + [parseDay(s).value] else p
  }

  lemma {:induction false} ParsedDaysSpec(raw: seq<string>, parseDay: DayParser)
    ensures forall d :: d in ParsedDays(raw, parseDay) <==>
      exists i | 0 <= i < |raw| :: raw[i] != [] && parseDay(raw[i]) == Some(d)
  {
    if raw != [] {
      var init := raw[..|raw| - 1];
      ParsedDaysSpec(init, parseDay);
      forall d ensures (exists i | 0 <= i < |raw| :: raw[i] != [] && parseDay(raw[i]) == Some(d))
        <==> (exists i | 0 <= i < |init| :: init[i] != [] && parseDay(init[i]) == Some(d))
             || (raw[|raw| - 1] != [] && parseDay(raw[|raw| - 1]) == Some(d))
      {
        if exists i | 0 <= i < |raw| :: raw[i] != [] && parseDay(raw[i]) == Some(d) {
          var i :| 0 <= i < |raw| && raw[i] != [] && parseDay(raw[i]) == Some(d);
          if i < |init| {
            assert init[i] == raw[i];
          }
        }
        if exists i | 0 <= i < |init| :: init[i] != [] && parseDay(init[i]) == Some(d) {
          var i :| 0 <= i < |init| && init[i] != [] && parseDay(init[i]) == Some(d);
          assert raw[i] == init[i];
        }
      }
    }
  }

  /** The distinct days of the request, in order of first appearance. */
  function RequestedDays(request: ScheduleRequest, parseDay: DayParser): seq<int> {
    Fresh(ParsedDays(DayInputs(request.dayFields, request.dayDisplay), parseDay), {})
  }

  // ---------------------------------------------------------------------------
  // The shifts created

  /** The end time: start plus duration, wrapped past midnight. */
  function EndTime(start: TimeOfDay, minutes: int): TimeOfDay {
    (start + minutes * 60) % SECONDS_PER_DAY
  }

  /** A shift of 0 < m <= 24 h minutes, stored as start and wrapped end, is read back with its duration. */
  lemma EndTimeKeepsDuration(start: TimeOfDay, minutes: int, s: Shift)
    requires 0 < minutes <= MINUTES_PER_DAY
    requires s.start == start && s.end == EndTime(start, minutes)
    ensures ScheduledDuration(s) == minutes * 60
  {
  }

  /** The validity test of the request: all fields present and a duration of more than nothing and at most 24 hours. */
  predicate Accepted(request: ScheduleRequest, parseDay: DayParser) {
    && request.employee.Some?
    && request.site.Some?
    && RequestedDays(request, parseDay) != []
    && request.start.Some?
    && request.durationMinutes.Some?
    && 0 < request.durationMinutes.value <= MINUTES_PER_DAY
  }

  /** What the request adds: one shift per requested day when it is accepted, nothing otherwise. */
  function CreatedShifts(request: ScheduleRequest, parseDay: DayParser): seq<NewShift> {
    if !Accepted(request, parseDay) then []
    else
      var days := RequestedDays(request, parseDay);
      var instructions := Strip(request.instructions);
      seq(|days|, i requires 0 <= i < |days| =>
        NewShift(request.employee.value, request.site.value, days[i], request.start.value,
                 EndTime(request.start.value, request.durationMinutes.value),
                 if instructions == [] then None else Some(instructions)))
  }

  /**
    An accepted request adds exactly one shift for each day it names, on no
    day twice, each with the requested duration; any other request adds none.
  */
  lemma CreatedShiftsSpec(request: ScheduleRequest, parseDay: DayParser)
    ensures var created := CreatedShifts(request, parseDay);
      && (created != [] <==> Accepted(request, parseDay))
      && (forall i, j | 0 <= i < j < |created| :: created[i].day != created[j].day)
      && (Accepted(request, parseDay) ==> forall d :: (exists i | 0 <= i < |created| :: created[i].day == d) <==>
            d in ParsedDays(DayInputs(request.dayFields, request.dayDisplay), parseDay))
      && (forall i | 0 <= i < |created| ::
            ScheduledDuration(Shift(0, created[i].employeeId, created[i].siteId, created[i].day,
                                    created[i].start, created[i].end, None, None))
            == request.durationMinutes.value * 60)
  {
    var days := RequestedDays(request, parseDay);
    var created := CreatedShifts(request, parseDay);
    FreshSpec(ParsedDays(DayInputs(request.dayFields, request.dayDisplay), parseDay), {});
    if Accepted(request, parseDay) {
      forall d ensures (exists i | 0 <= i < |created| :: created[i].day == d) <==> d in days {
        if d in days {
          var i :| 0 <= i < |days| && days[i] == d;
          assert created[i].day == d;
        }
      }
      forall i | 0 <= i < |created|
        ensures ScheduledDuration(Shift(0, created[i].employeeId, created[i].siteId, created[i].day,
                                        created[i].start, created[i].end, None, None))
                == request.durationMinutes.value * 60
      {
        EndTimeKeepsDuration(request.start.value, request.durationMinutes.value,
          Shift(0, created[i].employeeId, created[i].siteId, created[i].day, created[i].start, created[i].end, None, None));
      }
    }
  }

  /** The de-duplicating pass over the day list: blank and unreadable entries and repeated days are skipped. */
  method UniqueDays(raw: seq<string>, parseDay: DayParser) returns (days: seq<int>)
    ensures days == Fresh(ParsedDays(raw, parseDay), {})
  {
    days := [];
    var seenDays: set<int> := {};
    ghost var parsedSoFar: seq<int> := [];
    var i := 0;
    while i < |raw|
      invariant 0 <= i <= |raw|
      invariant parsedSoFar == ParsedDays(raw[..i], parseDay)
      invariant days == Fresh(parsedSoFar, {})
      invariant seenDays == Elems(days)
    {
      var dayText := raw[i];
      ParsedDaysSnoc(raw, i, parseDay);
      if dayText != [] {
        var parsed := parseDay(dayText);
        if parsed.Some? {
          FreshLoopStep(parsedSoFar, parsed.value, {}, days, seenDays);
          if parsed.value !in seenDays {
            seenDays := seenDays + {parsed.value};
            days := days + [parsed.value];
          }
          parsedSoFar := parsedSoFar + [parsed.value];
        }
      }
      i := i + 1;
    }
    assert raw[..i] == raw;
  }

  lemma ParsedDaysSnoc(raw: seq<string>, i: int, parseDay: DayParser)
    requires 0 <= i < |raw|
    ensures ParsedDays(raw[..i + 1], parseDay)
         == if raw[i] != [] && parseDay(raw[i]).Some? then ParsedDays(raw[..i], parseDay) + [parseDay(raw[i]).value]
            else ParsedDays(raw[..i], parseDay)
  {
    assert raw[..i + 1][..i] == raw[..i];
  }

  /** The POST branch: the distinct days, then, for an accepted request, one new shift per day. */
  method SubmitSchedule(request: ScheduleRequest, parseDay: DayParser) returns (created: seq<NewShift>)
    ensures created == CreatedShifts(request, parseDay)
  {
    var raw := DayInputs(request.dayFields, request.dayDisplay);
    var days := UniqueDays(raw, parseDay);
    assert days == RequestedDays(request, parseDay);
    created := [];
    if request.employee.Some? && request.site.Some? && days != [] && request.start.Some?
       && request.durationMinutes.Some?
    {
      var minutes := request.durationMinutes.value;
      if 0 < minutes <= MINUTES_PER_DAY {
        var instructions := Strip(request.instructions);
        var note := if instructions == [] then None else Some(instructions);
        var end := EndTime(request.start.value, minutes);
        var k := 0;
        while k < |days|
          invariant 0 <= k <= |days|
          invariant |created| == k
          invariant forall j | 0 <= j < k ::
            created[j] == NewShift(request.employee.value, request.site.value, days[j], request.start.value, end, note)
        {
          created := created + [NewShift(request.employee.value, request.site.value, days[k], request.start.value, end, note)];
          k := k + 1;
        }
      }
    }
  }
}
