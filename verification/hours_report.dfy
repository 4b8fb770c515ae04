/**
  The per-employee totals of `_collect_hours_report` (app.py:3852-3931): for
  every employee with shifts in the date range, the shift rows, the total
  scheduled and actual time, and the total and count of the differences.

  Durations are in seconds. The database query is `QueryShifts` over the
  shift table in the query's order; an employee row exists for the ids in
  `staff`. The final sort of the records by employee name is not part of
  this model: the result is a map from employee id to record.
*/
module HoursReport {
  import opened Wrappers
  import opened Shifts

  datatype Row = Row(day: int, scheduled: int, actual: Option<int>, diff: Option<int>, crossesMidnight: bool)

  datatype Totals = Totals(
    rows: seq<Row>,
    scheduledTotal: int,
    actualTotal: int,
    actualCount: nat,
    diffTotal: int,
    diffCount: nat)

  const NoTotals := Totals([], 0, 0, 0, 0, 0)

  /** `employee_id` filters only when it is given and not 0 (`if employee_id:`). */
  predicate Filters(requested: Option<int>) {
    requested.Some? && requested.value != 0
  }

  /** The query: shifts from `first` to `last` inclusive, of the requested employee when one is. */
  function QueryShifts(table: seq<Shift>, first: int, last: int, requested: Option<int>): seq<Shift> {
    if table == [] then []
    else
      var p := QueryShifts(table[..|table| - 1], first, last, requested);
      var s := table[|table| - 1];
      if first <= s.day <= last && (!Filters(requested) || s.employeeId == requested.value) then p + [s] else p
  }

  /** One shift added to its employee's record. */
  function AddShift(t: Totals, s: Shift): Totals {
    var scheduled := ScheduledDuration(s);
    var actual := ActualDuration(s);
    var diff := if actual.Some? then Some(actual.value - scheduled) else None;
    Totals(
      t.rows + [Row(s.day, scheduled, actual, diff, s.end <= s.start)],
      t.scheduledTotal + scheduled,
      if actual.Some? then t.actualTotal + actual.value else t.actualTotal,
      if actual.Some? then t.actualCount + 1 else t.actualCount,
      if diff.Some? then t.diffTotal + diff.value else t.diffTotal,
      if diff.Some? then t.diffCount + 1 else t.diffCount)
  }

  /** The records built from `rows` by the loop, before the requested employee's empty record. */
  function Accumulate(rows: seq<Shift>, staff: set<int>): map<int, Totals> {
    if rows == [] then map[]
    else
      var m := Accumulate(rows[..|rows| - 1], staff);
      var s := rows[|rows| - 1];
      if s.employeeId !in staff then m
      else m[s.employeeId := AddShift(if s.employeeId in m then m[s.employeeId] else NoTotals, s)]
  }

  /** The rows of one employee, in order. */
  function OfEmployee(rows: seq<Shift>, employee: int): seq<Shift> {
    if rows == [] then []
    else
      var p := OfEmployee(rows[..|rows| - 1], employee);
      if rows[|rows| - 1].employeeId == employee then p + [rows[|rows| - 1]] else p
  }

  /** One employee's record, built from that employee's rows alone. */
  function TotalsOf(rows: seq<Shift>): Totals {
    if rows == [] then NoTotals else AddShift(TotalsOf(rows[..|rows| - 1]), rows[|rows| - 1])
  }

  /** The sum of the scheduled durations of the shifts with both clock stamps. */
  function ScheduledOfClocked(rows: seq<Shift>): int {
    if rows == [] then 0
    else
      var s := rows[|rows| - 1];
      ScheduledOfClocked(rows[..|rows| - 1]) + (if ActualDuration(s).Some? then ScheduledDuration(s) else 0)
  }

  /**
    The loop keeps one record per known employee with rows, and each record
    is what that employee's rows alone produce.
  */
  lemma {:induction false} AccumulateByEmployee(rows: seq<Shift>, staff: set<int>)
    ensures forall e :: e in Accumulate(rows, staff) <==> e in staff && OfEmployee(rows, e) != []
    ensures forall e | e in Accumulate(rows, staff) :: Accumulate(rows, staff)[e] == TotalsOf(OfEmployee(rows, e))
  {
    if rows != [] {
      AccumulateByEmployee(rows[..|rows| - 1], staff);
    }
  }

  /**
    A record has one row per shift; it counts a difference exactly for each
    shift with an actual time, and the differences add up to the actual total
    less the scheduled time of those shifts; the scheduled total is positive
    and at most a day per row.
  */
  lemma {:induction false} TotalsOfSpec(rows: seq<Shift>)
    ensures |TotalsOf(rows).rows| == |rows|
    ensures TotalsOf(rows).diffCount == TotalsOf(rows).actualCount <= |rows|
    ensures TotalsOf(rows).diffTotal == TotalsOf(rows).actualTotal - ScheduledOfClocked(rows)
    ensures rows == [] <==> TotalsOf(rows).scheduledTotal == 0
    ensures 0 <= TotalsOf(rows).scheduledTotal <= SECONDS_PER_DAY * |rows|
    ensures forall i | 0 <= i < |rows| :: TotalsOf(rows).rows[i].day == rows[i].day
  {
    if rows != [] {
      var init := rows[..|rows| - 1];
      TotalsOfSpec(init);
      ScheduledDurationSpec(rows[|rows| - 1]);
    }
  }

  /** `_collect_hours_report` over the shift table. */
  method CollectHoursReport(table: seq<Shift>, staff: set<int>, first: int, last: int, requested: Option<int>)
    returns (report: map<int, Totals>)
    ensures report == HoursReportOf(table, staff, first, last, requested)
  {
    var rows := QueryShifts(table, first, last, requested);
    report := map[];
    var i := 0;
    while i < |rows|
      invariant 0 <= i <= |rows|
      invariant report == Accumulate(rows[..i], staff)
    {
      var shift := rows[i];
      assert rows[..i + 1][..i] == rows[..i];
      if shift.employeeId in staff {
        var record := if shift.employeeId in report then report[shift.employeeId] else NoTotals;
        report := report[shift.employeeId := AddShift(record, shift)];
      }
      i := i + 1;
    }
    assert rows[..i] == rows;
    if Filters(requested) && requested.value !in report && requested.value in staff {
      report := report[requested.value := NoTotals];
    }
  }

  /** The report: the accumulated records, plus an empty one for a requested employee without rows. */
  function HoursReportOf(table: seq<Shift>, staff: set<int>, first: int, last: int, requested: Option<int>): map<int, Totals> {
    var m := Accumulate(QueryShifts(table, first, last, requested), staff);
    if Filters(requested) && requested.value !in m && requested.value in staff then m[requested.value := NoTotals] else m
  }

  lemma {:induction false} QueryShiftsSpec(table: seq<Shift>, first: int, last: int, requested: Option<int>)
    ensures forall s | s in QueryShifts(table, first, last, requested) ::
      s in table && first <= s.day <= last && (!Filters(requested) || s.employeeId == requested.value)
  {
    if table != [] {
      QueryShiftsSpec(table[..|table| - 1], first, last, requested);
    }
  }

  lemma {:induction false} OfEmployeeSpec(rows: seq<Shift>, e: int)
    ensures forall s | s in OfEmployee(rows, e) :: s in rows && s.employeeId == e
    ensures (exists s | s in rows :: s.employeeId == e) <==> OfEmployee(rows, e) != []
  {
    if rows != [] {
      var init := rows[..|rows| - 1];
      OfEmployeeSpec(init, e);
      assert forall s | s in init :: s in rows;
      if OfEmployee(rows, e) == [] {
        assert forall s | s in rows :: s in init || s == rows[|rows| - 1] by {
          assert rows == init + [rows[|rows| - 1]];
        }
      }
    }
  }

  /**
    The report has a record for exactly the known employees with a shift in
    the range (only the requested one when filtering), plus the requested
    employee; every record is that employee's totals over those shifts.
  */
  lemma HoursReportSpec(table: seq<Shift>, staff: set<int>, first: int, last: int, requested: Option<int>)
    ensures var rows := QueryShifts(table, first, last, requested);
      var report := HoursReportOf(table, staff, first, last, requested);
      && (forall e :: e in report <==>
            e in staff && ((exists s | s in rows :: s.employeeId == e) || (Filters(requested) && e == requested.value)))
      && (forall e | e in report :: report[e] == TotalsOf(OfEmployee(rows, e)))
      && (Filters(requested) ==> forall e | e in report :: e == requested.value)
  {
    var rows := QueryShifts(table, first, last, requested);
    AccumulateByEmployee(rows, staff);
    QueryShiftsSpec(table, first, last, requested);
    forall e {
      OfEmployeeSpec(rows, e);
    }
    if Filters(requested) {
      forall e | e in HoursReportOf(table, staff, first, last, requested)
        ensures e == requested.value
      {
        if exists s | s in rows :: s.employeeId == e {
          var s :| s in rows && s.employeeId == e;
          assert s.employeeId == requested.value;
        }
      }
    }
  }
}
