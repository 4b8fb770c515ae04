/**
  The life cycle of a shift on the employee side, Scheduled, In progress,
  Completed: the `employee_clock_in` (app.py:4650-4677) and
  `employee_complete_shift` (app.py:4736-4765) routes.

  The signed-in employee, today's day number and the current clock stamp are
  parameters. The source reads the clock twice when completing a shift that
  was never clocked in; one stamp `now` stands for both readings. The optional
  coordinates stored beside the stamps are not part of this model.
*/
module ShiftLifecycle {
  import opened Wrappers
  import opened Shifts

  /** The clock-in update: the stamp is set only when there is none yet. */
  function ClockedIn(s: Shift, now: int): Shift {
    if s.clockIn.None? then s.(clockIn := Some(now)) else s
  }

  /** The completion update: a missing clock-in stamp is filled in, the clock-out stamp always set. */
  function Completed(s: Shift, now: int): Shift {
    s.(clockIn := if s.clockIn.None? then Some(now) else s.clockIn, clockOut := Some(now))
  }

  /** How far a shift has come: 0 scheduled, 1 in progress, 2 completed. */
  function Progress(s: Shift): nat {
    if s.clockOut.Some? then 2 else if s.clockIn.Some? then 1 else 0
  }

  /**
    Clocking in keeps an existing stamp, so a second clock-in changes nothing;
    it never touches the clock-out stamp nor anything but the clock-in stamp,
    and afterwards the shift is at least in progress.
  */
  lemma ClockedInSpec(s: Shift, now: int, later: int)
    ensures ClockedIn(ClockedIn(s, now), later) == ClockedIn(s, now)
    ensures ClockedIn(s, now).clockOut == s.clockOut
    ensures ClockedIn(s, now).clockIn == (if s.clockIn.Some? then s.clockIn else Some(now))
    ensures ClockedIn(s, now) == s.(clockIn := ClockedIn(s, now).clockIn)
    ensures Progress(ClockedIn(s, now)) >= 1 && Progress(ClockedIn(s, now)) >= Progress(s)
    ensures StatusText(ClockedIn(s, now)) != "Scheduled"
  {
  }

  /**
    Completing keeps an existing clock-in stamp, sets the clock-out stamp to
    now, changes nothing else and leaves the shift completed; its actual
    duration then runs from the clock-in stamp to now.
  */
  lemma CompletedSpec(s: Shift, now: int)
    ensures Completed(s, now).clockOut == Some(now)
    ensures Completed(s, now).clockIn == (if s.clockIn.Some? then s.clockIn else Some(now))
    ensures Completed(s, now) == s.(clockIn := Completed(s, now).clockIn, clockOut := Some(now))
    ensures Progress(Completed(s, now)) == 2 && StatusText(Completed(s, now)) == "Completed"
    ensures s.clockIn.None? ==> ActualDuration(Completed(s, now)) == Some(0)
    ensures s.clockIn.Some? && s.clockIn.value <= now ==>
      ActualDuration(Completed(s, now)) == Some(now - s.clockIn.value)
  {
  }

  /** Clocking in after completing changes nothing. */
  lemma ClockInAfterComplete(s: Shift, now: int, later: int)
    ensures ClockedIn(Completed(s, now), later) == Completed(s, now)
  {
  }

  datatype ShiftAction = ClockIn | Complete

  datatype ActionOutcome = NotFound | NotToday | Done

  /**
    One of the two routes on shift `id` for `employee`: the shift must exist
    and be the employee's, then be scheduled for today; only then is it updated.
  */
  function ShiftActionResult(shifts: map<int, Shift>, action: ShiftAction, id: int, employee: int, today: int, now: int)
    : (ActionOutcome, map<int, Shift>)
  {
    if id !in shifts || shifts[id].employeeId != employee then (NotFound, shifts)
    else if shifts[id].day != today then (NotToday, shifts)
    else
      var updated := if action == ClockIn then ClockedIn(shifts[id], now) else Completed(shifts[id], now);
      (Done, shifts[id := updated])
  }

  /**
    Nothing changes for another employee's shift, a missing one or one not
    scheduled for today; otherwise only shift `id` changes, and it never moves
    back in its life cycle.
  */
  lemma ShiftActionResultSpec(shifts: map<int, Shift>, action: ShiftAction, id: int, employee: int, today: int, now: int)
    ensures var (outcome, after) := ShiftActionResult(shifts, action, id, employee, today, now);
      && (outcome == NotFound <==> id !in shifts || shifts[id].employeeId != employee)
      && (outcome == NotToday <==> id in shifts && shifts[id].employeeId == employee && shifts[id].day != today)
      && (outcome != Done ==> after == shifts)
      && (outcome == Done ==>
            && after.Keys == shifts.Keys
            && (forall other | other in shifts && other != id :: after[other] == shifts[other])
            && Progress(after[id]) >= Progress(shifts[id])
            && after[id].employeeId == shifts[id].employeeId && after[id].day == shifts[id].day)
  {
  }

  /** The shifts table, updated in place by the employee routes. */
  class ShiftBoard {
    var shifts: map<int, Shift>

    constructor (initial: map<int, Shift>)
      ensures shifts == initial
    {
      shifts := initial;
    }

    /** `employee_clock_in`. */
    method ClockInShift(id: int, employee: int, today: int, now: int) returns (outcome: ActionOutcome)
      modifies this
      ensures (outcome, shifts) == ShiftActionResult(old(shifts), ClockIn, id, employee, today, now)
    {
      if id !in shifts || shifts[id].employeeId != employee {
        return NotFound;
      }
      var shift := shifts[id];
      if shift.day != today {
        return NotToday;
      }
      if shift.clockIn.None? {
        shift := shift.(clockIn := Some(now));
      }
      shifts := shifts[id := shift];
      outcome := Done;
    }

    /** `employee_complete_shift`. */
    method CompleteShift(id: int, employee: int, today: int, now: int) returns (outcome: ActionOutcome)
      modifies this
      ensures (outcome, shifts) == ShiftActionResult(old(shifts), Complete, id, employee, today, now)
    {
      if id !in shifts || shifts[id].employeeId != employee {
        return NotFound;
      }
      var shift := shifts[id];
      if shift.day != today {
        return NotToday;
      }
      if shift.clockIn.None? {
        shift := shift.(clockIn := Some(now));
      }
      shift := shift.(clockOut := Some(now));
      shifts := shifts[id := shift];
      outcome := Done;
    }
  }
}
