/**
  The shift lists of the `admin_employees` page (app.py:5078-5126): for each
  employee of the page, the upcoming shifts in query order and the past ones
  in reverse, because a past shift is put at the front of its list.

  The rows are the query's result (the shifts of the page's employees,
  ordered by day and start time). An entry keeps the shift id, site, day and
  status; the display labels made with `strftime` are not part of this model.
*/
module EmployeeShifts {
  import opened Seqs
  import opened Shifts

  datatype Entry = Entry(shiftId: int, siteId: int, day: int, status: string)

  datatype Groups = Groups(upcoming: seq<Entry>, history: seq<Entry>)

  const NoGroups := Groups([], [])

  function EntryOf(s: Shift): Entry {
    Entry(s.id, s.siteId, s.day, StatusText(s))
  }

  /** The non-zero ids of the page, `[emp.id for emp in employees if emp.id]`. */
  function PageIds(ids: seq<int>): seq<int> {
    if ids == [] then []
    else
      var p := PageIds(ids[..|ids| - 1]);
      if ids[|ids| - 1] != 0 then p + [ids[|ids| - 1]] else p
  }

  lemma {:induction false} PageIdsSpec(ids: seq<int>)
    ensures forall e :: e in PageIds(ids) <==> e in ids && e != 0
  {
    if ids != [] {
      PageIdsSpec(ids[..|ids| - 1]);
      assert ids == ids[..|ids| - 1] + [ids[|ids| - 1]];
    }
  }

  /** One row put in its employee's lists: a past shift in front of the history, any other at the end of the upcoming. */
  function Bucket(groups: map<int, Groups>, s: Shift, today: int): map<int, Groups> {
    if s.employeeId == 0 then groups
    else
      var g := if s.employeeId in groups then groups[s.employeeId] else NoGroups;
      if s.day < today then groups[s.employeeId := g.(history := [EntryOf(s)] + g.history)]
      else groups[s.employeeId := g.(upcoming := g.upcoming + [EntryOf(s)])]
  }

  /** The lists after the rows have been put in, starting from `start`. */
  function BucketAll(start: map<int, Groups>, rows: seq<Shift>, today: int): map<int, Groups> {
    if rows == [] then start
    else Bucket(BucketAll(start, rows[..|rows| - 1], today), rows[|rows| - 1], today)
  }

  /** An empty pair of lists for every id of the page. */
  function InitialGroups(pageIds: seq<int>): map<int, Groups> {
    map e | e in pageIds :: NoGroups
  }

  /** The lists of the page: none when no employee of the page has an id. */
  function ShiftGroups(ids: seq<int>, rows: seq<Shift>, today: int): map<int, Groups> {
    var pageIds := PageIds(ids);
    if pageIds == [] then map[]
    else BucketAll(InitialGroups(pageIds), rows, today)
  }

  /** The entries, in row order, of the shifts of `employee` that are past (`past`) or not. */
  function EntriesOf(rows: seq<Shift>, employee: int, today: int, past: bool): seq<Entry> {
    if rows == [] then []
    else
      var p := EntriesOf(rows[..|rows| - 1], employee, today, past);
      var s := rows[|rows| - 1];
      if s.employeeId == employee && (s.day < today) == past then p + [EntryOf(s)] else p
  }

  lemma {:induction false} EntriesOfOther(rows: seq<Shift>, employee: int, today: int, past: bool)
    requires forall x | x in rows :: x.employeeId != employee
    ensures EntriesOf(rows, employee, today, past) == []
  {
    if rows != [] {
      EntriesOfOther(rows[..|rows| - 1], employee, today, past);
    }
  }

  lemma ReverseSnoc<T>(xs: seq<T>, x: T)
    ensures Reverse(xs + [x]) == [x] + Reverse(xs)
  {
    var l := Reverse(xs + [x]);
    var r := [x] + Reverse(xs);
    assert |l| == |r|;
    forall i | 0 <= i < |l| ensures l[i] == r[i] {
      if i > 0 {
        assert r[i] == Reverse(xs)[i - 1] == xs[|xs| - i];
      }
    }
  }

  /** Some row belongs to `employee`. */
  predicate HasRow(rows: seq<Shift>, employee: int) {
    exists s | s in rows :: s.employeeId == employee
  }

  lemma HasRowSnoc(init: seq<Shift>, s: Shift, employee: int)
    ensures HasRow(init + [s], employee) <==> HasRow(init, employee) || s.employeeId == employee
  {
    if HasRow(init + [s], employee) {
      var x :| x in init + [s] && x.employeeId == employee;
      assert x in init || x == s;
    }
    if s.employeeId == employee {
      assert s in init + [s];
    }
    if HasRow(init, employee) {
      var x :| x in init && x.employeeId == employee;
      assert x in init + [s];
    }
  }

  /** Each employee's upcoming list and history are that employee's entries split at today, the history reversed. */
  predicate SplitAtToday(m: map<int, Groups>, rows: seq<Shift>, today: int) {
    forall e | e in m ::
      m[e].upcoming == EntriesOf(rows, e, today, false) && m[e].history == Reverse(EntriesOf(rows, e, today, true))
  }

  /**
    Every employee with an empty list pair at the start or with a row (id
    not 0) has lists; each employee's upcoming list is the entries of that
    employee's shifts from today on, in row order, and the history is the
    entries of the past shifts in reverse row order.
  */
  lemma {:induction false} BucketAllSpec(start: map<int, Groups>, rows: seq<Shift>, today: int)
    requires forall e | e in start :: start[e] == NoGroups
    requires 0 !in start
    ensures forall e :: e in BucketAll(start, rows, today) <==> e in start || (e != 0 && HasRow(rows, e))
    ensures SplitAtToday(BucketAll(start, rows, today), rows, today)
  {
    if rows == [] {
      forall e ensures !HasRow(rows, e) { }
    } else {
      var init := rows[..|rows| - 1];
      var s := rows[|rows| - 1];
      BucketAllSpec(start, init, today);
      assert rows == init + [s];
      forall e ensures HasRow(rows, e) <==> HasRow(init, e) || s.employeeId == e {
        HasRowSnoc(init, s, e);
      }
      var m := BucketAll(start, init, today);
      assert BucketAll(start, rows, today) == Bucket(m, s, today);
      BucketStep(m, init, s, today);
    }
  }

  lemma EntriesOfSnoc(init: seq<Shift>, s: Shift, e: int, today: int, past: bool)
    ensures EntriesOf(init + [s], e, today, past)
         == if s.employeeId == e && (s.day < today) == past then EntriesOf(init, e, today, past) + [EntryOf(s)]
            else EntriesOf(init, e, today, past)
  {
    assert (init + [s])[..|init|] == init;
  }

  /** Putting in one more row keeps each employee's lists split at today and adds only the row's employee. */
  lemma {:induction false} BucketStep(m: map<int, Groups>, init: seq<Shift>, s: Shift, today: int)
    requires SplitAtToday(m, init, today)
    requires 0 !in m
    requires forall e | e != 0 && HasRow(init, e) :: e in m
    ensures forall e :: e in Bucket(m, s, today) <==> e in m || (e != 0 && e == s.employeeId)
    ensures SplitAtToday(Bucket(m, s, today), init + [s], today)
  {
    var r := Bucket(m, s, today);
    var rows := init + [s];
    forall e | e in r
      ensures r[e].upcoming == EntriesOf(rows, e, today, false)
      ensures r[e].history == Reverse(EntriesOf(rows, e, today, true))
    {
      EntriesOfSnoc(init, s, e, today, false);
      EntriesOfSnoc(init, s, e, today, true);
      if s.employeeId == 0 || e != s.employeeId {
        assert e in m && r[e] == m[e];
        assert m[e].upcoming == EntriesOf(init, e, today, false);
        assert m[e].history == Reverse(EntriesOf(init, e, today, true));
      } else {
        var g := if e in m then m[e] else NoGroups;
        if e !in m {
          assert !HasRow(init, e);
          assert forall x | x in init :: x.employeeId != e;
          EntriesOfOther(init, e, today, true);
          EntriesOfOther(init, e, today, false);
          assert Reverse<Entry>([]) == [];
        }
        assert g.upcoming == EntriesOf(init, e, today, false);
        assert g.history == Reverse(EntriesOf(init, e, today, true));
        ReverseSnoc(EntriesOf(init, e, today, true), EntryOf(s));
        if s.day < today {
          assert r[e] == g.(history := [EntryOf(s)] + g.history);
        } else {
          assert r[e] == g.(upcoming := g.upcoming + [EntryOf(s)]);
        }
      }
    }
  }

  /** Days never decrease along the list. */
  predicate Ascending(es: seq<Entry>) {
    forall i, j | 0 <= i < j < |es| :: es[i].day <= es[j].day
  }

  /** Days never increase along the list. */
  predicate Descending(es: seq<Entry>) {
    forall i, j | 0 <= i < j < |es| :: es[i].day >= es[j].day
  }

  /** Every entry is before `today` (`past`) or every entry is on or after it. */
  predicate OnSide(es: seq<Entry>, today: int, past: bool) {
    forall i | 0 <= i < |es| :: (es[i].day < today) == past
  }

  predicate NoLaterThan(es: seq<Entry>, day: int) {
    forall i | 0 <= i < |es| :: es[i].day <= day
  }

  predicate DayOrdered(rows: seq<Shift>) {
    forall i, j | 0 <= i < j < |rows| :: rows[i].day <= rows[j].day
  }

  /** The entries of a day-ordered row list are in day order, no later than the last row. */
  lemma {:induction false} EntriesOfSorted(rows: seq<Shift>, employee: int, today: int, past: bool)
    requires DayOrdered(rows)
    ensures Ascending(EntriesOf(rows, employee, today, past))
    ensures rows != [] ==> NoLaterThan(EntriesOf(rows, employee, today, past), rows[|rows| - 1].day)
    ensures OnSide(EntriesOf(rows, employee, today, past), today, past)
  {
    if rows != [] {
      var init := rows[..|rows| - 1];
      var s := rows[|rows| - 1];
      EntriesOfSorted(init, employee, today, past);
      var p := EntriesOf(init, employee, today, past);
      if init != [] {
        assert init[|init| - 1].day <= s.day;
      }
      assert NoLaterThan(p, s.day);
      if s.employeeId == employee && (s.day < today) == past {
        var es := p + [EntryOf(s)];
        assert forall i | 0 <= i < |p| :: es[i] == p[i];
      }
    }
  }

  /** Reversing an ascending list gives a descending one. */
  lemma ReverseAscending(es: seq<Entry>)
    requires Ascending(es)
    ensures Descending(Reverse(es))
  {
    var r := Reverse(es);
    forall i, j | 0 <= i < j < |r| ensures r[i].day >= r[j].day {
      assert r[i] == es[|es| - 1 - i] && r[j] == es[|es| - 1 - j];
    }
  }

  lemma ReverseOnSide(es: seq<Entry>, today: int, past: bool)
    requires OnSide(es, today, past)
    ensures OnSide(Reverse(es), today, past)
  {
    var r := Reverse(es);
    forall i | 0 <= i < |r| ensures (r[i].day < today) == past {
      assert r[i] == es[|es| - 1 - i];
    }
  }

  /**
    With the rows in day order, every upcoming list runs from the earliest
    day on and every history list from the most recent past day back; the
    upcoming lists hold no past shift and the histories nothing from today on.
  */
  lemma ShiftGroupsOrdered(ids: seq<int>, rows: seq<Shift>, today: int)
    requires DayOrdered(rows)
    ensures forall e | e in ShiftGroups(ids, rows, today) ::
      && Ascending(ShiftGroups(ids, rows, today)[e].upcoming)
      && OnSide(ShiftGroups(ids, rows, today)[e].upcoming, today, false)
      && Descending(ShiftGroups(ids, rows, today)[e].history)
      && OnSide(ShiftGroups(ids, rows, today)[e].history, today, true)
  {
    var m := ShiftGroups(ids, rows, today);
    if PageIds(ids) != [] {
      PageIdsSpec(ids);
      BucketAllSpec(InitialGroups(PageIds(ids)), rows, today);
    }
    forall e | e in m
      ensures Ascending(m[e].upcoming) && OnSide(m[e].upcoming, today, false)
      ensures Descending(m[e].history) && OnSide(m[e].history, today, true)
    {
      EntriesOfSorted(rows, e, today, true);
      EntriesOfSorted(rows, e, today, false);
      ReverseAscending(EntriesOf(rows, e, today, true));
      ReverseOnSide(EntriesOf(rows, e, today, true), today, true);
    }
  }

  /**
    The page's lists: exactly the page's employees (and any other non-zero
    employee of a row) have lists, and they hold that employee's shifts split
    at today, the history reversed.
  */
  lemma ShiftGroupsSpec(ids: seq<int>, rows: seq<Shift>, today: int)
    requires PageIds(ids) != []
    ensures var m := ShiftGroups(ids, rows, today);
      && (forall e :: e in m <==> e != 0 && (e in ids || HasRow(rows, e)))
      && (forall e | e in m ::
            m[e].upcoming == EntriesOf(rows, e, today, false)
            && m[e].history == Reverse(EntriesOf(rows, e, today, true)))
  {
    PageIdsSpec(ids);
    BucketAllSpec(InitialGroups(PageIds(ids)), rows, today);
  }

  /** The bucketing loop of `admin_employees`. */
  method CollectShiftGroups(ids: seq<int>, rows: seq<Shift>, today: int) returns (groups: map<int, Groups>)
    ensures groups == ShiftGroups(ids, rows, today)
  {
    var pageIds := PageIds(ids);
    groups := map[];
    if pageIds == [] {
      return;
    }
    var k := 0;
    while k < |pageIds|
      invariant 0 <= k <= |pageIds|
      invariant groups == map e | e in pageIds[..k] :: NoGroups
    {
      assert pageIds[..k + 1] == pageIds[..k] + [pageIds[k]];
      groups := groups[pageIds[k] := NoGroups];
      k := k + 1;
    }
    assert pageIds[..k] == pageIds;
    var i := 0;
    while i < |rows|
      invariant 0 <= i <= |rows|
      invariant groups == BucketAll(InitialGroups(pageIds), rows[..i], today)
    {
      var shift := rows[i];
      assert rows[..i + 1][..i] == rows[..i];
      if shift.employeeId != 0 {
        var g := if shift.employeeId in groups then groups[shift.employeeId] else NoGroups;
        var entry := Entry(shift.id, shift.siteId, shift.day, StatusText(shift));
        if shift.day < today {
          g := g.(history := [entry] + g.history);
        } else {
          g := g.(upcoming := g.upcoming + [entry]);
        }
        groups := groups[shift.employeeId := g];
      }
      i := i + 1;
    }
    assert rows[..i] == rows;
  }
}
