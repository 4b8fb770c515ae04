/**
  List bookkeeping of the admin pages: the pagination of `admin_employees`
  (app.py:5045-5071) and `admin_sites` (app.py:5254-5280), the parsing of the
  `redirect_page` form field (app.py:4932-4940), `_employee_redirect_target`
  (app.py:4386-4390), the unassigned-employee count (app.py:5129-5142) and
  the `max_pages` clamp of the crawler route (app.py:5549-5553).
*/
module Navigation {
  import opened Wrappers
  import opened Text

  const PER_PAGE := 3

  /** What a list page shows: the page number, how many pages, where the page starts and its neighbours. */
  datatype Page = Page(page: int, totalPages: int, offset: int, hasPrev: bool, hasNext: bool,
                       prevPage: Option<int>, nextPage: Option<int>)

  /** `math.ceil(n / d)` for a count `n` and a positive page size `d`. */
  function CeilDiv(n: nat, d: nat): nat
    requires d > 0
  {
    (n + d - 1) / d
  }

  /**
    The pagination of a list of `count` rows. `requested` is the `page` query
    argument after Flask's integer conversion (`None` when there is none).
  */
  function Paginate(count: nat, requested: Option<int>): Page {
    var asked := if requested.None? || requested.value < 1 then 1 else requested.value;
    var totalPages := if count == 0 then 1 else (if CeilDiv(count, PER_PAGE) > 1 then CeilDiv(count, PER_PAGE) else 1);
    var page := if count == 0 then 1 else if asked > totalPages then totalPages else asked;
    var offset := if count == 0 then 0 else (page - 1) * PER_PAGE;
    var hasPrev := page > 1 && count > 0;
    var hasNext := page < totalPages && count > 0;
    Page(page, totalPages, offset, hasPrev, hasNext,
         if hasPrev then Some(page - 1) else None,
         if hasNext then Some(page + 1) else None)
  }

  /**
    The page lies between 1 and the number of pages, which is the least
    number of pages of three holding every row (one for an empty list); the
    offset is where that page starts and, for a non-empty list, names a row,
    so no page is ever empty. A requested page that exists is the page shown,
    a later one gives the last page. There is a previous page exactly when the
    page is not the first and a next page exactly when it is not the last,
    in a non-empty list.
  */
  lemma PaginateSpec(count: nat, requested: Option<int>)
    ensures var p := Paginate(count, requested);
      && 1 <= p.page <= p.totalPages
      && (count == 0 ==> p.totalPages == 1 && p.page == 1 && p.offset == 0)
      && (count > 0 ==> PER_PAGE * (p.totalPages - 1) < count <= PER_PAGE * p.totalPages)
      && p.offset == (p.page - 1) * PER_PAGE
      && (count > 0 ==> p.offset < count)
      && (requested.Some? && 1 <= requested.value <= p.totalPages ==> p.page == requested.value)
      && (requested.Some? && requested.value > p.totalPages ==> p.page == p.totalPages)
      && (requested.None? || requested.value < 1 ==> p.page == 1)
      && (p.hasPrev <==> p.page > 1 && count > 0)
      && (p.hasNext <==> p.page < p.totalPages && count > 0)
      && (p.prevPage.Some? <==> p.hasPrev) && (p.hasPrev ==> p.prevPage == Some(p.page - 1))
      && (p.nextPage.Some? <==> p.hasNext) && (p.hasNext ==> p.nextPage == Some(p.page + 1))
  {
  }

  /** Stepping to the next page and back returns to the same page. */
  lemma PaginateNextPrev(count: nat, requested: Option<int>)
    requires Paginate(count, requested).hasNext
    ensures var p := Paginate(count, requested);
      var q := Paginate(count, p.nextPage);
      q.page == p.page + 1 && q.hasPrev && Paginate(count, q.prevPage).page == p.page
  {
  }

  // ---------------------------------------------------------------------------
  // The `redirect_page` form field

  /** The stripped field read as a page number: digits only, at least 1. */
  function RedirectPageValue(raw: string): (r: Option<int>)
    ensures r.Some? ==> r.value >= 1
    ensures r.Some? <==> IsDigitString(Strip(raw))
  {
    var t := Strip(raw);
    if IsDigitString(t) then Some(if ParseNat(t) > 1 then ParseNat(t) else 1) else None
  }

  /** The `page` parameter of the redirect: only a page past the first is passed on. */
  function RedirectPageParam(raw: string): Option<int> {
    var v := RedirectPageValue(raw);
    if v.Some? && v.value > 1 then v else None
  }

  /**
    A page number written out in digits, with or without surrounding blanks,
    is passed back as itself when it is past the first page and dropped for
    the first; a field that is not a number is dropped.
  */
  lemma RedirectPageParamSpec(p: nat, blanks: string, raw: string)
    requires forall i | 0 <= i < |blanks| :: IsSpace(blanks[i])
    ensures RedirectPageParam(blanks + ShowNat(p) + blanks) == (if p > 1 then Some(p) else None)
    ensures !IsDigitString(Strip(raw)) ==> RedirectPageParam(raw) == None
    ensures RedirectPageParam(raw).Some? ==> RedirectPageParam(raw).value > 1
  {
    var s := ShowNat(p);
    StripOfPadded(blanks, s);
    ParseShowNat(p);
  }

  /** Blanks around a non-empty digit string are stripped away. */
  lemma StripOfPadded(blanks: string, s: string)
    requires forall i | 0 <= i < |blanks| :: IsSpace(blanks[i])
    requires IsDigitString(s)
    ensures Strip(blanks + s + blanks) == s
  {
    assert forall i | 0 <= i < |s| :: !IsSpace(s[i]);
    StripPaddedGeneral(blanks, s, blanks);
  }

  lemma {:induction false} StripPaddedGeneral(left: string, s: string, right: string)
    requires forall i | 0 <= i < |left| :: IsSpace(left[i])
    requires forall i | 0 <= i < |right| :: IsSpace(right[i])
    requires |s| > 0
    requires forall i | 0 <= i < |s| :: !IsSpace(s[i])
    ensures Strip(left + s + right) == s
  {
    StripLeftOfPadded(left, s + right);
    assert left + s + right == left + (s + right);
    StripRightOfPadded(s, right);
  }

  lemma {:induction false} StripLeftOfPadded(left: string, rest: string)
    requires forall i | 0 <= i < |left| :: IsSpace(left[i])
    requires |rest| > 0 && !IsSpace(rest[0])
    ensures StripLeft(left + rest) == rest
  {
    if left != [] {
      assert (left + rest)[1..] == left[1..] + rest;
      StripLeftOfPadded(left[1..], rest);
    } else {
      assert left + rest == rest;
    }
  }

  lemma {:induction false} StripRightOfPadded(s: string, right: string)
    requires forall i | 0 <= i < |right| :: IsSpace(right[i])
    requires |s| > 0 && !IsSpace(s[|s| - 1])
    ensures StripRight(s + right) == s
  {
    if right != [] {
      assert (s + right)[..|s + right| - 1] == s + right[..|right| - 1];
      StripRightOfPadded(s, right[..|right| - 1]);
    } else {
      assert s + right == s;
    }
  }

  // ---------------------------------------------------------------------------
  // Redirects, counts and clamps

  const EMPLOYEE_DASHBOARD := "/employee/dashboard"

  /** `_employee_redirect_target`: only a target under "/employee" is kept. */
  function EmployeeRedirectTarget(next: Option<string>): string {
    if next.Some? && next.value != [] && StartsWith(next.value, "/employee") then next.value
    else EMPLOYEE_DASHBOARD
  }

  /**
    An employee always lands under "/employee": on the requested target when
    it is there, on the dashboard otherwise; redirecting again changes nothing.
  */
  lemma EmployeeRedirectTargetSpec(next: Option<string>)
    ensures StartsWith(EmployeeRedirectTarget(next), "/employee")
    ensures EmployeeRedirectTarget(next) == next.value <== next.Some? && StartsWith(next.value, "/employee")
    ensures next.None? || !StartsWith(next.value, "/employee") ==> EmployeeRedirectTarget(next) == EMPLOYEE_DASHBOARD
    ensures EmployeeRedirectTarget(Some(EmployeeRedirectTarget(next))) == EmployeeRedirectTarget(next)
  {
    assert EMPLOYEE_DASHBOARD[..9] == "/employee";
  }

  /** `max(total_employees - len(scheduled_emp_ids), 0)`. */
  function UnassignedEmployees(total: nat, scheduled: set<int>): nat {
    if total > |scheduled| then total - |scheduled| else 0
  }

  /**
    When every scheduled id belongs to a known employee, the count is the
    number of employees without a shift this week; it never exceeds the
    number of employees.
  */
  lemma UnassignedEmployeesSpec(staff: set<int>, scheduled: set<int>)
    ensures UnassignedEmployees(|staff|, scheduled) <= |staff|
    ensures scheduled <= staff ==> UnassignedEmployees(|staff|, scheduled) == |staff - scheduled|
    ensures |staff - scheduled| >= UnassignedEmployees(|staff|, scheduled)
  {
    var outside := staff - scheduled;
    assert staff == outside + (staff * scheduled);
    assert outside * (staff * scheduled) == {};
    assert |staff * scheduled| <= |scheduled| by {
      assert staff * scheduled <= scheduled;
      SubsetCard(staff * scheduled, scheduled);
    }
  }

  lemma SubsetCard(a: set<int>, b: set<int>)
    requires a <= b
    ensures |a| <= |b|
  {
    assert b == a + (b - a);
  }

  /** The crawl limit: `int(max_pages)` (100 when it does not parse), clamped to 1..200. */
  function MaxPages(parsed: Option<int>): (r: int)
    ensures 1 <= r <= 200
    ensures parsed.None? ==> r == 100
    ensures parsed.Some? && 1 <= parsed.value <= 200 ==> r == parsed.value
    ensures parsed.Some? && parsed.value < 1 ==> r == 1
    ensures parsed.Some? && parsed.value > 200 ==> r == 200
  {
    var m := if parsed.Some? then parsed.value else 100;
    var capped := if m < 200 then m else 200;
    if capped > 1 then capped else 1
  }
}
