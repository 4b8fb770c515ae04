# A verified model of the business rules of `app.py`

`app.py` is a Flask application for a cleaning company. Staff use it to
schedule shifts at work sites. Employees clock in and complete their shifts.
Admins keep employees, sites and sales leads, export hours, and crawl
company websites for contact emails and phone numbers. This project models
the rules in it that do not depend on the web framework, the database or
the network. Each rule is stated and proved in Dafny.

- **Phones and hosts.**
  - `Phone` models the fallback phone parser, both as the program has it and corrected (see "## Findings"), and `normalize_phone`, `is_valid_phone` and `find_labelled_phones`. The program's `normalize_phone` and `is_valid_phone` are `NormalizePhoneAsWritten` and `IsValidPhoneAsWritten`. `NormalizePhone`, `IsValidPhone` and everything built on them use the corrected parser.
  - `Hosts` models the top-level-domain region lookup and the host normalisation the crawler compares sites by.
  - `Uploads` models the image-name check of photo uploads.
- **Credentials.** `Credentials` models:
  - the set of login codes in use;
  - the login-code generator with its retry loop;
  - the PIN generator;
  - the validation and effect of the `credentials_update` action, on a `StaffDirectory` class that holds the employee table.
- **Scheduling.**
  - `Calendar` covers the week grid and the date range of the hours export.
  - `Shifts` covers shift durations, the dashboard's minute and status texts, and `_format_minutes` with a parser that reads its output back.
  - `ScheduleForm` covers the schedule form's de-duplicated days and its validity check.
  - `HoursReport` covers the per-employee totals of the hours report.
- **Shift life cycle.** `ShiftLifecycle` models clock-in and completion on a `ShiftBoard` class, with their guards.
- **Lists.**
  - `Navigation` covers pagination and the `redirect_page` field, plus these helpers:
    - the employee redirect target;
    - the unassigned-employee count;
    - the crawler's page limit.
  - `EmployeeShifts` covers the upcoming and history lists of the employee page.
  - `Sites` covers the site table with its duplicate rule and bulk update, on a `SiteTable` class.
  - `Leads` covers leads and their stages, on a `LeadBoard` class.
- **Crawler.**
  - `Crawler` models the crawl loop as a `Crawler` class over its queue, visited set and found pages, with the duplicate-free `enqueue`, the link classification and the detail-path rule.
  - `ContactRows` models the final aggregation into contact rows.
- **Shared helpers.**
  - `Text` models Python's `lower` and `upper` on ASCII letters, `strip` over the full `str.isspace()` set, and `split`, `join` and `str(int)`.
  - `Seqs` holds "keep the first occurrence of each new element" (`Fresh`), the pattern of the source's `seen`-set loops.
  - `Wrappers` holds `Option`.

Conventions:
- A day is its proleptic Gregorian ordinal, as given by `date.toordinal()`.
- A time of day and a clock stamp are in seconds.
- Case mapping and digits are ASCII; stripping removes every character Python counts as whitespace.
- A database table is a `map` from id to record, or a `seq` in query order.
- Anything outside the program is a parameter:
  - today, now and random draws;
  - `strptime` on a day;
  - the date test of `_looks_like_date_sequence`;
  - regular-expression matches;
  - `urlparse`, and the fetched page with its emails, phones and links.

## Model

| member | source | states |
|---|---|---|
| Phone.DigitsAreDigits | app.py:3263 | `re.sub(r"\D", "", s)` keeps only digits and never lengthens the text |
| Phone.DigitsOfDigits | app.py:3263 | a digit string keeps all its characters |
| Phone.DigitsOfInternational | app.py:3273-3274 | the digits of "+" followed by digits are exactly those digits |
| Phone.TrimLeadingZerosIsSuffix | app.py:3276 | `lstrip("0")` gives a suffix that does not start with '0' |
| Phone.TrimSkipsZeros | app.py:3276 | leading zeros are dropped one at a time |
| Phone.TrimmedDigitsNeverEmpty | app.py:3264-3277 | a plausible digit string never trims to nothing, so the `else None` of the `00` branch cannot be reached |
| Phone.AllZerosTrimToEmpty | app.py:3276-3277 | only an all-zero string trims to nothing |
| Phone.ZeroPrefixedCandidates | app.py:3263-3278 | on a plausible `00`-prefixed digit string, the as-written parser gives "+" and the trimmed digits, and the corrected one gives that only when the trimmed digits are plausible |
| Phone.AsWrittenAcceptsSixDigitNumber | app.py:3264-3277 | the as-written parser turns "00000123456" into "+123456", which has 6 digits and is not plausible, and "+123456" itself parses to nothing; the corrected parser refuses "00000123456" |
| Phone.AsWrittenAcceptsRunAfterZeros | app.py:3264-3277 | the as-written parser turns "009876543210" into "+9876543210"; the corrected parser refuses it, since the trimmed digits are a known run |
| Phone.ParsersAgreeOnPlausibleResults | app.py:3263-3278 | whenever the as-written parser's international result is itself plausible, both parsers give the same result |
| Phone.AcceptedNumbersArePlausible | app.py:3263-3278 | whatever the corrected parser accepts is "+" and 7–15 digits, or bare 7–15 digits, and passes the date, repeated-digit and run rules |
| Phone.AsWrittenAccepts | app.py:3263-3278 | the program's parser, on every input, accepts a candidate exactly when its stripped text is non-empty and its digits are plausible. The result is "+" and the digits for a `+` candidate, "+" and the non-empty zero-trimmed digits for a `00` candidate, and the bare digits otherwise |
| Phone.PlausibleCandidatesAreAccepted | app.py:3273-3278 | corrected parser: for a candidate whose digits are plausible: a `+` prefix gives "+" and the digits; a `00` prefix is accepted exactly when the zero-trimmed digits are plausible, and then gives "+" and them; anything else gives the bare digits |
| Phone.ReparseInternational | app.py:3273-3274 | corrected parser: an international result parses back to itself (the program's does not, see Phone.AsWrittenAcceptsSixDigitNumber) |
| Phone.IsValidPhoneAsWritten | app.py:3281-3287 | the program's `is_valid_phone` is true exactly when its `normalize_phone` gives a non-empty number, and exactly when the stripped candidate is non-empty with plausible digits |
| Phone.CorrectedNormalizeRefinesAsWritten | app.py:3281-3283 | the corrected `normalize_phone` gives a number only where the program's gives the same number. The two differ only on a `00` candidate whose zero-trimmed digits are not plausible, where the corrected one gives "" |
| Phone.IsValidPhone | app.py:3286-3287 | corrected `is_valid_phone`: true exactly when the corrected `normalize_phone` gives a non-empty number |
| Phone.NormalizeEmptyIffRejected | app.py:3281-3283 | corrected `normalize_phone`: it gives "" exactly when the corrected parser rejects the candidate |
| Phone.LabelledPhonesSpec | app.py:3290-3306 | the result has no repeats; it holds exactly the non-empty labelled numbers, or the token numbers when no labelled number is non-empty |
| Phone.FreshNumbers | app.py:3295-3299 | the `seen`-set loop over normalised matches keeps exactly the non-empty numbers not seen before, in order, and returns the seen set grown by them |
| Phone.FindLabelledPhones | app.py:3290-3306 | the two `seen`-set loops return [] for an empty text, else the labelled-or-token result above |
| Hosts.LastLabelIsFinalSegment | app.py:3240-3243 | `split(".")[-1]` is a dot-free suffix of the host |
| Hosts.LastLabelAfterDot | app.py:3240-3243 | for "host.tld" with a dot-free `tld`, the last label is `tld` |
| Hosts.LastLabelOfDotFree | app.py:3240-3243 | a dot-free host is its own last label |
| Hosts.LastLabelOfLower | app.py:3240-3243 | lower-casing commutes with taking the last label |
| Hosts.InferRegionSpec | app.py:3237-3244 | an empty host has no region; otherwise the region is the table entry of the upper-cased last label |
| Hosts.InferRegionOfDomain | app.py:3237-3244 | the region depends only on the top-level domain |
| Hosts.InferRegionIgnoresCase | app.py:3237-3244 | letter case in the host does not change the region |
| Hosts.NormalizeNetlocSpec | app.py:3531-3533 | the result is the lower-cased host with a leading "www." removed, and is otherwise unchanged |
| Hosts.NormalizeNetlocIgnoresCase | app.py:3531-3533 | hosts that differ only in case normalise alike |
| Hosts.NormalizeNetlocRemovesOneWww | app.py:3531-3533 | only one "www." is removed, so normalisation is not idempotent on "www.www.x" |
| Uploads.AllowedImageSpec | app.py:3400-3404 | "name.ext" is accepted exactly when `ext` is a listed image extension in any case; a name without a dot, or none, is refused |
| Credentials.CodesAmongAdd | app.py:3438-3442 | one more employee adds its trimmed, lower-cased code when it has one and is not excluded |
| Credentials.ExistingCodesExcludeOthers | app.py:3433-3443 | a key outside `_collect_existing_codes(exclude_id=id)` is no other employee's code |
| Credentials.StaffDirectory.constructor | app.py:3433-3443 | the directory holds the given employee table |
| Credentials.StaffDirectory.CollectExistingCodes | app.py:3433-3443 | the loop returns the set of non-empty trimmed, lower-cased codes of every employee except the excluded one |
| Credentials.LettersAreLetters | app.py:3447 | `re.sub(r"[^A-Za-z]", "", name)` keeps only letters, and is empty exactly when the name has none |
| Credentials.NamePrefixSpec | app.py:3447-3453 | the prefix is upper-case letters. It is "TEAM" exactly when the name has no letter. Otherwise it has 3 letters, starting with the name's first letters upper-cased |
| Credentials.GenerateLoginCode | app.py:3446-3465 | a returned code's lower-case form was absent from the set and is added to it. The code is the prefix, or "PXF" after 21 collisions, followed by the draw, and every earlier attempt collided. Running out of draws changes nothing |
| Credentials.GeneratedCodeKey | app.py:3458-3461 | a generated code has the attempt prefix's length plus 3. It is stored and collected under the key it was checked with |
| Credentials.GeneratePin | app.py:3427-3430 | the PIN has `max(4, length)` characters, all decimal digits |
| Credentials.SavedCodeKey | app.py:4994-5000 | the stored upper-cased code is compared under the same key as the field's lower-cased form |
| Credentials.UpdatedCredentialsOutcome | app.py:4990-5011 | the update is saved exactly when the employee exists, the code is non-empty and not another's, and the PIN is blank or 4 digits; otherwise the table is unchanged |
| Credentials.UpdatedCredentialsChanges | app.py:5003-5011 | a save changes only that employee: code upper-cased, email trimmed or none, PIN replaced only when given |
| Credentials.UpdatedCredentialsKeepUniqueCodes | app.py:4999-5003 | the action never lets two employees share a code, compared case-insensitively |
| Credentials.StaffDirectory.UpdateCredentials | app.py:4990-5011 | the method's outcome and new table are those of the update function |
| Calendar.WeekdayNext | app.py:3793 | weekdays run 0..6 and advance by one each day, repeating weekly |
| Calendar.MondayOfSpec | app.py:3793 | `start - weekday` is a Monday on or before the day, less than a week before |
| Calendar.ClampWeeks | app.py:3791 | the week count is clamped to 1..12, with 0 read as 1 |
| Calendar.GetDayRangeSpec | app.py:3786-3796 | the range has 7·clamp(weeks) consecutive days, starts on the Monday of the start's week, contains the start, and every seventh day is a Monday |
| Calendar.HoursPdfRangeSpec | app.py:5488-5505 | an unparsable start and then end are refused. The range is ordered, and given days are swapped when reversed. No arguments give this week Monday to Sunday; a start alone gives start to start+6 |
| Shifts.ScheduledDurationSpec | app.py:3817-3822 | the scheduled duration is in (0, 24 h]; start plus duration wraps to the end; a day is added exactly when end ≤ start |
| Shifts.ActualDurationSpec | app.py:3825-3831 | the actual duration exists exactly when both stamps do; it is the difference when that is not negative, and the difference plus one day otherwise |
| Shifts.StatusTextSpec | app.py:4488-4493 | "Completed" iff clocked out; "In progress" iff clocked in only; "Scheduled" iff neither |
| Shifts.ScheduledMinutesDiffer | app.py:4467-4471 | as written, the dashboard minutes agree with the wrapped duration for daytime shifts and are 0 for overnight ones. The corrected minutes are the wrapped duration rounded down |
| Shifts.OvernightShiftShowsNoDuration | app.py:4456-4471 | a 22:00–02:00 shift shows "—" as written and "4h" as corrected |
| Shifts.DashboardActualMinutesSpec | app.py:4527-4531 | the card's actual minutes exist exactly when both stamps do, and are the floored, non-negative difference |
| Shifts.TrailingDigitsOfNumeral | app.py:4456-4465 | a numeral after a non-digit is read back whole |
| Shifts.FormatMinutesRoundTrip | app.py:4456-4465 | for a positive total, `_format_minutes` never gives "<1m", and its text reads back to the same total |
| Shifts.ReadHours | app.py:4461-4462 | "<h>h" reads back as h·60 minutes |
| Shifts.ReadMinutes | app.py:4463-4464 | "<m>m" reads back as m minutes |
| Shifts.ReadHoursAndMinutes | app.py:4461-4465 | "<h>h <m>m" reads back as h·60+m minutes |
| ShiftLifecycle.ClockedInSpec | app.py:4666-4667 | clock-in sets the stamp only when unset, is idempotent, leaves clock-out and all else unchanged, and moves the status past Scheduled |
| ShiftLifecycle.CompletedSpec | app.py:4752-4754 | completion sets clock-out, fills in a missing clock-in and changes nothing else. The status becomes Completed, and the actual duration is 0 or the time since clock-in |
| ShiftLifecycle.ClockInAfterComplete | app.py:4666-4667 | clocking in after completing changes nothing |
| ShiftLifecycle.ShiftActionResultSpec | app.py:4657-4754 | another employee's shift or a missing one gives "not found", another day gives "not today", and neither changes anything. Otherwise only that shift changes, only forwards in its life cycle |
| ShiftLifecycle.ShiftBoard.constructor | app.py:4650-4667 | the board holds the given shift table |
| ShiftLifecycle.ShiftBoard.ClockInShift | app.py:4650-4677 | the route's outcome and new table are those of the clock-in action |
| ShiftLifecycle.ShiftBoard.CompleteShift | app.py:4736-4765 | the route's outcome and new table are those of the complete action |
| ScheduleForm.ParsedDaysSpec | app.py:4796-4813 | a day is parsed from the list exactly when some non-blank entry parses to it |
| ScheduleForm.UniqueDays | app.py:4805-4817 | the loop keeps each parsed day once, in order of first appearance |
| ScheduleForm.EndTimeKeepsDuration | app.py:4828-4832 | a shift stored with start and wrapped end has exactly the requested duration |
| ScheduleForm.CreatedShiftsSpec | app.py:4818-4842 | shifts are created exactly when the request is valid (fields present, 0 < duration ≤ 24 h). There is one per distinct parsed day and no day twice, each with the requested duration |
| ScheduleForm.SubmitSchedule | app.py:4793-4842 | the POST branch creates exactly the shifts above |
| HoursReport.QueryShiftsSpec | app.py:3858-3866 | the query keeps shifts within the range, of the requested employee when one is given and non-zero |
| HoursReport.OfEmployeeSpec | app.py:3869-3874 | an employee's rows come from the query, and there are some exactly when one of the query's shifts is theirs |
| HoursReport.TotalsOfSpec | app.py:3887-3913 | a record has one row per shift and as many differences as actual durations. The difference total is the actual total minus the scheduled time of clocked shifts, and the scheduled total is positive exactly when there are rows and at most 24 h per shift; each row keeps its shift's day |
| HoursReport.AccumulateByEmployee | app.py:3868-3913 | the loop gives a record exactly to each known employee with shifts, and that record is built from their shifts alone |
| HoursReport.HoursReportSpec | app.py:3852-3927 | the report covers the employees with shifts in range plus a requested employee who exists. Each record is that employee's totals, and a filter leaves only the requested employee |
| HoursReport.CollectHoursReport | app.py:3868-3927 | the loop builds exactly the report above |
| Navigation.PaginateSpec | app.py:5045-5071 | page in [1, total]; total = max(1, ceil(n/3)); a requested page is kept when in range, a larger one becomes the last page and a missing or smaller one page 1; page 1 and offset 0 for n = 0; offset = (page−1)·3; has_prev ⇔ page > 1 ∧ n > 0; has_next ⇔ page < total ∧ n > 0 |
| Navigation.PaginateNextPrev | app.py:5068-5071 | going to the next page and back returns to the same page |
| Navigation.RedirectPageValue | app.py:4936-4939 | a value exists exactly when the stripped field is digits, and it is at least 1 |
| Navigation.RedirectPageParamSpec | app.py:4936-4944 | a number padded with blanks is passed back when > 1 and dropped otherwise; a non-number is dropped |
| Navigation.StripOfPadded | app.py:4936 | blanks around a digit string are stripped |
| Navigation.EmployeeRedirectTargetSpec | app.py:4386-4390 | the target is always under "/employee": the given one when it is, the dashboard otherwise; applying it twice changes nothing |
| Navigation.UnassignedEmployeesSpec | app.py:5134-5142 | the count is at most the staff size, and is the number of unscheduled employees when the scheduled ids are staff |
| Navigation.MaxPages | app.py:5549-5553 | the limit is in 1..200, 100 for an unparsable field, and the given value when it is in range |
| EmployeeShifts.PageIdsSpec | app.py:5075 | the page ids are exactly the non-zero ids |
| EmployeeShifts.EntriesOfOther | app.py:5122-5126 | an employee without rows has no entries |
| EmployeeShifts.BucketStep | app.py:5095-5126 | one more row keeps every employee's lists split at today, history reversed, and adds only the row's employee |
| EmployeeShifts.BucketAllSpec | app.py:5095-5126 | after all rows, each employee's upcoming list is their non-past entries in row order, and their history is the past ones reversed |
| EmployeeShifts.EntriesOfSorted | app.py:5088-5093 | with rows in day order, each list is ascending, on one side of today, and no later than the last row |
| EmployeeShifts.ReverseAscending | app.py:5123-5124 | reversing an ascending list gives a descending one |
| EmployeeShifts.ReverseOnSide | app.py:5123-5124 | reversing keeps a list on its side of today |
| EmployeeShifts.ShiftGroupsOrdered | app.py:5086-5126 | the upcoming lists ascend by day; the history lists descend, newest first |
| EmployeeShifts.ShiftGroupsSpec | app.py:5086-5126 | every page id gets lists, and only page ids or employees with rows do; each is split at today |
| EmployeeShifts.CollectShiftGroups | app.py:5075-5126 | the loop with `insert(0)` and `append` builds exactly those lists |
| Sites.SiteExistsSpec | app.py:4292-4304 | a blank name or address matches nothing. Otherwise a match is an unexcluded site with the same lower-cased pair, and for trimmed stored sites the comparison ignores surrounding blanks and case |
| Sites.PutKeepsConsistent | app.py:5215-5216 | storing a pair that no other site has keeps the table free of duplicates |
| Sites.CreateSiteSpec | app.py:5192-5203 | create needs both fields and refuses a duplicate pair; otherwise it adds the stripped site under a new id, keeping the table free of duplicates |
| Sites.UpdateSiteSpec | app.py:5204-5217 | update keeps a blank field's old value, refuses a pair another site has, changes only that site, and keeps the table free of duplicates |
| Sites.UpdateKeepsConsistent | app.py:5204-5217 | any update keeps the table free of duplicates |
| Sites.UpdateBlankKeepsConsistent | app.py:4296-4297 | a site with a blank name or address never clashes |
| Sites.DeleteSiteSpec | app.py:5218-5222 | delete removes only that id and keeps the table free of duplicates |
| Sites.Zip3 | app.py:5228 | `zip` has as many rows as the shortest list, each the i-th of all three |
| Sites.BulkStepInv | app.py:5228-5240 | one bulk row keeps the invariant: a changed site holds stripped, filled-in fields, and no other site had its pair before the batch |
| Sites.BulkFoldInv | app.py:5227-5240 | the invariant holds after all rows |
| Sites.BulkUpdateSpec | app.py:5223-5241 | the bulk update keeps the ids. A changed site holds a row's stripped fields, checked against the table before the batch, and the table stays free of duplicates |
| Sites.BulkRepeatedPairIgnored | app.py:5233-5235 | a row repeating an earlier row's pair, in any case, changes nothing |
| Sites.BulkFoldSeen | app.py:5231-5236 | every filled-in row with an id leaves its pair remembered |
| Sites.SiteTable.constructor | app.py:5192-5203 | a new site table is empty and free of duplicates |
| Sites.SiteTable.Create | app.py:5192-5203 | the method's outcome and table are those of the create function |
| Sites.SiteTable.Update | app.py:5204-5217 | the method's outcome and table are those of the update function |
| Sites.SiteTable.Delete | app.py:5218-5222 | the table loses exactly that id |
| Sites.SiteTable.BulkUpdateRows | app.py:5223-5241 | the loop leaves the table the bulk update gives for the zipped rows |
| Leads.OptionalText | app.py:5350-5353 | `(v or "").strip() or None` is none exactly for a blank value, and is otherwise the trimmed, non-empty text |
| Leads.CreatedLeadSpec | app.py:5359-5372 | a lead is created exactly when the name is non-blank. Its stage is the given one when listed, else "New Leads" |
| Leads.UpdatedLeadSpec | app.py:5342-5357 | update moves the stage only to a listed stage and keeps a listed stage listed. The name stays or becomes the stripped, non-blank field. Email, phone, source and notes each become `(field or "").strip() or None`, so a missing or blank field clears them and a filled one is stored stripped |
| Leads.SetStageSpec | app.py:5421-5436 | a missing id or unlisted stage gives 400 and an unknown lead 404, with no change; otherwise only that lead's stage changes, to a listed one |
| Leads.FilterByStageSpec | app.py:5375-5382 | a listed stage filter keeps exactly that stage's leads in order; any other filter keeps all |
| Leads.GroupedSpec | app.py:5401-5403 | the groups are the listed stages plus any other stage a lead has, each holding that stage's leads in order |
| Leads.GroupedOfListed | app.py:5401-5403 | with every lead on a listed stage, the groups are exactly the listed stages |
| Leads.GroupLeads | app.py:5401-5403 | the `setdefault(...).append` loop builds exactly those groups |
| Leads.LeadBoard.constructor | app.py:5358-5372 | a new lead board is empty, with every stage listed |
| Leads.LeadBoard.Create | app.py:5358-5372 | a created lead is added under a new id, with every stage kept listed |
| Leads.LeadBoard.Update | app.py:5342-5357 | only that lead changes, as above, with every stage kept listed |
| Leads.LeadBoard.Delete | app.py:5335-5341 | the table loses exactly that id |
| Leads.LeadBoard.MoveToStage | app.py:5421-5436 | the reply and table are those of the stage function, with every stage kept listed |
| Crawler.SegmentsSpec | app.py:3583-3589 | path segments are non-empty and slash-free |
| Crawler.SegmentsOfJoin | app.py:3589 | "/" followed by segments joined with "/" has exactly those segments |
| Crawler.SegmentsTrailingSlash | app.py:3589 | a trailing slash does not change the segments |
| Crawler.ProbableDetailPaths | app.py:3588-3596 | "/seg" is a detail path iff `seg` holds "_" and does not start "_assets". Paths two or more levels under "/firmen" are detail paths; "/firmen/x" and "/" are not |
| Crawler.ClassifyLinkSpec | app.py:3716-3749 | a link goes to the front iff it is followable and a probable detail path. It is skipped iff it is not followable or is another region's index, and a queued link is always on the start host |
| Crawler.EnqueuedSpec | app.py:3598-3604 | `enqueue` keeps the queue free of repeats and of visited URLs, adds a new URL at the requested end, and keeps the order of the rest |
| Crawler.Crawler.constructor | app.py:3577-3583 | the crawl starts with the start URL queued, nothing visited and no pages, scoped by the start URL's normalised host and path segments |
| Crawler.Crawler.Enqueue | app.py:3598-3604 | the method's queue is the enqueue function's; visited and pages are unchanged |
| Crawler.WithLinksSpec | app.py:3716-3749 | queuing a page's links keeps the queue fresh, keeps what was queued and adds only on-site URLs. Every followed link ends up visited or queued |
| Crawler.Crawler.EnqueueLinks | app.py:3716-3749 | the link loop gives the queue of the function above |
| Crawler.StartInv | app.py:3577-3578 | the start state satisfies the crawl invariant |
| Crawler.DropInv | app.py:3612-3615 | dropping an off-site URL keeps the invariant |
| Crawler.VisitInv | app.py:3617-3749 | visiting the head keeps the invariant and adds it to the visited set |
| Crawler.CrawledSpec | app.py:3606-3749 | the loop keeps the invariant and only grows the visited set and pages. It ends with an empty queue or max_pages visits, and never more |
| Crawler.PagesAtMostVisited | app.py:3707-3710 | at most as many pages with contacts as visited URLs |
| Crawler.CrawlFromStart | app.py:3573-3749 | a crawl visits at most max_pages URLs, all on the start host, and the start URL among them when max_pages ≥ 1. It records each visited page whose fetch yields an email or a phone exactly once, as fetched, and records no other page. With an empty queue at the end, every followed link was visited |
| Crawler.Crawler.Run | app.py:3606-3749 | the loop's final state is the crawl function's |
| Crawler.CrawlContacts | app.py:3573-3780 | `crawl` returns the aggregated rows of the pages its loop found |
| ContactRows.NewEmailsSpec | app.py:3766-3772 | the new emails come from the page and have distinct, non-blank, unseen keys. Their keys are exactly the page's unseen non-blank keys |
| ContactRows.PageRowsSpec | app.py:3774-3780 | with new emails, one row per email in order, all sharing the first new phone, or "" when there is none; otherwise one row per new phone with email "" |
| ContactRows.PageRowsUnique | app.py:3758-3780 | one page's rows repeat no email key and no phone, and use only keys and phones now seen |
| ContactRows.AggregateUnique | app.py:3751-3780 | no email key, compared trimmed and lower-cased, is in two rows, and no phone is in two email-less rows |
| ContactRows.AggregateSeenHaveRows | app.py:3766-3777 | every email key seen has a row |
| ContactRows.AggregateSeesKey | app.py:3766-3771 | a non-blank key on any page ends up seen |
| ContactRows.AggregateKeepsEveryEmail | app.py:3751-3780 | every non-blank email key found on any page is in some row |
| ContactRows.CollectNewEmails | app.py:3766-3772 | the inner loop returns the page's new emails and the grown key set |
| ContactRows.CollectNewPhones | app.py:3758-3764 | the inner loop returns the page's new normalised phones and the grown phone set |
| ContactRows.AppendPageRows | app.py:3774-3780 | the row loops append exactly the page's rows |
| ContactRows.AggregateRows | app.py:3751-3780 | the outer loop returns exactly the aggregated rows |
| Seqs.FreshSpec | app.py:3293-3306 | a `seen`-set loop returns no repeats, and exactly the elements not seen before |
| Seqs.FreshOrElseSpec | app.py:3293-3306 | the second pass, run only when the first found nothing, gives the first pass's new elements or else the second's |
| Text.StripIdempotent | app.py:3440 | `strip` twice is `strip` once |
| Text.LowerOfUpper | app.py:4994-5000 | lower-casing an upper-cased text is lower-casing it |
| Text.ParseShowNat | app.py:4459-4464 | a number written in decimal reads back as itself |
| Text.SplitJoin | app.py:3589 | `split` gives at least one piece, none holding the separator, and joining them gives the text back |
| Text.JoinSplit | app.py:3589 | splitting separator-free pieces joined by the separator gives the pieces back |
| Text.SplitAppend | app.py:3589 | splitting at a separator splits the two sides independently |

## Left out

- The service worker `static/admin-sw.js`, the HTML, CSS and JavaScript templates, Flask routing, sessions, flashing and redirects are not part of this model. The same goes for `_safe_next_url`, SQLAlchemy models and migrations, PDF output, the `/gpt` endpoint, and password hashing (a PIN is kept as the PIN itself).
- The `phonenumbers` branch of `_parse_phone_candidate` is left out: it is a foreign library, and the model is its fallback. The no-break-space replacement is left out too: it changes neither the digits nor the first characters.
- Phone.NormalizePhone: uses the corrected parser, so it gives "" where the program's `normalize_phone` gives "+123456" for "00000123456" and "+9876543210" for "009876543210"; the program's behaviour is Phone.NormalizePhoneAsWritten.
- Phone.IsValidPhone: uses the corrected parser, so it is false where the program's `is_valid_phone` is true for "00000123456" and "009876543210"; the program's behaviour is Phone.IsValidPhoneAsWritten.
- Phone.NormalizeEmptyIffRejected: states the fact for the corrected `normalize_phone`; for the program's, Phone.IsValidPhoneAsWritten states it.
- Phone.FindLabelledPhones: normalises with the corrected parser, so a labelled "00000123456" or "009876543210" is dropped where the program keeps "+123456" or "+9876543210".
- ContactRows.AggregateRows: phone rows come from the corrected parser too, so the same two inputs give no phone where the crawl of the program records one; Crawler.CrawlContacts inherits this.
- `_looks_like_date_sequence` is a parameter (`isDate`), since its `strptime` width rules are foreign behaviour.
- The regular expressions (`EMAIL_REGEX`, `PHONE_LABEL_REGEX`, `PHONE_TOKEN_REGEX`), BeautifulSoup, `requests` and Playwright are outside the model. `urljoin`, `urldefrag` and `urlparse` are too. A fetched page arrives through the `Web` parameter, already as emails, phones and absolute, fragment-free links.
- Crawler.CrawledSpec: the start URL is taken as given, without `urldefrag`. The Playwright retry for detail pages without emails belongs to the fetch parameter. Which text and attributes count as phone sources is also part of the fetch parameter (app.py:3635-3705).
- ContactRows.AggregateRows: the page's emails and phones are sequences in the order the source iterates its sets, and that iteration order is unspecified.
- Credentials.GenerateLoginCode: the source draws suffixes forever until one is free. The model takes a finite sequence of draws and returns `None` when it runs out. Randomness itself (`secrets.choice`) is that parameter; `GeneratePin` picks each digit by nondeterministic choice.
- `_generate_missing_employee_credentials`, the credentials shown once in the session, and `login_email` uniqueness are not part of this model.
- HoursReport.HoursReportSpec: the final sort of the records by employee name is left out, so the report is a map from employee id. The query's `ORDER BY` is taken as the order of the given table. `_format_hours` rounding is left out as floating point.
- ScheduleForm.CreatedShiftsSpec: the duration is whole minutes, where the source reads a float number of hours. `strptime` for days and the start time is a parameter or already applied. `int(emp_id)` on a non-numeric field is not modelled.
- Credentials.UpdatedCredentialsOutcome: the employee id is an integer; `int(emp_id)` raising on a non-numeric form field (a server error) is not modelled.
- Sites.UpdateSiteSpec: the site id is an integer; `int(site_id)` raising on a non-numeric form field is not modelled.
- Sites.DeleteSiteSpec: the site id is an integer; `int(site_id)` raising on a non-numeric form field is not modelled. Deleting a site also deletes its shifts in the program (the `cascade="all, delete-orphan"` relationship, app.py:3332); the shift table is not part of the site table modelled here.
- Leads.SetStageSpec: the JSON id is an optional integer with 0 standing for a falsy one. A non-numeric string raising in `int`, a float being truncated, and a string "0" passing `not lead_id` and then giving 404 instead of 400 are not modelled.
- Leads.LeadBoard.Update: the lead id is an integer; `int(lead_id)` raising on a non-numeric form field is not modelled.
- Leads.LeadBoard.Delete: the lead id is an integer; `int(lead_id)` raising on a non-numeric form field is not modelled.
- ShiftLifecycle.CompletedSpec: `employee_complete_shift` reads `utcnow()` twice for a shift never clocked in; one stamp `now` stands for both readings, so the actual duration of such a shift is exactly 0.
- Sites.BulkUpdateSpec: `int(sid)` raising on a non-numeric id is not modelled; an id is given or absent.
- Leads.FilterByStageSpec: the start and end date filters and the sort by creation time are left out; the leads come in query order.
- Photo upload handling, latitude and longitude (`_coerce_float`), and the date and time labels made with `strftime` are left out. So are `date.today()` and `datetime.utcnow()`, which are parameters.
- Shifts.DashboardActualMinutesSpec: microseconds of clock stamps are not modelled; stamps are whole seconds.
- Navigation.PaginateSpec: `math.ceil` of a float division is modelled as exact integer ceiling division, which agrees for all counts the database can return.

## Findings

| source | as written | input that shows it | evidently intended | confidence | as-written member | corrected member |
|---|---|---|---|---|---|---|
| app.py:3264-3277 | the 7–15 digit rule is checked on all digits before a `00` prefix's zeros are stripped | "00000123456" becomes "+123456", a 6-digit number | the number left after the `00` prefix's zeros passes the same plausibility rules as the candidate: 7–15 digits, not a date, not one repeated digit, not a known run | not executed | Phone.ParseCandidateAsWritten / Phone.AsWrittenAcceptsSixDigitNumber | Phone.ParseCandidate / Phone.AcceptedNumbersArePlausible |
| app.py:4467-4471 | `_scheduled_minutes` subtracts start from end on the same day and floors a negative result to 0 | a 22:00–02:00 shift shows "—" instead of "4h" | the wrapped duration of `_shift_scheduled_duration`, as the hours report uses | not executed | Shifts.ScheduledMinutesAsWritten / Shifts.OvernightShiftShowsNoDuration | Shifts.ScheduledMinutes / Shifts.ScheduledMinutesDiffer |
