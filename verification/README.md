# HR console core, modelled in Dafny

This project models the logic of a client-side HR console. The console keeps
users, attendance, leave and cash-advance requests in an in-memory store (the
`DataManager` of `client/src/lib/db.ts`), and its pages read and update that
store. The model is functional. The store is an immutable `Store` value and
every update is a pure function from the old store to the new one. Whatever
the browser supplies is an explicit parameter:

- today's date and the wall clock;
- the signed-in user;
- generated ids and formatted time strings;
- `parseFloat` and date parsing.

Modules, one per source unit:

- `Options`, `Seqs`, `Grouping`, `Text`: the JavaScript vocabulary the code
  leans on. That covers optional values, `filter`/`map`/`find`/`slice`, the
  `reduce`-based "count per key" charts, and `toLowerCase`/`includes`/`trim`
  with the order `localeCompare` gives date strings.
- `Records`: the store's entities (`User`, `Attendance`, `LeaveRequest`,
  `CashAdvance`) and their status enumerations.
- `Db`: the store operations of `client/src/lib/db.ts`. These are the
  collection updates, the attendance archive, login, and the dashboard,
  branch and leave aggregates.
- `AttendancePage`: the clock-in/clock-out state machine of
  `client/src/pages/Attendance.tsx`, with the 09:00 late rule and the
  one-record-per-user-per-day invariant, plus the daily roster and the
  searchable, date-sorted attendance table.
- `CashAdvancesPage`: the cash-advance lifecycle of
  `client/src/pages/CashAdvances.tsx`. The store's status update enforces
  nothing. The lifecycle exists only in which buttons a row shows to which
  role, and that gate is the precondition of `Perform`.
- `ReportsPage`, `EmployeesPage`, `StaffDashboardPage`: the aggregates and
  filters of `Reports.tsx`, `Employees.tsx` and
  `components/dashboard/StaffDashboard.tsx`.

The code's quirks are modelled as written:

- The absent figure subtracts every record dated today from the active
  headcount, including `absent` records and records of users who are not
  active. `AttendancePage.AbsentFigureDisagreesWithList` exhibits a store
  where this figure and the absent list disagree.
- A cash advance's amount is never range-checked. Only an empty amount text
  is refused.
- Users created on the Employees page never get the `isEmployee` flag. The
  flag is modelled as `false` for them, so they stay out of the branch chart
  and the name suggestions.
- `getEmployeeName` uses `||`, so a user with an empty name is shown as
  "Unknown".

## Model

| member | source | states |
|---|---|---|
| Db.AddUser | client/src/lib/db.ts:284-287 | the new user is appended after all existing users, and nothing else in the store changes |
| Db.UpdateUser | client/src/lib/db.ts:289-291 | users with the id get the patch merged in; every other user, and the list length, stay the same |
| Db.DeleteUser | client/src/lib/db.ts:293-295 | exactly the users without the id remain, each as often as before, in their original relative order |
| Db.AddThenDeleteUser | client/src/lib/db.ts:284-295 | adding a user whose id is new and then deleting that id gives back the original store |
| Db.AddAttendance | client/src/lib/db.ts:299-301 | the record goes in front; the old records follow unchanged and in order, and the length grows by one |
| Db.UpdateAttendance | client/src/lib/db.ts:303-305 | the patch is merged only into records with the id; the other records and the length are unchanged |
| Db.UpdateAttendanceMissingId | client/src/lib/db.ts:303-305 | patching an id no record has leaves the store unchanged |
| Db.UpdateAttendanceIdempotent | client/src/lib/db.ts:303-305 | applying the same patch twice equals applying it once, for every patch |
| Db.AddCashAdvance | client/src/lib/db.ts:329-331 | the request goes in front of the old ones, which keep their order |
| Db.UpdateCashAdvanceStatus | client/src/lib/db.ts:333-335 | matching requests change in their status field only; other requests are untouched; any status is accepted, with no transition check |
| Db.DeleteCashAdvance | client/src/lib/db.ts:337-339 | exactly the requests without the id remain, each as often as before, in order |
| Db.AddThenDeleteCashAdvance | client/src/lib/db.ts:329-339 | submitting a request with a fresh id and deleting it restores the store |
| Db.StaleRecords | client/src/lib/db.ts:239-244 | holds exactly the records dated before the threshold; together with the kept records it is a permutation of the attendance list |
| Db.KeptRecords | client/src/lib/db.ts:246 | holds exactly the records that are not stale, in their original order |
| Db.Tag | client/src/lib/db.ts:245 | each archived record is tagged with type "attendance" and the archive time, in order |
| Db.ArchiveData | client/src/lib/db.ts:236-250 | for "attendance", moves the stale records to the end of the archives and returns how many moved; for any other type, returns 0 and changes nothing; the moved count plus the remaining count equals the old count |
| Db.Login | client/src/lib/db.ts:252-261 | returns the first user whose email matches case-insensitively and whose role matches exactly, and makes that user current; when no user matches, returns nothing and leaves the store unchanged |
| Db.LoginIgnoresEmailCase | client/src/lib/db.ts:254 | logging in with the lower-cased email gives the same outcome as the email as typed |
| Db.UserById | client/src/pages/Attendance.tsx:113 | finds the first user with the id, or reports that there is none |
| Db.TodaysRecords | client/src/lib/db.ts:351 | holds exactly the records dated today, each as often as in the attendance list, so its length is the recorded count the absent figure subtracts |
| Db.WithStatus | client/src/lib/db.ts:355-356 | the records with a status; their count is that status's multiplicity among all statuses |
| Db.ActiveUsers | client/src/lib/db.ts:352 | the active users; their count is the multiplicity of `active` among user statuses |
| Db.PendingAdvances | client/src/lib/db.ts:358 | the pending requests; their count is the multiplicity of `pending`, and at most the number of requests |
| Db.PresentPlusLateAtMostAll | client/src/lib/db.ts:355-356 | present records plus late records never outnumber all records |
| Db.StatusMultiplicities | client/src/pages/Reports.tsx:32-34 | the four attendance statuses together account for every record |
| Db.AbsentFigure | client/src/lib/db.ts:357 | `max(0, active - recorded)` is at most the active count; it is either 0 or exactly `active - recorded` |
| Db.GetDashboardStats | client/src/lib/db.ts:349-360 | totals are the multiplicities of active users, and of present and late records today; on-time plus late is at most today's records; the absent figure is clamped to 0..active; pending counts exactly the pending requests |
| Db.EmployeeUsers | client/src/lib/db.ts:379 | holds exactly the users flagged `isEmployee`, each as often as in the user list |
| Db.GetBranchDistribution | client/src/lib/db.ts:377-383 | one entry per branch of the flagged users, each branch listed once, valued by that branch's headcount; values sum to the number of flagged users |
| Db.LeaveWith | client/src/lib/db.ts:389-390 | holds exactly the user's leave requests with the given status, each as often as in the leave list |
| Db.GetLeaveBalance | client/src/lib/db.ts:385-392 | the total is 15 days; used is twice the multiplicity of (user, approved) among the requests' owner and status pairs; pending is the multiplicity of (user, pending); the two counts never exceed the number of leave requests |
| Db.AddLeaveRequest | client/src/lib/db.ts:309-311 | the request goes in front of the old ones, which keep their order, and nothing else changes |
| Db.UpdateLeaveStatus | client/src/lib/db.ts:313-315 | requests with the id change in their status only; every other request is unchanged |
| Db.NewLeaveRequestIsPending | client/src/lib/db.ts:309-311 | a new pending request raises its owner's pending count by one and leaves their used days alone; every other user's balance is unchanged |
| Db.ApprovalMovesPendingToUsed | client/src/lib/db.ts:313-315 | with unique ids, approving a pending request lowers its owner's pending count by one and raises their used days by two |
| Grouping.Tally | client/src/pages/Reports.tsx:20-25 | one `reduce` step bumps the key's bucket, or appends a bucket with value 1 for a new key; no other bucket changes |
| Grouping.GroupCount | client/src/pages/Reports.tsx:19-27 | one bucket per distinct key, in order of first appearance; each value is the key's multiplicity; the values sum to the number of keys |
| Text.Lower | client/src/lib/db.ts:254 | lower-cases each character in place and keeps the length |
| Text.LowerIdempotent | client/src/lib/db.ts:254 | lower-casing twice is lower-casing once |
| Text.TrimStart | client/src/pages/CashAdvances.tsx:38 | drops exactly the leading white space |
| Text.TrimEnd | client/src/pages/CashAdvances.tsx:38 | drops exactly the trailing white space |
| Text.TrimNonEmptyIff | client/src/pages/CashAdvances.tsx:38 | the trimmed text is non-empty iff the input has a non-space character |
| Text.LexLeTotal | client/src/pages/Attendance.tsx:307 | any two date strings are comparable |
| Text.LexLeTransitive | client/src/pages/Attendance.tsx:307 | the date order is transitive |
| AttendancePage.ClockInStatus | client/src/pages/Attendance.tsx:48-49 | a clock-in is late iff it is past minute 540 of the day (09:00); 09:00 with any seconds is on time |
| AttendancePage.TimeIn | client/src/pages/Attendance.tsx:33-59 | refuses, changing nothing, iff the user already has a record today; otherwise adds in front one open record for the user and today, classified by the late rule |
| AttendancePage.TimeInKeepsOnePerDay | client/src/pages/Attendance.tsx:33-59 | time-in preserves "at most one record per user and date" |
| AttendancePage.TimeInTwiceIsRefused | client/src/pages/Attendance.tsx:34-43 | a second time-in on the same day is refused and leaves the store as the first left it |
| AttendancePage.TimeOut | client/src/pages/Attendance.tsx:78-93 | reports nothing to close, changing nothing, iff the user has no open record today; otherwise sets the time-out of the first such record, by id, and touches nothing else |
| AttendancePage.TimeOutClosesTheDay | client/src/pages/Attendance.tsx:78-93 | under the one-record-per-day invariant, a second time-out on the same day finds no open record |
| AttendancePage.NothingOpenAfterTimeOut | client/src/pages/Attendance.tsx:79-93 | after a time-out the user has no open record left for today |
| AttendancePage.TimeOutKeepsOnePerDay | client/src/pages/Attendance.tsx:93 | time-out preserves the one-record-per-user-per-day invariant |
| AttendancePage.TodaysFigures | client/src/pages/Attendance.tsx:123-128 | the page's present, late and absent figures equal the dashboard's; present plus late is at most today's records |
| AttendancePage.RecordedIdsToday | client/src/pages/Attendance.tsx:136-137 | an id is among today's recorded ids iff that user has a record today |
| AttendancePage.AbsentEmployees | client/src/pages/Attendance.tsx:135-138 | holds exactly the active users with no record today, each as often as in the user list, disjoint from every user recorded today, in list order |
| AttendancePage.AbsentFigureDisagreesWithList | client/src/pages/Attendance.tsx:128-138 | there is a store where the absent figure is 0 while the absent list is non-empty |
| AttendancePage.EmployeesWithStatus | client/src/pages/Attendance.tsx:133-134 | lists the user found first for every record today with the status, and only users so found for such a record; the list is no longer than those records |
| AttendancePage.LookupAll | client/src/pages/Attendance.tsx:133 | the user found for each record is listed; only users that some record's lookup finds are listed; the list is no longer than the records |
| AttendancePage.LookupAllMultiplicity | client/src/pages/Attendance.tsx:133 | each user is listed exactly as many times as there are records whose owner is found as that user |
| AttendancePage.EmployeeName | client/src/pages/Attendance.tsx:112-114 | the first matching user's name when it is non-empty; "Unknown" for an unknown id or an empty name; never empty |
| AttendancePage.FilteredAttendance | client/src/pages/Attendance.tsx:116-121 | holds exactly the viewable records matching the search, each as often as in the store, in store order; non-admin, non-HR users see only their own |
| AttendancePage.EmptySearchListsAllViewable | client/src/pages/Attendance.tsx:118-119 | an empty search lists every record the user may view |
| AttendancePage.InsertByDate | client/src/pages/Attendance.tsx:307 | inserting into a newest-first list keeps it newest-first and adds exactly the one record |
| AttendancePage.SortByDateDesc | client/src/pages/Attendance.tsx:307 | a permutation of the input, sorted newest date first |
| AttendancePage.DisplayedAttendance | client/src/pages/Attendance.tsx:307 | the table rows are the filtered records, newest first, and each is viewable |
| CashAdvancesPage.VisibleRequests | client/src/pages/CashAdvances.tsx:63-65 | admins and HR see every request; everyone else sees exactly their own, each as often as in the store; always in store order |
| CashAdvancesPage.NameSuggestions | client/src/pages/CashAdvances.tsx:33-48 | only flagged employees whose lower-cased name contains the lower-cased input; all of them, each as often as in the user list, when the input has a non-space character; none for blank input; in list order |
| CashAdvancesPage.SubmitRequest | client/src/pages/CashAdvances.tsx:67-99 | refuses, changing nothing, iff the amount or purpose is empty; otherwise adds in front a pending request dated today, owned by the selected employee or else the signed-in user, and clears the form |
| CashAdvancesPage.Perform | client/src/pages/CashAdvances.tsx:274-302 | a shown status button moves the request one step along pending→approved, pending→rejected or approved→paid; Delete, shown only to the owner of a pending request, removes it once confirmed |
| CashAdvancesPage.TerminalStatusesOfferNothing | client/src/pages/CashAdvances.tsx:274-302 | rejected and paid requests show no action to anyone |
| CashAdvancesPage.EveryTransitionIsOffered | client/src/pages/CashAdvances.tsx:274-290 | each of the three lifecycle steps is a button some role is shown |
| CashAdvancesPage.HistoryIsShort | client/src/pages/CashAdvances.tsx:274-297 | a request passes through at most three statuses and never returns to pending |
| CashAdvancesPage.PerformChangesOnlyTheRow | client/src/pages/CashAdvances.tsx:108-109 | with unique ids, a status action rewrites only the clicked request, to the next status |
| ReportsPage.GetHeadcount | client/src/pages/Reports.tsx:15-17 | total, active and on-leave counts as status multiplicities; active plus on-leave is at most the total |
| ReportsPage.InDepartment | client/src/pages/Reports.tsx:19-27 | holds exactly the users of one department, each as often as in the user list |
| ReportsPage.DepartmentDistribution | client/src/pages/Reports.tsx:19-27 | one slice per department, each listed once, in order of first appearance; each value is that department's headcount; values sum to the number of users |
| ReportsPage.GetAttendanceMix | client/src/pages/Reports.tsx:32-40 | each bar counts the records with exactly that status; the bars plus half days equal the record count, so the bars sum to at most the record count |
| ReportsPage.PayrollFoldIsSum | client/src/pages/Reports.tsx:43 | the left fold adding salary/12 per user equals the start value plus the salary sum over 12 |
| ReportsPage.MonthlyPayrollIsTwelfth | client/src/pages/Reports.tsx:43 | the monthly payroll is the sum of all users' salaries, whatever their status, divided by 12 |
| ReportsPage.PayrollSeries | client/src/pages/Reports.tsx:44-50 | five months; March and May equal the monthly payroll; January, February and April scale it by 0.98, 0.99 and 1.02 |
| EmployeesPage.AddEmployee | client/src/pages/Employees.tsx:26-44 | adds iff name, email, role and branch are all set; an incomplete form changes nothing; a new employee is appended with the entered fields, department "General", position "Employee", salary 30000, status active, and joined today; the form is reset |
| EmployeesPage.FilteredUsers | client/src/pages/Employees.tsx:47-51 | holds exactly the users whose lower-cased name, email or department contains the lower-cased term, each as often as in the list, in list order |
| EmployeesPage.EmptySearchListsEveryone | client/src/pages/Employees.tsx:47-51 | an empty search lists every user, in order |
| EmployeesPage.AddedEmployeeFoundByName | client/src/pages/Employees.tsx:40-51 | a just-added employee is found by searching for their name |
| StaffDashboardPage.UserAttendance | client/src/components/dashboard/StaffDashboard.tsx:16-17 | holds exactly the user's attendance records, each as often as in the store, in store order |
| StaffDashboardPage.UserAdvances | client/src/components/dashboard/StaffDashboard.tsx:14 | holds exactly the user's cash-advance requests, each as often as in the store, in store order |
| StaffDashboardPage.GetStaffSummary | client/src/components/dashboard/StaffDashboard.tsx:14-18 | present and late days are the status multiplicities among the user's records; pending is the multiplicity of `pending` among the user's requests; each is bounded by the list it counts |
| StaffDashboardPage.RecentAttendance | client/src/components/dashboard/StaffDashboard.tsx:83 | at most five of the user's records, the first ones in store order, and all of them when there are fewer than five |
| StaffDashboardPage.RecentAdvances | client/src/components/dashboard/StaffDashboard.tsx:109 | at most five of the user's requests, the first ones in store order |
| StaffDashboardPage.NewRequestShownFirst | client/src/components/dashboard/StaffDashboard.tsx:109 | a request the user has just submitted heads their recent list |

## Left out

- Browser I/O is not modelled: localStorage persistence, settings, `getCurrentUser`, `updateCurrentUser` and `logout`.
- Biometric sign-in (`client/src/lib/biometrics.ts`) is a foreign browser API and is not part of this model.
- The activity feed (`addActivity`, `getRecentActivity`) is not modelled. It is a display log that no modelled figure reads.
- Documents and the fixed `getWeeklyAttendance` table are not modelled. Neither are the pages that hold only static data (Payroll, Documents, Settings, the routing and layout).
- Dialogs, toasts, rendering, the ticking clock and the buttons' disabled states are not modelled. That includes `isCurrentTimedIn` and `isCurrentTimedOut`.
- `handleSelectEmployee` is not modelled. It only copies the picked suggestion into the form, so `SubmitRequest` takes the selected id as a parameter.
- Optional user fields (`avatar`, `address`, `contactNumber`, `biometricCredential`) are not part of the `User` record.
- A patch value explicitly set to `undefined` is not modelled: a patch field is either absent or a value.
- Text.Lower: lower-cases ASCII letters only, while `toLowerCase` folds all of Unicode.
- Text.LexLeTotal: `localeCompare` is modelled as code-unit order. The two agree on ISO `YYYY-MM-DD` dates, which are the only strings the page sorts.
- AttendancePage.SortByDateDesc: states the result is a sorted permutation, but not that records with equal dates keep their relative order (the stability of `Array.prototype.sort`).
- Db.GetBranchDistribution: does not state the entry order. The source reads it from a plain object, which lists integer-like keys first and the other keys in insertion order.
- Db.ArchiveData: the threshold date is a single parameter. The source builds a fresh `new Date()` for every record, and date parsing is a parameter too.
- Db.Tag: all records archived in one call share one `archivedAt` stamp. The source calls `new Date().toISOString()` once per record, so stamps within one call may differ by the clock's progress.
- ReportsPage.PayrollSeries: salaries, `salary / 12` and the scalings by 0.98, 0.99 and 1.02 are exact reals. The source computes them in IEEE double precision, so its figures carry rounding that the exact equalities here do not. The same holds for ReportsPage.MonthlyPayrollIsTwelfth, whose left-to-right float sum can differ from the rounded total.
- CashAdvancesPage.SubmitRequest: `parseFloat` is a parameter returning an exact real, so neither its parsing rules (leading-prefix parsing, `NaN`) nor double rounding is modelled.
- AttendancePage.LookupAll: states which users are listed and, through AttendancePage.LookupAllMultiplicity, how often each is listed, but not their order (the order of the records that find them).
- AttendancePage.EmployeesWithStatus: says every user found first for a matching record is listed and no one else is, but not the order or the number of times a user with several matching records repeats.
- CashAdvancesPage.SubmitRequest: the activity notification sent on submission is not modelled, as with the rest of the feed.
