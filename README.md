# Leave management: employee directory and leave requests

This project models the business layer of a small leave-management
application in Dafny and proves properties of it. The layer has two
services. Each keeps its records in one flat array.

- The **employee directory** validates employee forms. It reports every
  failing field together. It creates records with a default allotment of
  25 days and status active, and refuses an email another record already
  uses, ignoring case. It also merge-updates records, soft-deactivates
  them, and has a guarded setter that refuses a negative leave balance.
- The **leave-request service** counts working days (Monday to Friday)
  with a day-by-day loop. It validates applications and stores a new
  request as pending. Only a pending request can move to approved or
  rejected. On approval it writes a new balance back through the
  directory. It lists requests newest first, with an optional filter by
  employee. It derives a balance from the approved requests and builds
  the dashboard: counters, the five newest requests, the five earliest
  upcoming approved leaves, and the first five active employees with a
  low balance.

The modules:

- `Types` holds the records and the response envelope: `Ok(data)`, a
  general error, or a list of field errors. A field error pairs a field
  with a message from a closed enumeration; `Wording` gives each message's
  exact text.
- `Text` holds JavaScript's whitespace class, `trim`, ASCII lower-casing
  and the email regular expression.
- `Calendar` holds weekdays and the working-day count.
- `Ordering` holds the stable sort behind `Array.prototype.sort`.
- `EmployeeDirectory` holds the class `EmployeeService`, whose stored
  array is the field `employees`.
- `LeaveRequests` holds the class `LeaveService`, whose stored array is
  the field `requests`. Its `directory` field is the `EmployeeService` it
  reads employees from and writes balances to. `DashboardOf` assembles
  the dashboard from `StatsOf` and the three panel functions, and the
  properties are stated on those.
- `Scenarios` holds worked cases that go through the class methods.

Dates are day numbers: day 0 is 1970-01-01, a Thursday. Timestamps are
integers. The fresh id, the current time and the current day are
parameters of the operations that need them.

Three behaviours of the code are kept as written:

- **Approval takes the days off twice.** `approveLeave` stores
  `remaining - days` as the new allotment. The approved request then also
  counts as used, and the earlier `used` is subtracted once more, so the
  new derived `remaining` is `max(0, old remaining - 2 * days - old used)`.
  With no earlier approved leave, that is a drop of twice the request's
  days. `ApprovalDeductsTwice` proves this for all inputs. In
  `Scenarios.ApproveJune`, an employee with 25 days who is approved for
  a 5-day leave ends with a stored allotment of 20 and a derived
  `remaining` of 15, not 20.
- **The 365-day limit counts working days, not calendar days.** An
  application from 2024-01-01 to 2025-01-02 covers only 264 working days,
  so it is accepted (`Scenarios.YearLongLeaveIsAccepted`). The limit can
  only reject spans longer than 511 calendar days
  (`Calendar.DurationLimitNeedsLongSpan`).
- **The merge-update applies no balance guard and no id guard.** Besides
  the form rules and the duplicate-email check it checks nothing, so it can
  store a negative balance (`Scenarios.UnguardedBalanceEdit`) or change the
  record's id.
- **`applyLeave` never returns the field-tagged "Employee not found".**
  Leave validation can produce that field error, but `applyLeave` looks the
  employee up first and returns the general error instead. The ensures
  `r.Fields? ==> FieldError(EmployeeIdField, EmployeeUnknown) !in r.errors`
  of `LeaveRequests.LeaveService.ApplyLeave` states this.

## Model

| member | source | states |
|---|---|---|
| Text.Trim | src/services/employeeService.ts:19 | `trim()`: the string without its leading and trailing whitespace, using JavaScript's whitespace class. Its properties are the contract of `Text.TrimSpec`. |
| Text.TrimSpec | src/services/employeeService.ts:19-21 | `trim()` returns the middle of the string between a blank prefix and a blank suffix. The result neither starts nor ends with whitespace. It is empty exactly when the string is blank. |
| Text.Lower | src/services/employeeService.ts:85 | `toLowerCase()` keeps the length and folds each character separately. |
| Text.IsEmailFormat | src/services/employeeService.ts:27 | The regular-expression test, computed from the first '@'. Its meaning is the contract of `Text.IsEmailFormatSpec`. |
| Text.IsEmailFormatSpec | src/services/employeeService.ts:27 | The regular-expression test holds exactly when the string matches `^[^\s@]+@[^\s@]+\.[^\s@]+$`: a non-empty local part and one '@', then a '.' with a character on each side, and no whitespace and no second '@' anywhere. |
| Text.EmailFormatSound | src/services/employeeService.ts:27 | A string the test accepts has an '@' after a non-empty local part and a '.' later with a character on each side, with no whitespace and no second '@'. |
| Text.EmailFormatComplete | src/services/employeeService.ts:27 | Every string of that shape passes the test. |
| Text.EmailFormatNotBlank | src/services/employeeService.ts:25-28 | A well-formed email is never blank and trims to itself, so it always passes the "required" test. |
| Text.TrimOfFramed | src/services/employeeService.ts:19 | A string that neither starts nor ends with whitespace trims to itself. |
| Calendar.Weekday | src/services/leaveService.ts:23 | `getDay()` is a number from 0 (Sunday) to 6 (Saturday). |
| Calendar.WeekdayNext | src/services/leaveService.ts:27 | Moving the cursor one day forward moves the weekday forward by one, and Saturday wraps to Sunday. |
| Calendar.WorkDays | src/services/leaveService.ts:16-31 | The number of Monday-to-Friday days from start to end inclusive. It is 0 when the end comes before the start and at most the number of calendar days. |
| Calendar.CalculateWorkDays | src/services/leaveService.ts:16-31 | The loop that walks the day cursor returns exactly `WorkDays(start, end)`. |
| Calendar.WorkDaysSplit | src/services/leaveService.ts:22-28 | The counts over two adjacent ranges add up to the count over their union. |
| Calendar.SevenDaysHoldFive | src/services/leaveService.ts:22-28 | Any 7 consecutive days hold exactly 5 working days. |
| Calendar.WeeksHoldFivePerWeek | src/services/leaveService.ts:22-28 | k whole weeks hold 5k working days, whatever the first weekday. |
| Calendar.WorkDaysMonotone | src/services/leaveService.ts:16-31 | Moving the end date later never lowers the count. |
| Calendar.DurationLimitNeedsLongSpan | src/services/leaveService.ts:82-85 | A span of at most 511 calendar days never exceeds 365 working days, so it cannot fail the duration rule. |
| Ordering.WithKey | src/services/leaveService.ts:211 | The records with one sort key, in input order, are never more than the input. |
| Ordering.Insert | src/services/leaveService.ts:211 | Inserting one record adds exactly that record to the multiset. |
| Ordering.InsertSorted | src/services/leaveService.ts:211 | Inserting into a sorted sequence keeps it sorted. |
| Ordering.InsertKeepsRuns | src/services/leaveService.ts:211 | Inserting a record places it after every record with an equal key. |
| Ordering.WithKeySnoc | src/services/leaveService.ts:211 | Appending a record extends only the run of its own key. |
| Ordering.WithKeyAbsent | src/services/leaveService.ts:211 | A key that no record carries has an empty run. |
| Ordering.SortBy | src/services/leaveService.ts:211 | The comparator sort is a permutation of its input and is sorted by key. It is stable: each run of equal keys keeps its input order. |
| Ordering.PrefixHoldsSmallerKeys | src/services/leaveService.ts:283-284 | A prefix of a sorted sequence holds every record whose key is below the key of the prefix's last record. |
| EmployeeDirectory.EmployeeErrors | src/services/employeeService.ts:16-48 | The errors of the four field checks in field order. What it reports is the contract of `EmployeeErrorsListed` and `EmployeeErrorsMeaning`. |
| EmployeeDirectory.FieldChecksReported | src/services/employeeService.ts:16-48 | The four field checks together report an error exactly when it is the error of a failing check: name missing or shorter than 2 after trimming, email missing or malformed, department missing, joining date missing or after today. |
| EmployeeDirectory.EmployeeErrorsListed | src/services/employeeService.ts:16-48 | Every failing rule is reported and nothing else, with at most one error per field, so at most four errors. The "required" and "invalid" messages are told apart. |
| EmployeeDirectory.EmployeeErrorsMeaning | src/services/employeeService.ts:16-48 | No error is reported exactly when all four rules hold: a name of at least 2 characters after trimming, a well-formed email, a non-blank department, and a joining date not after today. |
| EmployeeDirectory.ValidateEmployee | src/services/employeeService.ts:16-48 | The validation method returns exactly the errors of the failing rules, in field order, and the list is empty exactly when all rules pass. |
| EmployeeDirectory.IndexOfEmployee | src/services/employeeService.ts:113 | `findIndex` returns the first position holding the id, or none when no record has it. |
| EmployeeDirectory.GetEmployeeById | src/services/employeeService.ts:59-72 | The lookup succeeds exactly when some record has the id, and then returns the first such record. Otherwise it returns the general error "Employee not found". |
| EmployeeDirectory.EmailTaken | src/services/employeeService.ts:128-130 | The duplicate check holds exactly when some record, other than the excluded id, has the same email ignoring case. |
| EmployeeDirectory.AppendKeepsConsistent | src/services/employeeService.ts:94-101 | Appending a valid record with a fresh id and an unused email keeps the ids unique, the emails unique ignoring case, and every record valid. |
| EmployeeDirectory.ReplaceKeepsConsistent | src/services/employeeService.ts:126-139 | Replacing a record with a valid record that keeps its id and uses no other record's email keeps the directory consistent. |
| EmployeeDirectory.RestampKeepsConsistent | src/services/employeeService.ts:157 | Changing a field other than id, name, email and department keeps the directory consistent. |
| EmployeeDirectory.Merge | src/services/employeeService.ts:119 | The spread `{ ...employee, ...updates }`: each field the patch gives replaces the record's, with no guard on the balance or the id. Its properties are the contracts of `MergeEmpty` and `MergeIdempotent`. |
| EmployeeDirectory.MergeEmpty | src/services/employeeService.ts:119 | A patch that gives no field leaves the record unchanged. |
| EmployeeDirectory.MergeIdempotent | src/services/employeeService.ts:119 | Applying a patch twice equals applying it once, and a record keeps its balance and id when the patch does not give them. |
| EmployeeDirectory.EmployeeService.constructor | src/services/employeeService.ts:7-10 | The service starts with the stored employee array. |
| EmployeeDirectory.EmployeeService.GetAllEmployees | src/services/employeeService.ts:50-57 | Returns the whole stored array, in order. |
| EmployeeDirectory.EmployeeService.CreateEmployee | src/services/employeeService.ts:74-108 | Invalid input returns every field error and leaves the store unchanged. An email that any stored record already uses, ignoring case, returns the single duplicate-email error and leaves the store unchanged. Otherwise exactly one record is appended: the input, the fresh id, a balance of 25 and status active. A consistent directory stays consistent when the fresh id is unused. |
| EmployeeDirectory.EmployeeService.UpdateEmployee | src/services/employeeService.ts:110-146 | An unknown id gives "Employee not found" before any validation. The merged record is validated. The duplicate check runs only when a non-empty email is given, and excludes the record's own id. On success only that index is replaced, by the merged record. A consistent directory stays consistent when the patch does not change the id. |
| EmployeeDirectory.EmployeeService.DeactivateEmployee | src/services/employeeService.ts:148-164 | An unknown id gives "Employee not found". Otherwise only that record's status changes, to inactive. It is idempotent, and consistency is kept. |
| EmployeeDirectory.EmployeeService.UpdateLeaveBalance | src/services/employeeService.ts:166-186 | The not-found check comes first. A negative balance is refused with a general error and nothing is saved. Otherwise only that record's balance changes. A consistent directory stays consistent. |
| LeaveRequests.ValidateLeaveRequest | src/services/leaveService.ts:33-90 | A missing employee id and an unknown employee each stop validation with a single error. For a found employee, the list holds exactly the errors of the failing rules: employee inactive, start date missing, end date missing, leave type missing, reason blank, end before start, more than 365 working days. It is empty exactly when the application is valid. |
| LeaveRequests.LeaveErrors | src/services/leaveService.ts:48-85 | The errors of the seven checks for a found employee, in the order they are made. What it reports is the contract of `LeaveErrorsListed` and `LeaveErrorsMeaning`. |
| LeaveRequests.SevenChecks | src/services/leaveService.ts:49-85 | Seven checks, each adding its own error when it fails, collect an error exactly when it belongs to a failing check. |
| LeaveRequests.LeaveErrorsListed | src/services/leaveService.ts:49-85 | For a found employee, an error is reported exactly when its rule fails: employee inactive, start date missing, end date missing, leave type missing, reason blank, end before start, more than 365 working days. The last two run only when both dates are given. |
| LeaveRequests.LeaveErrorsMeaning | src/services/leaveService.ts:49-89 | For a given employee id, no error is reported exactly when the application is valid. |
| LeaveRequests.IndexOfRequest | src/services/leaveService.ts:131 | `findIndex` returns the first position holding the request id, or none when no request has it. |
| LeaveRequests.Contribution | src/services/leaveService.ts:234-238 | The days one request adds to an employee's `used`: its days when it is an approved request of that employee, else 0. |
| LeaveRequests.UsedDays | src/services/leaveService.ts:234-238 | The filter to the employee's approved requests and the sum of their days. Its properties are the contracts of `UsedDaysSnoc`, `UsedDaysReplace` and `LeaveBalanceOf`. |
| LeaveRequests.UsedDaysSnoc | src/services/leaveService.ts:234-238 | Appending a request adds its days to `used` only when it is an approved request of that employee. |
| LeaveRequests.UsedDaysReplace | src/services/leaveService.ts:234-238 | Replacing one request changes `used` by the difference of the two requests' contributions. |
| LeaveRequests.LeaveBalanceOf | src/services/leaveService.ts:226-254 | An unknown employee gives "Employee not found". Otherwise `annual` is the stored balance and `used` is the sum of days over that employee's approved requests. `remaining` is `max(0, annual - used)`. `sick` is 10 and `personal` is 5. |
| LeaveRequests.ApplyKeepsBalances | src/services/leaveService.ts:110-120 | Storing a new pending request changes no employee's derived balance. |
| LeaveRequests.RejectKeepsBalances | src/services/leaveService.ts:188-194 | Rejecting a pending request changes no employee's derived balance. |
| LeaveRequests.LookupAfterFieldUpdate | src/services/employeeService.ts:179 | After the balance write-back, the lookup still finds the same record at the same index, with the new balance. |
| LeaveRequests.LookupAfterDecision | src/services/leaveService.ts:158-164 | A decision rewrites the request with its `id` kept, so the lookup by that id still finds it at the same position. |
| LeaveRequests.ApprovalDeductsTwice | src/services/leaveService.ts:144-164 | After approval, `annual` is the old `remaining` less the days and `used` grows by the days. So the new `remaining` is `max(0, old remaining - 2 * days - old used)`: the days are taken off twice. |
| LeaveRequests.ForEmployee | src/services/leaveService.ts:206-208 | The filter keeps exactly the requests of that employee. `ForEmployeeSnoc` states that it keeps their stored order and multiplicity. |
| LeaveRequests.ForEmployeeSnoc | src/services/leaveService.ts:206-208 | Appending a request appends it to the filtered list exactly when it belongs to the employee. With the empty case this fixes the result: the employee's requests in stored order, each as often as stored. |
| LeaveRequests.NewestFirstListing | src/services/leaveService.ts:211 | Sorting by descending `appliedDate` keeps exactly the same requests and orders them by non-increasing `appliedDate`. |
| LeaveRequests.ListRequests | src/services/leaveService.ts:203-224 | Returns exactly the stored requests, filtered to the employee when a non-empty id is given. They are ordered by `appliedDate`, newest first. The sort is stable, so requests applied at the same time keep their stored order (`ForEmployeeSnoc` fixes the filtered order). Without a filter the listing is a permutation of the store. |
| LeaveRequests.CountStatus | src/services/leaveService.ts:269-271 | The number of requests with one status. Its properties are the contracts of `TalliesSnoc`, `CountInsert` and `TalliesSort`. |
| LeaveRequests.TotalApprovedDays | src/services/leaveService.ts:272 | The sum of `days` over the approved requests. Its properties are the contracts of `TalliesSnoc`, `DaysInsert` and `TalliesSort`. |
| LeaveRequests.CountActive | src/services/leaveService.ts:268 | The number of active employees. |
| LeaveRequests.TalliesSnoc | src/services/leaveService.ts:269-272 | Appending a request adds it to the count of its status, and adds its days to the approved total when it is approved. |
| LeaveRequests.CountInsert | src/services/leaveService.ts:269-271 | Inserting a request into a listing changes each status count as appending it would. |
| LeaveRequests.DaysInsert | src/services/leaveService.ts:272 | Inserting a request into a listing changes the approved-days total as appending it would. |
| LeaveRequests.TalliesSort | src/services/leaveService.ts:269-272 | Sorting changes no status count and not the approved-days total. |
| LeaveRequests.LowBalance | src/services/leaveService.ts:287 | The filter keeps exactly the active employees whose balance is below 5. `LowBalanceSnoc` states that it keeps their stored order and multiplicity. |
| LeaveRequests.LowBalanceSnoc | src/services/leaveService.ts:287 | Appending an employee appends it to the filtered list exactly when it is active with a balance below 5. With the empty case this fixes the result: those employees in stored order. |
| LeaveRequests.Upcoming | src/services/leaveService.ts:282 | The filter keeps exactly the approved requests that start after today. |
| LeaveRequests.Take | src/services/leaveService.ts:279 | `slice(0, 5)` is the prefix of length `min(5, length)`. |
| LeaveRequests.RoundedTenths | src/services/leaveService.ts:276-277 | The average is rounded to one decimal, half up, and given in tenths. It is 0 when there are no active employees. |
| LeaveRequests.StatsOf | src/services/leaveService.ts:267-277 | The counters over the sorted listing equal the counts over the store: active employees, pending, approved and rejected requests, and total approved days. The average is the total over the active employees, in rounded tenths. |
| LeaveRequests.RecentPanel | src/services/leaveService.ts:279 | Returns the first `min(5, n)` requests of the newest-first listing. |
| LeaveRequests.PrefixIsNewest | src/services/leaveService.ts:279 | A prefix of a listing ordered newest first holds requests applied no earlier than any request after it. |
| LeaveRequests.RecentAreNewest | src/services/leaveService.ts:279 | No stored request left out of the recent panel was applied later than one shown. |
| LeaveRequests.UpcomingCount | src/services/leaveService.ts:282 | The filter keeps each approved request that starts after today as often as the input holds it, and drops every other request. |
| LeaveRequests.UpcomingOfPermutation | src/services/leaveService.ts:282 | Filtering two orderings of the same requests keeps the same requests. |
| LeaveRequests.UpcomingPanel | src/services/leaveService.ts:281-284 | Approved requests starting after today, in ascending start order: `min(5, n)` of them, where n is the number of such stored requests, none more often than the store holds it. Any such request left out starts no earlier than the fifth one shown. |
| LeaveRequests.UpcomingIsBounded | src/services/leaveService.ts:281-284 | The panel holds `min(5, n)` of the n stored upcoming requests, each no more often than the store holds it. |
| LeaveRequests.LowBalancePanel | src/services/leaveService.ts:286-288 | The first `min(5, n)` active employees with a balance below 5, in stored order (`LowBalanceSnoc`). When fewer than 5 are shown, all of them are shown. |
| LeaveRequests.LowPanelComplete | src/services/leaveService.ts:286-288 | When the panel is not full, it holds every low-balance active employee. |
| LeaveRequests.UpcomingIsEarliest | src/services/leaveService.ts:281-284 | The upcoming panel holds only approved future requests, in ascending start order, and leaves out none that starts earlier than its last entry. |
| LeaveRequests.DashboardOf | src/services/leaveService.ts:256-301 | `getDashboardData`: the counters equal the store's counts, and each panel has at most 5 entries. The other properties are the contracts of `StatsOf`, `RecentPanel`, `UpcomingPanel` and `LowBalancePanel`. |
| LeaveRequests.LeaveService.constructor | src/services/leaveService.ts:7-10 | The service starts with the stored request array and the directory it uses. |
| LeaveRequests.LeaveService.ApplyLeave | src/services/leaveService.ts:92-126 | An unknown employee gives the general error "Employee not found". An invalid application returns every failing rule's field error, never the field-tagged "Employee not found". On success exactly one request is appended: pending, with the employee's current name, `days` equal to the working-day count, and `appliedDate` set to now. In every failure case nothing is stored. |
| LeaveRequests.LeaveService.ApproveLeave | src/services/leaveService.ts:128-171 | An unknown id, a request that is not pending, and a missing balance each give their general error and change nothing. A write-back value `remaining - days` below zero aborts with "Failed to update leave balance": the request stays pending and no balance changes. Otherwise that employee's stored balance becomes `remaining - days`, and only that request changes: to approved, with approver, date and comments. A consistent directory stays consistent. After a successful approval the lookup finds the request at the same position and it is no longer pending, so a second approval or rejection of it is refused. |
| LeaveRequests.LeaveService.RejectLeave | src/services/leaveService.ts:173-201 | An unknown id or a request that is not pending gives a general error and changes nothing. Otherwise only that request's status, approver, date and comments change. No employee is touched. After a successful rejection the lookup finds the request at the same position and it is no longer pending, so a second decision on it is refused. |
| Scenarios.JohnEmailMatches | src/services/employeeService.ts:27 | `john@company.com` matches the email pattern. |
| Scenarios.JohnSmithIsValid | src/services/employeeService.ts:16-48 | John Smith's form passes every rule. |
| Scenarios.MondayToFridayIsFive | src/services/leaveService.ts:16-31 | Monday 2024-06-03 to Friday 2024-06-07 is 5 working days. |
| Scenarios.YearLongLeaveHolds264WorkDays | src/services/leaveService.ts:82-85 | 2024-01-01 to 2025-01-02 holds 264 working days. |
| Scenarios.YearLongLeaveIsAccepted | src/services/leaveService.ts:33-90 | An active employee's application for 2024-01-01 to 2025-01-02 passes validation. |
| Scenarios.EmailCaseIsIgnored | src/services/employeeService.ts:84-86 | `Admin@Company.com` on file makes `admin@company.com` a duplicate. |
| Scenarios.HireJohn | src/services/employeeService.ts:94-101 | Creating John Smith in an empty directory stores him with 25 days and status active. |
| Scenarios.ApplyForJune | src/services/leaveService.ts:108-120 | His five-day application is stored as one pending request of 5 days, and his derived balance stays 25. |
| Scenarios.ApproveJune | src/services/leaveService.ts:143-166 | Approving John's 5-day request stores 20 as his allotment and leaves a derived balance of 15. |
| Scenarios.ApproveTwice | src/services/leaveService.ts:131-141 | After that approval, a second approval of the same request is refused with "Only pending requests can be approved". |
| Scenarios.ApproveThenReject | src/services/leaveService.ts:176-186 | For every service state and request id: once an approval succeeds, rejecting the same request is refused with "Only pending requests can be rejected". |
| Scenarios.RejectThenApprove | src/services/leaveService.ts:131-141 | For every service state and request id: once a rejection succeeds, approving the same request is refused with "Only pending requests can be approved". |
| Scenarios.UnguardedBalanceEdit | src/services/employeeService.ts:119 | A merge-update stores a balance of -3, which the guarded setter would refuse. |

## Left out

- Storage and failures. `localStorage`, JSON encoding and the try/catch branches that return "Failed to …" are not modelled. Each stored array is a field of its service class.
- `crypto.randomUUID()`, `new Date()` and `toISOString()` are not modelled. The fresh id, the current timestamp (`now`) and the current day (`today`) are parameters.
- Dates and time zones. JavaScript `Date` parsing, time zones and malformed date strings are not modelled. A date is a day number, a missing date is `None`, and `getDay` is computed from the day number.
- An approved request starts after now exactly when its start day is after the current day. This is because a date-only string is midnight of that day.
- `averageLeavePerEmployee` is floating-point, rounded with `Math.round`. It is modelled as integer tenths, rounded half up from the exact quotient. Floating-point error in `total / n * 10` is not modelled.
- `toLowerCase` is modelled as ASCII case folding. Other Unicode case mappings are not modelled.
- String lengths count characters, not UTF-16 code units.
- Balances and `days` are integers. Fractional numbers are not modelled.
- A missing text field is the empty string, which every rule treats like an absent one.
- Unknown leave-type strings are not modelled: the leave type is a closed enumeration.
- EmployeeDirectory.EmployeePatch: a patch field set explicitly to `undefined` is not modelled, and a patch cannot blank the joining date. A field is either absent or a value.
- LeaveRequests.LeaveService.ApplyLeave: extra fields a caller adds to the input object (`approvedBy`, `approvedDate`, `comments`) are not modelled. The spread would copy them into the stored request; here the stored request has none of them.
- LeaveRequests.ListRequests: the in-place sort of a fresh copy is modelled as a pure stable insertion sort (`Ordering.SortBy`). Array sorting is stable since ECMAScript 2019.
- The `cancelled` status is declared and never produced.
- The React components, the login lookup and the demo data are not part of this model.
