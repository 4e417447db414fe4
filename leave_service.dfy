/** The leave-request service: working-day validation, applying for leave,
    the `pending -> approved | rejected` decision, the newest-first listing,
    the derived balance and the dashboard aggregates. */
module LeaveRequests {
  import opened Types
  import opened Text
  import opened Calendar
  import opened Ordering
  import opened EmployeeDirectory

  /** The longest leave, in working days, that can be applied for. */
  const MaxLeaveDays := 365
  /** The fixed sick and personal allotments reported with every balance. */
  const SickAllowance := 10
  const PersonalAllowance := 5
  /** The dashboard lists at most this many entries per panel. */
  const PanelSize := 5
  /** Active employees whose stored balance is below this are flagged. */
  const LowBalanceThreshold := 5

  const EmployeeNotFound := "Employee not found"
  const RequestNotFound := "Leave request not found"
  const OnlyPendingApproved := "Only pending requests can be approved"
  const OnlyPendingRejected := "Only pending requests can be rejected"
  const BalanceUnavailable := "Failed to get leave balance"
  const BalanceNotUpdated := "Failed to update leave balance"

  /** What a caller passes to `applyLeave`; a missing reason is "". */
  datatype LeaveApplication = LeaveApplication(
    employeeId: string,
    startDate: Option<Day>,
    endDate: Option<Day>,
    leaveType: Option<LeaveType>,
    reason: string)

  /** Both dates are given, so the order and duration checks run. */
  predicate BothDates(app: LeaveApplication) {
    app.startDate.Some? && app.endDate.Some?
  }

  /** Every rule `validateLeaveRequest` checks for an employee it has found. */
  ghost predicate ApplicationValid(app: LeaveApplication, employee: Employee) {
    && app.employeeId != []
    && employee.status == Active
    && BothDates(app)
    && app.leaveType.Some?
    && Trim(app.reason) != []
    && app.startDate.value <= app.endDate.value
    && WorkDays(app.startDate.value, app.endDate.value) <= MaxLeaveDays
  }

  const InactiveError := FieldError(EmployeeIdField, EmployeeInactive)
  const StartMissing := FieldError(StartDateField, StartDateRequired)
  const EndMissing := FieldError(EndDateField, EndDateRequired)
  const TypeMissing := FieldError(LeaveTypeField, LeaveTypeRequired)
  const ReasonMissing := FieldError(ReasonField, ReasonRequired)
  const EndBeforeStartError := FieldError(EndDateField, EndBeforeStart)
  const TooLongError := FieldError(EndDateField, DurationTooLong)

  /** The error a check adds: its own error when it fails, none otherwise. */
  function Check(fails: bool, e: FieldError): seq<FieldError> {
    if fails then [e] else []
  }

  /** The seven checks of `validateLeaveRequest` for a found employee, in
      the order it makes them; the order and duration checks run only when
      both dates are given. */
  function LeaveErrors(app: LeaveApplication, employee: Employee): seq<FieldError> {
    Check(employee.status != Active, InactiveError)
    + Check(app.startDate.None?, StartMissing)
    + Check(app.endDate.None?, EndMissing)
    + Check(app.leaveType.None?, TypeMissing)
    + Check(Trim(app.reason) == [], ReasonMissing)
    + Check(BothDates(app) && app.endDate.value < app.startDate.value, EndBeforeStartError)
    + Check(BothDates(app) && WorkDays(app.startDate.value, app.endDate.value) > MaxLeaveDays, TooLongError)
  }

  /** `e` is the error of a failing check: an inactive employee, a missing
      start date, end date or leave type, a blank reason, an end before the
      start, or more than 365 working days. */
  ghost predicate FailingLeaveCheck(e: FieldError, app: LeaveApplication, employee: Employee) {
    || (employee.status != Active && e == InactiveError)
    || (app.startDate.None? && e == StartMissing)
    || (app.endDate.None? && e == EndMissing)
    || (app.leaveType.None? && e == TypeMissing)
    || (Trim(app.reason) == [] && e == ReasonMissing)
    || (BothDates(app) && app.endDate.value < app.startDate.value && e == EndBeforeStartError)
    || (BothDates(app) && WorkDays(app.startDate.value, app.endDate.value) > MaxLeaveDays && e == TooLongError)
  }

  /** Seven checks with their errors: an error is collected exactly when its
      check fails. */
  lemma SevenChecks(c1: bool, c2: bool, c3: bool, c4: bool, c5: bool, c6: bool, c7: bool, e: FieldError)
    ensures e in Check(c1, InactiveError) + Check(c2, StartMissing) + Check(c3, EndMissing) + Check(c4, TypeMissing)
                 + Check(c5, ReasonMissing) + Check(c6, EndBeforeStartError) + Check(c7, TooLongError)
            <==> || (c1 && e == InactiveError) || (c2 && e == StartMissing) || (c3 && e == EndMissing)
                 || (c4 && e == TypeMissing) || (c5 && e == ReasonMissing) || (c6 && e == EndBeforeStartError)
                 || (c7 && e == TooLongError)
  {
  }

  /** Every failing check is reported together with the others, and nothing
      else is. */
  lemma LeaveErrorsListed(app: LeaveApplication, employee: Employee)
    ensures forall e :: e in LeaveErrors(app, employee) <==> FailingLeaveCheck(e, app, employee)
  {
    forall e ensures e in LeaveErrors(app, employee) <==> FailingLeaveCheck(e, app, employee) {
      SevenChecks(employee.status != Active, app.startDate.None?, app.endDate.None?, app.leaveType.None?,
                  Trim(app.reason) == [], BothDates(app) && app.endDate.value < app.startDate.value,
                  BothDates(app) && WorkDays(app.startDate.value, app.endDate.value) > MaxLeaveDays, e);
    }
  }

  /** No check fails exactly when the application is valid for a named
      employee. */
  lemma LeaveErrorsMeaning(app: LeaveApplication, employee: Employee)
    requires app.employeeId != []
    ensures LeaveErrors(app, employee) == [] <==> ApplicationValid(app, employee)
  {
  }

  /** `validateLeaveRequest`: a missing or unknown employee stops at once;
      otherwise every failing check adds its error. */
  method ValidateLeaveRequest(employees: seq<Employee>, app: LeaveApplication) returns (errors: seq<FieldError>)
    ensures app.employeeId == [] ==> errors == [FieldError(EmployeeIdField, EmployeeRequired)]
    ensures app.employeeId != [] && !GetEmployeeById(employees, app.employeeId).Ok? ==>
      errors == [FieldError(EmployeeIdField, EmployeeUnknown)]
    ensures app.employeeId != [] && GetEmployeeById(employees, app.employeeId).Ok? ==>
      var employee := GetEmployeeById(employees, app.employeeId).data;
      errors == LeaveErrors(app, employee) && (errors == [] <==> ApplicationValid(app, employee))
  {
    if app.employeeId == [] {
      return [FieldError(EmployeeIdField, EmployeeRequired)];
    }
    var lookup := GetEmployeeById(employees, app.employeeId);
    if !lookup.Ok? {
      return [FieldError(EmployeeIdField, EmployeeUnknown)];
    }
    var employee := lookup.data;
    errors := [];
    if employee.status != Active {
      errors := errors + [InactiveError];
    }
    assert errors == Check(employee.status != Active, InactiveError);
    if app.startDate.None? {
      errors := errors + [StartMissing];
    }
    assert errors == Check(employee.status != Active, InactiveError) + Check(app.startDate.None?, StartMissing);
    if app.endDate.None? {
      errors := errors + [EndMissing];
    }
    assert errors == Check(employee.status != Active, InactiveError) + Check(app.startDate.None?, StartMissing)
                     + Check(app.endDate.None?, EndMissing);
    if app.leaveType.None? {
      errors := errors + [TypeMissing];
    }
    assert errors == Check(employee.status != Active, InactiveError) + Check(app.startDate.None?, StartMissing)
                     + Check(app.endDate.None?, EndMissing) + Check(app.leaveType.None?, TypeMissing);
    if Trim(app.reason) == [] {
      errors := errors + [ReasonMissing];
    }
    ghost var prefix := errors;
    assert prefix == Check(employee.status != Active, InactiveError) + Check(app.startDate.None?, StartMissing)
                     + Check(app.endDate.None?, EndMissing) + Check(app.leaveType.None?, TypeMissing)
                     + Check(Trim(app.reason) == [], ReasonMissing);
    if app.startDate.Some? && app.endDate.Some? {
      var start, end := app.startDate.value, app.endDate.value;
      if end < start {
        errors := errors + [EndBeforeStartError];
      }
      assert errors == prefix + Check(end < start, EndBeforeStartError);
      ghost var ordered := errors;
      var duration := CalculateWorkDays(start, end);
      if duration > MaxLeaveDays {
        errors := errors + [TooLongError];
      }
      assert errors == ordered + Check(WorkDays(start, end) > MaxLeaveDays, TooLongError);
    }
    LeaveErrorsMeaning(app, employee);
  }

  /** The position of the first request carrying `id` (`findIndex`). */
  function IndexOfRequest(requests: seq<LeaveRequest>, id: string): (r: Option<nat>)
    ensures r.Some? ==> r.value < |requests| && requests[r.value].id == id
    ensures r.Some? ==> forall j :: 0 <= j < r.value ==> requests[j].id != id
    ensures r.None? ==> forall j :: 0 <= j < |requests| ==> requests[j].id != id
  {
    if requests == [] then None
    else if requests[0].id == id then Some(0)
    else match IndexOfRequest(requests[1..], id)
      case None => None
      case Some(k) => Some(k + 1)
  }

  /** Deciding a request changes its status and decision fields but not its
      `id`, so the lookup still finds it at the same position. */
  lemma LookupAfterDecision(requests: seq<LeaveRequest>, i: nat, m: LeaveRequest, id: string)
    requires IndexOfRequest(requests, id) == Some(i)
    requires m.id == id
    ensures IndexOfRequest(requests[i := m], id) == Some(i)
  {
    assert requests[i := m][i].id == id;
  }

  /** The days a request adds to its employee's `used` total. */
  function Contribution(request: LeaveRequest, employeeId: string): nat {
    if request.employeeId == employeeId && request.status == Approved then request.days else 0
  }

  /** The sum of `days` over the employee's approved requests. */
  function UsedDays(requests: seq<LeaveRequest>, employeeId: string): nat {
    if requests == [] then 0 else Contribution(requests[0], employeeId) + UsedDays(requests[1..], employeeId)
  }

  lemma {:induction false} UsedDaysSnoc(requests: seq<LeaveRequest>, x: LeaveRequest, employeeId: string)
    ensures UsedDays(requests + [x], employeeId) == UsedDays(requests, employeeId) + Contribution(x, employeeId)
  {
    if requests != [] {
      assert (requests + [x])[1..] == requests[1..] + [x];
      UsedDaysSnoc(requests[1..], x, employeeId);
    }
  }

  lemma {:induction false} UsedDaysReplace(requests: seq<LeaveRequest>, i: nat, y: LeaveRequest, employeeId: string)
    requires i < |requests|
    ensures UsedDays(requests[i := y], employeeId)
            == UsedDays(requests, employeeId) - Contribution(requests[i], employeeId) + Contribution(y, employeeId)
  {
    if i > 0 {
      assert requests[i := y][1..] == requests[1..][i - 1 := y];
      UsedDaysReplace(requests[1..], i - 1, y, employeeId);
    } else {
      assert requests[i := y][1..] == requests[1..];
    }
  }

  /** `getLeaveBalance`: the stored allotment, the days used by approved
      requests and what remains, clamped at zero. */
  function LeaveBalanceOf(employees: seq<Employee>, requests: seq<LeaveRequest>, employeeId: string): (r: Response<LeaveBalance>)
    ensures r.Ok? <==> GetEmployeeById(employees, employeeId).Ok?
    ensures !r.Ok? ==> r == General(EmployeeNotFound)
    ensures r.Ok? ==>
      && r.data.employeeId == employeeId
      && r.data.annual == GetEmployeeById(employees, employeeId).data.leaveBalance
      && r.data.used == UsedDays(requests, employeeId)
      && r.data.remaining >= 0
      && r.data.remaining >= r.data.annual - r.data.used
      && (r.data.remaining == 0 || r.data.remaining == r.data.annual - r.data.used)
      && r.data.sick == SickAllowance && r.data.personal == PersonalAllowance
  {
    match GetEmployeeById(employees, employeeId)
    case Ok(employee) =>
      var used := UsedDays(requests, employeeId);
      var remaining := employee.leaveBalance - used;
      Ok(LeaveBalance(employeeId, employee.leaveBalance, SickAllowance, PersonalAllowance, used,
                      if remaining > 0 then remaining else 0))
    case _ => General(EmployeeNotFound)
  }

  /** A pending request counts for nothing: applying for leave leaves every
      derived balance as it was. */
  lemma ApplyKeepsBalances(employees: seq<Employee>, requests: seq<LeaveRequest>, pending: LeaveRequest, employeeId: string)
    requires pending.status == Pending
    ensures LeaveBalanceOf(employees, requests + [pending], employeeId) == LeaveBalanceOf(employees, requests, employeeId)
  {
    UsedDaysSnoc(requests, pending, employeeId);
  }

  /** Rejecting a pending request leaves every derived balance as it was. */
  lemma RejectKeepsBalances(employees: seq<Employee>, requests: seq<LeaveRequest>, i: nat, rejected: LeaveRequest,
                            employeeId: string)
    requires i < |requests| && requests[i].status == Pending && rejected.status == Rejected
    ensures LeaveBalanceOf(employees, requests[i := rejected], employeeId) == LeaveBalanceOf(employees, requests, employeeId)
  {
    UsedDaysReplace(requests, i, rejected, employeeId);
  }

  /** Changing a field other than `id` keeps a record where the lookup finds it. */
  lemma LookupAfterFieldUpdate(employees: seq<Employee>, j: nat, m: Employee, id: string)
    requires IndexOfEmployee(employees, id) == Some(j)
    requires m.id == id
    ensures IndexOfEmployee(employees[j := m], id) == Some(j)
    ensures GetEmployeeById(employees[j := m], id) == Ok(m)
  {
    assert employees[j := m][j].id == id;
  }

  /** Approval writes `remaining - days` back as the new allotment while the
      approved request also starts counting as used, so the days are taken
      off twice and the earlier `used` once more: the derived `remaining`
      afterwards is the old one less twice the request's days and less the
      old `used`, clamped at zero. With no earlier approved leave that is a
      drop of twice the days. */
  lemma {:induction false} ApprovalDeductsTwice(employees: seq<Employee>, requests: seq<LeaveRequest>, i: nat,
                                                approvedBy: string, now: Timestamp, comments: Option<string>)
    requires i < |requests| && requests[i].status == Pending
    requires LeaveBalanceOf(employees, requests, requests[i].employeeId).Ok?
    requires LeaveBalanceOf(employees, requests, requests[i].employeeId).data.remaining >= requests[i].days
    ensures
      var request := requests[i];
      var before := LeaveBalanceOf(employees, requests, request.employeeId).data;
      var j := IndexOfEmployee(employees, request.employeeId).value;
      var employees' := employees[j := employees[j].(leaveBalance := before.remaining - request.days)];
      var requests' := requests[i := request.(status := Approved, approvedBy := Some(approvedBy),
                                              approvedDate := Some(now), comments := comments)];
      var after := LeaveBalanceOf(employees', requests', request.employeeId);
      && after.Ok?
      && after.data.annual == before.remaining - request.days
      && after.data.used == before.used + request.days
      && after.data.remaining
         == (if before.remaining - 2 * request.days - before.used > 0 then before.remaining - 2 * request.days - before.used else 0)
  {
    var request := requests[i];
    var before := LeaveBalanceOf(employees, requests, request.employeeId).data;
    var j := IndexOfEmployee(employees, request.employeeId).value;
    var updated := employees[j].(leaveBalance := before.remaining - request.days);
    var approved := request.(status := Approved, approvedBy := Some(approvedBy), approvedDate := Some(now), comments := comments);
    LookupAfterFieldUpdate(employees, j, updated, request.employeeId);
    UsedDaysReplace(requests, i, approved, request.employeeId);
  }

  /** Sort key of the listing: `appliedDate`, newest first. */
  function NewestFirst(request: LeaveRequest): int {
    -request.appliedDate
  }

  /** Sort key of the upcoming panel: `startDate`, earliest first. */
  function EarliestStart(request: LeaveRequest): int {
    request.startDate
  }

  /** The requests of one employee, in stored order. */
  function ForEmployee(requests: seq<LeaveRequest>, employeeId: string): (r: seq<LeaveRequest>)
    ensures forall x :: x in r <==> x in requests && x.employeeId == employeeId
  {
    if requests == [] then []
    else (if requests[0].employeeId == employeeId then [requests[0]] else []) + ForEmployee(requests[1..], employeeId)
  }

  /** The filter keeps stored order and multiplicity: appending a request
      appends it to the result exactly when it belongs to the employee. */
  lemma {:induction false} ForEmployeeSnoc(requests: seq<LeaveRequest>, x: LeaveRequest, employeeId: string)
    ensures ForEmployee(requests + [x], employeeId)
            == ForEmployee(requests, employeeId) + (if x.employeeId == employeeId then [x] else [])
  {
    if requests != [] {
      assert (requests + [x])[1..] == requests[1..] + [x];
      ForEmployeeSnoc(requests[1..], x, employeeId);
    } else {
      assert requests + [x] == [x];
    }
  }

  /** `if (employeeId)`: an absent or empty id lists everyone. */
  predicate Filters(employeeId: Option<string>) {
    employeeId.Some? && employeeId.value != []
  }

  /** `getLeaveRequestsForEmployee` / `getAllLeaveRequests`: the stored
      requests (of one employee when an id is given), newest first; the sort
      is stable, so requests applied at the same time keep stored order. */
  function ListRequests(requests: seq<LeaveRequest>, employeeId: Option<string>): (r: seq<LeaveRequest>)
    ensures forall x :: x in r <==> x in requests && (Filters(employeeId) ==> x.employeeId == employeeId.value)
    ensures !Filters(employeeId) ==> |r| == |requests| && multiset(r) == multiset(requests)
    ensures forall i, j :: 0 <= i < j < |r| ==> r[i].appliedDate >= r[j].appliedDate
    ensures forall t :: WithKey(r, NewestFirst, t)
                        == WithKey(if Filters(employeeId) then ForEmployee(requests, employeeId.value) else requests, NewestFirst, t)
  {
    var selected := if Filters(employeeId) then ForEmployee(requests, employeeId.value) else requests;
    var sorted := SortBy(selected, NewestFirst);
    NewestFirstListing(selected, sorted);
    sorted
  }

  /** Sorting by `NewestFirst` keeps the requests and orders them by
      non-increasing `appliedDate`. */
  lemma NewestFirstListing(selected: seq<LeaveRequest>, sorted: seq<LeaveRequest>)
    requires sorted == SortBy(selected, NewestFirst)
    ensures forall x :: x in sorted <==> x in selected
    ensures forall i, j :: 0 <= i < j < |sorted| ==> sorted[i].appliedDate >= sorted[j].appliedDate
  {
    forall x ensures x in sorted <==> x in selected {
      assert x in sorted <==> x in multiset(sorted);
      assert x in selected <==> x in multiset(selected);
    }
    forall i, j | 0 <= i < j < |sorted| ensures sorted[i].appliedDate >= sorted[j].appliedDate {
      assert NewestFirst(sorted[i]) <= NewestFirst(sorted[j]);
    }
  }

  function CountStatus(requests: seq<LeaveRequest>, status: LeaveStatus): nat {
    if requests == [] then 0
    else (if requests[0].status == status then 1 else 0) + CountStatus(requests[1..], status)
  }

  function TotalApprovedDays(requests: seq<LeaveRequest>): nat {
    if requests == [] then 0
    else (if requests[0].status == Approved then requests[0].days else 0) + TotalApprovedDays(requests[1..])
  }

  lemma {:induction false} TalliesSnoc(requests: seq<LeaveRequest>, x: LeaveRequest, status: LeaveStatus)
    ensures CountStatus(requests + [x], status) == CountStatus(requests, status) + (if x.status == status then 1 else 0)
    ensures TotalApprovedDays(requests + [x]) == TotalApprovedDays(requests) + (if x.status == Approved then x.days else 0)
  {
    if requests != [] {
      assert (requests + [x])[1..] == requests[1..] + [x];
      TalliesSnoc(requests[1..], x, status);
    }
  }

  lemma {:induction false} CountInsert(x: LeaveRequest, s: seq<LeaveRequest>, key: LeaveRequest -> int, status: LeaveStatus)
    ensures CountStatus(Insert(x, s, key), status) == CountStatus(s, status) + (if x.status == status then 1 else 0)
  {
    if s != [] && key(s[0]) <= key(x) {
      CountInsert(x, s[1..], key, status);
      assert ([s[0]] + Insert(x, s[1..], key))[1..] == Insert(x, s[1..], key);
    } else if s != [] {
      assert ([x] + s)[1..] == s;
    }
  }

  lemma {:induction false} DaysInsert(x: LeaveRequest, s: seq<LeaveRequest>, key: LeaveRequest -> int)
    ensures TotalApprovedDays(Insert(x, s, key)) == TotalApprovedDays(s) + (if x.status == Approved then x.days else 0)
  {
    if s != [] && key(s[0]) <= key(x) {
      DaysInsert(x, s[1..], key);
      assert ([s[0]] + Insert(x, s[1..], key))[1..] == Insert(x, s[1..], key);
    } else if s != [] {
      assert ([x] + s)[1..] == s;
    }
  }

  /** Sorting changes no count and no sum. */
  lemma {:induction false} TalliesSort(s: seq<LeaveRequest>, key: LeaveRequest -> int, status: LeaveStatus)
    ensures CountStatus(SortBy(s, key), status) == CountStatus(s, status)
    ensures TotalApprovedDays(SortBy(s, key)) == TotalApprovedDays(s)
    decreases |s|
  {
    if s != [] {
      var init := s[..|s| - 1];
      var x := s[|s| - 1];
      assert s == init + [x];
      TalliesSort(init, key, status);
      CountInsert(x, SortBy(init, key), key, status);
      DaysInsert(x, SortBy(init, key), key);
      TalliesSnoc(init, x, status);
    }
  }

  function CountActive(employees: seq<Employee>): nat {
    if employees == [] then 0
    else (if employees[0].status == Active then 1 else 0) + CountActive(employees[1..])
  }

  /** Active employees with a stored balance below the threshold, in stored order. */
  function LowBalance(employees: seq<Employee>): (r: seq<Employee>)
    ensures forall e :: e in r <==> e in employees && e.status == Active && e.leaveBalance < LowBalanceThreshold
  {
    if employees == [] then []
    else (if employees[0].status == Active && employees[0].leaveBalance < LowBalanceThreshold then [employees[0]] else [])
         + LowBalance(employees[1..])
  }

  /** The filter keeps stored order and multiplicity: appending an employee
      appends it to the result exactly when it is active with a low balance. */
  lemma {:induction false} LowBalanceSnoc(employees: seq<Employee>, e: Employee)
    ensures LowBalance(employees + [e])
            == LowBalance(employees) + (if e.status == Active && e.leaveBalance < LowBalanceThreshold then [e] else [])
  {
    var tail := if e.status == Active && e.leaveBalance < LowBalanceThreshold then [e] else [];
    if employees != [] {
      var first := employees[0];
      var head := if first.status == Active && first.leaveBalance < LowBalanceThreshold then [first] else [];
      var u := employees + [e];
      calc {
        LowBalance(u);
        { assert u[0] == first; }
        head + LowBalance(u[1..]);
        { assert u[1..] == employees[1..] + [e]; }
        head + LowBalance(employees[1..] + [e]);
        { LowBalanceSnoc(employees[1..], e); }
        head + (LowBalance(employees[1..]) + tail);
        (head + LowBalance(employees[1..])) + tail;
        LowBalance(employees) + tail;
      }
    } else {
      assert employees + [e] == [e];
    }
  }

  /** Approved requests starting after today, in the order given. */
  function Upcoming(requests: seq<LeaveRequest>, today: Day): (r: seq<LeaveRequest>)
    ensures forall x :: x in r <==> x in requests && x.status == Approved && x.startDate > today
  {
    if requests == [] then []
    else (if requests[0].status == Approved && requests[0].startDate > today then [requests[0]] else [])
         + Upcoming(requests[1..], today)
  }

  /** A request occurs in the filter as often as in its input when it is an
      approved request starting after today, and not at all otherwise. */
  lemma {:induction false} UpcomingCount(requests: seq<LeaveRequest>, today: Day, x: LeaveRequest)
    ensures multiset(Upcoming(requests, today))[x]
            == if x.status == Approved && x.startDate > today then multiset(requests)[x] else 0
  {
    if requests != [] {
      assert requests == [requests[0]] + requests[1..];
      UpcomingCount(requests[1..], today, x);
    }
  }

  /** Filtering two orderings of the same requests keeps the same requests. */
  lemma UpcomingOfPermutation(a: seq<LeaveRequest>, b: seq<LeaveRequest>, today: Day)
    requires multiset(a) == multiset(b)
    ensures multiset(Upcoming(a, today)) == multiset(Upcoming(b, today))
  {
    forall x ensures multiset(Upcoming(a, today))[x] == multiset(Upcoming(b, today))[x] {
      UpcomingCount(a, today, x);
      UpcomingCount(b, today, x);
    }
  }

  function Take<T>(s: seq<T>, n: nat): (r: seq<T>)
    ensures |r| == if |s| < n then |s| else n
    ensures r == s[..|r|]
  {
    if |s| < n then s else s[..n]
  }

  /** `Math.round(10 * total / n)`, half-way cases rounded up. */
  function RoundedTenths(total: nat, n: nat): (tenths: int)
    ensures n == 0 ==> tenths == 0
    ensures n > 0 ==> 2 * n * tenths <= 20 * total + n < 2 * n * (tenths + 1)
  {
    if n == 0 then 0 else (20 * total + n) / (2 * n)
  }

  /** The dashboard counters. They run over the newest-first listing, which
      holds the same requests as the store. */
  function StatsOf(employees: seq<Employee>, requests: seq<LeaveRequest>): (stats: LeaveStats)
    ensures stats.totalEmployees == CountActive(employees)
    ensures stats.pendingRequests == CountStatus(requests, Pending)
    ensures stats.approvedRequests == CountStatus(requests, Approved)
    ensures stats.rejectedRequests == CountStatus(requests, Rejected)
    ensures stats.totalLeavesTaken == TotalApprovedDays(requests)
    ensures stats.averageLeaveTenths == RoundedTenths(stats.totalLeavesTaken, stats.totalEmployees)
  {
    var listing := ListRequests(requests, None);
    TalliesSort(requests, NewestFirst, Pending);
    TalliesSort(requests, NewestFirst, Approved);
    TalliesSort(requests, NewestFirst, Rejected);
    var active := CountActive(employees);
    var total := TotalApprovedDays(listing);
    LeaveStats(active, CountStatus(listing, Pending), CountStatus(listing, Approved),
               CountStatus(listing, Rejected), total, RoundedTenths(total, active))
  }

  /** The five newest requests. */
  function RecentPanel(requests: seq<LeaveRequest>): (recent: seq<LeaveRequest>)
    ensures |recent| == (if |requests| < PanelSize then |requests| else PanelSize)
    ensures recent == ListRequests(requests, None)[..|recent|]
  {
    Take(ListRequests(requests, None), PanelSize)
  }

  /** In a listing by non-increasing `appliedDate`, a prefix holds requests
      applied for no earlier than any request after it. */
  lemma PrefixIsNewest(listing: seq<LeaveRequest>, n: nat)
    requires n <= |listing|
    requires forall i, j :: 0 <= i < j < |listing| ==> listing[i].appliedDate >= listing[j].appliedDate
    ensures forall x, y :: x in listing[..n] && y in listing && y !in listing[..n] ==> x.appliedDate >= y.appliedDate
  {
    forall x, y | x in listing[..n] && y in listing && y !in listing[..n] ensures x.appliedDate >= y.appliedDate {
      var i :| 0 <= i < n && listing[..n][i] == x;
      var j :| 0 <= j < |listing| && listing[j] == y;
      assert forall k :: 0 <= k < n ==> listing[..n][k] == listing[k];
    }
  }

  /** No request left out of the recent panel was applied for later than
      one shown in it. */
  lemma RecentAreNewest(requests: seq<LeaveRequest>)
    ensures var recent := RecentPanel(requests);
      forall x, y :: x in recent && y in requests && y !in recent ==> x.appliedDate >= y.appliedDate
  {
    var listing := ListRequests(requests, None);
    PrefixIsNewest(listing, |RecentPanel(requests)|);
  }

  /** The five approved requests starting after today with the earliest
      start dates, earliest first. */
  function UpcomingPanel(requests: seq<LeaveRequest>, today: Day): (upcoming: seq<LeaveRequest>)
    ensures |upcoming| <= PanelSize
    ensures forall x :: x in upcoming ==> x in requests && x.status == Approved && x.startDate > today
    ensures forall i, j :: 0 <= i < j < |upcoming| ==> upcoming[i].startDate <= upcoming[j].startDate
    ensures forall x :: x in requests && x.status == Approved && x.startDate > today ==>
      x in upcoming || (|upcoming| == PanelSize && upcoming[PanelSize - 1].startDate <= x.startDate)
    ensures |upcoming| == if |Upcoming(requests, today)| < PanelSize then |Upcoming(requests, today)| else PanelSize
    ensures multiset(upcoming) <= multiset(Upcoming(requests, today))
  {
    var listing := ListRequests(requests, None);
    var candidates := Upcoming(listing, today);
    var byStart := SortBy(candidates, EarliestStart);
    var upcoming := Take(byStart, PanelSize);
    UpcomingIsEarliest(requests, listing, candidates, byStart, upcoming, today);
    UpcomingIsBounded(requests, listing, candidates, byStart, upcoming, today);
    upcoming
  }

  /** The first five active employees, in stored order, whose balance is
      below the threshold. */
  function LowBalancePanel(employees: seq<Employee>): (low: seq<Employee>)
    ensures |low| == (if |LowBalance(employees)| < PanelSize then |LowBalance(employees)| else PanelSize)
    ensures low == LowBalance(employees)[..|low|]
    ensures forall e :: e in employees && e.status == Active && e.leaveBalance < LowBalanceThreshold ==>
      e in low || |low| == PanelSize
  {
    var low := Take(LowBalance(employees), PanelSize);
    LowPanelComplete(employees, low);
    low
  }

  /** `getDashboardData`: the counters, the five newest requests, the five
      earliest upcoming approved leaves and the first five low balances. */
  function DashboardOf(employees: seq<Employee>, requests: seq<LeaveRequest>, today: Day): (d: DashboardData)
    ensures d.stats.totalEmployees == CountActive(employees)
    ensures d.stats.pendingRequests == CountStatus(requests, Pending)
    ensures d.stats.approvedRequests == CountStatus(requests, Approved)
    ensures d.stats.rejectedRequests == CountStatus(requests, Rejected)
    ensures d.stats.totalLeavesTaken == TotalApprovedDays(requests)
    ensures |d.recentRequests| <= PanelSize && |d.upcomingLeaves| <= PanelSize && |d.lowBalanceEmployees| <= PanelSize
  {
    DashboardData(StatsOf(employees, requests), RecentPanel(requests), UpcomingPanel(requests, today),
                  LowBalancePanel(employees))
  }

  lemma LowPanelComplete(employees: seq<Employee>, low: seq<Employee>)
    requires low == Take(LowBalance(employees), PanelSize)
    ensures forall e :: e in employees && e.status == Active && e.leaveBalance < LowBalanceThreshold ==>
      e in low || |low| == PanelSize
  {
    forall e | e in employees && e.status == Active && e.leaveBalance < LowBalanceThreshold
      ensures e in low || |low| == PanelSize
    {
      assert e in LowBalance(employees);
      if |low| < PanelSize {
        assert low == LowBalance(employees);
      }
    }
  }

  lemma UpcomingIsEarliest(requests: seq<LeaveRequest>, listing: seq<LeaveRequest>, candidates: seq<LeaveRequest>,
                           byStart: seq<LeaveRequest>, upcoming: seq<LeaveRequest>, today: Day)
    requires listing == ListRequests(requests, None)
    requires candidates == Upcoming(listing, today)
    requires byStart == SortBy(candidates, EarliestStart)
    requires upcoming == Take(byStart, PanelSize)
    ensures forall x :: x in upcoming ==> x in requests && x.status == Approved && x.startDate > today
    ensures forall i, j :: 0 <= i < j < |upcoming| ==> upcoming[i].startDate <= upcoming[j].startDate
    ensures forall x :: x in requests && x.status == Approved && x.startDate > today ==>
      x in upcoming || (|upcoming| == PanelSize && upcoming[PanelSize - 1].startDate <= x.startDate)
  {
    assert forall x :: x in byStart <==> x in multiset(byStart);
    assert forall x :: x in candidates <==> x in multiset(candidates);
    forall x | x in upcoming ensures x in requests && x.status == Approved && x.startDate > today {
      assert x in byStart;
    }
    forall i, j | 0 <= i < j < |upcoming| ensures upcoming[i].startDate <= upcoming[j].startDate {
      assert EarliestStart(byStart[i]) <= EarliestStart(byStart[j]);
    }
    forall x | x in requests && x.status == Approved && x.startDate > today
      ensures x in upcoming || (|upcoming| == PanelSize && upcoming[PanelSize - 1].startDate <= x.startDate)
    {
      assert x in byStart;
      if |upcoming| < PanelSize {
        assert upcoming == byStart;
      } else if x.startDate < upcoming[PanelSize - 1].startDate {
        PrefixHoldsSmallerKeys(byStart, EarliestStart, PanelSize, x);
      }
    }
  }

  /** The upcoming panel takes as many of the store's upcoming requests as
      fit, each no more often than the store holds it. */
  lemma UpcomingIsBounded(requests: seq<LeaveRequest>, listing: seq<LeaveRequest>, candidates: seq<LeaveRequest>,
                          byStart: seq<LeaveRequest>, upcoming: seq<LeaveRequest>, today: Day)
    requires listing == ListRequests(requests, None)
    requires candidates == Upcoming(listing, today)
    requires byStart == SortBy(candidates, EarliestStart)
    requires upcoming == Take(byStart, PanelSize)
    ensures |upcoming| == if |Upcoming(requests, today)| < PanelSize then |Upcoming(requests, today)| else PanelSize
    ensures multiset(upcoming) <= multiset(Upcoming(requests, today))
  {
    var stored := Upcoming(requests, today);
    assert multiset(candidates) == multiset(stored) by {
      UpcomingOfPermutation(listing, requests, today);
    }
    assert |byStart| == |stored| && multiset(byStart) == multiset(stored) by {
      assert |multiset(candidates)| == |multiset(stored)|;
    }
    TakeWithin(byStart, PanelSize);
  }

  /** A prefix holds each element no more often than the whole sequence. */
  lemma TakeWithin<T>(s: seq<T>, n: nat)
    ensures multiset(Take(s, n)) <= multiset(s)
  {
    var r := Take(s, n);
    assert s == r + s[|r|..];
    assert multiset(s) == multiset(r) + multiset(s[|r|..]);
  }

  class LeaveService {
    /** The stored leave-request array, in insertion order. */
    var requests: seq<LeaveRequest>
    /** The employee directory the service resolves employees through and
        writes balances back to. */
    const directory: EmployeeService

    constructor (directory: EmployeeService, initial: seq<LeaveRequest>)
      ensures this.directory == directory && requests == initial
    {
      this.directory := directory;
      requests := initial;
    }

    /** `applyLeave`: an unknown employee is a general error; every failing
        rule is reported together as field errors; otherwise one pending
        request is appended, carrying the employee's current name, the
        working-day count and the applied time. */
    method ApplyLeave(app: LeaveApplication, freshId: string, now: Timestamp) returns (r: Response<LeaveRequest>)
      modifies this
      ensures !GetEmployeeById(directory.employees, app.employeeId).Ok? ==>
        r == General(EmployeeNotFound) && requests == old(requests)
      ensures GetEmployeeById(directory.employees, app.employeeId).Ok? ==>
        var employee := GetEmployeeById(directory.employees, app.employeeId).data;
        if !ApplicationValid(app, employee) then
          && r.Fields? && r.errors != [] && requests == old(requests)
          && (app.employeeId != [] ==> r.errors == LeaveErrors(app, employee))
        else
          var request := LeaveRequest(freshId, app.employeeId, employee.name, app.startDate.value, app.endDate.value,
                                      app.leaveType.value, app.reason, Pending, now, None, None,
                                      WorkDays(app.startDate.value, app.endDate.value), None);
          r == Ok(request) && requests == old(requests) + [request]
      ensures GetEmployeeById(directory.employees, app.employeeId).Ok? && app.employeeId == [] ==>
        r == Fields([FieldError(EmployeeIdField, EmployeeRequired)])
      ensures r.Fields? ==> FieldError(EmployeeIdField, EmployeeUnknown) !in r.errors
    {
      var lookup := GetEmployeeById(directory.employees, app.employeeId);
      if !lookup.Ok? {
        return General(EmployeeNotFound);
      }
      var employee := lookup.data;
      var errors := ValidateLeaveRequest(directory.employees, app);
      if errors != [] {
        if app.employeeId != [] {
          LeaveErrorsListed(app, employee);
          assert !FailingLeaveCheck(FieldError(EmployeeIdField, EmployeeUnknown), app, employee);
        }
        return Fields(errors);
      }
      var days := CalculateWorkDays(app.startDate.value, app.endDate.value);
      var request := LeaveRequest(freshId, app.employeeId, employee.name, app.startDate.value, app.endDate.value,
                                  app.leaveType.value, app.reason, Pending, now, None, None, days, None);
      requests := requests + [request];
      r := Ok(request);
    }

    /** `approveLeave`: only a pending request can be approved. The balance
        written back is the derived `remaining` minus the request's days,
        through the directory's guarded setter; if the setter refuses a
        negative value the approval is abandoned and nothing changes. */
    method ApproveLeave(requestId: string, approvedBy: string, comments: Option<string>, now: Timestamp)
      returns (r: Response<LeaveRequest>)
      modifies this, directory
      ensures IndexOfRequest(old(requests), requestId).None? ==>
        r == General(RequestNotFound) && requests == old(requests) && directory.employees == old(directory.employees)
      ensures IndexOfRequest(old(requests), requestId).Some? ==>
        var i := IndexOfRequest(old(requests), requestId).value;
        var request := old(requests)[i];
        var balance := LeaveBalanceOf(old(directory.employees), old(requests), request.employeeId);
        if request.status != Pending then
          r == General(OnlyPendingApproved) && requests == old(requests) && directory.employees == old(directory.employees)
        else if !balance.Ok? then
          r == General(BalanceUnavailable) && requests == old(requests) && directory.employees == old(directory.employees)
        else if balance.data.remaining - request.days < 0 then
          r == General(BalanceNotUpdated) && requests == old(requests) && directory.employees == old(directory.employees)
        else
          var j := IndexOfEmployee(old(directory.employees), request.employeeId).value;
          var approved := request.(status := Approved, approvedBy := Some(approvedBy), approvedDate := Some(now),
                                   comments := comments);
          && r == Ok(approved)
          && requests == old(requests)[i := approved]
          && directory.employees
             == old(directory.employees)[j := old(directory.employees)[j].(leaveBalance := balance.data.remaining - request.days)]
      ensures r.Ok? ==>
        && IndexOfRequest(requests, requestId) == IndexOfRequest(old(requests), requestId)
        && requests[IndexOfRequest(old(requests), requestId).value].status != Pending
      ensures Consistent(old(directory.employees)) ==> Consistent(directory.employees)
    {
      var index := IndexOfRequest(requests, requestId);
      if index.None? {
        return General(RequestNotFound);
      }
      var i := index.value;
      var request := requests[i];
      if request.status != Pending {
        return General(OnlyPendingApproved);
      }
      var balance := LeaveBalanceOf(directory.employees, requests, request.employeeId);
      if !balance.Ok? {
        return General(BalanceUnavailable);
      }
      var update := directory.UpdateLeaveBalance(request.employeeId, balance.data.remaining - request.days);
      if !update.Ok? {
        return General(BalanceNotUpdated);
      }
      var approved := request.(status := Approved, approvedBy := Some(approvedBy), approvedDate := Some(now),
                               comments := comments);
      LookupAfterDecision(requests, i, approved, requestId);
      requests := requests[i := approved];
      assert IndexOfRequest(requests, requestId) == Some(i) && requests[i].status == Approved;
      r := Ok(approved);
    }

    /** `rejectLeave`: only a pending request can be rejected; only its
        decision fields change, and no employee record is touched. */
    method RejectLeave(requestId: string, approvedBy: string, comments: Option<string>, now: Timestamp)
      returns (r: Response<LeaveRequest>)
      modifies this
      ensures IndexOfRequest(old(requests), requestId).None? ==>
        r == General(RequestNotFound) && requests == old(requests)
      ensures IndexOfRequest(old(requests), requestId).Some? ==>
        var i := IndexOfRequest(old(requests), requestId).value;
        var request := old(requests)[i];
        if request.status != Pending then
          r == General(OnlyPendingRejected) && requests == old(requests)
        else
          var rejected := request.(status := Rejected, approvedBy := Some(approvedBy), approvedDate := Some(now),
                                   comments := comments);
          r == Ok(rejected) && requests == old(requests)[i := rejected]
      ensures r.Ok? ==>
        && IndexOfRequest(requests, requestId) == IndexOfRequest(old(requests), requestId)
        && requests[IndexOfRequest(old(requests), requestId).value].status != Pending
    {
      var index := IndexOfRequest(requests, requestId);
      if index.None? {
        return General(RequestNotFound);
      }
      var i := index.value;
      var request := requests[i];
      if request.status != Pending {
        return General(OnlyPendingRejected);
      }
      var rejected := request.(status := Rejected, approvedBy := Some(approvedBy), approvedDate := Some(now),
                               comments := comments);
      LookupAfterDecision(requests, i, rejected, requestId);
      requests := requests[i := rejected];
      r := Ok(rejected);
    }
  }
}
