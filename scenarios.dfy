/** Worked cases of the two services: hiring, a five-day leave, its approval,
    a second approval attempt, a year-long application and a duplicate email
    that differs only in case. Day numbers: 2023-03-01 is 19417, 2024-01-01
    (a Monday) is 19723, 2024-06-01 is 19875, 2024-06-03 (a Monday) is 19877,
    2025-01-02 is 20090. */
module Scenarios {
  import opened Types
  import opened Text
  import opened Calendar
  import opened EmployeeDirectory
  import opened LeaveRequests

  lemma JohnEmailMatches()
    ensures MatchesEmailPattern("john@company.com")
  {
    var email := "john@company.com";
    var local, domain := email[..4], email[5..];
    assert local == "john" && domain == "company.com";
    assert forall i :: 0 <= i < |local| ==> PlainChar(local[i]);
    assert forall i :: 0 <= i < |domain| ==> PlainChar(domain[i]);
    assert 0 < 4 && 4 + 1 < 12 < |email| - 1 && email[4] == '@' && email[12] == '.'
      && AllPlain(email[..4]) && AllPlain(email[4 + 1..]);
  }

  /** John Smith's form passes every rule of `validateEmployee` on 2024-06-01. */
  lemma JohnSmithIsValid()
    ensures EmployeeFieldsValid("John Smith", "john@company.com", "Engineering", Some(19417), 19875)
  {
    TrimOfFramed("John Smith");
    TrimOfFramed("Engineering");
    JohnEmailMatches();
  }

  /** Monday 2024-06-03 to Friday 2024-06-07 is five working days. */
  lemma MondayToFridayIsFive()
    ensures WorkDays(19877, 19881) == 5
  {
    assert Weekday(19877) == 1;
    WorkDaysSplit(19877, 19876, 19881);
    assert WorkDays(19877, 19876) == 0;
    assert WorkDays(19877, 19877) == 1;
    assert WorkDays(19877, 19878) == 2;
    assert WorkDays(19877, 19879) == 3;
    assert WorkDays(19877, 19880) == 4;
  }

  /** 2024-01-01 to 2025-01-02 spans 368 calendar days but only 264 working
      days, so the 365-day limit does not reject it. */
  lemma YearLongLeaveHolds264WorkDays()
    ensures WorkDays(19723, 20090) == 264
  {
    WeeksHoldFivePerWeek(19723, 52);
    WorkDaysSplit(19723, 20086, 20090);
    assert Weekday(20087) == 1;
    assert WorkDays(20087, 20086) == 0;
    assert WorkDays(20087, 20087) == 1;
    assert WorkDays(20087, 20088) == 2;
    assert WorkDays(20087, 20089) == 3;
    assert WorkDays(20087, 20090) == 4;
  }

  lemma YearLongLeaveIsAccepted(employee: Employee)
    requires employee.id != [] && employee.status == Active
    ensures ApplicationValid(LeaveApplication(employee.id, Some(19723), Some(20090), Some(Annual), "Sabbatical"), employee)
  {
    YearLongLeaveHolds264WorkDays();
    TrimOfFramed("Sabbatical");
  }

  /** `Admin@Company.com` and `admin@company.com` are the same address to the
      duplicate check. */
  lemma EmailCaseIsIgnored(admin: Employee)
    requires admin.email == "Admin@Company.com"
    ensures EmailTaken([admin], "admin@company.com", None)
  {
    var a := Lower("Admin@Company.com");
    var b := Lower("admin@company.com");
    assert forall i :: 0 <= i < |a| ==> a[i] == b[i];
    assert a == b;
    assert [admin][0] == admin;
  }

  /** The record `createEmployee` stores for John Smith. */
  const John := Employee("emp-1", "John Smith", "john@company.com", "Engineering", 19417, 25, StaffRole, Active)

  /** His application for Monday 2024-06-03 to Friday 2024-06-07. */
  const JuneLeave := LeaveApplication("emp-1", Some(19877), Some(19881), Some(Annual), "Family trip")

  /** The pending request `applyLeave` stores for it. */
  const JunePending := LeaveRequest("req-1", "emp-1", "John Smith", 19877, 19881, Annual, "Family trip", Pending,
                                    1000, None, None, 5, None)

  /** Hiring John Smith into an empty directory gives him the default
      balance of 25 days and status active. */
  method HireJohn() returns (directory: EmployeeService)
    ensures fresh(directory) && directory.employees == [John]
  {
    directory := new EmployeeService([]);
    JohnSmithIsValid();
    var hired := directory.CreateEmployee(NewEmployee("John Smith", "john@company.com", "Engineering", Some(19417), StaffRole),
                                          "emp-1", 19875);
    assert hired == Ok(John);
  }

  /** His five-day application is stored as one pending request of five
      days, and his derived balance is still 25. */
  method ApplyForJune(directory: EmployeeService) returns (leave: LeaveService)
    requires directory.employees == [John]
    ensures fresh(leave) && leave.directory == directory && leave.requests == [JunePending]
    ensures LeaveBalanceOf(directory.employees, leave.requests, "emp-1").data.remaining == 25
  {
    leave := new LeaveService(directory, []);
    MondayToFridayIsFive();
    TrimOfFramed("Family trip");
    assert GetEmployeeById(directory.employees, "emp-1") == Ok(John);
    assert ApplicationValid(JuneLeave, John);
    var applied := leave.ApplyLeave(JuneLeave, "req-1", 1000);
    assert applied == Ok(JunePending);
    assert UsedDays(leave.requests, "emp-1") == 0;
  }

  /** Approving the request stores 20 as the new allotment and counts the 5
      days as used, so the derived balance shows 15. */
  method ApproveJune(leave: LeaveService) returns (first: Response<LeaveRequest>)
    requires leave.requests == [JunePending] && leave.directory.employees == [John]
    modifies leave, leave.directory
    ensures first == Ok(JunePending.(status := Approved, approvedBy := Some("hr-1"), approvedDate := Some(2000)))
    ensures leave.requests == [first.data]
    ensures leave.directory.employees == [John.(leaveBalance := 20)]
    ensures LeaveBalanceOf(leave.directory.employees, leave.requests, "emp-1").data.remaining == 15
  {
    assert IndexOfRequest(leave.requests, "req-1") == Some(0);
    assert IndexOfEmployee(leave.directory.employees, "emp-1") == Some(0);
    assert UsedDays(leave.requests, "emp-1") == 0;
    assert LeaveBalanceOf(leave.directory.employees, leave.requests, "emp-1").data.remaining == 25;
    first := leave.ApproveLeave("req-1", "hr-1", None, 2000);
    assert leave.requests == [first.data];
    assert UsedDays(leave.requests, "emp-1") == 5;
    assert GetEmployeeById(leave.directory.employees, "emp-1") == Ok(John.(leaveBalance := 20));
  }

  /** After the approval above, a second approval of the same request is
      refused and changes nothing. */
  method ApproveTwice(leave: LeaveService) returns (first: Response<LeaveRequest>, second: Response<LeaveRequest>)
    requires leave.requests == [JunePending] && leave.directory.employees == [John]
    modifies leave, leave.directory
    ensures first.Ok? && first.data.status == Approved && leave.requests == [first.data]
    ensures second == General(OnlyPendingApproved)
    ensures leave.directory.employees == [John.(leaveBalance := 20)]
    ensures LeaveBalanceOf(leave.directory.employees, leave.requests, "emp-1").data.remaining == 15
  {
    first := ApproveJune(leave);
    second := leave.ApproveLeave("req-1", "hr-1", None, 3000);
  }

  /** Once a request is approved, rejecting it is refused, whatever the
      state of the service. */
  method ApproveThenReject(leave: LeaveService, requestId: string, approver: string, now: Timestamp)
    returns (first: Response<LeaveRequest>, second: Response<LeaveRequest>)
    modifies leave, leave.directory
    ensures first.Ok? ==> second == General(OnlyPendingRejected)
  {
    first := leave.ApproveLeave(requestId, approver, None, now);
    second := leave.RejectLeave(requestId, approver, None, now + 1);
  }

  /** Once a request is rejected, approving it is refused, whatever the
      state of the service. */
  method RejectThenApprove(leave: LeaveService, requestId: string, approver: string, now: Timestamp)
    returns (first: Response<LeaveRequest>, second: Response<LeaveRequest>)
    modifies leave, leave.directory
    ensures first.Ok? ==> second == General(OnlyPendingApproved)
  {
    first := leave.RejectLeave(requestId, approver, None, now);
    second := leave.ApproveLeave(requestId, approver, None, now + 1);
  }

  /** The merge-update applies no balance guard: a patch can store a
      negative balance that the guarded setter would refuse. */
  method UnguardedBalanceEdit(directory: EmployeeService) returns (r: Response<Employee>)
    requires directory.employees == [John]
    modifies directory
    ensures r == Ok(John.(leaveBalance := -3)) && directory.employees == [John.(leaveBalance := -3)]
  {
    JohnSmithIsValid();
    var patch := EmployeePatch(None, None, None, None, None, Some(-3), None, None);
    assert Merge(John, patch) == John.(leaveBalance := -3);
    r := directory.UpdateEmployee("emp-1", patch, 19875);
  }
}
