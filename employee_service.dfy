/** The employee directory: the stored employee array, field validation,
    creation, merge-update, soft deactivation and the guarded balance setter. */
module EmployeeDirectory {
  import opened Types
  import opened Text

  /** The leave allotment a newly created employee starts with. */
  const DefaultLeaveBalance: int := 25

  /** The fields a caller passes to `createEmployee`; a missing text field is
      the empty string, which every check treats alike. */
  datatype NewEmployee = NewEmployee(
    name: string,
    email: string,
    department: string,
    joiningDate: Option<Day>,
    role: Role)

  /** `Partial<Employee>`: every field that is present overrides the stored one. */
  datatype EmployeePatch = EmployeePatch(
    id: Option<string>,
    name: Option<string>,
    email: Option<string>,
    department: Option<string>,
    joiningDate: Option<Day>,
    leaveBalance: Option<int>,
    role: Option<Role>,
    status: Option<EmployeeStatus>)

  ghost predicate NameValid(name: string) {
    |Trim(name)| >= 2
  }

  ghost predicate JoiningDateValid(joiningDate: Option<Day>, today: Day) {
    joiningDate.Some? && joiningDate.value <= today
  }

  /** All four rules of `validateEmployee` hold. */
  ghost predicate EmployeeFieldsValid(name: string, email: string, department: string, joiningDate: Option<Day>, today: Day) {
    && NameValid(name)
    && MatchesEmailPattern(email)
    && Trim(department) != []
    && JoiningDateValid(joiningDate, today)
  }

  const NameMissing := FieldError(NameField, NameRequired)
  const NameShort := FieldError(NameField, NameTooShort)
  const EmailMissing := FieldError(EmailField, EmailRequired)
  const EmailMalformed := FieldError(EmailField, EmailInvalid)
  const DepartmentMissing := FieldError(DepartmentField, DepartmentRequired)
  const JoiningDateMissing := FieldError(JoiningDateField, JoiningDateRequired)
  const JoiningDateAhead := FieldError(JoiningDateField, JoiningDateInFuture)

  /** The name check: required, then at least two characters once trimmed. */
  function NameErrors(trimmed: string): seq<FieldError> {
    if trimmed == [] then [NameMissing] else if |trimmed| < 2 then [NameShort] else []
  }

  /** The email check: required (after trimming), then the pattern. */
  function EmailErrors(trimmed: string, wellFormed: bool): seq<FieldError> {
    if trimmed == [] then [EmailMissing] else if !wellFormed then [EmailMalformed] else []
  }

  function DepartmentErrors(trimmed: string): seq<FieldError> {
    if trimmed == [] then [DepartmentMissing] else []
  }

  /** The joining-date check: required, then not after today. */
  function JoiningDateErrors(joiningDate: Option<Day>, today: Day): seq<FieldError> {
    match joiningDate
    case None => [JoiningDateMissing]
    case Some(day) => if day > today then [JoiningDateAhead] else []
  }

  /** What `validateEmployee` returns: the errors of the four field checks,
      in check order. */
  function EmployeeErrors(name: string, email: string, department: string, joiningDate: Option<Day>, today: Day)
    : seq<FieldError>
  {
    NameErrors(Trim(name)) + EmailErrors(Trim(email), IsEmailFormat(email)) + DepartmentErrors(Trim(department))
    + JoiningDateErrors(joiningDate, today)
  }

  /** `e` is the error of a failing check over the trimmed fields:
      "required" for a blank (or missing) field, "too short" for a
      one-character name, "invalid" for a non-blank email off the pattern,
      "future" for a joining date after today. */
  ghost predicate FailingCheck(e: FieldError, name: string, email: string, wellFormed: bool, department: string,
                               joiningDate: Option<Day>, today: Day) {
    || (name == [] && e == NameMissing)
    || (name != [] && |name| < 2 && e == NameShort)
    || (email == [] && e == EmailMissing)
    || (email != [] && !wellFormed && e == EmailMalformed)
    || (department == [] && e == DepartmentMissing)
    || (joiningDate.None? && e == JoiningDateMissing)
    || (joiningDate.Some? && joiningDate.value > today && e == JoiningDateAhead)
  }

  /** The four checks report the error of each failing check and nothing else. */
  lemma FieldChecksReported(name: string, email: string, wellFormed: bool, department: string,
                            joiningDate: Option<Day>, today: Day, e: FieldError)
    ensures e in NameErrors(name) + EmailErrors(email, wellFormed) + DepartmentErrors(department)
                 + JoiningDateErrors(joiningDate, today)
            <==> FailingCheck(e, name, email, wellFormed, department, joiningDate, today)
  {
  }

  /** An error is reported exactly when its check fails on the given fields,
      so several fields can be reported together; there is at most one
      error per field. */
  lemma EmployeeErrorsListed(name: string, email: string, department: string, joiningDate: Option<Day>, today: Day)
    ensures forall e :: e in EmployeeErrors(name, email, department, joiningDate, today) <==>
      FailingCheck(e, Trim(name), Trim(email), MatchesEmailPattern(email), Trim(department), joiningDate, today)
    ensures |EmployeeErrors(name, email, department, joiningDate, today)| <= 4
  {
    IsEmailFormatSpec(email);
    forall e ensures e in EmployeeErrors(name, email, department, joiningDate, today) <==>
      FailingCheck(e, Trim(name), Trim(email), MatchesEmailPattern(email), Trim(department), joiningDate, today)
    {
      FieldChecksReported(Trim(name), Trim(email), IsEmailFormat(email), Trim(department), joiningDate, today, e);
    }
  }

  /** The errors are empty exactly when all four fields are valid: a name of
      at least two characters after trimming, an email matching the pattern,
      a department that is not blank and a joining date not after today. */
  lemma EmployeeErrorsMeaning(name: string, email: string, department: string, joiningDate: Option<Day>, today: Day)
    ensures EmployeeErrors(name, email, department, joiningDate, today) == []
            <==> EmployeeFieldsValid(name, email, department, joiningDate, today)
  {
    IsEmailFormatSpec(email);
    if MatchesEmailPattern(email) {
      EmailFormatNotBlank(email);
    }
  }

  /** `validateEmployee`: checks every rule and collects one error per failing
      rule rather than stopping at the first. */
  method ValidateEmployee(name: string, email: string, department: string, joiningDate: Option<Day>, today: Day)
    returns (errors: seq<FieldError>)
    ensures errors == EmployeeErrors(name, email, department, joiningDate, today)
    ensures errors == [] <==> EmployeeFieldsValid(name, email, department, joiningDate, today)
  {
    errors := [];
    var trimmedName := Trim(name);
    if trimmedName == [] {
      errors := errors + [NameMissing];
    } else if |trimmedName| < 2 {
      errors := errors + [NameShort];
    }
    assert errors == NameErrors(trimmedName);

    var trimmedEmail := Trim(email);
    if trimmedEmail == [] {
      errors := errors + [EmailMissing];
    } else if !IsEmailFormat(email) {
      errors := errors + [EmailMalformed];
    }
    assert errors == NameErrors(trimmedName) + EmailErrors(trimmedEmail, IsEmailFormat(email));

    if Trim(department) == [] {
      errors := errors + [DepartmentMissing];
    }
    assert errors == NameErrors(trimmedName) + EmailErrors(trimmedEmail, IsEmailFormat(email)) + DepartmentErrors(Trim(department));

    match joiningDate {
      case None =>
        errors := errors + [JoiningDateMissing];
      case Some(day) =>
        if day > today {
          errors := errors + [JoiningDateAhead];
        }
    }
    EmployeeErrorsMeaning(name, email, department, joiningDate, today);
  }

  /** The position of the first record carrying `id` (`findIndex`). */
  function IndexOfEmployee(employees: seq<Employee>, id: string): (r: Option<nat>)
    ensures r.Some? ==> r.value < |employees| && employees[r.value].id == id
    ensures r.Some? ==> forall j :: 0 <= j < r.value ==> employees[j].id != id
    ensures r.None? ==> forall j :: 0 <= j < |employees| ==> employees[j].id != id
  {
    if employees == [] then None
    else if employees[0].id == id then Some(0)
    else match IndexOfEmployee(employees[1..], id)
      case None => None
      case Some(k) => Some(k + 1)
  }

  /** `getEmployeeById`: the first record carrying `id`, or the general error
      "Employee not found". */
  function GetEmployeeById(employees: seq<Employee>, id: string): (r: Response<Employee>)
    ensures r.Ok? <==> exists i :: 0 <= i < |employees| && employees[i].id == id
    ensures r.Ok? ==> r.data.id == id && r.data == employees[IndexOfEmployee(employees, id).value]
    ensures !r.Ok? ==> r == General("Employee not found")
  {
    match IndexOfEmployee(employees, id)
    case None => General("Employee not found")
    case Some(i) => Ok(employees[i])
  }

  /** The duplicate-email test of create and update: some stored record, other
      than the one whose id is `exceptId`, has the same email ignoring case. */
  function EmailTaken(employees: seq<Employee>, email: string, exceptId: Option<string>): (taken: bool)
    ensures taken <==> exists i :: 0 <= i < |employees| && Lower(employees[i].email) == Lower(email)
                                   && (exceptId.None? || employees[i].id != exceptId.value)
  {
    if employees == [] then false
    else
      var e := employees[0];
      var rest := EmailTaken(employees[1..], email, exceptId);
      assert forall i :: 1 <= i < |employees| ==> employees[i] == employees[1..][i - 1];
      ((exceptId.None? || e.id != exceptId.value) && Lower(e.email) == Lower(email)) || rest
  }

  ghost predicate UniqueIds(employees: seq<Employee>) {
    forall i, j :: 0 <= i < j < |employees| ==> employees[i].id != employees[j].id
  }

  ghost predicate UniqueEmails(employees: seq<Employee>) {
    forall i, j :: 0 <= i < j < |employees| ==> Lower(employees[i].email) != Lower(employees[j].email)
  }

  /** A stored record has a valid name, email and department. */
  ghost predicate ValidRecord(e: Employee) {
    NameValid(e.name) && MatchesEmailPattern(e.email) && Trim(e.department) != []
  }

  /** What creation and validated updates keep true of the stored array: ids
      are unique, emails are unique ignoring case, and every record is valid. */
  ghost predicate Consistent(employees: seq<Employee>) {
    && UniqueIds(employees)
    && UniqueEmails(employees)
    && forall i :: 0 <= i < |employees| ==> ValidRecord(employees[i])
  }

  /** Appending a valid record with an unused id and an unused email keeps
      the array consistent. */
  lemma AppendKeepsConsistent(employees: seq<Employee>, e: Employee)
    requires Consistent(employees)
    requires IndexOfEmployee(employees, e.id).None?
    requires !EmailTaken(employees, e.email, None)
    requires ValidRecord(e)
    ensures Consistent(employees + [e])
  {
    var s := employees + [e];
    forall i, j | 0 <= i < j < |s| ensures s[i].id != s[j].id && Lower(s[i].email) != Lower(s[j].email) {
      if j == |employees| {
        assert s[i] == employees[i];
      }
    }
  }

  /** Replacing record `i` by a valid record with the same id whose email no
      other record shares keeps the array consistent. */
  lemma ReplaceKeepsConsistent(employees: seq<Employee>, i: nat, m: Employee)
    requires Consistent(employees)
    requires i < |employees| && m.id == employees[i].id
    requires forall j :: 0 <= j < |employees| && j != i ==> Lower(employees[j].email) != Lower(m.email)
    requires ValidRecord(m)
    ensures Consistent(employees[i := m])
  {
    var s := employees[i := m];
    assert UniqueIds(s) by {
      forall j, k | 0 <= j < k < |s| ensures s[j].id != s[k].id {
        if j == i {
          assert employees[i].id != employees[k].id;
        } else if k == i {
          assert employees[j].id != employees[i].id;
        } else {
          assert employees[j].id != employees[k].id;
        }
      }
    }
    assert UniqueEmails(s) by {
      forall j, k | 0 <= j < k < |s| ensures Lower(s[j].email) != Lower(s[k].email) {
        if j != i && k != i {
          assert Lower(employees[j].email) != Lower(employees[k].email);
        }
      }
    }
    forall j | 0 <= j < |s| ensures ValidRecord(s[j]) {
      if j != i {
        assert s[j] == employees[j];
      }
    }
  }

  /** Changing a field that no rule of `Consistent` looks at keeps it. */
  lemma RestampKeepsConsistent(employees: seq<Employee>, i: nat, m: Employee)
    requires Consistent(employees)
    requires i < |employees|
    requires m.id == employees[i].id && m.name == employees[i].name
    requires m.email == employees[i].email && m.department == employees[i].department
    ensures Consistent(employees[i := m])
  {
    ReplaceKeepsConsistent(employees, i, m);
  }

  /** `{ ...employee, ...updates }`. */
  function Merge(e: Employee, p: EmployeePatch): Employee {
    Employee(
      if p.id.Some? then p.id.value else e.id,
      if p.name.Some? then p.name.value else e.name,
      if p.email.Some? then p.email.value else e.email,
      if p.department.Some? then p.department.value else e.department,
      if p.joiningDate.Some? then p.joiningDate.value else e.joiningDate,
      if p.leaveBalance.Some? then p.leaveBalance.value else e.leaveBalance,
      if p.role.Some? then p.role.value else e.role,
      if p.status.Some? then p.status.value else e.status)
  }

  /** A patch that gives no field leaves the record as it is. */
  lemma MergeEmpty(e: Employee)
    ensures Merge(e, EmployeePatch(None, None, None, None, None, None, None, None)) == e
  {
  }

  /** Applying the same patch twice is applying it once, and a field the
      patch does not give keeps the record's value. */
  lemma MergeIdempotent(e: Employee, p: EmployeePatch)
    ensures Merge(Merge(e, p), p) == Merge(e, p)
    ensures p.leaveBalance.None? ==> Merge(e, p).leaveBalance == e.leaveBalance
    ensures p.id.None? ==> Merge(e, p).id == e.id
  {
  }

  /** The error both create and update report for a duplicate address. */
  const DuplicateEmail := FieldError(EmailField, EmailExists)

  class EmployeeService {
    /** The stored employee array, in insertion order. */
    var employees: seq<Employee>

    constructor (initial: seq<Employee>)
      ensures employees == initial
    {
      employees := initial;
    }

    /** `getAllEmployees`: every stored record, active or not, in stored order. */
    function GetAllEmployees(): (r: Response<seq<Employee>>)
      reads this
      ensures r.Ok? && r.data == employees
    {
      Ok(employees)
    }

    /** `createEmployee`: validate, reject a case-insensitive duplicate email
        (of any record, active or inactive), else append the new record with
        the default balance and status active. */
    method CreateEmployee(input: NewEmployee, freshId: string, today: Day) returns (r: Response<Employee>)
      modifies this
      ensures !EmployeeFieldsValid(input.name, input.email, input.department, input.joiningDate, today) ==>
        && r == Fields(EmployeeErrors(input.name, input.email, input.department, input.joiningDate, today))
        && employees == old(employees)
      ensures EmployeeFieldsValid(input.name, input.email, input.department, input.joiningDate, today)
              && EmailTaken(old(employees), input.email, None) ==>
        r == Fields([DuplicateEmail]) && employees == old(employees)
      ensures EmployeeFieldsValid(input.name, input.email, input.department, input.joiningDate, today)
              && !EmailTaken(old(employees), input.email, None) ==>
        var e := Employee(freshId, input.name, input.email, input.department, input.joiningDate.value,
                          DefaultLeaveBalance, input.role, Active);
        r == Ok(e) && employees == old(employees) + [e]
      ensures Consistent(old(employees)) && IndexOfEmployee(old(employees), freshId).None? ==>
        Consistent(employees)
    {
      var errors := ValidateEmployee(input.name, input.email, input.department, input.joiningDate, today);
      if errors != [] {
        return Fields(errors);
      }
      if EmailTaken(employees, input.email, None) {
        return Fields([DuplicateEmail]);
      }
      var e := Employee(freshId, input.name, input.email, input.department, input.joiningDate.value,
                        DefaultLeaveBalance, input.role, Active);
      if Consistent(employees) && IndexOfEmployee(employees, freshId).None? {
        AppendKeepsConsistent(employees, e);
      }
      employees := employees + [e];
      r := Ok(e);
    }

    /** `updateEmployee`: unknown id first, then validation of the merged
        record, then the duplicate check (only when a non-empty email is
        given, excluding this id); on success only that index is replaced. */
    method UpdateEmployee(id: string, updates: EmployeePatch, today: Day) returns (r: Response<Employee>)
      modifies this
      ensures IndexOfEmployee(old(employees), id).None? ==>
        r == General("Employee not found") && employees == old(employees)
      ensures IndexOfEmployee(old(employees), id).Some? ==>
        var i := IndexOfEmployee(old(employees), id).value;
        var m := Merge(old(employees)[i], updates);
        if !EmployeeFieldsValid(m.name, m.email, m.department, Some(m.joiningDate), today) then
          && r == Fields(EmployeeErrors(m.name, m.email, m.department, Some(m.joiningDate), today))
          && employees == old(employees)
        else if updates.email.Some? && updates.email.value != [] && EmailTaken(old(employees), updates.email.value, Some(id)) then
          r == Fields([DuplicateEmail]) && employees == old(employees)
        else
          r == Ok(m) && employees == old(employees)[i := m]
      ensures Consistent(old(employees)) && (updates.id.None? || updates.id == Some(id)) ==>
        Consistent(employees)
    {
      var index := IndexOfEmployee(employees, id);
      if index.None? {
        return General("Employee not found");
      }
      var i := index.value;
      var m := Merge(employees[i], updates);
      var errors := ValidateEmployee(m.name, m.email, m.department, Some(m.joiningDate), today);
      if errors != [] {
        return Fields(errors);
      }
      if updates.email.Some? && updates.email.value != [] {
        if EmailTaken(employees, updates.email.value, Some(id)) {
          return Fields([DuplicateEmail]);
        }
      }
      if Consistent(employees) && (updates.id.None? || updates.id == Some(id)) {
        assert updates.email.Some? ==> updates.email.value != [] && !EmailTaken(employees, m.email, Some(id));
        forall j | 0 <= j < |employees| && j != i ensures Lower(employees[j].email) != Lower(m.email) {
          if updates.email.None? {
            assert m.email == employees[i].email;
            if j < i {
              assert Lower(employees[j].email) != Lower(employees[i].email);
            } else {
              assert Lower(employees[i].email) != Lower(employees[j].email);
            }
          } else if j < i {
            assert employees[j].id != employees[i].id;
          } else {
            assert employees[i].id != employees[j].id;
          }
        }
        ReplaceKeepsConsistent(employees, i, m);
      }
      employees := employees[i := m];
      r := Ok(m);
    }

    /** `deactivateEmployee`: soft delete; only the status of that record
        changes, and an already inactive record is left as it is. */
    method DeactivateEmployee(id: string) returns (r: Response<Employee>)
      modifies this
      ensures IndexOfEmployee(old(employees), id).None? ==>
        r == General("Employee not found") && employees == old(employees)
      ensures IndexOfEmployee(old(employees), id).Some? ==>
        var i := IndexOfEmployee(old(employees), id).value;
        var e := old(employees)[i].(status := Inactive);
        r == Ok(e) && employees == old(employees)[i := e]
      ensures IndexOfEmployee(old(employees), id).Some?
              && old(employees)[IndexOfEmployee(old(employees), id).value].status == Inactive ==>
        employees == old(employees)
      ensures Consistent(old(employees)) ==> Consistent(employees)
    {
      var index := IndexOfEmployee(employees, id);
      if index.None? {
        return General("Employee not found");
      }
      var i := index.value;
      if Consistent(employees) {
        RestampKeepsConsistent(employees, i, employees[i].(status := Inactive));
      }
      employees := employees[i := employees[i].(status := Inactive)];
      r := Ok(employees[i]);
    }

    /** `updateLeaveBalance`: the guarded setter. Unknown id first, then a
        negative balance is refused; otherwise only that balance changes. */
    method UpdateLeaveBalance(employeeId: string, newBalance: int) returns (r: Response<Employee>)
      modifies this
      ensures IndexOfEmployee(old(employees), employeeId).None? ==>
        r == General("Employee not found") && employees == old(employees)
      ensures IndexOfEmployee(old(employees), employeeId).Some? && newBalance < 0 ==>
        r == General("Leave balance cannot be negative") && employees == old(employees)
      ensures IndexOfEmployee(old(employees), employeeId).Some? && newBalance >= 0 ==>
        var i := IndexOfEmployee(old(employees), employeeId).value;
        var e := old(employees)[i].(leaveBalance := newBalance);
        r == Ok(e) && employees == old(employees)[i := e]
      ensures Consistent(old(employees)) ==> Consistent(employees)
    {
      var index := IndexOfEmployee(employees, employeeId);
      if index.None? {
        return General("Employee not found");
      }
      if newBalance < 0 {
        return General("Leave balance cannot be negative");
      }
      var i := index.value;
      if Consistent(employees) {
        RestampKeepsConsistent(employees, i, employees[i].(leaveBalance := newBalance));
      }
      employees := employees[i := employees[i].(leaveBalance := newBalance)];
      r := Ok(employees[i]);
    }
  }
}
