/** The records of the leave-management data layer and the uniform response
    envelope every service operation returns. */
module Types {

  /** A calendar date, as a count of days since 1970-01-01 (a Thursday). */
  type Day = int

  /** A point in time (an applied or decision timestamp), in milliseconds. */
  type Timestamp = int

  datatype Option<+T> = None | Some(value: T)

  /** The form fields a validation error can be attached to. */
  datatype FieldName =
    | NameField | EmailField | DepartmentField | JoiningDateField
    | EmployeeIdField | StartDateField | EndDateField | LeaveTypeField | ReasonField

  /** The messages a field error can carry; `Wording` gives the exact text
      each one stands for. */
  datatype Message =
    | NameRequired | NameTooShort | EmailRequired | EmailInvalid | EmailExists
    | DepartmentRequired | JoiningDateRequired | JoiningDateInFuture
    | EmployeeRequired | EmployeeUnknown | EmployeeInactive
    | StartDateRequired | EndDateRequired | LeaveTypeRequired | ReasonRequired
    | EndBeforeStart | DurationTooLong

  function Wording(m: Message): string {
    match m
    case NameRequired => "Name is required"
    case NameTooShort => "Name must be at least 2 characters"
    case EmailRequired => "Email is required"
    case EmailInvalid => "Invalid email format"
    case EmailExists => "Email already exists"
    case DepartmentRequired => "Department is required"
    case JoiningDateRequired => "Joining date is required"
    case JoiningDateInFuture => "Joining date cannot be in the future"
    case EmployeeRequired => "Employee is required"
    case EmployeeUnknown => "Employee not found"
    case EmployeeInactive => "Cannot apply leave for inactive employee"
    case StartDateRequired => "Start date is required"
    case EndDateRequired => "End date is required"
    case LeaveTypeRequired => "Leave type is required"
    case ReasonRequired => "Reason is required"
    case EndBeforeStart => "End date cannot be before start date"
    case DurationTooLong => "Leave duration cannot exceed 365 days"
  }

  /** One failing field and the message shown next to it. */
  datatype FieldError = FieldError(field: FieldName, message: Message)

  /** `{ success: true, data }`, `{ success: false, error }` or
      `{ success: false, errors: [...] }`. */
  datatype Response<+T> =
    | Ok(data: T)
    | General(error: string)
    | Fields(errors: seq<FieldError>)

  datatype Role = StaffRole | HrRole

  datatype EmployeeStatus = Active | Inactive

  datatype LeaveType = Annual | Sick | Personal | Emergency | Maternity | Paternity

  /** `Cancelled` is declared but no operation ever produces it. */
  datatype LeaveStatus = Pending | Approved | Rejected | Cancelled

  datatype Employee = Employee(
    id: string,
    name: string,
    email: string,
    department: string,
    joiningDate: Day,
    leaveBalance: int,
    role: Role,
    status: EmployeeStatus)

  datatype LeaveRequest = LeaveRequest(
    id: string,
    employeeId: string,
    employeeName: string,
    startDate: Day,
    endDate: Day,
    leaveType: LeaveType,
    reason: string,
    status: LeaveStatus,
    appliedDate: Timestamp,
    approvedBy: Option<string>,
    approvedDate: Option<Timestamp>,
    days: nat,
    comments: Option<string>)

  datatype LeaveBalance = LeaveBalance(
    employeeId: string,
    annual: int,
    sick: int,
    personal: int,
    used: int,
    remaining: int)

  /** `averageLeaveTenths` is the average rounded to one decimal, times ten. */
  datatype LeaveStats = LeaveStats(
    totalEmployees: nat,
    pendingRequests: nat,
    approvedRequests: nat,
    rejectedRequests: nat,
    totalLeavesTaken: int,
    averageLeaveTenths: int)

  datatype DashboardData = DashboardData(
    stats: LeaveStats,
    recentRequests: seq<LeaveRequest>,
    upcomingLeaves: seq<LeaveRequest>,
    lowBalanceEmployees: seq<Employee>)
}
