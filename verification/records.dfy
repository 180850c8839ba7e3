/** The entities of the console's mock data store (client/src/lib/db.ts). */
module Records {
  import opened Options

  datatype Role = Admin | HR | Employee

  /** Admins and HR staff see company-wide data on every page. */
  predicate IsAdminOrHR(r: Role) {
    r == Admin || r == HR
  }

  datatype UserStatus = Active | OnLeave | Terminated

  /** A staff member. Salary is a JavaScript number, modelled as an exact real.
      `isEmployee` is absent on users created from the Employees page, which
      JavaScript reads as false. */
  datatype User = User(
    id: string,
    name: string,
    email: string,
    role: Role,
    department: string,
    position: string,
    joinDate: string,
    salary: real,
    status: UserStatus,
    branch: string,
    isEmployee: bool)

  datatype AttendanceStatus = Present | Late | Absent | HalfDay

  /** One day's clock-in for one user; `timeOut` stays absent until clock-out.
      Dates are `YYYY-MM-DD` strings and times are display strings. */
  datatype Attendance = Attendance(
    id: string,
    userId: string,
    date: string,
    timeIn: string,
    timeOut: Option<string>,
    status: AttendanceStatus)

  datatype LeaveType = Vacation | Sick | Personal | Emergency

  datatype LeaveStatus = LeavePending | LeaveApproved | LeaveRejected

  datatype LeaveRequest = LeaveRequest(
    id: string,
    userId: string,
    leaveType: LeaveType,
    startDate: string,
    endDate: string,
    reason: string,
    status: LeaveStatus)

  datatype AdvanceStatus = Pending | Approved | Rejected | Paid

  /** A cash-advance request; the amount is whatever `parseFloat` made of the form field. */
  datatype CashAdvance = CashAdvance(
    id: string,
    userId: string,
    amount: real,
    purpose: string,
    status: AdvanceStatus,
    requestDate: string)
}
