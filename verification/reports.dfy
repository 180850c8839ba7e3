/** The figures of the Reports page (client/src/pages/Reports.tsx): headcount,
    department distribution, attendance mix and the monthly payroll chart. */
module ReportsPage {
  import opened Seqs
  import opened Grouping
  import opened Records
  import opened Db

  // ----------------------------------------------------------- headcount

  datatype Headcount = Headcount(total: nat, active: nat, onLeave: nat)

  /** The three headline cards: every user, the active ones, the ones on leave. */
  function GetHeadcount(users: seq<User>): (r: Headcount)
    ensures r.total == |users|
    ensures r.active == multiset(Map(UserStatusOf, users))[Active]
    ensures r.onLeave == multiset(Map(UserStatusOf, users))[OnLeave]
    ensures r.active + r.onLeave <= r.total
  {
    var onLeave := Filter((u: User) => u.status == OnLeave, users);
    CountIsMultiplicity((u: User) => u.status == OnLeave, UserStatusOf, OnLeave, users);
    CountDisjoint((u: User) => u.status == Active, (u: User) => u.status == OnLeave, users);
    Headcount(|users|, |ActiveUsers(users)|, |onLeave|)
  }

  // ------------------------------------------------ department breakdown

  function DepartmentOf(u: User): string { u.department }

  /** The users of one department. */
  function InDepartment(users: seq<User>, d: string): (r: seq<User>)
    ensures forall u :: u in r ==> u in users && u.department == d
    ensures forall u :: u in users && u.department == d ==> u in r
    ensures forall u :: multiset(r)[u] == if u.department == d then multiset(users)[u] else 0
  {
    var p := (u: User) => u.department == d;
    FilterMultiplicity(p, users);
    Filter(p, users)
  }

  /** The department pie: one slice per department, in the order the
      departments first occur among the users, sized by its headcount. */
  function DepartmentDistribution(users: seq<User>): (r: seq<Bucket>)
    ensures Distinct(Names(r))
    ensures forall d :: d in Names(r) ==> exists u :: u in users && u.department == d
    ensures forall u :: u in users ==> u.department in Names(r)
    ensures forall d :: ValueOf(r, d) == |InDepartment(users, d)|
    ensures Total(r) == |users|
    ensures forall d :: d in Names(r) ==> d in Map(DepartmentOf, users)
    ensures forall i, j :: 0 <= i < j < |r| ==>
      FirstIndex(Map(DepartmentOf, users), r[i].name) < FirstIndex(Map(DepartmentOf, users), r[j].name)
  {
    var r := GroupCount(Map(DepartmentOf, users));
    DepartmentCounts(users, r);
    DepartmentNames(users, r);
    r
  }

  lemma DepartmentCounts(users: seq<User>, r: seq<Bucket>)
    requires forall k :: ValueOf(r, k) == multiset(Map(DepartmentOf, users))[k]
    ensures forall d :: ValueOf(r, d) == |InDepartment(users, d)|
  {
    forall d ensures ValueOf(r, d) == |InDepartment(users, d)| {
      CountIsMultiplicity((u: User) => u.department == d, DepartmentOf, d, users);
    }
  }

  lemma DepartmentNames(users: seq<User>, r: seq<Bucket>)
    requires forall k :: k in Names(r) ==> k in Map(DepartmentOf, users)
    requires forall k :: k in Map(DepartmentOf, users) ==> k in Names(r)
    ensures forall d :: d in Names(r) ==> exists u :: u in users && u.department == d
    ensures forall u :: u in users ==> u.department in Names(r)
  {
    var keys := Map(DepartmentOf, users);
    forall d | d in Names(r) ensures exists u :: u in users && u.department == d {
      var i :| 0 <= i < |keys| && keys[i] == d;
      assert users[i] in users;
    }
    forall u | u in users ensures u.department in Names(r) {
      var i :| 0 <= i < |users| && users[i] == u;
      assert keys[i] == u.department;
    }
  }

  // ------------------------------------------------------ attendance mix

  datatype AttendanceMix = AttendanceMix(present: nat, late: nat, absent: nat)

  /** The attendance bars, over every record in the store. Half-day records
      are not charted, so the three bars can fall short of the record count
      by exactly the half days. */
  function GetAttendanceMix(att: seq<Attendance>): (r: AttendanceMix)
    ensures r.present == multiset(Map(AttendanceStatusOf, att))[Present]
    ensures r.late == multiset(Map(AttendanceStatusOf, att))[Late]
    ensures r.absent == multiset(Map(AttendanceStatusOf, att))[Absent]
    ensures r.present + r.late + r.absent + |WithStatus(att, HalfDay)| == |att|
    ensures r.present + r.late + r.absent <= |att|
  {
    StatusMultiplicities(Map(AttendanceStatusOf, att));
    AttendanceMix(|WithStatus(att, Present)|, |WithStatus(att, Late)|, |WithStatus(att, Absent)|)
  }

  // ------------------------------------------------------------- payroll

  /** The sum of the users' annual salaries. */
  function SumSalaries(users: seq<User>): real {
    if |users| == 0 then 0.0 else users[0].salary + SumSalaries(users[1..])
  }

  /** The page's left-to-right `reduce`, adding each user's salary over twelve. */
  function PayrollFold(acc: real, users: seq<User>): real
    decreases |users|
  {
    if |users| == 0 then acc else PayrollFold(acc + users[0].salary / 12.0, users[1..])
  }

  function TotalMonthlyPayroll(users: seq<User>): real {
    PayrollFold(0.0, users)
  }

  lemma {:induction false} PayrollFoldIsSum(acc: real, users: seq<User>)
    ensures PayrollFold(acc, users) == acc + SumSalaries(users) / 12.0
    decreases |users|
  {
    if |users| > 0 {
      PayrollFoldIsSum(acc + users[0].salary / 12.0, users[1..]);
    }
  }

  /** The monthly payroll is a twelfth of the annual salary bill. */
  lemma MonthlyPayrollIsTwelfth(users: seq<User>)
    ensures TotalMonthlyPayroll(users) == SumSalaries(users) / 12.0
  {
    PayrollFoldIsSum(0.0, users);
  }

  datatype MonthAmount = MonthAmount(name: string, amount: real)

  /** The payroll chart: five months scaled from the current monthly bill. */
  function PayrollSeries(users: seq<User>): (r: seq<MonthAmount>)
    ensures |r| == 5
    ensures r[0] == MonthAmount("Jan", SumSalaries(users) / 12.0 * 0.98)
    ensures r[1] == MonthAmount("Feb", SumSalaries(users) / 12.0 * 0.99)
    ensures r[2] == MonthAmount("Mar", SumSalaries(users) / 12.0)
    ensures r[3] == MonthAmount("Apr", SumSalaries(users) / 12.0 * 1.02)
    ensures r[4] == MonthAmount("May", SumSalaries(users) / 12.0)
  {
    MonthlyPayrollIsTwelfth(users);
    var m := TotalMonthlyPayroll(users);
    [MonthAmount("Jan", m * 0.98), MonthAmount("Feb", m * 0.99), MonthAmount("Mar", m),
     MonthAmount("Apr", m * 1.02), MonthAmount("May", m)]
  }
}
