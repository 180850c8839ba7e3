/** The singleton `DataManager` of client/src/lib/db.ts, as an immutable
    value: every update is a function from the old store to the new one.
    The clock ("today", the archive threshold), the current user and
    generated ids are parameters. */
module Db {
  import opened Options
  import opened Seqs
  import opened Grouping
  import opened Text
  import opened Records

  /** An attendance record moved to the archive by `archiveData`. */
  datatype ArchivedRecord = ArchivedRecord(record: Attendance, archiveType: string, archivedAt: string)

  datatype Store = Store(
    users: seq<User>,
    attendance: seq<Attendance>,
    leave: seq<LeaveRequest>,
    cashAdvances: seq<CashAdvance>,
    archives: seq<ArchivedRecord>,
    currentUser: Option<User>)

  // ---------------------------------------------------------------- users

  /** A `Partial<User>`: the fields present override the user's. */
  datatype UserPatch = UserPatch(
    id: Option<string>,
    name: Option<string>,
    email: Option<string>,
    role: Option<Role>,
    department: Option<string>,
    position: Option<string>,
    joinDate: Option<string>,
    salary: Option<real>,
    status: Option<UserStatus>,
    branch: Option<string>,
    isEmployee: Option<bool>)

  /** `{ ...u, ...p }`. */
  function PatchUser(u: User, p: UserPatch): User {
    User(p.id.Or(u.id), p.name.Or(u.name), p.email.Or(u.email), p.role.Or(u.role),
         p.department.Or(u.department), p.position.Or(u.position), p.joinDate.Or(u.joinDate),
         p.salary.Or(u.salary), p.status.Or(u.status), p.branch.Or(u.branch),
         p.isEmployee.Or(u.isEmployee))
  }

  /** `addUser` appends the new user at the end of the list. */
  function AddUser(st: Store, u: User): (r: Store)
    ensures r == st.(users := r.users)
    ensures |r.users| == |st.users| + 1
    ensures r.users[..|st.users|] == st.users && r.users[|st.users|] == u
  {
    st.(users := st.users + [u])
  }

  /** `updateUser` merges the patch into every user with the given id and
      leaves every other user where and as it was. */
  function UpdateUser(st: Store, id: string, p: UserPatch): (r: Store)
    ensures r == st.(users := r.users)
    ensures |r.users| == |st.users|
    ensures forall i :: 0 <= i < |st.users| && st.users[i].id != id ==> r.users[i] == st.users[i]
    ensures forall i :: 0 <= i < |st.users| && st.users[i].id == id ==> r.users[i] == PatchUser(st.users[i], p)
  {
    st.(users := Map((u: User) => if u.id == id then PatchUser(u, p) else u, st.users))
  }

  /** `deleteUser` removes exactly the users with the given id and keeps the others in order. */
  function DeleteUser(st: Store, id: string): (r: Store)
    ensures r == st.(users := r.users)
    ensures forall u :: u in r.users ==> u in st.users && u.id != id
    ensures forall u :: u in st.users && u.id != id ==> u in r.users
    ensures forall u :: multiset(r.users)[u] == if u.id != id then multiset(st.users)[u] else 0
    ensures IsSubsequence(r.users, st.users)
  {
    var p := (u: User) => u.id != id;
    FilterPreservesOrder(p, st.users);
    FilterMultiplicity(p, st.users);
    st.(users := Filter(p, st.users))
  }

  /** Deleting a freshly added user by its (unused) id gives back the original store. */
  lemma AddThenDeleteUser(st: Store, u: User)
    requires forall v :: v in st.users ==> v.id != u.id
    ensures DeleteUser(AddUser(st, u), u.id) == st
  {
    var p := (v: User) => v.id != u.id;
    FilterAppend(p, st.users, [u]);
    FilterKeepsAll(p, st.users);
    assert Filter(p, [u]) == [];
  }

  // ----------------------------------------------------------- attendance

  /** A `Partial<Attendance>`. */
  datatype AttendancePatch = AttendancePatch(
    id: Option<string>,
    userId: Option<string>,
    date: Option<string>,
    timeIn: Option<string>,
    timeOut: Option<string>,
    status: Option<AttendanceStatus>)

  /** `{ ...a, ...p }`; a present `timeOut` replaces the record's (absent or not). */
  function PatchAttendance(a: Attendance, p: AttendancePatch): Attendance {
    Attendance(p.id.Or(a.id), p.userId.Or(a.userId), p.date.Or(a.date), p.timeIn.Or(a.timeIn),
               if p.timeOut.Some? then p.timeOut else a.timeOut, p.status.Or(a.status))
  }

  /** `addAttendance` puts the record in front; the old records follow in their old order. */
  function AddAttendance(st: Store, a: Attendance): (r: Store)
    ensures r == st.(attendance := r.attendance)
    ensures |r.attendance| == |st.attendance| + 1
    ensures r.attendance[0] == a && r.attendance[1..] == st.attendance
  {
    st.(attendance := [a] + st.attendance)
  }

  /** `updateAttendance` merges the patch into the records with the given id only. */
  function UpdateAttendance(st: Store, id: string, p: AttendancePatch): (r: Store)
    ensures r == st.(attendance := r.attendance)
    ensures |r.attendance| == |st.attendance|
    ensures forall i :: 0 <= i < |st.attendance| && st.attendance[i].id != id ==> r.attendance[i] == st.attendance[i]
    ensures forall i :: 0 <= i < |st.attendance| && st.attendance[i].id == id ==> r.attendance[i] == PatchAttendance(st.attendance[i], p)
  {
    st.(attendance := Map((a: Attendance) => if a.id == id then PatchAttendance(a, p) else a, st.attendance))
  }

  /** Patching an id no record carries leaves the store as it was. */
  lemma UpdateAttendanceMissingId(st: Store, id: string, p: AttendancePatch)
    requires forall a :: a in st.attendance ==> a.id != id
    ensures UpdateAttendance(st, id, p) == st
  {
    var r := UpdateAttendance(st, id, p);
    assert r.attendance == st.attendance;
  }

  /** Applying the same patch twice is applying it once. (A patch that
      renames the records leaves none with `id` for the second pass.) */
  lemma UpdateAttendanceIdempotent(st: Store, id: string, p: AttendancePatch)
    ensures UpdateAttendance(UpdateAttendance(st, id, p), id, p) == UpdateAttendance(st, id, p)
  {
    var once := UpdateAttendance(st, id, p);
    var twice := UpdateAttendance(once, id, p);
    assert twice.attendance == once.attendance;
  }

  // -------------------------------------------------------- cash advances

  /** `addCashAdvanceRequest` puts the request in front of the others. */
  function AddCashAdvance(st: Store, ca: CashAdvance): (r: Store)
    ensures r == st.(cashAdvances := r.cashAdvances)
    ensures |r.cashAdvances| == |st.cashAdvances| + 1
    ensures r.cashAdvances[0] == ca && r.cashAdvances[1..] == st.cashAdvances
  {
    st.(cashAdvances := [ca] + st.cashAdvances)
  }

  /** `updateCashAdvanceStatus` rewrites the status, and nothing else, of the
      requests with the given id. It checks no transition: any status may
      follow any other at this layer. */
  function UpdateCashAdvanceStatus(st: Store, id: string, s: AdvanceStatus): (r: Store)
    ensures r == st.(cashAdvances := r.cashAdvances)
    ensures |r.cashAdvances| == |st.cashAdvances|
    ensures forall i :: 0 <= i < |st.cashAdvances| && st.cashAdvances[i].id != id ==> r.cashAdvances[i] == st.cashAdvances[i]
    ensures forall i :: 0 <= i < |st.cashAdvances| && st.cashAdvances[i].id == id ==>
      r.cashAdvances[i].status == s && r.cashAdvances[i].(status := st.cashAdvances[i].status) == st.cashAdvances[i]
  {
    st.(cashAdvances := Map((ca: CashAdvance) => if ca.id == id then ca.(status := s) else ca, st.cashAdvances))
  }

  /** `deleteCashAdvanceRequest` removes exactly the requests with the given id, keeping the order of the rest. */
  function DeleteCashAdvance(st: Store, id: string): (r: Store)
    ensures r == st.(cashAdvances := r.cashAdvances)
    ensures forall ca :: ca in r.cashAdvances ==> ca in st.cashAdvances && ca.id != id
    ensures forall ca :: ca in st.cashAdvances && ca.id != id ==> ca in r.cashAdvances
    ensures forall ca :: multiset(r.cashAdvances)[ca] == if ca.id != id then multiset(st.cashAdvances)[ca] else 0
    ensures IsSubsequence(r.cashAdvances, st.cashAdvances)
  {
    var p := (ca: CashAdvance) => ca.id != id;
    FilterPreservesOrder(p, st.cashAdvances);
    FilterMultiplicity(p, st.cashAdvances);
    st.(cashAdvances := Filter(p, st.cashAdvances))
  }

  /** Deleting a freshly submitted request by its (unused) id gives back the original store. */
  lemma AddThenDeleteCashAdvance(st: Store, ca: CashAdvance)
    requires forall c :: c in st.cashAdvances ==> c.id != ca.id
    ensures DeleteCashAdvance(AddCashAdvance(st, ca), ca.id) == st
  {
    var p := (c: CashAdvance) => c.id != ca.id;
    FilterKeepsAll(p, st.cashAdvances);
    var added := [ca] + st.cashAdvances;
    assert added[1..] == st.cashAdvances;
  }

  // ------------------------------------------------------------- archive

  /** `new Date(a.date) < threshold`. `parseDate` stands for the `Date`
      constructor; an unparseable date compares false. */
  predicate IsStale(a: Attendance, parseDate: string -> Option<int>, threshold: int) {
    match parseDate(a.date)
    case Some(t) => t < threshold
    case None => false
  }

  function StaleRecords(att: seq<Attendance>, parseDate: string -> Option<int>, threshold: int): (r: seq<Attendance>)
    ensures forall a :: a in r ==> a in att && IsStale(a, parseDate, threshold)
    ensures forall a :: a in att && IsStale(a, parseDate, threshold) ==> a in r
    ensures multiset(r) + multiset(KeptRecords(att, parseDate, threshold)) == multiset(att)
    ensures |r| + |KeptRecords(att, parseDate, threshold)| == |att|
  {
    var p := (a: Attendance) => IsStale(a, parseDate, threshold);
    FilterPartition(p, KeptPredicate(parseDate, threshold), att);
    Filter(p, att)
  }

  function KeptPredicate(parseDate: string -> Option<int>, threshold: int): Attendance -> bool {
    (a: Attendance) => !IsStale(a, parseDate, threshold)
  }

  function KeptRecords(att: seq<Attendance>, parseDate: string -> Option<int>, threshold: int): (r: seq<Attendance>)
    ensures forall a :: a in r ==> a in att && !IsStale(a, parseDate, threshold)
    ensures forall a :: a in att && !IsStale(a, parseDate, threshold) ==> a in r
    ensures IsSubsequence(r, att)
  {
    FilterPreservesOrder(KeptPredicate(parseDate, threshold), att);
    Filter(KeptPredicate(parseDate, threshold), att)
  }

  /** The archive entries made for `recs`, in order. */
  function Tag(recs: seq<Attendance>, archivedAt: string): (r: seq<ArchivedRecord>)
    ensures |r| == |recs|
    ensures forall i :: 0 <= i < |recs| ==> r[i] == ArchivedRecord(recs[i], "attendance", archivedAt)
  {
    Map((a: Attendance) => ArchivedRecord(a, "attendance", archivedAt), recs)
  }

  datatype ArchiveResult = ArchiveResult(store: Store, moved: nat)

  /** `archiveData(kind)`: for "attendance", moves the records dated before
      the threshold (two months before now) to the archive and returns how
      many moved; any other kind moves nothing. */
  function ArchiveData(st: Store, kind: string, parseDate: string -> Option<int>, threshold: int, archivedAt: string): (r: ArchiveResult)
    ensures kind != "attendance" ==> r.store == st && r.moved == 0
    ensures kind == "attendance" ==>
      && r.store == st.(attendance := r.store.attendance, archives := r.store.archives)
      && r.store.attendance == KeptRecords(st.attendance, parseDate, threshold)
      && r.store.archives == st.archives + Tag(StaleRecords(st.attendance, parseDate, threshold), archivedAt)
      && r.moved == |StaleRecords(st.attendance, parseDate, threshold)|
    ensures r.moved + |r.store.attendance| == |st.attendance|
    ensures |r.store.archives| == |st.archives| + r.moved
  {
    if kind == "attendance" then
      var stale := StaleRecords(st.attendance, parseDate, threshold);
      ArchiveResult(
        st.(archives := st.archives + Tag(stale, archivedAt),
            attendance := KeptRecords(st.attendance, parseDate, threshold)),
        |stale|)
    else
      ArchiveResult(st, 0)
  }

  // --------------------------------------------------------------- login

  /** The login match: e-mail compared case-insensitively, role exactly. */
  predicate Matches(u: User, email: string, role: Role) {
    Lower(u.email) == Lower(email) && u.role == role
  }

  datatype LoginResult = LoginResult(store: Store, user: Option<User>)

  /** `login` picks the first user matching e-mail and role and makes it the
      current user; when none matches it returns null and changes nothing. */
  function Login(st: Store, email: string, role: Role): (r: LoginResult)
    ensures r.user.Some? ==> r.user.value in st.users && Matches(r.user.value, email, role)
    ensures r.user.Some? ==> r.store == st.(currentUser := r.user)
    ensures r.user.Some? ==>
      (exists i :: 0 <= i < |st.users| && st.users[i] == r.user.value &&
         forall j :: 0 <= j < i ==> !Matches(st.users[j], email, role))
    ensures r.user.None? <==> forall u :: u in st.users ==> !Matches(u, email, role)
    ensures r.user.None? ==> r.store == st
  {
    match FindFirst((u: User) => Matches(u, email, role), st.users)
    case Some(i) => LoginResult(st.(currentUser := Some(st.users[i])), Some(st.users[i]))
    case None => LoginResult(st, None)
  }

  /** Login is insensitive to the case of the typed e-mail. */
  lemma LoginIgnoresEmailCase(st: Store, email: string, role: Role)
    ensures Login(st, Lower(email), role) == Login(st, email, role)
  {
    LowerIdempotent(email);
    var a := Login(st, Lower(email), role);
    var b := Login(st, email, role);
    assert forall u :: Matches(u, Lower(email), role) == Matches(u, email, role);
    if a.user.Some? && b.user.Some? {
      var i :| 0 <= i < |st.users| && st.users[i] == a.user.value &&
        forall j :: 0 <= j < i ==> !Matches(st.users[j], Lower(email), role);
      var k :| 0 <= k < |st.users| && st.users[k] == b.user.value &&
        forall j :: 0 <= j < k ==> !Matches(st.users[j], email, role);
      if i < k {
        assert Matches(st.users[i], email, role);
      }
    }
  }

  /** The first user whose id is `id`, if any. */
  function UserById(users: seq<User>, id: string): (r: Option<User>)
    ensures r.Some? ==> r.value in users && r.value.id == id
    ensures r.Some? ==>
      (exists i :: 0 <= i < |users| && users[i] == r.value && forall j :: 0 <= j < i ==> users[j].id != id)
    ensures r.None? <==> forall u :: u in users ==> u.id != id
  {
    match FindFirst((u: User) => u.id == id, users)
    case Some(i) => Some(users[i])
    case None => None
  }

  // ---------------------------------------------------- dashboard figures

  function AttendanceStatusOf(a: Attendance): AttendanceStatus { a.status }
  function UserStatusOf(u: User): UserStatus { u.status }
  function AdvanceStatusOf(ca: CashAdvance): AdvanceStatus { ca.status }

  /** The records dated `today`, in store order. */
  function TodaysRecords(att: seq<Attendance>, today: string): (r: seq<Attendance>)
    ensures forall a :: a in r ==> a in att && a.date == today
    ensures forall a :: a in att && a.date == today ==> a in r
    ensures |r| <= |att|
    ensures forall a :: multiset(r)[a] == if a.date == today then multiset(att)[a] else 0
  {
    var p := (a: Attendance) => a.date == today;
    FilterMultiplicity(p, att);
    Filter(p, att)
  }

  /** The records with status `s`; there are as many as `s` occurs among the statuses. */
  function WithStatus(att: seq<Attendance>, s: AttendanceStatus): (r: seq<Attendance>)
    ensures forall a :: a in r ==> a in att && a.status == s
    ensures forall a :: a in att && a.status == s ==> a in r
    ensures |r| == multiset(Map(AttendanceStatusOf, att))[s]
  {
    var p := (a: Attendance) => a.status == s;
    CountIsMultiplicity(p, AttendanceStatusOf, s, att);
    Filter(p, att)
  }

  /** The users whose status is active. */
  function ActiveUsers(users: seq<User>): (r: seq<User>)
    ensures forall u :: u in r ==> u in users && u.status == Active
    ensures forall u :: u in users && u.status == Active ==> u in r
    ensures |r| == multiset(Map(UserStatusOf, users))[Active]
  {
    var p := (u: User) => u.status == Active;
    CountIsMultiplicity(p, UserStatusOf, Active, users);
    Filter(p, users)
  }

  /** The requests still pending. */
  function PendingAdvances(cas: seq<CashAdvance>): (r: seq<CashAdvance>)
    ensures forall ca :: ca in r ==> ca in cas && ca.status == Pending
    ensures forall ca :: ca in cas && ca.status == Pending ==> ca in r
    ensures |r| <= |cas|
    ensures |r| == multiset(Map(AdvanceStatusOf, cas))[Pending]
  {
    var p := (ca: CashAdvance) => ca.status == Pending;
    CountIsMultiplicity(p, AdvanceStatusOf, Pending, cas);
    Filter(p, cas)
  }

  /** At most one status per record: present and late records are never more than all records. */
  lemma PresentPlusLateAtMostAll(att: seq<Attendance>)
    ensures |WithStatus(att, Present)| + |WithStatus(att, Late)| <= |att|
  {
    StatusMultiplicities(Map(AttendanceStatusOf, att));
  }

  /** The four attendance statuses together account for every record. */
  lemma {:induction false} StatusMultiplicities(ss: seq<AttendanceStatus>)
    ensures multiset(ss)[Present] + multiset(ss)[Late] + multiset(ss)[Absent] + multiset(ss)[HalfDay] == |ss|
    decreases |ss|
  {
    if |ss| > 0 {
      StatusMultiplicities(ss[1..]);
      assert ss == [ss[0]] + ss[1..];
      var m := multiset(ss[1..]);
      assert multiset(ss) == multiset{ss[0]} + m;
      match ss[0]
      case Present => assert multiset(ss)[Present] == m[Present] + 1;
      case Late => assert multiset(ss)[Late] == m[Late] + 1;
      case Absent => assert multiset(ss)[Absent] == m[Absent] + 1;
      case HalfDay => assert multiset(ss)[HalfDay] == m[HalfDay] + 1;
    }
  }

  /** `Math.max(0, active - recorded)`: the active staff not matched by a
      record today, clamped at zero. */
  function AbsentFigure(active: nat, recorded: nat): (r: nat)
    ensures r <= active
    ensures r + recorded >= active
    ensures r == 0 || r + recorded == active
  {
    if active > recorded then active - recorded else 0
  }

  datatype DashboardStats = DashboardStats(
    totalEmployees: nat,
    onTimeToday: nat,
    lateToday: nat,
    absentToday: nat,
    pendingAdvances: nat)

  /** `getDashboardStats`, for the given `today`. `totalEmployees` counts the
      active users only; the absent figure subtracts every record dated today
      from that, whatever the record's status or owner. */
  function GetDashboardStats(st: Store, today: string): (r: DashboardStats)
    ensures r.totalEmployees == multiset(Map(UserStatusOf, st.users))[Active]
    ensures r.onTimeToday == multiset(Map(AttendanceStatusOf, TodaysRecords(st.attendance, today)))[Present]
    ensures r.lateToday == multiset(Map(AttendanceStatusOf, TodaysRecords(st.attendance, today)))[Late]
    ensures r.onTimeToday + r.lateToday <= |TodaysRecords(st.attendance, today)|
    ensures r.absentToday <= r.totalEmployees
    ensures r.absentToday + |TodaysRecords(st.attendance, today)| >= r.totalEmployees
    ensures r.absentToday == 0 || r.absentToday + |TodaysRecords(st.attendance, today)| == r.totalEmployees
    ensures r.pendingAdvances == multiset(Map(AdvanceStatusOf, st.cashAdvances))[Pending]
  {
    var todays := TodaysRecords(st.attendance, today);
    var active := |ActiveUsers(st.users)|;
    PresentPlusLateAtMostAll(todays);
    DashboardStats(
      active,
      |WithStatus(todays, Present)|,
      |WithStatus(todays, Late)|,
      AbsentFigure(active, |todays|),
      |PendingAdvances(st.cashAdvances)|)
  }

  // ------------------------------------------------- branch distribution

  function BranchOf(u: User): string { u.branch }

  /** The users flagged `isEmployee`. */
  function EmployeeUsers(users: seq<User>): (r: seq<User>)
    ensures forall u :: u in r ==> u in users && u.isEmployee
    ensures forall u :: u in users && u.isEmployee ==> u in r
    ensures forall u :: multiset(r)[u] == if u.isEmployee then multiset(users)[u] else 0
  {
    var p := (u: User) => u.isEmployee;
    FilterMultiplicity(p, users);
    Filter(p, users)
  }

  /** `getBranchDistribution`: one bucket per branch of the `isEmployee`
      users, valued with how many of them work there. */
  function GetBranchDistribution(st: Store): (r: seq<Bucket>)
    ensures Distinct(Names(r))
    ensures forall b :: b in Names(r) <==> b in Map(BranchOf, EmployeeUsers(st.users))
    ensures forall b :: ValueOf(r, b) == multiset(Map(BranchOf, EmployeeUsers(st.users)))[b]
    ensures Total(r) == |EmployeeUsers(st.users)|
  {
    GroupCount(Map(BranchOf, EmployeeUsers(st.users)))
  }

  // ------------------------------------------------------- leave balance

  /** The user's leave requests with status `s`. */
  function LeaveWith(leave: seq<LeaveRequest>, userId: string, s: LeaveStatus): (r: seq<LeaveRequest>)
    ensures forall l :: l in r ==> l in leave && l.userId == userId && l.status == s
    ensures forall l :: l in leave && l.userId == userId && l.status == s ==> l in r
    ensures forall l :: multiset(r)[l] == if l.userId == userId && l.status == s then multiset(leave)[l] else 0
  {
    var p := (l: LeaveRequest) => l.userId == userId && l.status == s;
    FilterMultiplicity(p, leave);
    Filter(p, leave)
  }

  datatype LeaveBalance = LeaveBalance(total: nat, used: nat, pending: nat)

  function LeaveKeyOf(l: LeaveRequest): (string, LeaveStatus) { (l.userId, l.status) }

  /** `getLeaveBalance`: a fixed allowance of 15 days, two days used per
      approved request of the user, and the number of the user's pending
      requests. */
  function GetLeaveBalance(st: Store, userId: string): (r: LeaveBalance)
    ensures r.total == 15
    ensures r.used == 2 * multiset(Map(LeaveKeyOf, st.leave))[(userId, LeaveApproved)]
    ensures r.pending == multiset(Map(LeaveKeyOf, st.leave))[(userId, LeavePending)]
    ensures r.used / 2 + r.pending <= |st.leave|
  {
    var approved := (l: LeaveRequest) => l.userId == userId && l.status == LeaveApproved;
    var pending := (l: LeaveRequest) => l.userId == userId && l.status == LeavePending;
    CountDisjoint(approved, pending, st.leave);
    CountIsMultiplicity(approved, LeaveKeyOf, (userId, LeaveApproved), st.leave);
    CountIsMultiplicity(pending, LeaveKeyOf, (userId, LeavePending), st.leave);
    LeaveBalance(15, 2 * |LeaveWith(st.leave, userId, LeaveApproved)|, |LeaveWith(st.leave, userId, LeavePending)|)
  }

  /** `addLeaveRequest` puts the request in front of the old ones. */
  function AddLeaveRequest(st: Store, l: LeaveRequest): (r: Store)
    ensures r == st.(leave := r.leave)
    ensures |r.leave| == |st.leave| + 1
    ensures r.leave[0] == l && r.leave[1..] == st.leave
  {
    st.(leave := [l] + st.leave)
  }

  /** `updateLeaveStatus` rewrites the status of the requests with the id, and nothing else. */
  function UpdateLeaveStatus(st: Store, id: string, s: LeaveStatus): (r: Store)
    ensures r == st.(leave := r.leave)
    ensures |r.leave| == |st.leave|
    ensures forall i :: 0 <= i < |st.leave| && st.leave[i].id != id ==> r.leave[i] == st.leave[i]
    ensures forall i :: 0 <= i < |st.leave| && st.leave[i].id == id ==> r.leave[i] == st.leave[i].(status := s)
  {
    st.(leave := Map((l: LeaveRequest) => if l.id == id then l.(status := s) else l, st.leave))
  }

  /** A new pending request raises its owner's pending count by one, leaves
      their used days alone, and changes no other user's balance. */
  lemma NewLeaveRequestIsPending(st: Store, l: LeaveRequest)
    requires l.status == LeavePending
    ensures GetLeaveBalance(AddLeaveRequest(st, l), l.userId).pending == GetLeaveBalance(st, l.userId).pending + 1
    ensures GetLeaveBalance(AddLeaveRequest(st, l), l.userId).used == GetLeaveBalance(st, l.userId).used
    ensures forall u :: u != l.userId ==> GetLeaveBalance(AddLeaveRequest(st, l), u) == GetLeaveBalance(st, u)
  {
    MapPrepend(LeaveKeyOf, l, st.leave);
  }

  function LeaveIdOf(l: LeaveRequest): string { l.id }

  /** With unique request ids, approving a pending request moves it from
      its owner's pending count to two used days. */
  lemma ApprovalMovesPendingToUsed(st: Store, k: nat)
    requires k < |st.leave| && st.leave[k].status == LeavePending
    requires Distinct(Map(LeaveIdOf, st.leave))
    ensures var owner := st.leave[k].userId;
      var after := GetLeaveBalance(UpdateLeaveStatus(st, st.leave[k].id, LeaveApproved), owner);
      after.pending + 1 == GetLeaveBalance(st, owner).pending &&
      after.used == GetLeaveBalance(st, owner).used + 2
  {
    var l := st.leave[k];
    var s2 := UpdateLeaveStatus(st, l.id, LeaveApproved).leave;
    forall i | 0 <= i < |st.leave| && i != k ensures st.leave[i].id != l.id {
      var ids := Map(LeaveIdOf, st.leave);
      if i < k { assert ids[i] != ids[k]; } else { assert ids[k] != ids[i]; }
    }
    assert s2 == st.leave[k := l.(status := LeaveApproved)];
    var m := Map(LeaveKeyOf, st.leave);
    assert Map(LeaveKeyOf, s2) == m[k := (l.userId, LeaveApproved)];
    assert m[k] == (l.userId, LeavePending);
  }
}
