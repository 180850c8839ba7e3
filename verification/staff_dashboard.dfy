/** The staff member's own dashboard
    (client/src/components/dashboard/StaffDashboard.tsx). */
module StaffDashboardPage {
  import opened Seqs
  import opened Records
  import opened Db

  /** The user's attendance records, in store order. */
  function UserAttendance(att: seq<Attendance>, userId: string): (r: seq<Attendance>)
    ensures forall a :: a in r ==> a in att && a.userId == userId
    ensures forall a :: a in att && a.userId == userId ==> a in r
    ensures forall a :: multiset(r)[a] == if a.userId == userId then multiset(att)[a] else 0
    ensures IsSubsequence(r, att)
  {
    var p := (a: Attendance) => a.userId == userId;
    FilterPreservesOrder(p, att);
    FilterMultiplicity(p, att);
    Filter(p, att)
  }

  /** The user's cash-advance requests, in store order. */
  function UserAdvances(cas: seq<CashAdvance>, userId: string): (r: seq<CashAdvance>)
    ensures forall ca :: ca in r ==> ca in cas && ca.userId == userId
    ensures forall ca :: ca in cas && ca.userId == userId ==> ca in r
    ensures forall ca :: multiset(r)[ca] == if ca.userId == userId then multiset(cas)[ca] else 0
    ensures IsSubsequence(r, cas)
  {
    var p := (ca: CashAdvance) => ca.userId == userId;
    FilterPreservesOrder(p, cas);
    FilterMultiplicity(p, cas);
    Filter(p, cas)
  }

  datatype StaffSummary = StaffSummary(presentDays: nat, lateDays: nat, pendingAdvances: nat)

  /** The personal cards: days present, days late, requests still pending. */
  function GetStaffSummary(st: Store, user: User): (r: StaffSummary)
    ensures r.presentDays == multiset(Map(AttendanceStatusOf, UserAttendance(st.attendance, user.id)))[Present]
    ensures r.lateDays == multiset(Map(AttendanceStatusOf, UserAttendance(st.attendance, user.id)))[Late]
    ensures r.presentDays + r.lateDays <= |UserAttendance(st.attendance, user.id)|
    ensures r.pendingAdvances == multiset(Map(AdvanceStatusOf, UserAdvances(st.cashAdvances, user.id)))[Pending]
    ensures r.pendingAdvances <= |UserAdvances(st.cashAdvances, user.id)|
  {
    var mine := UserAttendance(st.attendance, user.id);
    PresentPlusLateAtMostAll(mine);
    var pending := PendingAdvances(UserAdvances(st.cashAdvances, user.id));
    StaffSummary(|WithStatus(mine, Present)|, |WithStatus(mine, Late)|, |pending|)
  }

  /** Recent attendance: the first five of the user's records, in store order. */
  function RecentAttendance(st: Store, user: User): (r: seq<Attendance>)
    ensures |r| <= 5 && |r| <= |UserAttendance(st.attendance, user.id)|
    ensures r == UserAttendance(st.attendance, user.id)[..|r|]
    ensures |r| == 5 || r == UserAttendance(st.attendance, user.id)
    ensures forall a :: a in r ==> a in st.attendance && a.userId == user.id
  {
    Take(UserAttendance(st.attendance, user.id), 5)
  }

  /** Recent requests: the first five of the user's requests, in store order. */
  function RecentAdvances(st: Store, user: User): (r: seq<CashAdvance>)
    ensures |r| <= 5 && |r| <= |UserAdvances(st.cashAdvances, user.id)|
    ensures r == UserAdvances(st.cashAdvances, user.id)[..|r|]
    ensures |r| == 5 || r == UserAdvances(st.cashAdvances, user.id)
    ensures forall ca :: ca in r ==> ca in st.cashAdvances && ca.userId == user.id
  {
    Take(UserAdvances(st.cashAdvances, user.id), 5)
  }

  /** A request the user has just submitted heads their recent requests. */
  lemma NewRequestShownFirst(st: Store, user: User, ca: CashAdvance)
    requires ca.userId == user.id
    ensures RecentAdvances(AddCashAdvance(st, ca), user)[0] == ca
  {
    var s2 := AddCashAdvance(st, ca);
    assert s2.cashAdvances == [ca] + st.cashAdvances;
    assert Filter((c: CashAdvance) => c.userId == user.id, s2.cashAdvances)[0] == ca;
  }
}
