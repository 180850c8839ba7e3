/** The clock-in/clock-out state machine and the daily roster of the
    Attendance page (client/src/pages/Attendance.tsx). The signed-in user,
    today's date, the wall clock, the generated record id and the
    displayed time string are parameters. */
module AttendancePage {
  import opened Options
  import opened Seqs
  import opened Text
  import opened Records
  import opened Db

  type Hour = h: nat | h < 24
  type Minute = m: nat | m < 60

  /** A wall-clock reading as `getHours()`, `getMinutes()` and `getSeconds()` report it. */
  datatype Clock = Clock(hour: Hour, minute: Minute, second: Minute)

  /** 09:00, in minutes after midnight. */
  const Cutoff: nat := 9 * 60

  function MinuteOfDay(c: Clock): nat {
    c.hour * 60 + c.minute
  }

  /** The late rule: a clock-in after 09:00 is late. Only hours and minutes
      count, so any second of 09:00 is still on time. */
  function ClockInStatus(c: Clock): (r: AttendanceStatus)
    ensures r == Present || r == Late
    ensures r == Late <==> MinuteOfDay(c) > Cutoff
    ensures c.hour == 9 && c.minute == 0 ==> r == Present
  {
    if c.hour > 9 || (c.hour == 9 && c.minute > 0) then Late else Present
  }

  /** The user already has a record dated `day` (whatever its status). */
  predicate HasRecordOn(att: seq<Attendance>, userId: string, day: string) {
    exists a :: a in att && a.userId == userId && a.date == day
  }

  /** The store invariant time-in maintains: no two records share user and date. */
  predicate OnePerUserPerDay(att: seq<Attendance>) {
    forall i, j :: 0 <= i < j < |att| ==> !(att[i].userId == att[j].userId && att[i].date == att[j].date)
  }

  datatype TimeInOutcome = AlreadyTimedIn | TimedIn(record: Attendance)

  datatype TimeInResult = TimeInResult(store: Store, outcome: TimeInOutcome)

  /** `handleTimeIn`: refuses when the user has a record for today; otherwise
      records the clock-in, open and classified by the late rule, in front of
      the attendance list. */
  function TimeIn(st: Store, me: User, today: string, now: Clock, newId: string, timeText: string): (r: TimeInResult)
    ensures r.outcome.AlreadyTimedIn? <==> HasRecordOn(st.attendance, me.id, today)
    ensures r.outcome.AlreadyTimedIn? ==> r.store == st
    ensures r.outcome.TimedIn? ==>
      var rec := r.outcome.record;
      && rec.userId == me.id && rec.date == today && rec.timeOut.None?
      && rec.id == newId && rec.timeIn == timeText
      && (rec.status == Late <==> MinuteOfDay(now) > Cutoff)
      && (rec.status == Present <==> MinuteOfDay(now) <= Cutoff)
      && r.store == AddAttendance(st, rec)
  {
    match FindFirst((a: Attendance) => a.userId == me.id && a.date == today, st.attendance)
    case Some(i) =>
      TimeInResult(st, AlreadyTimedIn)
    case None =>
      var rec := Attendance(newId, me.id, today, timeText, None, ClockInStatus(now));
      TimeInResult(AddAttendance(st, rec), TimedIn(rec))
  }

  /** Time-in keeps at most one record per user and day. */
  lemma TimeInKeepsOnePerDay(st: Store, me: User, today: string, now: Clock, newId: string, timeText: string)
    requires OnePerUserPerDay(st.attendance)
    ensures OnePerUserPerDay(TimeIn(st, me, today, now, newId, timeText).store.attendance)
  {
    var r := TimeIn(st, me, today, now, newId, timeText);
    if r.outcome.TimedIn? {
      var att := r.store.attendance;
      forall i, j | 0 <= i < j < |att|
        ensures !(att[i].userId == att[j].userId && att[i].date == att[j].date)
      {
        assert att[j] == st.attendance[j - 1];
        if i > 0 {
          assert att[i] == st.attendance[i - 1];
        } else {
          assert att[j] in st.attendance;
        }
      }
    }
  }

  /** A second time-in on the same day is refused and changes nothing. */
  lemma TimeInTwiceIsRefused(st: Store, me: User, today: string, now: Clock, newId: string, timeText: string,
                             later: Clock, laterId: string, laterText: string)
    ensures var first := TimeIn(st, me, today, now, newId, timeText);
      TimeIn(first.store, me, today, later, laterId, laterText) == TimeInResult(first.store, AlreadyTimedIn)
  {
    var first := TimeIn(st, me, today, now, newId, timeText);
    if first.outcome.TimedIn? {
      assert first.store.attendance[0] in first.store.attendance;
    }
  }

  /** `!a.timeOut`: no time-out recorded (an empty string reads as none too). */
  predicate IsOpen(a: Attendance) {
    a.timeOut.None? || a.timeOut.value == ""
  }

  predicate IsOpenFor(a: Attendance, userId: string, day: string) {
    a.userId == userId && a.date == day && IsOpen(a)
  }

  datatype TimeOutOutcome = NoOpenRecord | TimedOut(recordId: string)

  datatype TimeOutResult = TimeOutResult(store: Store, outcome: TimeOutOutcome)

  function TimeOutPatch(timeText: string): AttendancePatch {
    AttendancePatch(None, None, None, None, Some(timeText), None)
  }

  /** `handleTimeOut`: finds the user's first open record of today and sets
      its time-out (through `updateAttendance`, so by record id); without
      such a record nothing changes. */
  function TimeOut(st: Store, me: User, today: string, timeText: string): (r: TimeOutResult)
    ensures r.outcome.NoOpenRecord? <==> forall a :: a in st.attendance ==> !IsOpenFor(a, me.id, today)
    ensures r.outcome.NoOpenRecord? ==> r.store == st
    ensures r.outcome.TimedOut? ==>
      (exists k :: 0 <= k < |st.attendance| && IsOpenFor(st.attendance[k], me.id, today) &&
         st.attendance[k].id == r.outcome.recordId &&
         forall j :: 0 <= j < k ==> !IsOpenFor(st.attendance[j], me.id, today))
    ensures r.outcome.TimedOut? ==>
      && r.store == st.(attendance := r.store.attendance)
      && |r.store.attendance| == |st.attendance|
      && (forall i :: 0 <= i < |st.attendance| && st.attendance[i].id != r.outcome.recordId ==>
            r.store.attendance[i] == st.attendance[i])
      && (forall i :: 0 <= i < |st.attendance| && st.attendance[i].id == r.outcome.recordId ==>
            r.store.attendance[i] == st.attendance[i].(timeOut := Some(timeText)))
  {
    match FindFirst((a: Attendance) => IsOpenFor(a, me.id, today), st.attendance)
    case Some(k) =>
      var id := st.attendance[k].id;
      TimeOutResult(UpdateAttendance(st, id, TimeOutPatch(timeText)), TimedOut(id))
    case None =>
      TimeOutResult(st, NoOpenRecord)
  }

  /** After a time-out (with a non-empty time string) the user has no open
      record today, so a second time-out finds nothing to close. */
  lemma TimeOutClosesTheDay(st: Store, me: User, today: string, timeText: string, laterText: string)
    requires OnePerUserPerDay(st.attendance)
    requires timeText != ""
    ensures TimeOut(TimeOut(st, me, today, timeText).store, me, today, laterText).outcome == NoOpenRecord
  {
    var r := TimeOut(st, me, today, timeText);
    NothingOpenAfterTimeOut(st, me, today, timeText);
    var again := TimeOut(r.store, me, today, laterText);
    assert again.outcome.NoOpenRecord?;
  }

  lemma NothingOpenAfterTimeOut(st: Store, me: User, today: string, timeText: string)
    requires OnePerUserPerDay(st.attendance)
    requires timeText != ""
    ensures forall a :: a in TimeOut(st, me, today, timeText).store.attendance ==> !IsOpenFor(a, me.id, today)
  {
    var r := TimeOut(st, me, today, timeText);
    var att := st.attendance;
    var att' := r.store.attendance;
    if r.outcome.TimedOut? {
      var k :| 0 <= k < |att| && IsOpenFor(att[k], me.id, today) && att[k].id == r.outcome.recordId;
      forall i | 0 <= i < |att'| ensures !IsOpenFor(att'[i], me.id, today) {
        ClosedAfterTimeOut(att, att', k, i, r.outcome.recordId, me.id, today, timeText);
      }
    }
  }

  /** One position of the list after a time-out: it is not an open record of that user and day. */
  lemma ClosedAfterTimeOut(att: seq<Attendance>, att': seq<Attendance>, k: nat, i: nat, id: string,
                           userId: string, day: string, timeText: string)
    requires OnePerUserPerDay(att)
    requires |att'| == |att| && k < |att| && i < |att|
    requires IsOpenFor(att[k], userId, day) && att[k].id == id
    requires att[i].id != id ==> att'[i] == att[i]
    requires att[i].id == id ==> att'[i] == att[i].(timeOut := Some(timeText))
    requires timeText != ""
    ensures !IsOpenFor(att'[i], userId, day)
  {
  }

  /** Time-out only writes `timeOut`, so it keeps at most one record per user and day. */
  lemma TimeOutKeepsOnePerDay(st: Store, me: User, today: string, timeText: string)
    requires OnePerUserPerDay(st.attendance)
    ensures OnePerUserPerDay(TimeOut(st, me, today, timeText).store.attendance)
  {
    var r := TimeOut(st, me, today, timeText);
    var att := st.attendance;
    var att' := r.store.attendance;
    if r.outcome.TimedOut? {
      forall i, j | 0 <= i < j < |att'|
        ensures !(att'[i].userId == att'[j].userId && att'[i].date == att'[j].date)
      {
        assert att'[i].userId == att[i].userId && att'[i].date == att[i].date;
        assert att'[j].userId == att[j].userId && att'[j].date == att[j].date;
      }
    }
  }

  // ------------------------------------------------------ today's roster

  datatype DailyFigures = DailyFigures(present: nat, late: nat, absent: nat)

  /** The "Today's Overview" figures: on-time and late records of today, and
      the active staff minus all of today's records, clamped at zero. They
      are the figures the dashboard computes. */
  function TodaysFigures(st: Store, today: string): (r: DailyFigures)
    ensures r.present == GetDashboardStats(st, today).onTimeToday
    ensures r.late == GetDashboardStats(st, today).lateToday
    ensures r.absent == GetDashboardStats(st, today).absentToday
    ensures r.present + r.late <= |TodaysRecords(st.attendance, today)|
  {
    var todays := TodaysRecords(st.attendance, today);
    var active := |ActiveUsers(st.users)|;
    PresentPlusLateAtMostAll(todays);
    DailyFigures(|WithStatus(todays, Present)|, |WithStatus(todays, Late)|,
                 if active - |todays| > 0 then active - |todays| else 0)
  }

  function UserIdOf(a: Attendance): string { a.userId }

  /** The ids of the users with a record today are exactly the users who have one. */
  lemma RecordedIdsToday(att: seq<Attendance>, today: string, id: string)
    ensures id in Map(UserIdOf, TodaysRecords(att, today)) <==> HasRecordOn(att, id, today)
  {
    var todays := TodaysRecords(att, today);
    var ids := Map(UserIdOf, todays);
    if id in ids {
      var i :| 0 <= i < |ids| && ids[i] == id;
      assert todays[i] in todays;
    }
    if HasRecordOn(att, id, today) {
      var a :| a in att && a.userId == id && a.date == today;
      assert a in todays;
      var i :| 0 <= i < |todays| && todays[i] == a;
      assert ids[i] == id;
    }
  }

  /** `getAbsentEmployees`: the active users without any record today. */
  function AbsentEmployees(st: Store, today: string): (r: seq<User>)
    ensures forall u :: u in r ==> u in st.users && u.status == Active && !HasRecordOn(st.attendance, u.id, today)
    ensures forall u :: u in st.users && u.status == Active && !HasRecordOn(st.attendance, u.id, today) ==> u in r
    ensures forall u, a :: u in r && a in TodaysRecords(st.attendance, today) ==> a.userId != u.id
    ensures forall u :: (multiset(r)[u] ==
      if u.status == Active && !HasRecordOn(st.attendance, u.id, today) then multiset(st.users)[u] else 0)
    ensures IsSubsequence(r, st.users)
  {
    var ids := Map(UserIdOf, TodaysRecords(st.attendance, today));
    var p := (u: User) => u.status == Active && u.id !in ids;
    forall id ensures id in ids <==> HasRecordOn(st.attendance, id, today) {
      RecordedIdsToday(st.attendance, today, id);
    }
    FilterPreservesOrder(p, st.users);
    FilterMultiplicity(p, st.users);
    Filter(p, st.users)
  }

  /** The absent figure and the absent list can disagree: a record today of
      a user who is not active lowers the figure but not the list. */
  lemma AbsentFigureDisagreesWithList()
    ensures var a := User("1", "A", "a@x", Employee, "Sales", "Clerk", "2024-01-01", 1.0, Active, "Tabina", true);
      var b := User("2", "B", "b@x", Employee, "Sales", "Clerk", "2024-01-01", 1.0, OnLeave, "Tabina", true);
      var rec := Attendance("r", "2", "2024-05-20", "08:00", None, Present);
      var st := Store([a, b], [rec], [], [], [], None);
      TodaysFigures(st, "2024-05-20").absent == 0 && a in AbsentEmployees(st, "2024-05-20")
  {
    var a := User("1", "A", "a@x", Employee, "Sales", "Clerk", "2024-01-01", 1.0, Active, "Tabina", true);
    var b := User("2", "B", "b@x", Employee, "Sales", "Clerk", "2024-01-01", 1.0, OnLeave, "Tabina", true);
    var rec := Attendance("r", "2", "2024-05-20", "08:00", None, Present);
    var st := Store([a, b], [rec], [], [], [], None);
    var todays := TodaysRecords(st.attendance, "2024-05-20");
    assert todays == [rec];
    assert ActiveUsers(st.users) == [a];
    var ids := Map(UserIdOf, todays);
    assert ids == ["2"];
    assert !HasRecordOn(st.attendance, a.id, "2024-05-20");
  }

  /** The users behind today's records with status `s` (`getPresentEmployees`,
      `getLateEmployees`); records of unknown users are dropped. */
  function EmployeesWithStatus(st: Store, today: string, s: AttendanceStatus): (r: seq<User>)
    ensures |r| <= |WithStatus(TodaysRecords(st.attendance, today), s)|
    ensures forall u :: u in r ==>
      exists a :: a in st.attendance && a.date == today && a.status == s && UserById(st.users, a.userId) == Some(u)
    ensures forall a :: a in st.attendance && a.date == today && a.status == s && UserById(st.users, a.userId).Some? ==>
      UserById(st.users, a.userId).value in r
  {
    LookupAll(st.users, WithStatus(TodaysRecords(st.attendance, today), s))
  }

  /** For each record in turn, the first user with the record's id; records
      whose id no user has contribute nothing. */
  function LookupAll(users: seq<User>, recs: seq<Attendance>): (r: seq<User>)
    ensures |r| <= |recs|
    ensures forall u :: u in r ==> exists a :: a in recs && UserById(users, a.userId) == Some(u)
    ensures forall a :: a in recs && UserById(users, a.userId).Some? ==> UserById(users, a.userId).value in r
    decreases |recs|
  {
    if |recs| == 0 then []
    else
      var rest := LookupAll(users, recs[1..]);
      assert forall a :: a in recs ==> a == recs[0] || a in recs[1..];
      match UserById(users, recs[0].userId)
      case Some(u) => [u] + rest
      case None => rest
  }

  /** The records whose user is found as `u`. */
  function FoundAs(users: seq<User>, u: User): Attendance -> bool {
    (a: Attendance) => UserById(users, a.userId) == Some(u)
  }

  /** `LookupAll` lists each user once per record that finds them, so its
      multiplicities are fixed by the records. */
  lemma {:induction false} LookupAllMultiplicity(users: seq<User>, recs: seq<Attendance>, u: User)
    ensures multiset(LookupAll(users, recs))[u] == |Filter(FoundAs(users, u), recs)|
    decreases |recs|
  {
    if |recs| > 0 {
      LookupAllMultiplicity(users, recs[1..], u);
      var p := FoundAs(users, u);
      var found := UserById(users, recs[0].userId);
      var rest := LookupAll(users, recs[1..]);
      assert p(recs[0]) <==> found == Some(u);
      assert Filter(p, recs) == if p(recs[0]) then [recs[0]] + Filter(p, recs[1..]) else Filter(p, recs[1..]);
      if found.Some? {
        assert LookupAll(users, recs) == [found.value] + rest;
        assert multiset([found.value] + rest) == multiset{found.value} + multiset(rest);
      } else {
        assert LookupAll(users, recs) == rest;
      }
    }
  }

  // --------------------------------------------------- attendance table

  /** `getEmployeeName`: the first user with the id, or "Unknown" when there
      is none; `|| 'Unknown'` also turns an empty name into "Unknown". */
  function EmployeeName(users: seq<User>, id: string): (r: string)
    ensures r != ""
    ensures r == "Unknown" || exists u :: u in users && u.id == id && u.name == r
    ensures (forall u :: u in users ==> u.id != id) ==> r == "Unknown"
    ensures UserById(users, id).Some? && UserById(users, id).value.name != "" ==> r == UserById(users, id).value.name
    ensures UserById(users, id).Some? && UserById(users, id).value.name == "" ==> r == "Unknown"
  {
    match UserById(users, id)
    case Some(u) => if u.name == "" then "Unknown" else u.name
    case None => "Unknown"
  }

  /** The search box: the lower-cased name contains the lower-cased term, or the date contains the term as typed. */
  predicate MatchesSearch(users: seq<User>, a: Attendance, term: string) {
    Contains(Lower(EmployeeName(users, a.userId)), Lower(term)) || Contains(a.date, term)
  }

  /** Admins and HR see every record, everyone else only their own. */
  predicate MayView(me: User, a: Attendance) {
    IsAdminOrHR(me.role) || a.userId == me.id
  }

  /** `filteredAttendance`. */
  function FilteredAttendance(st: Store, me: User, term: string): (r: seq<Attendance>)
    ensures forall a :: a in r ==> a in st.attendance && MayView(me, a) && MatchesSearch(st.users, a, term)
    ensures forall a :: a in st.attendance && MayView(me, a) && MatchesSearch(st.users, a, term) ==> a in r
    ensures !IsAdminOrHR(me.role) ==> forall a :: a in r ==> a.userId == me.id
    ensures forall a :: (multiset(r)[a] ==
      if MayView(me, a) && MatchesSearch(st.users, a, term) then multiset(st.attendance)[a] else 0)
    ensures IsSubsequence(r, st.attendance)
  {
    var p := (a: Attendance) => MayView(me, a) && MatchesSearch(st.users, a, term);
    FilterPreservesOrder(p, st.attendance);
    FilterMultiplicity(p, st.attendance);
    Filter(p, st.attendance)
  }

  /** With an empty search box every record the user may view is listed. */
  lemma EmptySearchListsAllViewable(st: Store, me: User)
    ensures forall a :: a in st.attendance && MayView(me, a) ==> a in FilteredAttendance(st, me, "")
  {
    forall a | a in st.attendance && MayView(me, a) ensures MatchesSearch(st.users, a, "") {
      ContainsEmpty(Lower(EmployeeName(st.users, a.userId)));
    }
  }

  /** Newest date first. */
  predicate SortedByDateDesc(s: seq<Attendance>) {
    forall i, j :: 0 <= i < j < |s| ==> LexLe(s[j].date, s[i].date)
  }

  /** Inserts `x` ahead of the first record not dated later than it. */
  function InsertByDate(x: Attendance, s: seq<Attendance>): (r: seq<Attendance>)
    requires SortedByDateDesc(s)
    ensures multiset(r) == multiset(s) + multiset{x}
    ensures SortedByDateDesc(r)
    decreases |s|
  {
    if |s| == 0 then [x]
    else if !LexLe(s[0].date, x.date) then
      var rest := InsertByDate(x, s[1..]);
      assert s == [s[0]] + s[1..];
      SortedBehind(x, s, rest);
      [s[0]] + rest
    else
      SortedInFront(x, s);
      [x] + s
  }

  lemma SortedBehind(x: Attendance, s: seq<Attendance>, rest: seq<Attendance>)
    requires |s| > 0 && SortedByDateDesc(s) && !LexLe(s[0].date, x.date)
    requires multiset(rest) == multiset(s[1..]) + multiset{x}
    requires SortedByDateDesc(rest)
    ensures SortedByDateDesc([s[0]] + rest)
  {
    LexLeTotal(s[0].date, x.date);
    var r := [s[0]] + rest;
    forall i, j | 0 <= i < j < |r| ensures LexLe(r[j].date, r[i].date) {
      if i == 0 {
        var y := r[j];
        assert y in rest;
        assert y in multiset(rest);
        if y != x {
          assert y in multiset(s[1..]);
          var m :| 0 <= m < |s[1..]| && s[1..][m] == y;
          assert s[m + 1] == y;
        }
      }
    }
  }

  lemma SortedInFront(x: Attendance, s: seq<Attendance>)
    requires |s| > 0 && SortedByDateDesc(s) && LexLe(s[0].date, x.date)
    ensures SortedByDateDesc([x] + s)
  {
    var r := [x] + s;
    forall i, j | 0 <= i < j < |r| ensures LexLe(r[j].date, r[i].date) {
      if i == 0 && j > 1 {
        LexLeTransitive(s[j - 1].date, s[0].date, x.date);
      }
    }
  }

  /** The same records, reordered so that dates never increase along the list. */
  function SortByDateDesc(s: seq<Attendance>): (r: seq<Attendance>)
    ensures multiset(r) == multiset(s)
    ensures SortedByDateDesc(r)
    decreases |s|
  {
    if |s| == 0 then []
    else
      assert s == [s[0]] + s[1..];
      InsertByDate(s[0], SortByDateDesc(s[1..]))
  }

  /** The rows of the attendance table: the filtered records, newest first. */
  function DisplayedAttendance(st: Store, me: User, term: string): (r: seq<Attendance>)
    ensures SortedByDateDesc(r)
    ensures multiset(r) == multiset(FilteredAttendance(st, me, term))
    ensures forall a :: a in r ==> a in st.attendance && MayView(me, a)
  {
    var f := FilteredAttendance(st, me, term);
    var r := SortByDateDesc(f);
    assert forall a :: a in r ==> a in multiset(f);
    r
  }
}
