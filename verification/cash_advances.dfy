/** The cash-advance lifecycle of the Cash Advances page
    (client/src/pages/CashAdvances.tsx). The store's status update checks
    nothing; the lifecycle is enforced only by which buttons a row shows to
    whom, and that gate is the precondition of each action here. */
module CashAdvancesPage {
  import opened Seqs
  import opened Text
  import opened Records
  import opened Db

  /** `visibleRequests`: admins and HR see every request, everyone else exactly their own. */
  function VisibleRequests(cas: seq<CashAdvance>, me: User): (r: seq<CashAdvance>)
    ensures IsAdminOrHR(me.role) ==> r == cas
    ensures !IsAdminOrHR(me.role) ==> forall ca :: ca in r ==> ca in cas && ca.userId == me.id
    ensures !IsAdminOrHR(me.role) ==> forall ca :: ca in cas && ca.userId == me.id ==> ca in r
    ensures forall ca :: ca in r ==> ca in cas
    ensures !IsAdminOrHR(me.role) ==>
      forall ca :: multiset(r)[ca] == if ca.userId == me.id then multiset(cas)[ca] else 0
    ensures IsSubsequence(r, cas)
  {
    if IsAdminOrHR(me.role) then
      SubsequenceOfItself(cas);
      cas
    else
      var p := (ca: CashAdvance) => ca.userId == me.id;
      FilterPreservesOrder(p, cas);
      FilterMultiplicity(p, cas);
      Filter(p, cas)
  }

  /** `handleNameInput`'s suggestions: the `isEmployee` users whose lower-cased
      name contains the lower-cased input, in list order, or none when the
      input is blank. Filtering `allEmployees` by name is one filter of the
      users by both conditions. */
  function NameSuggestions(users: seq<User>, value: string): (r: seq<User>)
    ensures forall u :: u in r ==> u in users && u.isEmployee && Contains(Lower(u.name), Lower(value))
    ensures (exists i :: 0 <= i < |value| && !IsSpace(value[i])) ==>
      forall u :: u in users && u.isEmployee && Contains(Lower(u.name), Lower(value)) ==> u in r
    ensures (forall i :: 0 <= i < |value| ==> IsSpace(value[i])) ==> r == []
    ensures (exists i :: 0 <= i < |value| && !IsSpace(value[i])) ==>
      forall u :: multiset(r)[u] ==
        if u.isEmployee && Contains(Lower(u.name), Lower(value)) then multiset(users)[u] else 0
    ensures IsSubsequence(r, users)
  {
    TrimNonEmptyIff(value);
    if |Trim(value)| > 0 then
      var p := (u: User) => u.isEmployee && Contains(Lower(u.name), Lower(value));
      FilterPreservesOrder(p, users);
      FilterMultiplicity(p, users);
      Filter(p, users)
    else
      []
  }

  /** The request dialog's fields, as typed. */
  datatype AdvanceForm = AdvanceForm(name: string, amount: string, purpose: string)

  const EmptyAdvanceForm := AdvanceForm("", "", "")

  datatype SubmitOutcome = MissingFields | Submitted(request: CashAdvance)

  datatype SubmitResult = SubmitResult(store: Store, form: AdvanceForm, selectedUserId: string, outcome: SubmitOutcome)

  /** `handleSubmitRequest` (its dialog is shown to non-admins only, but the
      handler itself does not check the role). An empty
      amount or purpose is refused and nothing changes; any non-empty amount
      text is accepted and parsed by `parseAmount` (`parseFloat`). The new
      request is pending, dated today, and belongs to the selected employee,
      or to the signed-in user when none was selected; the form is cleared. */
  function SubmitRequest(st: Store, me: User, form: AdvanceForm, selectedUserId: string, newId: string,
                         today: string, parseAmount: string -> real): (r: SubmitResult)
    ensures r.outcome.MissingFields? <==> form.amount == "" || form.purpose == ""
    ensures r.outcome.MissingFields? ==> r.store == st && r.form == form && r.selectedUserId == selectedUserId
    ensures r.outcome.Submitted? ==>
      var req := r.outcome.request;
      && req.status == Pending
      && req.requestDate == today
      && req.id == newId
      && req.purpose == form.purpose
      && req.amount == parseAmount(form.amount)
      && (selectedUserId != "" ==> req.userId == selectedUserId)
      && (selectedUserId == "" ==> req.userId == me.id)
      && r.store == AddCashAdvance(st, req)
      && r.form == EmptyAdvanceForm && r.selectedUserId == ""
  {
    if form.amount == "" || form.purpose == "" then
      SubmitResult(st, form, selectedUserId, MissingFields)
    else
      var owner := if selectedUserId != "" then selectedUserId else me.id;
      var req := CashAdvance(newId, owner, parseAmount(form.amount), form.purpose, Pending, today);
      SubmitResult(AddCashAdvance(st, req), EmptyAdvanceForm, "", Submitted(req))
  }

  /** The buttons a request row can show. */
  datatype Action = Approve | Reject | MarkPaid | Delete

  /** Which button a row shows to whom: Approve and Reject to admins on
      pending requests, Mark as Paid to HR on approved ones, Delete to the
      request's owner while it is pending. */
  predicate Offered(me: User, req: CashAdvance, act: Action) {
    match act
    case Approve => me.role == Admin && req.status == Pending
    case Reject => me.role == Admin && req.status == Pending
    case MarkPaid => me.role == HR && req.status == Approved
    case Delete => req.userId == me.id && req.status == Pending
  }

  /** The status a status-changing button writes. */
  function Target(act: Action): AdvanceStatus
    requires act != Delete
  {
    match act
    case Approve => Approved
    case Reject => Rejected
    case MarkPaid => Paid
  }

  /** The lifecycle: pending to approved or rejected, approved to paid. */
  predicate Transition(from: AdvanceStatus, to: AdvanceStatus) {
    || (from == Pending && to == Approved)
    || (from == Pending && to == Rejected)
    || (from == Approved && to == Paid)
  }

  /** How far along the lifecycle a status is. */
  function Stage(s: AdvanceStatus): nat {
    match s
    case Pending => 0
    case Approved => 1
    case Rejected => 2
    case Paid => 2
  }

  /** Clicking an offered button (`handleUpdateStatus`, or `handleDelete`
      after the confirmation dialog answered `confirmed`) on a row of the
      user's table. A status button moves the request one step along the
      lifecycle; Delete removes it, if confirmed. */
  function Perform(st: Store, me: User, req: CashAdvance, act: Action, confirmed: bool): (r: Store)
    requires req in VisibleRequests(st.cashAdvances, me)
    requires Offered(me, req, act)
    ensures act != Delete ==> Transition(req.status, Target(act)) && Stage(Target(act)) > Stage(req.status)
    ensures act != Delete ==> r == UpdateCashAdvanceStatus(st, req.id, Target(act))
    ensures act == Delete ==> req.status == Pending && req.userId == me.id
    ensures act == Delete && confirmed ==> r == DeleteCashAdvance(st, req.id) && req !in r.cashAdvances
    ensures act == Delete && !confirmed ==> r == st
  {
    match act
    case Delete => if confirmed then DeleteCashAdvance(st, req.id) else st
    case _ => UpdateCashAdvanceStatus(st, req.id, Target(act))
  }

  /** Rejected and paid requests show no button to anyone. */
  lemma TerminalStatusesOfferNothing(me: User, req: CashAdvance, act: Action)
    requires req.status == Rejected || req.status == Paid
    ensures !Offered(me, req, act)
  {
  }

  /** Every step of the lifecycle is a button some role is shown. */
  lemma EveryTransitionIsOffered(req: CashAdvance, to: AdvanceStatus)
    requires Transition(req.status, to)
    ensures exists me: User, act: Action :: act != Delete && Offered(me, req, act) && Target(act) == to
  {
    var role := if to == Paid then HR else Admin;
    var act := if to == Approved then Approve else if to == Rejected then Reject else MarkPaid;
    var me := User("", "", "", role, "", "", "", 0.0, Active, "", false);
    assert Offered(me, req, act) && Target(act) == to;
  }

  /** A sequence of statuses a request went through, one offered button at a time. */
  predicate IsHistory(h: seq<AdvanceStatus>) {
    && |h| > 0 && h[0] == Pending
    && forall i :: 0 < i < |h| ==> Transition(h[i - 1], h[i])
  }

  /** A request passes through at most three statuses and never returns to pending. */
  lemma {:induction false} HistoryIsShort(h: seq<AdvanceStatus>)
    requires IsHistory(h)
    ensures |h| <= 3
    ensures forall i :: 0 < i < |h| ==> h[i] != Pending
  {
    StageGrows(h, |h| - 1);
  }

  lemma {:induction false} StageGrows(h: seq<AdvanceStatus>, k: nat)
    requires IsHistory(h) && k < |h|
    ensures Stage(h[k]) >= k
    ensures forall i :: 0 < i <= k ==> h[i] != Pending
    decreases k
  {
    if k > 0 {
      StageGrows(h, k - 1);
      assert Transition(h[k - 1], h[k]);
    }
  }

  function AdvanceIdOf(ca: CashAdvance): string { ca.id }

  /** With unique request ids, a status button rewrites exactly the clicked
      request, to the next lifecycle status, and leaves every other request as it was. */
  lemma PerformChangesOnlyTheRow(st: Store, me: User, req: CashAdvance, act: Action)
    requires Distinct(Map(AdvanceIdOf, st.cashAdvances))
    requires req in VisibleRequests(st.cashAdvances, me)
    requires Offered(me, req, act) && act != Delete
    ensures var r := Perform(st, me, req, act, true);
      exists k :: 0 <= k < |st.cashAdvances| && st.cashAdvances[k] == req &&
        r.cashAdvances[k] == req.(status := Target(act)) &&
        forall i :: 0 <= i < |st.cashAdvances| && i != k ==> r.cashAdvances[i] == st.cashAdvances[i]
  {
    var cas := st.cashAdvances;
    var r := Perform(st, me, req, act, true);
    var k :| 0 <= k < |cas| && cas[k] == req;
    forall i | 0 <= i < |cas| && i != k ensures r.cashAdvances[i] == cas[i] {
      var ids := Map(AdvanceIdOf, cas);
      if i < k {
        assert ids[i] != ids[k];
      } else {
        assert ids[k] != ids[i];
      }
    }
  }
}
