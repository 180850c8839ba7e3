/** The Employees page (client/src/pages/Employees.tsx): adding an employee
    from the dialog and the search box over the user list. */
module EmployeesPage {
  import opened Options
  import opened Seqs
  import opened Text
  import opened Records
  import opened Db

  /** The add-employee dialog; the role is unset until one is picked. */
  datatype EmployeeForm = EmployeeForm(name: string, email: string, role: Option<Role>, branch: string)

  const EmptyEmployeeForm := EmployeeForm("", "", None, "")

  predicate Complete(form: EmployeeForm) {
    form.name != "" && form.email != "" && form.role.Some? && form.branch != ""
  }

  datatype AddEmployeeResult = AddEmployeeResult(store: Store, form: EmployeeForm, added: bool)

  /** `handleAddEmployee`. An incomplete form does nothing. A complete one
      appends an active user in department "General", position "Employee",
      with salary 30000, joined today, not flagged `isEmployee`, and clears
      the form. */
  function AddEmployee(st: Store, form: EmployeeForm, newId: string, today: string): (r: AddEmployeeResult)
    ensures r.added <==> form.name != "" && form.email != "" && form.role.Some? && form.branch != ""
    ensures !r.added ==> r.store == st && r.form == form
    ensures r.added ==>
      && r.form == EmptyEmployeeForm
      && r.store == st.(users := r.store.users)
      && |r.store.users| == |st.users| + 1
      && r.store.users[..|st.users|] == st.users
      && var u := r.store.users[|st.users|];
      && u.id == newId && u.name == form.name && u.email == form.email
      && u.role == form.role.value && u.branch == form.branch
      && u.department == "General" && u.position == "Employee"
      && u.joinDate == today && u.salary == 30000.0
      && u.status == Active && !u.isEmployee
  {
    if Complete(form) then
      var u := User(newId, form.name, form.email, form.role.value, "General", "Employee",
                    today, 30000.0, Active, form.branch, false);
      AddEmployeeResult(AddUser(st, u), EmptyEmployeeForm, true)
    else
      AddEmployeeResult(st, form, false)
  }

  /** The search box matches name, email or department, ignoring case. */
  predicate MatchesUserSearch(u: User, term: string) {
    || Contains(Lower(u.name), Lower(term))
    || Contains(Lower(u.email), Lower(term))
    || Contains(Lower(u.department), Lower(term))
  }

  /** `filteredUsers`: the matching users, in list order. */
  function FilteredUsers(users: seq<User>, term: string): (r: seq<User>)
    ensures forall u :: u in r ==> u in users && MatchesUserSearch(u, term)
    ensures forall u :: u in users && MatchesUserSearch(u, term) ==> u in r
    ensures forall u :: multiset(r)[u] == if MatchesUserSearch(u, term) then multiset(users)[u] else 0
    ensures IsSubsequence(r, users)
  {
    var p := (u: User) => MatchesUserSearch(u, term);
    FilterPreservesOrder(p, users);
    FilterMultiplicity(p, users);
    Filter(p, users)
  }

  /** An empty search box lists everyone, in order. */
  lemma EmptySearchListsEveryone(users: seq<User>)
    ensures FilteredUsers(users, "") == users
  {
    forall u | u in users ensures MatchesUserSearch(u, "") {
      ContainsEmpty(Lower(u.name));
    }
    FilterKeepsAll((u: User) => MatchesUserSearch(u, ""), users);
  }

  /** A just-added employee is found by searching for their own name. */
  lemma AddedEmployeeFoundByName(st: Store, form: EmployeeForm, newId: string, today: string)
    requires Complete(form)
    ensures var r := AddEmployee(st, form, newId, today);
      r.store.users[|st.users|] in FilteredUsers(r.store.users, form.name)
  {
    var r := AddEmployee(st, form, newId, today);
    var u := r.store.users[|st.users|];
    assert OccursAt(Lower(u.name), Lower(form.name), 0);
    assert MatchesUserSearch(u, form.name);
  }
}
