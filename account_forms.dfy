/** Validation of the accounting forms (accounts/forms.py): the journal-line formset,
 *  the advance form's employee name, the expense form's category, and period dates. */
module AccountForms {
  import opened Common
  import opened Journal
  import opened AccountTree
  import opened EmployModels

  /** One filled-in line form of `TransactionFormSet`, as cleaned; `deleted` is its DELETE box.
   *  Blank extra forms carry no data and are not listed. */
  datatype LineForm = LineForm(account: nat, amount: Money, isDebit: bool, deleted: bool)

  /** The transaction line a form saves. */
  function AsLine(f: LineForm): Line
  {
    Line(f.account, f.amount, f.isDebit)
  }

  /** The lines the formset saves: the forms not marked for deletion, in order. */
  function Kept(forms: seq<LineForm>): (ls: seq<Line>)
    ensures |ls| <= |forms|
  {
    if forms == [] then []
    else
      var init := Kept(forms[..|forms| - 1]);
      var f := forms[|forms| - 1];
      if f.deleted then init else init + [AsLine(f)]
  }

  /** Every form not marked for deletion has its line saved. */
  lemma {:induction false} KeptSaves(forms: seq<LineForm>)
    ensures forall x :: 0 <= x < |forms| && !forms[x].deleted ==> AsLine(forms[x]) in Kept(forms)
  {
    if forms != [] {
      var init := forms[..|forms| - 1];
      var f := forms[|forms| - 1];
      KeptSaves(init);
      forall x | 0 <= x < |forms| && !forms[x].deleted
        ensures AsLine(forms[x]) in Kept(forms)
      {
        if x < |init| {
          assert forms[x] == init[x];
        }
      }
    }
  }

  /** Every saved line comes from a form not marked for deletion. */
  lemma {:induction false} KeptFrom(forms: seq<LineForm>)
    ensures forall y :: 0 <= y < |Kept(forms)| ==>
      exists x :: 0 <= x < |forms| && !forms[x].deleted && Kept(forms)[y] == AsLine(forms[x])
  {
    if forms != [] {
      var init := forms[..|forms| - 1];
      var f := forms[|forms| - 1];
      KeptFrom(init);
      forall y | 0 <= y < |Kept(forms)|
        ensures exists x :: 0 <= x < |forms| && !forms[x].deleted && Kept(forms)[y] == AsLine(forms[x])
      {
        if y < |Kept(init)| {
          var x :| 0 <= x < |init| && !init[x].deleted && Kept(init)[y] == AsLine(init[x]);
          assert forms[x] == init[x];
        } else {
          assert !f.deleted && Kept(forms) == Kept(init) + [AsLine(f)];
          assert Kept(forms)[y] == AsLine(forms[|forms| - 1]);
        }
      }
    } else {
      assert |Kept(forms)| == 0;
    }
  }

  /** The formset keeps the order of its forms: the lines saved from two runs of forms, one
   *  after the other, are the first run's lines followed by the second's. */
  lemma {:induction false} KeptConcat(a: seq<LineForm>, b: seq<LineForm>)
    ensures Kept(a + b) == Kept(a) + Kept(b)
    decreases |b|
  {
    if b == [] {
      assert a + b == a;
    } else {
      var b' := b[..|b| - 1];
      assert (a + b)[..|a + b| - 1] == a + b';
      assert (a + b)[|a + b| - 1] == b[|b| - 1];
      KeptConcat(a, b');
    }
  }

  /** The view's `total_debits`: amounts of the kept debit forms. */
  function FormDebits(forms: seq<LineForm>): Money
  {
    if forms == [] then 0.0
    else
      var f := forms[|forms| - 1];
      FormDebits(forms[..|forms| - 1]) + (if f.isDebit && !f.deleted then f.amount else 0.0)
  }

  /** The view's `total_credits`: amounts of the kept credit forms. */
  function FormCredits(forms: seq<LineForm>): Money
  {
    if forms == [] then 0.0
    else
      var f := forms[|forms| - 1];
      FormCredits(forms[..|forms| - 1]) + (if !f.isDebit && !f.deleted then f.amount else 0.0)
  }

  /** The totals the view compares are the totals of the entry it saves, so equal totals
   *  is exactly a balanced entry. */
  lemma {:induction false} KeptTotals(forms: seq<LineForm>)
    ensures FormDebits(forms) == TotalDebits(Kept(forms))
    ensures FormCredits(forms) == TotalCredits(Kept(forms))
    ensures FormDebits(forms) == FormCredits(forms) <==> Balanced(Kept(forms))
  {
    if forms != [] {
      var init := forms[..|forms| - 1];
      var f := forms[|forms| - 1];
      KeptTotals(init);
      if f.deleted {
        assert Kept(forms) == Kept(init);
      } else {
        var ls := Kept(init) + [AsLine(f)];
        assert Kept(forms) == ls;
        assert ls[..|ls| - 1] == Kept(init);
        assert TotalDebits(ls) == TotalDebits(Kept(init)) + DebitAmount(ls[|ls| - 1]);
        assert TotalCredits(ls) == TotalCredits(Kept(init)) + CreditAmount(ls[|ls| - 1]);
      }
    }
  }

  /** Kept forms name the accounts their lines post to. */
  lemma {:induction false} KeptAccounts(forms: seq<LineForm>, n: nat)
    requires forall x :: 0 <= x < |forms| && !forms[x].deleted ==> forms[x].account < n
    ensures forall x :: 0 <= x < |Kept(forms)| ==> Kept(forms)[x].account < n
  {
    if forms != [] {
      KeptAccounts(forms[..|forms| - 1], n);
    }
  }

  /** The smallest amount a line accepts (the `MinValueValidator(0.01)` of `Transaction.amount`). */
  const MinLineAmount: Money := 0.01

  /** `TransactionFormSet.is_valid()`: at least two kept forms (`min_num=2, validate_min=True`),
   *  each on an active account (the only choices offered) with at least the minimum amount.
   *  Forms marked for deletion are not validated. */
  predicate FormsetValid(forms: seq<LineForm>, accts: seq<Account>)
  {
    |Kept(forms)| >= 2 &&
    forall x :: 0 <= x < |forms| && !forms[x].deleted ==>
      forms[x].account < |accts| && accts[forms[x].account].isActive && forms[x].amount >= MinLineAmount
  }

  datatype AdvanceFormError = NoEmployeeNorName

  /** The employee picked on the advance form: its user, if any, and `str(employee)`. */
  datatype EmployeeChoice = EmployeeChoice(user: Option<UserInfo>, display: string)

  /** `EmployeeAdvanceForm.clean`, as the cleaned `employee_name`: with no employee the
   *  (stripped) name must not be blank; with an employee a blank name is filled from the
   *  user's full name, else the username, else `str(employee)`; a given name is kept. */
  function AdvanceClean(employee: Option<EmployeeChoice>, employeeName: string): (r: Result<string, AdvanceFormError>)
    ensures r.Err? <==> employee.None? && Strip(employeeName) == []
    ensures Strip(employeeName) != [] ==> r == Ok(employeeName)
    ensures employee.Some? && Strip(employeeName) == [] && employee.value.user.Some? ==>
      r == Ok(FullName(employee.value.user))
    ensures employee.Some? && Strip(employeeName) == [] && employee.value.user.None? ==>
      r == Ok(employee.value.display)
  {
    if employee.None? && Strip(employeeName) == [] then Err(NoEmployeeNorName)
    else if employee.Some? && Strip(employeeName) == [] then
      match employee.value.user
      case Some(u) => Ok(if GetFullName(u) != [] then GetFullName(u) else u.username)
      case None => Ok(employee.value.display)
    else Ok(employeeName)
  }

  /** Cleaning the cleaned name again changes nothing, as long as it is not blank. */
  lemma AdvanceCleanStable(employee: Option<EmployeeChoice>, employeeName: string)
    requires AdvanceClean(employee, employeeName).Ok?
    requires Strip(AdvanceClean(employee, employeeName).value) != []
    ensures AdvanceClean(employee, AdvanceClean(employee, employeeName).value) == AdvanceClean(employee, employeeName)
  {
  }

  datatype ExpenseFormError = EmployeeAndTeacher

  /** `ExpenseEntryForm.clean`, as the cleaned category: an employee and a teacher together
   *  are refused; a teacher forces "TEACHER_SALARY"; without a teacher "TEACHER_SALARY"
   *  becomes "SALARY"; any other category is kept. */
  function ExpenseClean(employee: Option<nat>, teacher: Option<nat>, category: string): (r: Result<string, ExpenseFormError>)
    ensures r.Err? <==> employee.Some? && teacher.Some?
    ensures r.Ok? ==> (r.value == "TEACHER_SALARY" <==> teacher.Some?)
    ensures r.Ok? && teacher.None? && category != "TEACHER_SALARY" ==> r.value == category
  {
    if employee.Some? && teacher.Some? then Err(EmployeeAndTeacher)
    else if teacher.Some? then Ok("TEACHER_SALARY")
    else if category == "TEACHER_SALARY" then Ok("SALARY")
    else Ok(category)
  }

  /** Cleaning twice is cleaning once. */
  lemma ExpenseCleanIdempotent(employee: Option<nat>, teacher: Option<nat>, category: string)
    requires ExpenseClean(employee, teacher, category).Ok?
    ensures ExpenseClean(employee, teacher, ExpenseClean(employee, teacher, category).value) == ExpenseClean(employee, teacher, category)
  {
  }

  datatype PeriodFormError = StartNotBeforeEnd

  /** `AccountingPeriodForm.clean`: refused exactly when both dates are given and the start
   *  is not before the end. */
  function PeriodClean(start: Option<int>, end: Option<int>): (r: Result<(), PeriodFormError>)
    ensures r.Err? <==> start.Some? && end.Some? && start.value >= end.value
  {
    if start.Some? && end.Some? && start.value >= end.value then Err(StartNotBeforeEnd) else Ok(())
  }
}
