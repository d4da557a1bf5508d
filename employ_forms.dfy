/** Staff forms (employ/forms.py): teacher validation and saving, and the permission
 *  group an employee's position maps to. */
module EmployForms {
  import opened Common
  import opened EmployModels

  /** `Teacher.BranchChoices`: literary, scientific and ninth grade. */
  const BranchChoices: seq<string> := ["أدبي", "علمي", "تاسع"]

  lemma ChoicesAreClean()
    ensures forall k :: 0 <= k < |BranchChoices| ==> CleanBranch(BranchChoices[k])
  {
    assert CleanBranch(BranchChoices[0]) && CleanBranch(BranchChoices[1]) && CleanBranch(BranchChoices[2]);
  }

  datatype TeacherFormError = NoBranch | HourlyRateRequired | MonthlySalaryRequired

  /** A decimal form field counts as missing when empty or zero (`not value`). */
  predicate Missing(x: Option<Money>)
  {
    x.None? || x.value == 0.0
  }

  /** `TeacherForm.clean`: no branch stops validation at once; otherwise each missing
   *  rate that the salary type needs gets its own error. */
  function TeacherClean(branches: seq<string>, t: SalaryType, hourlyRate: Option<Money>, monthlySalary: Option<Money>)
    : (errors: seq<TeacherFormError>)
    ensures branches == [] <==> errors == [NoBranch]
    ensures branches != [] ==>
      ((HourlyRateRequired in errors) <==> (t == Hourly || t == Mixed) && Missing(hourlyRate))
    ensures branches != [] ==>
      ((MonthlySalaryRequired in errors) <==> (t == Monthly || t == Mixed) && Missing(monthlySalary))
    ensures branches != [] ==> NoBranch !in errors
    ensures errors == [] <==>
      branches != [] && (t == Hourly || t == Mixed ==> !Missing(hourlyRate)) && (t == Monthly || t == Mixed ==> !Missing(monthlySalary))
  {
    if branches == [] then [NoBranch]
    else
      var hourly := if (t == Hourly || t == Mixed) && Missing(hourlyRate) then [HourlyRateRequired] else [];
      var monthly := if (t == Monthly || t == Mixed) && Missing(monthlySalary) then [MonthlySalaryRequired] else [];
      assert NoBranch !in hourly + monthly;
      hourly + monthly
  }

  /** The stored columns `TeacherForm.save` writes. */
  datatype TeacherColumns = TeacherColumns(branches: string, hourlyRate: Money, monthlySalary: Money)

  /** `TeacherForm.save`: the chosen branches joined with ',' and missing rates set to 0. */
  function TeacherSave(branches: seq<string>, hourlyRate: Option<Money>, monthlySalary: Option<Money>): (c: TeacherColumns)
    ensures c.hourlyRate == OrZero(hourlyRate) && c.monthlySalary == OrZero(monthlySalary)
    ensures (forall k :: 0 <= k < |branches| ==> CleanBranch(branches[k])) ==> BranchesList(Some(c.branches)) == branches
  {
    var c := TeacherColumns(Join(branches, ','), OrZero(hourlyRate), OrZero(monthlySalary));
    if forall k :: 0 <= k < |branches| ==> CleanBranch(branches[k]) then
      BranchesRoundTrip(branches);
      c
    else c
  }

  /** Whatever subset of the branch choices the form returns, the saved teacher lists it back. */
  lemma SavedChoicesReadBack(branches: seq<string>, hourlyRate: Option<Money>, monthlySalary: Option<Money>)
    requires forall k :: 0 <= k < |branches| ==> branches[k] in BranchChoices
    ensures BranchesList(Some(TeacherSave(branches, hourlyRate, monthlySalary).branches)) == branches
  {
    ChoicesAreClean();
  }

  /** `Employee.POSITION_CHOICES` */
  const Positions: seq<string> := ["admin", "accountant", "mentor", "manager", "marketing", "reception"]

  /** The group of each position, in the order of `Positions`. */
  const PositionGroups: seq<string> := ["Admins", "Accountants", "Mentor", "Managers", "Marketing", "Reception"]

  /** `EmployeeRegistrationForm.get_group_name`: the group of a known position, else 'Employees'. */
  function GroupName(position: string): (g: string)
    ensures forall k :: 0 <= k < |Positions| && position == Positions[k] ==> g == PositionGroups[k]
    ensures position !in Positions ==> g == "Employees"
  {
    if position == "admin" then "Admins"
    else if position == "accountant" then "Accountants"
    else if position == "mentor" then "Mentor"
    else if position == "manager" then "Managers"
    else if position == "marketing" then "Marketing"
    else if position == "reception" then "Reception"
    else "Employees"
  }

  /** Different positions land in different groups, and none of them in the fallback group. */
  lemma GroupsDistinct(p: string, q: string)
    requires p in Positions && q in Positions && p != q
    ensures GroupName(p) != GroupName(q) && GroupName(p) != "Employees"
  {
  }
}
