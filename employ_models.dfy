/** Staff records (employ/models.py): the display name of an employee, a teacher's
 *  monthly salary by salary type, and the comma-separated branch list. */
module EmployModels {
  import opened Common

  /** The fields of a Django `User` that the staff code reads. */
  datatype UserInfo = UserInfo(firstName: string, lastName: string, username: string)

  /** `User.get_full_name()`: first and last name separated by a space, then stripped. */
  function GetFullName(u: UserInfo): (r: string)
    ensures |r| <= |u.firstName| + 1 + |u.lastName|
    ensures r == [] || (!IsSpace(r[0]) && !IsSpace(r[|r| - 1]))
  {
    Strip(u.firstName + " " + u.lastName)
  }

  /** `Employee.full_name`: the full name when it is not empty, else the username;
   *  the empty string for an employee without a user. */
  function FullName(user: Option<UserInfo>): (r: string)
    ensures user.None? ==> r == []
    ensures user.Some? && GetFullName(user.value) != [] ==> r == GetFullName(user.value)
    ensures user.Some? && GetFullName(user.value) == [] ==> r == user.value.username
    ensures user.Some? && user.value.username != [] ==> r != []
  {
    match user
    case None => []
    case Some(u) => if GetFullName(u) != [] then GetFullName(u) else u.username
  }

  /** `Teacher.salary_type`; any stored value outside the three choices is `OtherSalaryType`. */
  datatype SalaryType = Hourly | Monthly | Mixed | OtherSalaryType

  /** `Teacher.calculate_monthly_salary`, given the month's present-session count. */
  function MonthlySalary(t: SalaryType, sessions: nat, hourlyRate: Option<Money>, monthlySalary: Option<Money>): (r: Money)
    ensures t == Hourly ==> r == sessions as real * OrZero(hourlyRate)
    ensures t == Monthly ==> r == OrZero(monthlySalary)
    ensures t == OtherSalaryType ==> r == 0.0
    ensures OrZero(hourlyRate) >= 0.0 && OrZero(monthlySalary) >= 0.0 ==> r >= 0.0
  {
    match t
    case Hourly => sessions as real * OrZero(hourlyRate)
    case Monthly => OrZero(monthlySalary)
    case Mixed => OrZero(monthlySalary) + sessions as real * OrZero(hourlyRate)
    case OtherSalaryType => 0.0
  }

  /** A mixed salary is the monthly salary plus the hourly salary. */
  lemma MixedIsSum(sessions: nat, hourlyRate: Option<Money>, monthlySalary: Option<Money>)
    ensures MonthlySalary(Mixed, sessions, hourlyRate, monthlySalary)
         == MonthlySalary(Monthly, sessions, hourlyRate, monthlySalary) + MonthlySalary(Hourly, sessions, hourlyRate, monthlySalary)
  {
  }

  /** A fixed monthly salary does not depend on attendance; the others never shrink with it. */
  lemma SalaryBySessions(t: SalaryType, s1: nat, s2: nat, hourlyRate: Option<Money>, monthlySalary: Option<Money>)
    requires s1 <= s2 && OrZero(hourlyRate) >= 0.0
    ensures MonthlySalary(t, s1, hourlyRate, monthlySalary) <= MonthlySalary(t, s2, hourlyRate, monthlySalary)
    ensures t == Monthly || t == OtherSalaryType ==>
      MonthlySalary(t, s1, hourlyRate, monthlySalary) == MonthlySalary(t, s2, hourlyRate, monthlySalary)
  {
    if t == Hourly || t == Mixed {
      SessionsPartMono(t, s1, s2, hourlyRate, monthlySalary);
    }
  }

  lemma SessionsPartMono(t: SalaryType, s1: nat, s2: nat, hourlyRate: Option<Money>, monthlySalary: Option<Money>)
    requires t == Hourly || t == Mixed
    requires s1 <= s2 && OrZero(hourlyRate) >= 0.0
    ensures MonthlySalary(t, s1, hourlyRate, monthlySalary) <= MonthlySalary(t, s2, hourlyRate, monthlySalary)
  {
    ScaleMono(s1 as real, s2 as real, OrZero(hourlyRate));
  }

  lemma ScaleMono(a: real, b: real, rate: real)
    requires a <= b && rate >= 0.0
    ensures a * rate <= b * rate
  {
    assert b * rate - a * rate == (b - a) * rate;
  }

  /** Strips every piece. */
  function StripAll(pieces: seq<string>): (r: seq<string>)
    ensures |r| == |pieces|
    ensures forall k :: 0 <= k < |r| ==> r[k] == Strip(pieces[k])
  {
    if pieces == [] then []
    else
      var rest := StripAll(pieces[1..]);
      assert forall k :: 1 <= k < |pieces| ==> pieces[1..][k - 1] == pieces[k];
      [Strip(pieces[0])] + rest
  }

  /** Keeps the non-empty pieces, in order. */
  function NonEmpty(pieces: seq<string>): (r: seq<string>)
    ensures |r| <= |pieces|
    ensures forall k :: 0 <= k < |r| ==> r[k] != [] && r[k] in pieces
  {
    if pieces == [] then []
    else if pieces[0] == [] then NonEmpty(pieces[1..])
    else [pieces[0]] + NonEmpty(pieces[1..])
  }

  /** A branch name as `get_branches_list` returns it: non-empty, stripped, comma-free. */
  predicate CleanBranch(b: string)
  {
    b != [] && Stripped(b) && ',' !in b
  }

  /** `Teacher.get_branches_list`: split on ',', strip each piece, drop the empty ones;
   *  an empty or missing value gives no branches. */
  function BranchesList(branches: Option<string>): (r: seq<string>)
    ensures branches.None? || branches.value == [] ==> r == []
    ensures forall k :: 0 <= k < |r| ==> CleanBranch(r[k])
  {
    if branches.None? || branches.value == [] then []
    else
      var r := NonEmpty(StripAll(Split(branches.value, ',')));
      assert forall k :: 0 <= k < |r| ==> CleanBranch(r[k]) by {
        forall k | 0 <= k < |r|
          ensures CleanBranch(r[k])
        {
          var pieces := Split(branches.value, ',');
          var j :| 0 <= j < |pieces| && r[k] == StripAll(pieces)[j];
          StripNoNewChars(pieces[j], ',');
        }
      }
      r
  }

  /** Stripping only removes characters. */
  lemma StripNoNewChars(s: string, c: char)
    requires c !in s
    ensures c !in Strip(s)
  {
    var m := RStrip(s);
    NotInSlice(s, c, 0, |m|);
    NotInSlice(m, c, |m| - |LStrip(m)|, |m|);
  }

  lemma NotInSlice(s: string, c: char, i: nat, j: nat)
    requires c !in s && i <= j <= |s|
    ensures c !in s[i..j]
  {
    assert forall k :: 0 <= k < j - i ==> s[i..j][k] == s[i + k];
  }

  lemma {:induction false} StripAllClean(bs: seq<string>)
    requires forall k :: 0 <= k < |bs| ==> CleanBranch(bs[k])
    ensures StripAll(bs) == bs && NonEmpty(bs) == bs
  {
    if bs != [] {
      StripAllClean(bs[1..]);
      StripStripped(bs[0]);
    }
  }

  /** Round trip of the teacher form: joining clean branch names with ',' and reading the
   *  list back gives the same names in the same order. */
  lemma BranchesRoundTrip(bs: seq<string>)
    requires forall k :: 0 <= k < |bs| ==> CleanBranch(bs[k])
    ensures BranchesList(Some(Join(bs, ','))) == bs
  {
    JoinEmpty(bs, ',');
    if bs != [] {
      SplitJoin(bs, ',');
      StripAllClean(bs);
    }
  }
}
