/** Staff views (employ/views.py): request-parameter sanitisers, the salary period a page
 *  shows, the advance repayment guard, the remaining salary of a period, and the
 *  salary payment that records an expense once per payee and month. */
module EmployViews {
  import opened Common
  import opened Numbering
  import opened Amounts
  import opened EmployModels

  datatype Date = Date(year: int, month: int, day: int)

  predicate ValidMonth(m: int)
  {
    1 <= m <= 12
  }

  /** The characters of `s` that are ASCII digits, in order (`''.join(ch for ch in s if ch.isdigit())`). */
  function DigitsOnly(s: string): (r: string)
    ensures AllDigits(r) && |r| <= |s|
    ensures AllDigits(s) ==> r == s
  {
    if s == [] then []
    else if IsDigit(s[|s| - 1]) then DigitsOnly(s[..|s| - 1]) + [s[|s| - 1]]
    else DigitsOnly(s[..|s| - 1])
  }

  /** `_sanitize_int` in the salary payment views: the number formed by the digits of the
   *  value, unless the value is missing, has no digit, or falls outside a non-empty
   *  `allowed` set; then the default. */
  function SanitizeInt(value: Option<string>, default: int, allowed: Option<set<int>>): (r: int)
    ensures value.None? ==> r == default
    ensures value.Some? && DigitsOnly(value.value) == [] ==> r == default
    ensures value.Some? && DigitsOnly(value.value) != [] ==>
      var n := ValueOf(DigitsOnly(value.value));
      r == if allowed.Some? && allowed.value != {} && n !in allowed.value then default else n
  {
    if value.None? then default
    else
      var cleaned := DigitsOnly(value.value);
      if cleaned == [] then default
      else
        var n := ValueOf(cleaned);
        if allowed.Some? && allowed.value != {} && n !in allowed.value then default else n
  }

  /** `set(range(1, 13))` */
  const Months: set<int> := set m | 1 <= m <= 12

  /** The month of a salary payment is always a real month when the default is one. */
  lemma SanitizedMonthValid(value: Option<string>, default: int)
    requires ValidMonth(default)
    ensures ValidMonth(SanitizeInt(value, default, Some(Months)))
  {
    assert 1 in Months;
  }

  /** A month written in plain digits is read back as that month. */
  lemma SanitizeMonthRoundTrip(m: nat, default: int)
    requires ValidMonth(m)
    ensures SanitizeInt(Some(Digits(m)), default, Some(Months)) == m
  {
    ValueOfDigits(m);
    assert m in Months;
  }

  /** `int(s)` on a string: optional surrounding whitespace and sign, then ASCII digits. */
  function ParseInt(s: string): (r: Option<int>)
    ensures r.Some? ==> Strip(s) != []
  {
    var t := Strip(s);
    if t == [] then None
    else if t[0] == '-' || t[0] == '+' then
      var body := t[1..];
      var v: int := if body != [] && AllDigits(body) then ValueOf(body) else 0;
      if body != [] && AllDigits(body) then Some(if t[0] == '-' then -v else v) else None
    else if AllDigits(t) then Some(ValueOf(t))
    else None
  }

  /** A non-empty run of digits parses to its value. */
  lemma ParseUnsigned(d: string)
    requires d != [] && AllDigits(d)
    ensures ParseInt(d) == Some(ValueOf(d) as int)
  {
    assert IsDigit(d[0]) && IsDigit(d[|d| - 1]);
    StripStripped(d);
  }

  /** A sign followed by a non-empty run of digits parses to the signed value. */
  lemma ParseWithSign(c: char, d: string)
    requires (c == '+' || c == '-') && d != [] && AllDigits(d)
    ensures ParseInt([c] + d) == Some(if c == '-' then -(ValueOf(d) as int) else ValueOf(d) as int)
  {
    var t := [c] + d;
    assert Stripped(t) by {
      assert t[|t| - 1] == d[|d| - 1];
    }
    StripStripped(t);
    assert t[0] == c && t[1..] == d;
  }

  /** `sanitize` in the profile views: the parsed value when it lies in [low, high], else
   *  the default (also when the parameter is missing or not a number). */
  function Sanitize(value: Option<string>, default: int, low: int, high: int): (r: int)
    ensures r == default || low <= r <= high
    ensures value.Some? && ParseInt(value.value).Some? && low <= ParseInt(value.value).value <= high ==>
      r == ParseInt(value.value).value
    ensures value.None? || ParseInt(value.value).None? ==> r == default
  {
    if value.None? then default
    else
      var p := ParseInt(value.value);
      if p.Some? && low <= p.value <= high then p.value else default
  }

  /** `str(n)` parses back to `n`. */
  lemma ParseDigits(n: nat)
    ensures ParseInt(Digits(n)) == Some(n)
  {
    var d := Digits(n);
    assert IsDigit(d[0]) && IsDigit(d[|d| - 1]);
    assert Stripped(d);
    StripStripped(d);
    ValueOfDigits(n);
  }

  /** The month before (year, month). */
  function PreviousMonth(year: int, month: int): (r: (int, int))
    requires ValidMonth(month)
    ensures ValidMonth(r.1)
    ensures r.0 * 12 + r.1 == year * 12 + month - 1
  {
    if month == 1 then (year - 1, 12) else (year, month - 1)
  }

  /** The salary period of a list page: this month from day `threshold` on, else last
   *  month (the teachers list uses 25, the teacher profile 28). */
  function SalaryPeriod(today: Date, threshold: int): (r: (int, int))
    requires ValidMonth(today.month)
    ensures ValidMonth(r.1)
    ensures today.day >= threshold ==> r == (today.year, today.month)
    ensures today.day < threshold ==> r.0 * 12 + r.1 == today.year * 12 + today.month - 1
  {
    if today.day >= threshold then (today.year, today.month) else PreviousMonth(today.year, today.month)
  }

  /** `_get_period_from_request`: with a year or a month parameter, the sanitised pair
   *  (years 1900..2100, months 1..12, defaulting to today's); without either, `fallback`. */
  function RequestedPeriod(today: Date, yearParam: Option<string>, monthParam: Option<string>, fallback: (int, int)): (r: (int, int))
    requires ValidMonth(today.month) && ValidMonth(fallback.1)
    ensures ValidMonth(r.1)
    ensures yearParam.None? && monthParam.None? ==> r == fallback
    ensures yearParam.Some? || monthParam.Some? ==> (1900 <= r.0 <= 2100 || r.0 == today.year)
  {
    if yearParam.Some? || monthParam.Some? then
      (Sanitize(yearParam, today.year, 1900, 2100), Sanitize(monthParam, today.month, 1, 12))
    else fallback
  }

  datatype RepayError = NotPositive | ExceedsOutstanding

  /** `EmployeeAdvanceRepayView.post`: the checks made before the repayment is recorded. */
  function RepayGuard(amount: Money, advance: Money, repaid: Money): (r: Result<Money, RepayError>)
    ensures r.Ok? <==> 0.0 < amount <= Outstanding(advance, repaid)
    ensures r.Ok? ==> r.value == amount
    ensures amount <= 0.0 ==> r == Err(NotPositive)
  {
    if amount <= 0.0 then Err(NotPositive)
    else if amount > Outstanding(advance, repaid) then Err(ExceedsOutstanding)
    else Ok(amount)
  }

  /** The guard's arithmetic: an amount it accepts fits within `outstanding_amount`, so raising
   *  `repaid_amount` by it would lower the outstanding amount by exactly that amount. The view
   *  then calls `create_repayment_entry`, which is not part of this model. */
  lemma RepayAccepted(amount: Money, advance: Money, repaid: Money)
    requires RepayGuard(amount, advance, repaid).Ok?
    ensures Outstanding(advance, repaid + amount) == Outstanding(advance, repaid) - amount
  {
    RepaymentReducesOutstanding(advance, repaid, amount);
  }

  /** `EmployeeProfileView`: what is left of the period's salary after the period's salary
   *  expenses and the outstanding advances taken in the period, never below zero. */
  function PeriodRemaining(salary: Option<Money>, paid: seq<Money>, advances: seq<Money>): (r: Money)
    ensures r >= 0.0
    ensures r == 0.0 <==> Sum(paid) + Sum(advances) >= OrZero(salary)
    ensures r > 0.0 ==> r == OrZero(salary) - (Sum(paid) + Sum(advances))
  {
    Max0(OrZero(salary) - (Sum(paid) + Sum(advances)))
  }

  /** A further payment never increases what remains. */
  lemma PaymentLowersRemaining(salary: Option<Money>, paid: seq<Money>, advances: seq<Money>, x: Money)
    requires x >= 0.0
    ensures PeriodRemaining(salary, paid + [x], advances) <= PeriodRemaining(salary, paid, advances)
  {
    SumAppend(paid, x);
  }

  /** Who a salary expense is for. */
  datatype Payee = EmployeePayee(id: nat) | TeacherPayee(id: nat)

  /** The columns of an `ExpenseEntry` that the salary views write and query.
   *  `period` is the month a payment is for; the views as written never set it. */
  datatype SalaryExpense = SalaryExpense(
    employee: Option<nat>,
    teacher: Option<nat>,
    category: string,
    description: string,
    date: Date,
    amount: Money,
    period: Option<(int, int)>)

  predicate InMonth(d: Date, year: int, month: int)
  {
    d.year == year && d.month == month
  }

  predicate IsPrefix(p: string, s: string)
  {
    |p| <= |s| && s[..|p|] == p
  }

  /** `sub in s` */
  predicate Contains(s: string, sub: string)
  {
    IsPrefix(sub, s) || (s != [] && Contains(s[1..], sub))
  }

  /** ASCII lower-casing, as the database applies to both sides of a case-insensitive match. */
  function LowerAscii(s: string): (r: string)
    ensures |r| == |s|
    ensures forall i :: 0 <= i < |s| ==> !('A' <= r[i] <= 'Z')
    ensures forall i :: 0 <= i < |s| && !('A' <= s[i] <= 'Z') ==> r[i] == s[i]
  {
    seq(|s|, i requires 0 <= i < |s| => if 'A' <= s[i] <= 'Z' then (s[i] as int + 32) as char else s[i])
  }

  /** `description__icontains=sub`: `sub` occurs in `s`, letter case aside. */
  predicate IContains(s: string, sub: string)
  {
    Contains(LowerAscii(s), LowerAscii(sub))
  }

  /** A case-sensitive occurrence is also a case-insensitive one. */
  lemma {:induction false} ContainsIContains(s: string, sub: string)
    requires Contains(s, sub)
    ensures IContains(s, sub)
  {
    if IsPrefix(sub, s) {
      assert LowerAscii(s)[..|sub|] == LowerAscii(sub);
    } else {
      ContainsIContains(s[1..], sub);
      assert LowerAscii(s)[1..] == LowerAscii(s[1..]);
    }
  }

  predicate BelongsTo(e: SalaryExpense, payee: Payee)
  {
    match payee
    case EmployeePayee(id) => e.employee == Some(id)
    case TeacherPayee(id) => e.teacher == Some(id)
  }

  /** A pre-link salary expense naming the payee in its description, letter case aside. */
  predicate LegacyMatch(e: SalaryExpense, nameHint: string)
  {
    e.teacher.None? && IContains(e.description, nameHint) && (e.category == "SALARY" || e.category == "TEACHER_SALARY")
  }

  /** `Employee.get_salary_status` / `Teacher.get_salary_status`: an expense of the payee
   *  dated in the month, or (for a non-empty name) a legacy expense dated in it. */
  predicate SalaryStatus(es: seq<SalaryExpense>, payee: Payee, nameHint: string, year: int, month: int)
  {
    (exists k :: 0 <= k < |es| && BelongsTo(es[k], payee) && InMonth(es[k].date, year, month))
    || (nameHint != [] && exists k :: 0 <= k < |es| && LegacyMatch(es[k], nameHint) && InMonth(es[k].date, year, month))
  }

  datatype PayError = NothingToPay | AlreadyRecorded

  function Tag(payee: Payee): string
  {
    match payee
    case EmployeePayee(id) => " [Employee #" + Digits(id) + "]"
    case TeacherPayee(id) => " [Teacher #" + Digits(id) + "]"
  }

  /** The expense a salary payment records, dated `date`. */
  function SalaryRecord(payee: Payee, name: string, amount: Money, date: Date, year: nat, month: nat, period: Option<(int, int)>): SalaryExpense
  {
    SalaryExpense(
      if payee.EmployeePayee? then Some(payee.id) else None,
      if payee.TeacherPayee? then Some(payee.id) else None,
      if payee.EmployeePayee? then "SALARY" else "TEACHER_SALARY",
      "Salary - " + name + " (" + ZeroPad(month, 2) + "/" + Digits(year) + ")" + Tag(payee),
      date, amount, period)
  }

  /** `PayEmployeeSalaryView.post` / `PayTeacherSalaryView.post` as written: refuse a
   *  non-positive amount (the employee's salary, or the teacher's computed salary) and a
   *  month whose status is already paid; otherwise record a salary expense dated today. */
  function PaySalaryAsWritten(es: seq<SalaryExpense>, payee: Payee, name: string, nameHint: string,
                              amount: Money, today: Date, year: nat, month: nat): (r: Result<seq<SalaryExpense>, PayError>)
    ensures amount <= 0.0 ==> r == Err(NothingToPay)
    ensures amount > 0.0 && SalaryStatus(es, payee, nameHint, year, month) ==> r == Err(AlreadyRecorded)
    ensures r.Ok? ==> |r.value| == |es| + 1 && r.value[..|es|] == es
    ensures r.Ok? ==> BelongsTo(r.value[|es|], payee) && r.value[|es|].amount == amount && r.value[|es|].date == today
  {
    if amount <= 0.0 then Err(NothingToPay)
    else if SalaryStatus(es, payee, nameHint, year, month) then Err(AlreadyRecorded)
    else Ok(es + [SalaryRecord(payee, name, amount, today, year, month, None)])
  }

  /** Paying April in May: the expense is dated in May, so April still reads as unpaid
   *  and the same month can be paid a second time. */
  lemma PastMonthPaidTwice()
    ensures var payee := EmployeePayee(1);
      var today := Date(2024, 5, 10);
      var first := PaySalaryAsWritten([], payee, "Ali", "", 100.0, today, 2024, 4);
      first.Ok? && PaySalaryAsWritten(first.value, payee, "Ali", "", 100.0, today, 2024, 4).Ok?
  {
    var payee := EmployeePayee(1);
    var today := Date(2024, 5, 10);
    var e := SalaryRecord(payee, "Ali", 100.0, today, 2024, 4, None);
    assert !SalaryStatus([], payee, "", 2024, 4);
    assert !SalaryStatus([e], payee, "", 2024, 4) by {
      assert forall k :: 0 <= k < 1 ==> [e][k] == e;
    }
  }

  /** The month an expense pays for: its recorded period, else the month of its date. */
  predicate PaysFor(e: SalaryExpense, year: int, month: int)
  {
    if e.period.Some? then e.period.value == (year, month) else InMonth(e.date, year, month)
  }

  /** The status check against the paid month rather than the booking date. */
  predicate SalaryStatusFixed(es: seq<SalaryExpense>, payee: Payee, nameHint: string, year: int, month: int)
  {
    (exists k :: 0 <= k < |es| && BelongsTo(es[k], payee) && PaysFor(es[k], year, month))
    || (nameHint != [] && exists k :: 0 <= k < |es| && LegacyMatch(es[k], nameHint) && PaysFor(es[k], year, month))
  }

  /** The payment with the month it pays for recorded on the expense and checked by the guard. */
  function PaySalary(es: seq<SalaryExpense>, payee: Payee, name: string, nameHint: string,
                     amount: Money, today: Date, year: nat, month: nat): (r: Result<seq<SalaryExpense>, PayError>)
    ensures amount <= 0.0 ==> r == Err(NothingToPay)
    ensures amount > 0.0 && SalaryStatusFixed(es, payee, nameHint, year, month) ==> r == Err(AlreadyRecorded)
    ensures r.Ok? ==> |r.value| == |es| + 1 && r.value[..|es|] == es
    ensures r.Ok? ==> BelongsTo(r.value[|es|], payee) && r.value[|es|].amount == amount && r.value[|es|].date == today
    ensures r.Ok? ==> SalaryStatusFixed(r.value, payee, nameHint, year, month)
  {
    if amount <= 0.0 then Err(NothingToPay)
    else if SalaryStatusFixed(es, payee, nameHint, year, month) then Err(AlreadyRecorded)
    else
      var e := SalaryRecord(payee, name, amount, today, year, month, Some((year, month)));
      var es' := es + [e];
      assert BelongsTo(es'[|es|], payee) && PaysFor(es'[|es|], year, month);
      Ok(es')
  }

  /** Whatever the date of payment, a month is paid at most once per payee. */
  lemma PaySalaryOnce(es: seq<SalaryExpense>, payee: Payee, name: string, nameHint: string,
                      amount: Money, today: Date, later: Date, year: nat, month: nat)
    requires PaySalary(es, payee, name, nameHint, amount, today, year, month).Ok?
    ensures PaySalary(PaySalary(es, payee, name, nameHint, amount, today, year, month).value,
                      payee, name, nameHint, amount, later, year, month) == Err(AlreadyRecorded)
  {
  }
}
