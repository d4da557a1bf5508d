/** Derived amounts on enrollments, receipts, advances and budgets (accounts/models.py). */
module Amounts {
  import opened Common

  /** `Sum('paid_amount')` over a set of payments. */
  function Sum(xs: seq<Money>): Money
  {
    if xs == [] then 0.0 else Sum(xs[..|xs| - 1]) + xs[|xs| - 1]
  }

  lemma SumAppend(xs: seq<Money>, x: Money)
    ensures Sum(xs + [x]) == Sum(xs) + x
  {
    assert (xs + [x])[..|xs|] == xs;
  }

  /** The price after the percentage discount, before the fixed one. */
  function AfterPercent(total: Money, percent: Money): Money
  {
    total - total * percent / 100.0
  }

  /** `StudentEnrollment.net_amount`: the discounted price, never below zero. */
  function EnrollmentNetAmount(total: Money, percent: Money, discount: Money): (r: Money)
    ensures r >= 0.0
    ensures r > 0.0 <==> AfterPercent(total, percent) > discount
    ensures r > 0.0 ==> r + discount == AfterPercent(total, percent)
    ensures total >= 0.0 && 0.0 <= percent && discount >= 0.0 ==> r <= total
    ensures percent == 0.0 && discount == 0.0 && total >= 0.0 ==> r == total
  {
    assert total >= 0.0 && 0.0 <= percent ==> total * percent >= 0.0;
    Max0(AfterPercent(total, percent) - discount)
  }

  /** A larger fixed discount never raises the net amount. */
  lemma NetAmountMonotone(total: Money, percent: Money, d1: Money, d2: Money)
    requires d1 <= d2
    ensures EnrollmentNetAmount(total, percent, d2) <= EnrollmentNetAmount(total, percent, d1)
  {
  }

  /** `StudentEnrollment.balance_due`: what is still owed after the payments, never below zero. */
  function BalanceDue(net: Money, payments: seq<Money>): (r: Money)
    ensures r >= 0.0 && r + Sum(payments) >= net
    ensures r == 0.0 <==> Sum(payments) >= net
    ensures r > 0.0 ==> r + Sum(payments) == net
  {
    Max0(net - Sum(payments))
  }

  /** A further payment lowers the balance due by its amount, down to zero. */
  lemma PaymentReducesDue(net: Money, payments: seq<Money>, p: Money)
    requires p >= 0.0
    ensures BalanceDue(net, payments + [p]) == Max0(BalanceDue(net, payments) - p)
    ensures BalanceDue(net, payments + [p]) <= BalanceDue(net, payments)
  {
    SumAppend(payments, p);
  }

  /** `StudentReceipt.net_amount`: with a (non-zero) list amount, the discounted amount;
   *  otherwise the amount actually paid. */
  function ReceiptNetAmount(amount: Option<Money>, paid: Money, percent: Money, discount: Money): (r: Money)
    ensures amount.Some? && amount.value != 0.0 ==> r == EnrollmentNetAmount(amount.value, percent, discount)
    ensures amount.None? || amount.value == 0.0 ==> r == paid
  {
    if amount.Some? && amount.value != 0.0 then Max0(AfterPercent(amount.value, percent) - discount) else paid
  }

  /** `EmployeeAdvance.outstanding_amount` */
  function Outstanding(amount: Money, repaid: Money): (r: Money)
    ensures r >= 0.0 && r >= amount - repaid
    ensures r == 0.0 <==> repaid >= amount
    ensures repaid >= 0.0 && amount >= 0.0 ==> r <= amount
  {
    Max0(amount - repaid)
  }

  /** Repaying part of what is outstanding lowers the outstanding amount by exactly that much. */
  lemma RepaymentReducesOutstanding(amount: Money, repaid: Money, x: Money)
    requires 0.0 < x <= Outstanding(amount, repaid)
    ensures Outstanding(amount, repaid + x) == Outstanding(amount, repaid) - x
  {
  }

  /** `Budget.variance`: positive when spending exceeds the budget. */
  function Variance(budgeted: Money, actual: Money): (r: Money)
    ensures budgeted + r == actual
  {
    actual - budgeted
  }

  /** `Budget.variance_percentage`: the variance as a percentage of a positive budget, else 0. */
  function VariancePercentage(budgeted: Money, actual: Money): (r: Money)
    ensures budgeted > 0.0 ==> r * budgeted == Variance(budgeted, actual) * 100.0
    ensures budgeted > 0.0 ==> (r > 0.0 <==> actual > budgeted)
    ensures budgeted <= 0.0 ==> r == 0.0
  {
    if budgeted > 0.0 then (Variance(budgeted, actual) / budgeted) * 100.0 else 0.0
  }
}
