/** Two reports of accounts/views.py: the running balance of an account's ledger export,
 *  and the per-course count of students who have or have not paid in full. */
module Reports {
  import opened Common
  import opened Journal
  import opened Amounts

  /** A line's amount, positive when it is on the account's normal side. */
  function SignedAmount(t: AccountType, l: Line): (r: Money)
    ensures r == Signed(t, DebitAmount(l), CreditAmount(l))
  {
    if (l.isDebit && DebitNormal(t)) || (!l.isDebit && !DebitNormal(t)) then l.amount else -l.amount
  }

  /** The sum of the signed amounts of `ls`. */
  function RunningTotal(t: AccountType, ls: seq<Line>): Money
  {
    if ls == [] then 0.0 else RunningTotal(t, ls[..|ls| - 1]) + SignedAmount(t, ls[|ls| - 1])
  }

  /** The running total is the net of the lines' debit and credit totals. */
  lemma {:induction false} RunningTotalIsNet(t: AccountType, ls: seq<Line>)
    ensures RunningTotal(t, ls) == Signed(t, TotalDebits(ls), TotalCredits(ls))
  {
    if ls != [] {
      RunningTotalIsNet(t, ls[..|ls| - 1]);
    }
  }

  /** `LedgerExportExcelView.get`: the `RunningBalance` column over the account's
   *  transactions `ls`, in the order listed. */
  method RunningBalances(t: AccountType, ls: seq<Line>) returns (balances: seq<Money>)
    ensures |balances| == |ls|
    ensures forall k :: 0 <= k < |ls| ==> balances[k] == RunningTotal(t, ls[..k + 1])
  {
    var rb := 0.0;
    balances := [];
    var k := 0;
    while k < |ls|
      invariant 0 <= k <= |ls| && |balances| == k
      invariant rb == RunningTotal(t, ls[..k])
      invariant forall m :: 0 <= m < k ==> balances[m] == RunningTotal(t, ls[..m + 1])
    {
      assert ls[..k + 1][..k] == ls[..k];
      rb := rb + SignedAmount(t, ls[k]);
      balances := balances + [rb];
      k := k + 1;
    }
  }

  /** The lines of `ls` on account `a`, in order. */
  function OnAccount(ls: seq<Line>, a: nat): (r: seq<Line>)
    ensures forall x :: 0 <= x < |r| ==> r[x].account == a
  {
    if ls == [] then []
    else OnAccount(ls[..|ls| - 1], a) + (if ls[|ls| - 1].account == a then [ls[|ls| - 1]] else [])
  }

  lemma {:induction false} OnAccountTotals(ls: seq<Line>, a: nat)
    ensures TotalDebits(OnAccount(ls, a)) == AccountDebits(ls, a)
    ensures TotalCredits(OnAccount(ls, a)) == AccountCredits(ls, a)
  {
    if ls != [] {
      var init := ls[..|ls| - 1];
      var last := ls[|ls| - 1];
      OnAccountTotals(init, a);
      TotalsConcat(OnAccount(init, a), if last.account == a then [last] else []);
      assert [last][..0] == [];
    }
  }

  /** `Transaction.objects.filter(account=a)` over the journal: every line on `a`,
   *  entry by entry, posted or not. */
  function LedgerLines(es: seq<Entry>, a: nat): seq<Line>
  {
    if es == [] then [] else LedgerLines(es[..|es| - 1], a) + OnAccount(es[|es| - 1].lines, a)
  }

  /** When every listed entry is posted, the last running balance is the account's net balance. */
  lemma {:induction false} FinalRunningBalance(t: AccountType, es: seq<Entry>, a: nat)
    requires forall k :: 0 <= k < |es| ==> es[k].isPosted
    ensures RunningTotal(t, LedgerLines(es, a)) == NetBalance(t, es, a)
  {
    LedgerTotals(es, a);
    RunningTotalIsNet(t, LedgerLines(es, a));
  }

  lemma {:induction false} LedgerTotals(es: seq<Entry>, a: nat)
    requires forall k :: 0 <= k < |es| ==> es[k].isPosted
    ensures TotalDebits(LedgerLines(es, a)) == PostedDebits(es, a)
    ensures TotalCredits(LedgerLines(es, a)) == PostedCredits(es, a)
  {
    if es != [] {
      var init := es[..|es| - 1];
      LedgerTotals(init, a);
      TotalsConcat(LedgerLines(init, a), OnAccount(es[|es| - 1].lines, a));
      OnAccountTotals(es[|es| - 1].lines, a);
    }
  }

  /** One student with receipts for the course: default discounts and the receipts' paid amounts. */
  datatype StudentDue = StudentDue(discountPercent: Option<Money>, discountAmount: Option<Money>, paid: seq<Money>)

  /** `remaining` in `OutstandingCoursesView`: the discounted course price less what was paid. */
  function Remaining(price: Option<Money>, s: StudentDue): (r: Money)
    ensures Max0(r) == BalanceDue(EnrollmentNetAmount(OrZero(price), OrZero(s.discountPercent), OrZero(s.discountAmount)), s.paid)
  {
    EnrollmentNetAmount(OrZero(price), OrZero(s.discountPercent), OrZero(s.discountAmount)) - Sum(s.paid)
  }

  /** Students whose remaining amount is not positive. */
  function FullyPaidCount(price: Option<Money>, ss: seq<StudentDue>): (n: nat)
    ensures n <= |ss|
  {
    if ss == [] then 0
    else FullyPaidCount(price, ss[..|ss| - 1]) + (if Remaining(price, ss[|ss| - 1]) <= 0.0 then 1 else 0)
  }

  /** The positive remaining amounts, summed. */
  function OutstandingTotal(price: Option<Money>, ss: seq<StudentDue>): Money
  {
    if ss == [] then 0.0
    else OutstandingTotal(price, ss[..|ss| - 1]) + Max0(Remaining(price, ss[|ss| - 1]))
  }

  /** Nothing is outstanding exactly when every student has paid in full. */
  lemma {:induction false} OutstandingWhenUnpaid(price: Option<Money>, ss: seq<StudentDue>)
    ensures OutstandingTotal(price, ss) >= 0.0
    ensures OutstandingTotal(price, ss) > 0.0 <==> FullyPaidCount(price, ss) < |ss|
  {
    if ss != [] {
      OutstandingWhenUnpaid(price, ss[..|ss| - 1]);
    }
  }

  /** One course's row of `OutstandingCoursesView`: how many of its students have paid in
   *  full, how many have not, and the total still outstanding. */
  method CourseSummary(price: Option<Money>, ss: seq<StudentDue>) returns (fullyPaid: nat, notFullyPaid: nat, outstanding: Money)
    ensures fullyPaid == FullyPaidCount(price, ss)
    ensures fullyPaid + notFullyPaid == |ss|
    ensures outstanding == OutstandingTotal(price, ss)
    ensures outstanding >= 0.0 && (outstanding > 0.0 <==> notFullyPaid > 0)
  {
    fullyPaid, notFullyPaid, outstanding := 0, 0, 0.0;
    var k := 0;
    while k < |ss|
      invariant 0 <= k <= |ss|
      invariant fullyPaid == FullyPaidCount(price, ss[..k]) && fullyPaid + notFullyPaid == k
      invariant outstanding == OutstandingTotal(price, ss[..k])
    {
      var remaining := Remaining(price, ss[k]);
      assert ss[..k + 1][..k] == ss[..k] && ss[..k + 1][k] == ss[k];
      assert FullyPaidCount(price, ss[..k + 1]) == FullyPaidCount(price, ss[..k]) + (if remaining <= 0.0 then 1 else 0);
      assert OutstandingTotal(price, ss[..k + 1]) == OutstandingTotal(price, ss[..k]) + Max0(remaining);
      if remaining <= 0.0 {
        fullyPaid := fullyPaid + 1;
      } else {
        notFullyPaid := notFullyPaid + 1;
        outstanding := outstanding + remaining;
      }
      k := k + 1;
    }
    assert ss[..k] == ss;
    OutstandingWhenUnpaid(price, ss);
  }
}
