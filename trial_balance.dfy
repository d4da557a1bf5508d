/** The trial balance report of accounts/views.py (TrialBalanceView): one row per active
 *  account with posted activity, its net balance placed in the debit or credit column. */
module TrialBalance {
  import opened Common
  import opened Journal
  import opened AccountTree
  import opened Books

  datatype Row = Row(account: nat, debit: Money, credit: Money)

  /** The column an account's net balance goes in: a positive balance on the account's
   *  normal side, a non-positive one (as its absolute value) on the other side. */
  function Placement(t: AccountType, net: Money): (r: (Money, Money))
    ensures r.0 >= 0.0 && r.1 >= 0.0 && (r.0 == 0.0 || r.1 == 0.0)
    ensures DebitNormal(t) ==> r.0 - r.1 == net
    ensures !DebitNormal(t) ==> r.1 - r.0 == net
    ensures net > 0.0 <==> (if DebitNormal(t) then r.0 > 0.0 else r.1 > 0.0)
  {
    if net > 0.0 then
      (if DebitNormal(t) then (net, 0.0) else (0.0, net))
    else
      (if DebitNormal(t) then (0.0, -net) else (-net, 0.0))
  }

  /** The row of account `a`, if it has one. */
  function AccountRow(accts: seq<Account>, es: seq<Entry>, a: nat): Option<Row>
    requires a < |accts|
  {
    var d, c := PostedDebits(es, a), PostedCredits(es, a);
    if accts[a].isActive && (d > 0.0 || c > 0.0) then
      var p := Placement(accts[a].accountType, NetBalance(accts[a].accountType, es, a));
      Some(Row(a, p.0, p.1))
    else None
  }

  /** The rows for the first `n` accounts, in account order. */
  function Rows(accts: seq<Account>, es: seq<Entry>, n: nat): seq<Row>
    requires n <= |accts|
  {
    if n == 0 then []
    else Rows(accts, es, n - 1) + (match AccountRow(accts, es, n - 1) case Some(r) => [r] case None => [])
  }

  function RowDebits(rows: seq<Row>): Money
  {
    if rows == [] then 0.0 else RowDebits(rows[..|rows| - 1]) + rows[|rows| - 1].debit
  }

  function RowCredits(rows: seq<Row>): Money
  {
    if rows == [] then 0.0 else RowCredits(rows[..|rows| - 1]) + rows[|rows| - 1].credit
  }

  /** `TrialBalanceView.get_context_data`: the rows, both column totals and `is_balanced`. */
  method Compute(l: Ledger) returns (rows: seq<Row>, totalDebits: Money, totalCredits: Money, isBalanced: bool)
    ensures rows == Rows(l.accounts, l.entries, |l.accounts|)
    ensures totalDebits == RowDebits(rows) && totalCredits == RowCredits(rows)
    ensures isBalanced <==> totalDebits == totalCredits
  {
    rows, totalDebits, totalCredits := [], 0.0, 0.0;
    var accts, es := l.accounts, l.entries;
    var a := 0;
    while a < |accts|
      invariant 0 <= a <= |accts|
      invariant rows == Rows(accts, es, a)
      invariant totalDebits == RowDebits(rows) && totalCredits == RowCredits(rows)
    {
      var debit, credit := PostedDebits(es, a), PostedCredits(es, a);
      var t := accts[a].accountType;
      if accts[a].isActive && (debit > 0.0 || credit > 0.0) {
        var p := Placement(t, NetBalance(t, es, a));
        var row := Row(a, p.0, p.1);
        assert AccountRow(accts, es, a) == Some(row);
        assert (rows + [row])[..|rows|] == rows;
        rows := rows + [row];
        totalDebits := totalDebits + row.debit;
        totalCredits := totalCredits + row.credit;
      } else {
        assert AccountRow(accts, es, a) == None;
      }
      a := a + 1;
    }
    isBalanced := totalDebits == totalCredits;
  }

  /** Every row is an active account with posted activity, both columns are non-negative with
   *  at most one non-zero, and debit minus credit is the account's posted debits minus credits. */
  lemma {:induction false} RowShape(accts: seq<Account>, es: seq<Entry>, n: nat, k: nat)
    requires n <= |accts| && k < |Rows(accts, es, n)|
    ensures var r := Rows(accts, es, n)[k];
      r.account < n && accts[r.account].isActive &&
      (PostedDebits(es, r.account) > 0.0 || PostedCredits(es, r.account) > 0.0) &&
      r.debit >= 0.0 && r.credit >= 0.0 && (r.debit == 0.0 || r.credit == 0.0) &&
      r.debit - r.credit == PostedDebits(es, r.account) - PostedCredits(es, r.account)
  {
    var prev := Rows(accts, es, n - 1);
    if k >= |prev| {
      var p := Placement(accts[n - 1].accountType, NetBalance(accts[n - 1].accountType, es, n - 1));
      assert Rows(accts, es, n)[k] == Row(n - 1, p.0, p.1);
    } else {
      assert Rows(accts, es, n)[k] == prev[k];
      RowShape(accts, es, n - 1, k);
    }
  }

  /** Every line amount is non-negative (the `amount` validator; automatic entries use
   *  non-negative amounts). */
  predicate NonNegativeAmounts(es: seq<Entry>)
  {
    forall k, x :: 0 <= k < |es| && 0 <= x < |es[k].lines| ==> es[k].lines[x].amount >= 0.0
  }

  /** Every account some posted line hits is active. */
  predicate ActiveWherePosted(accts: seq<Account>, es: seq<Entry>)
  {
    forall k, x :: 0 <= k < |es| && es[k].isPosted && 0 <= x < |es[k].lines| ==>
      es[k].lines[x].account < |accts| && accts[es[k].lines[x].account].isActive
  }

  /** Sum over the accounts below `n` of posted debits minus posted credits. */
  function PostedDiffSum(es: seq<Entry>, n: nat): Money
  {
    if n == 0 then 0.0 else PostedDiffSum(es, n - 1) + (PostedDebits(es, n - 1) - PostedCredits(es, n - 1))
  }

  /** Sum over the accounts below `n` of what the lines debit minus what they credit. */
  function LineDiffSum(ls: seq<Line>, n: nat): Money
  {
    if n == 0 then 0.0 else LineDiffSum(ls, n - 1) + (AccountDebits(ls, n - 1) - AccountCredits(ls, n - 1))
  }

  /** Debits minus credits of the lines whose account is below `n`. */
  function DiffBelow(ls: seq<Line>, n: nat): Money
  {
    if ls == [] then 0.0
    else
      var last := ls[|ls| - 1];
      DiffBelow(ls[..|ls| - 1], n) + (if last.account < n then DebitAmount(last) - CreditAmount(last) else 0.0)
  }

  lemma {:induction false} DiffBelowStep(ls: seq<Line>, n: nat)
    ensures DiffBelow(ls, n + 1) == DiffBelow(ls, n) + (AccountDebits(ls, n) - AccountCredits(ls, n))
  {
    if ls != [] {
      DiffBelowStep(ls[..|ls| - 1], n);
    }
  }

  lemma {:induction false} LineDiffSumBelow(ls: seq<Line>, n: nat)
    ensures LineDiffSum(ls, n) == DiffBelow(ls, n)
  {
    if n > 0 {
      LineDiffSumBelow(ls, n - 1);
      DiffBelowStep(ls, n - 1);
    } else {
      DiffBelowNone(ls);
    }
  }

  lemma {:induction false} DiffBelowNone(ls: seq<Line>)
    ensures DiffBelow(ls, 0) == 0.0
  {
    if ls != [] {
      DiffBelowNone(ls[..|ls| - 1]);
    }
  }

  lemma {:induction false} DiffBelowAll(ls: seq<Line>, n: nat)
    requires LinesInRange(ls, n)
    ensures DiffBelow(ls, n) == TotalDebits(ls) - TotalCredits(ls)
  {
    if ls != [] {
      var init := ls[..|ls| - 1];
      assert LinesInRange(init, n) by {
        forall x | 0 <= x < |init| ensures init[x].account < n {
          assert init[x] == ls[x];
        }
      }
      DiffBelowAll(init, n);
    }
  }

  /** Appending an entry adds, summed over the accounts, what its lines add (when posted). */
  lemma {:induction false} PostedDiffSumStep(es: seq<Entry>, n: nat)
    requires es != []
    ensures var last := es[|es| - 1];
      PostedDiffSum(es, n) == PostedDiffSum(es[..|es| - 1], n) + (if last.isPosted then LineDiffSum(last.lines, n) else 0.0)
  {
    if n > 0 {
      PostedDiffSumStep(es, n - 1);
    }
  }

  /** Summed over all accounts, posted debits equal posted credits once every posted entry
   *  is balanced. */
  lemma {:induction false} PostedDiffSumZero(es: seq<Entry>, n: nat)
    requires EntriesInRange(es, n) && PostedBalanced(es)
    ensures PostedDiffSum(es, n) == 0.0
  {
    if es == [] {
      PostedDiffSumEmpty(n);
    } else {
      var m := |es| - 1;
      assert EntriesInRange(es[..m], n) && PostedBalanced(es[..m]) by {
        forall k | 0 <= k < m ensures es[..m][k] == es[k] { }
      }
      PostedDiffSumZero(es[..m], n);
      PostedDiffSumStep(es, n);
      if es[m].isPosted {
        LineDiffSumBelow(es[m].lines, n);
        DiffBelowAll(es[m].lines, n);
      }
    }
  }

  lemma {:induction false} PostedDiffSumEmpty(n: nat)
    ensures PostedDiffSum([], n) == 0.0
  {
    if n > 0 {
      PostedDiffSumEmpty(n - 1);
    }
  }

  lemma {:induction false} AccountSidesNonNegative(ls: seq<Line>, a: nat)
    requires forall x :: 0 <= x < |ls| ==> ls[x].amount >= 0.0
    ensures AccountDebits(ls, a) >= 0.0 && AccountCredits(ls, a) >= 0.0
  {
    if ls != [] {
      AccountSidesNonNegative(ls[..|ls| - 1], a);
    }
  }

  lemma {:induction false} PostedSidesNonNegative(es: seq<Entry>, a: nat)
    requires NonNegativeAmounts(es)
    ensures PostedDebits(es, a) >= 0.0 && PostedCredits(es, a) >= 0.0
  {
    if es != [] {
      var m := |es| - 1;
      assert NonNegativeAmounts(es[..m]) by {
        forall k | 0 <= k < m ensures es[..m][k] == es[k] { }
      }
      PostedSidesNonNegative(es[..m], a);
      AccountSidesNonNegative(es[m].lines, a);
    }
  }

  /** An account no posted line hits has no posted debits or credits. */
  lemma {:induction false} PostedSidesUntouched(es: seq<Entry>, a: nat)
    requires forall k, x :: 0 <= k < |es| && es[k].isPosted && 0 <= x < |es[k].lines| ==> es[k].lines[x].account != a
    ensures PostedDebits(es, a) == 0.0 && PostedCredits(es, a) == 0.0
  {
    if es != [] {
      var m := |es| - 1;
      forall k, x | 0 <= k < m && es[..m][k].isPosted && 0 <= x < |es[..m][k].lines|
        ensures es[..m][k].lines[x].account != a
      {
        assert es[..m][k] == es[k];
      }
      PostedSidesUntouched(es[..m], a);
      if es[m].isPosted {
        UntouchedAccount(es[m].lines, a);
      }
    }
  }

  /** An account without a row has equal posted debits and credits. */
  lemma RowlessAccount(accts: seq<Account>, es: seq<Entry>, a: nat)
    requires a < |accts| && NonNegativeAmounts(es) && ActiveWherePosted(accts, es)
    requires AccountRow(accts, es, a).None?
    ensures PostedDebits(es, a) == 0.0 && PostedCredits(es, a) == 0.0
  {
    if accts[a].isActive {
      PostedSidesNonNegative(es, a);
    } else {
      PostedSidesUntouched(es, a);
    }
  }

  /** The totals differ by exactly the accounts' summed posted debits minus credits. */
  lemma {:induction false} RowTotals(accts: seq<Account>, es: seq<Entry>, n: nat)
    requires n <= |accts| && NonNegativeAmounts(es) && ActiveWherePosted(accts, es)
    ensures RowDebits(Rows(accts, es, n)) - RowCredits(Rows(accts, es, n)) == PostedDiffSum(es, n)
  {
    if n > 0 {
      RowTotals(accts, es, n - 1);
      var prev := Rows(accts, es, n - 1);
      match AccountRow(accts, es, n - 1)
      case Some(r) =>
        assert Rows(accts, es, n)[..|prev|] == prev;
        var p := Placement(accts[n - 1].accountType, NetBalance(accts[n - 1].accountType, es, n - 1));
        assert r.debit - r.credit == PostedDebits(es, n - 1) - PostedCredits(es, n - 1);
      case None =>
        assert Rows(accts, es, n) == prev;
        RowlessAccount(accts, es, n - 1);
    }
  }

  /** `is_balanced` holds whenever every posted entry is balanced, every line amount is
   *  non-negative and every account with postings is active. */
  lemma TrialBalanceBalanced(l: Ledger)
    requires l.Valid() && NonNegativeAmounts(l.entries) && ActiveWherePosted(l.accounts, l.entries)
    ensures var rows := Rows(l.accounts, l.entries, |l.accounts|); RowDebits(rows) == RowCredits(rows)
  {
    RowTotals(l.accounts, l.entries, |l.accounts|);
    PostedDiffSumZero(l.entries, |l.accounts|);
  }
}
