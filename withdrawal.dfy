/** Withdrawing a student from a course (accounts/views.py `EnrollmentWithdrawView`, the
 *  definition that takes effect): one entry refunds the student and reverses the
 *  enrollment's accrual, is posted at once, and the enrollment is marked completed.
 *  As written the reversal reads a revenue attribute the course does not have, so an accrued
 *  enrollment cannot be withdrawn (`WithdrawAsWritten`); `Withdraw` is the corrected
 *  withdrawal, with the revenue account as a parameter. */
module Withdrawal {
  import opened Common
  import opened Numbering
  import opened Journal
  import opened AccountTree
  import opened Books
  import opened Students
  import opened Accruals

  /** The fixed reference "WDR-{student id}-{course id}". */
  function WithdrawalReference(studentId: nat, courseId: nat): string
  {
    "WDR-" + Digits(studentId) + "-" + Digits(courseId)
  }

  /** A digit string followed by '-' can be cut back off at that '-'. */
  lemma {:induction false} CutAtHyphen(p: string, q: string, p': string, q': string)
    requires AllDigits(p) && AllDigits(p') && p + "-" + q == p' + "-" + q'
    ensures p == p' && q == q'
  {
    var s := p + "-" + q;
    assert s[|p|] == '-' && forall i :: 0 <= i < |p| ==> s[i] == p[i];
    assert s[|p'|] == '-' && forall i :: 0 <= i < |p'| ==> s[i] == p'[i];
    assert p == s[..|p|] == p';
    assert q == s[|p| + 1..] == q';
  }

  /** Different enrollments get different withdrawal references, so only a second
   *  withdrawal of the same student from the same course can collide. */
  lemma WithdrawalReferenceInjective(s1: nat, c1: nat, s2: nat, c2: nat)
    requires WithdrawalReference(s1, c1) == WithdrawalReference(s2, c2)
    ensures s1 == s2 && c1 == c2
  {
    var r1 := WithdrawalReference(s1, c1);
    var r2 := WithdrawalReference(s2, c2);
    assert r1[4..] == Digits(s1) + "-" + Digits(c1);
    assert r2[4..] == Digits(s2) + "-" + Digits(c2);
    CutAtHyphen(Digits(s1), Digits(c1), Digits(s2), Digits(c2));
    ValueOfDigits(s1);
    ValueOfDigits(s2);
    ValueOfDigits(c1);
    ValueOfDigits(c2);
  }

  /** The lines of the withdrawal entry, in the order they are added: when the refund is
   *  positive, Dr returns `ret` / Cr cash for the refund; when the enrollment had been
   *  accrued, Dr `revenue` / Cr the receivable `ar` for the net amount. */
  function WithdrawalLines(refund: Money, ret: nat, cash: nat, accrued: bool, revenue: nat, ar: nat, net: Money): (ls: seq<Line>)
    ensures Balanced(ls)
    ensures TotalDebits(ls) == (if refund > 0.0 then refund else 0.0) + (if accrued then net else 0.0)
    ensures forall x :: 0 <= x < |ls| ==>
      (refund > 0.0 && ls[x].account in {ret, cash}) || (accrued && ls[x].account in {revenue, ar})
  {
    var refundPair := if refund > 0.0 then TwoLines(ret, cash, refund) else [];
    var reversal := if accrued then TwoLines(revenue, ar, net) else [];
    TotalsConcat(refundPair, reversal);
    refundPair + reversal
  }

  /** What the withdrawal entry does to each account: the refund moves `x` from cash to the
   *  returns account, and the reversal takes away the effect of a Dr `ar` / Cr `revenue` pair
   *  for the net amount. It undoes the enrollment's accrual only when `revenue` is the
   *  course's 2101-NNN account the accrual credited and the net amount is unchanged since. */
  lemma WithdrawalEffect(t: AccountType, refund: Money, ret: nat, cash: nat, accrued: bool, revenue: nat, ar: nat, net: Money, a: nat)
    requires ret != cash && revenue != ar
    ensures EntryEffect(t, WithdrawalLines(refund, ret, cash, accrued, revenue, ar, net), a) ==
      (if refund > 0.0 then EntryEffect(t, TwoLines(ret, cash, refund), a) else 0.0) +
      (if accrued then -EntryEffect(t, TwoLines(ar, revenue, net), a) else 0.0)
  {
    var refundPair := if refund > 0.0 then TwoLines(ret, cash, refund) else [];
    var reversal := if accrued then TwoLines(revenue, ar, net) else [];
    EffectConcat(t, refundPair, reversal, a);
    TwoLinesSwap(t, ar, revenue, net, a);
  }

  /** The returns account 5110 (an expense) and cash 1110 (an asset), created when missing. */
  method RefundAccounts(l: Ledger) returns (ret: nat, cash: nat)
    requires l.Valid()
    modifies l`accounts, l`balances
    ensures l.Valid() && old(l.accounts) <= l.accounts
    ensures l.accounts == AfterGetOrCreate(AfterGetOrCreate(old(l.accounts), "5110", Expense, None), "1110", Asset, None)
    ensures HasCode(l.accounts, "5110") && ret == IndexOf(l.accounts, "5110")
    ensures HasCode(l.accounts, "1110") && cash == IndexOf(l.accounts, "1110")
    ensures ret != cash
    ensures old(l.CacheConsistent()) ==> l.CacheConsistent()
  {
    ret := l.GetOrCreate("5110", Expense, None);
    cash := l.GetOrCreate("1110", Asset, None);
  }

  /** Entry `k`, appended and posted to the journal `before`, is the withdrawal of `enrollment`:
   *  its fixed reference, dated `today`, of type WITHDRAWAL with the refund as its total,
   *  created and posted by `user`; its lines book the refund to 5110 and 1110 and, when the
   *  enrollment had been accrued, reverse the net amount from `revenue` to the student's
   *  receivable. */
  ghost predicate Withdrawn(l: Ledger, before: seq<Entry>, k: nat, enrollment: StudentEnrollment,
                            user: User, now: Time, today: int, refund: Money, revenue: nat)
    reads l, enrollment, enrollment.student
  {
    var accrued := enrollment.enrollmentEntry.Some?;
    AppendedPosted(l, before, k) &&
    (refund > 0.0 ==> HasCode(l.accounts, "5110") && HasCode(l.accounts, "1110")) &&
    (accrued ==> enrollment.student.account.Some?) &&
    l.entries[k] == Entry(WithdrawalReference(enrollment.student.id, enrollment.courseId), today, Withdrawal, refund,
                          true, Some(now), Some(user), user,
                          WithdrawalLines(refund,
                                          if refund > 0.0 then IndexOf(l.accounts, "5110") else 0,
                                          if refund > 0.0 then IndexOf(l.accounts, "1110") else 0,
                                          accrued, revenue,
                                          if accrued then enrollment.student.account.value else 0,
                                          enrollment.NetAmount()))
  }

  /** The accounts the withdrawal entry books to, fetched in this order: returns 5110 and
   *  cash 1110 for a positive refund, the student's receivable (linked on the way) for an
   *  accrued enrollment. */
  method WithdrawalAccounts(l: Ledger, enrollment: StudentEnrollment, refund: Money) returns (ret: nat, cash: nat, ar: nat)
    requires l.Valid() && enrollment.student.LinkedIn(l)
    modifies l`accounts, l`balances, enrollment.student`account
    ensures l.Valid() && enrollment.student.LinkedIn(l) && old(l.accounts) <= l.accounts
    ensures refund > 0.0 ==>
      HasCode(l.accounts, "5110") && ret == IndexOf(l.accounts, "5110") &&
      HasCode(l.accounts, "1110") && cash == IndexOf(l.accounts, "1110") && ret != cash
    ensures enrollment.enrollmentEntry.Some? ==> enrollment.student.account == Some(ar) && ar < |l.accounts|
    ensures enrollment.enrollmentEntry.None? ==> enrollment.student.account == old(enrollment.student.account)
    ensures old(l.CacheConsistent()) ==> l.CacheConsistent()
  {
    ret, cash, ar := 0, 0, 0;
    if refund > 0.0 {
      ret, cash := RefundAccounts(l);
    }
    ghost var mid := l.accounts;
    if enrollment.enrollmentEntry.Some? {
      ar := enrollment.student.ArAccount(l);
    }
    if refund > 0.0 {
      IndexOfStable(mid, l.accounts, "5110");
      IndexOfStable(mid, l.accounts, "1110");
    }
  }

  /** `create_withdrawal_entry`, corrected: the reversal books to the `revenue` account passed
   *  in (`CreateWithdrawalEntryAsWritten` is the code as written). The entry is created first, under its fixed reference, so a
   *  second withdrawal of the same student from the same course is refused by the unique
   *  constraint before anything else happens. Otherwise the accounts are fetched or created,
   *  and the entry is posted, which always succeeds since its lines are balanced. */
  method CreateWithdrawalEntry(l: Ledger, enrollment: StudentEnrollment, user: User, now: Time, today: int,
                               refund: Money, revenue: nat)
    returns (r: Result<nat, LedgerError>)
    requires l.Valid() && enrollment.student.LinkedIn(l) && revenue < |l.accounts|
    modifies l, enrollment.student`account
    ensures l.Valid() && enrollment.student.LinkedIn(l) && l.counters == old(l.counters)
    ensures HasReference(old(l.entries), WithdrawalReference(enrollment.student.id, enrollment.courseId)) ==>
      r == Err(DuplicateReference) &&
      l.accounts == old(l.accounts) && l.balances == old(l.balances) && l.entries == old(l.entries) &&
      enrollment.student.account == old(enrollment.student.account)
    ensures !HasReference(old(l.entries), WithdrawalReference(enrollment.student.id, enrollment.courseId)) ==>
      r.Ok? && old(l.accounts) <= l.accounts &&
      Withdrawn(l, old(l.entries), r.value, enrollment, user, now, today, refund, revenue)
    ensures old(l.CacheConsistent()) ==> l.CacheConsistent()
  {
    var ref := WithdrawalReference(enrollment.student.id, enrollment.courseId);
    if HasReference(l.entries, ref) {
      return Err(DuplicateReference);
    }
    var ret, cash, ar := WithdrawalAccounts(l, enrollment, refund);
    var lines := WithdrawalLines(refund, ret, cash, enrollment.enrollmentEntry.Some?, revenue, ar, enrollment.NetAmount());
    ghost var accts := l.accounts;
    r := l.CreatePostedEntry(ref, today, Withdrawal, refund, user, now, lines);
    assert l.accounts == accts;
  }

  /** `EnrollmentWithdrawView.post`, corrected: the withdrawal entry, then the enrollment is marked
   *  completed. The `closed_at` the view also sets is not a column of the enrollment, so
   *  saving does not keep it and it is not modelled. A refused withdrawal leaves the
   *  enrollment open. */
  method Withdraw(l: Ledger, enrollment: StudentEnrollment, user: User, now: Time, today: int, refund: Money, revenue: nat)
    returns (r: Result<nat, LedgerError>)
    requires l.Valid() && enrollment.student.LinkedIn(l) && revenue < |l.accounts|
    modifies l, enrollment`isCompleted, enrollment.student`account
    ensures l.Valid() && enrollment.student.LinkedIn(l) && l.counters == old(l.counters)
    ensures r.Err? <==> HasReference(old(l.entries), WithdrawalReference(enrollment.student.id, enrollment.courseId))
    ensures r.Err? ==>
      r.error == DuplicateReference &&
      l.accounts == old(l.accounts) && l.balances == old(l.balances) && l.entries == old(l.entries) &&
      enrollment.isCompleted == old(enrollment.isCompleted)
    ensures r.Ok? ==>
      enrollment.isCompleted && old(l.accounts) <= l.accounts &&
      Withdrawn(l, old(l.entries), r.value, enrollment, user, now, today, refund, revenue)
    ensures old(l.CacheConsistent()) ==> l.CacheConsistent()
  {
    r := CreateWithdrawalEntry(l, enrollment, user, now, today, refund, revenue);
    if r.Ok? {
      enrollment.isCompleted := true;
    }
  }

  /** `create_withdrawal_entry` as written. It reverses the accrual through
   *  `enrollment.course.earned_revenue_account`, an attribute `Course` does not have: for an
   *  accrued enrollment the entry and its refund lines are already saved, unposted, when the
   *  `AttributeError` is raised. An enrollment never accrued gets its posted withdrawal entry
   *  as in `CreateWithdrawalEntry`. */
  method CreateWithdrawalEntryAsWritten(l: Ledger, enrollment: StudentEnrollment, user: User, now: Time, today: int,
                                        refund: Money)
    returns (r: Result<nat, LedgerError>)
    requires l.Valid() && enrollment.student.LinkedIn(l)
    modifies l
    ensures l.Valid() && enrollment.student.LinkedIn(l) && l.counters == old(l.counters)
    ensures HasReference(old(l.entries), WithdrawalReference(enrollment.student.id, enrollment.courseId)) ==>
      r == Err(DuplicateReference) &&
      l.accounts == old(l.accounts) && l.balances == old(l.balances) && l.entries == old(l.entries)
    ensures !HasReference(old(l.entries), WithdrawalReference(enrollment.student.id, enrollment.courseId)) &&
            enrollment.enrollmentEntry.Some? ==>
      r == Err(NoRevenueAttribute) && old(l.accounts) <= l.accounts &&
      (refund > 0.0 ==> HasCode(l.accounts, "5110") && HasCode(l.accounts, "1110")) &&
      l.entries == old(l.entries) +
        [Entry(WithdrawalReference(enrollment.student.id, enrollment.courseId), today, Withdrawal, refund,
               false, None, None, user,
               WithdrawalLines(refund,
                               if refund > 0.0 then IndexOf(l.accounts, "5110") else 0,
                               if refund > 0.0 then IndexOf(l.accounts, "1110") else 0,
                               false, 0, 0, 0.0))]
    ensures !HasReference(old(l.entries), WithdrawalReference(enrollment.student.id, enrollment.courseId)) &&
            enrollment.enrollmentEntry.None? ==>
      r.Ok? && old(l.accounts) <= l.accounts &&
      Withdrawn(l, old(l.entries), r.value, enrollment, user, now, today, refund, 0)
    ensures old(l.CacheConsistent()) ==> l.CacheConsistent()
  {
    var ref := WithdrawalReference(enrollment.student.id, enrollment.courseId);
    if HasReference(l.entries, ref) {
      return Err(DuplicateReference);
    }
    var ret, cash := 0, 0;
    if refund > 0.0 {
      ret, cash := RefundAccounts(l);
    }
    var lines := WithdrawalLines(refund, ret, cash, false, 0, 0, 0.0);
    ghost var accts := l.accounts;
    if enrollment.enrollmentEntry.Some? {
      var k := l.CreateEntry(ref, today, Withdrawal, refund, user, lines);
      assert l.accounts == accts;
      return Err(NoRevenueAttribute);
    }
    r := l.CreatePostedEntry(ref, today, Withdrawal, refund, user, now, lines);
    assert l.accounts == accts;
  }

  /** `EnrollmentWithdrawView.post` as written: the `AttributeError` of an accrued enrollment
   *  escapes the view, which catches only `DoesNotExist`, so the enrollment stays open. */
  method WithdrawAsWritten(l: Ledger, enrollment: StudentEnrollment, user: User, now: Time, today: int, refund: Money)
    returns (r: Result<nat, LedgerError>)
    requires l.Valid() && enrollment.student.LinkedIn(l)
    modifies l, enrollment`isCompleted
    ensures l.Valid() && enrollment.student.LinkedIn(l) && l.counters == old(l.counters)
    ensures r.Ok? <==> !HasReference(old(l.entries), WithdrawalReference(enrollment.student.id, enrollment.courseId)) &&
                       enrollment.enrollmentEntry.None?
    ensures HasReference(old(l.entries), WithdrawalReference(enrollment.student.id, enrollment.courseId)) ==>
      r == Err(DuplicateReference) && l.entries == old(l.entries)
    ensures r.Err? ==> enrollment.isCompleted == old(enrollment.isCompleted)
    ensures r.Ok? ==> enrollment.isCompleted
    ensures HasReference(l.entries, WithdrawalReference(enrollment.student.id, enrollment.courseId))
    ensures old(l.CacheConsistent()) ==> l.CacheConsistent()
  {
    r := CreateWithdrawalEntryAsWritten(l, enrollment, user, now, today, refund);
    ghost var ref := WithdrawalReference(enrollment.student.id, enrollment.courseId);
    if HasReference(old(l.entries), ref) {
      var j :| 0 <= j < |old(l.entries)| && old(l.entries)[j].reference == ref;
      assert l.entries[j].reference == ref;
    } else {
      assert l.entries[|l.entries| - 1].reference == ref;
    }
    if r.Ok? {
      enrollment.isCompleted := true;
    }
  }

  /** Withdrawing an accrued enrollment as written, and then trying again: the first attempt
   *  fails and leaves its entry under the fixed reference, so the second is refused as a
   *  duplicate, and the enrollment is never completed. */
  method RetryAsWritten(l: Ledger, enrollment: StudentEnrollment, user: User, now: Time, today: int, refund: Money)
    returns (first: Result<nat, LedgerError>, second: Result<nat, LedgerError>)
    requires l.Valid() && enrollment.student.LinkedIn(l) && enrollment.enrollmentEntry.Some?
    modifies l, enrollment`isCompleted
    ensures first.Err? && second == Err(DuplicateReference)
    ensures enrollment.isCompleted == old(enrollment.isCompleted)
    ensures HasReference(l.entries, WithdrawalReference(enrollment.student.id, enrollment.courseId))
  {
    first := WithdrawAsWritten(l, enrollment, user, now, today, refund);
    second := WithdrawAsWritten(l, enrollment, user, now, today, refund);
  }
}
