# School administration ledger — a Dafny model

This project models the core of a Django school administration application. The centre is its
double-entry accounting:

- a chart of accounts arranged as a parent-linked forest, with cached balances rolled up the tree;
- journal entries that are created as drafts, posted only when balanced, and reversed by a
  mirror entry;
- the records that generate entries automatically: enrollments, receipts, expenses and employee
  advances, each generating its entry once;
- the withdrawal of a student from a course, the trial balance, the ledger export and the
  outstanding-courses report;
- the accounting forms, accounting periods and the three management commands (attach parents,
  recalculate balances, set up the chart of accounts).

Around the ledger it models:

- staff records: display names, a teacher's monthly salary, branch lists, the teacher form,
  request-parameter sanitisers, advance repayment and salary payment;
- attendance: taking it for a classroom, editing it, teacher attendance, and the two per-date
  summaries;
- classrooms, their enrollments and the subjects offered to them.

Modelling choices:

- Money is `real`. Python's `Decimal` is exact for the sums and percentages involved.
- Database rows are values in sequences, and a row's id is its index.
- The account, entry and counter tables form one `Books.Ledger` object whose methods change them
  in place. Records whose link columns the source updates are classes.
- Clocks, users and request parameters are parameters.
- The cached `Account.balance` column is a field of its own, `Ledger.balances`. The invariant
  `CacheConsistent` (every cached balance equals the account's own net balance) is preserved by
  every operation that changes the ledger.

Where the code and its design description differ, the model follows the code:

- `create_accrual_enrollment_entry` creates its entry even when the net amount is zero.
- The withdrawal reverses the whole accrued net amount rather than only the unpaid remainder. It
  books the refund to account 5110 and cash account 1110.
- `EnrollmentWithdrawView` is defined twice in accounts/views.py. The second definition, the one
  that takes effect, is modelled.
- For an accrued enrollment that definition fails: it reads `Course.earned_revenue_account`, which
  the repository does not define. The code as written is modelled by
  `Withdrawal.CreateWithdrawalEntryAsWritten` and `Withdrawal.WithdrawAsWritten`; the withdrawal the
  rest of the model uses (`Withdrawal.Withdraw`) takes the revenue account as a parameter instead.
  See "## Findings".

## Model

| member | source | states |
|---|---|---|
| Common.SplitJoin | employ/forms.py:78-95 | splitting a comma-join gives back the parts, when no part contains a comma |
| Numbering.Digits | accounts/models.py:290-294 | `str(n)` is a non-empty string of ASCII digits |
| Numbering.ZeroPad | accounts/models.py:290-294 | the padded rendering is all digits, at least as wide as the requested width |
| Numbering.ZeroPadRoundTrip | accounts/models.py:290-294 | reading a zero-padded number back yields the number |
| Numbering.ZeroPadInjective | accounts/models.py:290-294 | different numbers never share a padded rendering |
| Numbering.Reference | accounts/models.py:290-294 | a reference is its prefix followed by at least six digits |
| Numbering.ReferenceRoundTrip | accounts/models.py:508-512 | the digits after the prefix read back as the sequence value |
| Numbering.ReferencesDistinct | accounts/models.py:637-641 | distinct sequence values give distinct references under one prefix (JE-, SR-, EX-, ADV-) |
| Numbering.SubCode | accounts/models.py:114-142 | a sub-account code is its parent, a hyphen, then digits that read back as the entity id |
| Numbering.SubCodeParentsDistinct | accounts/models.py:938-964 | sub-accounts of different parents of equal length never collide |
| Numbering.SubCodeNotParent | accounts/models.py:144-172 | a per-student, per-course, per-employee or per-teacher code is never its parent's code |
| Journal.CreditAmount | accounts/models.py:364-371 | the credit column and the debit column add up to the line's amount, and at most one of them is non-zero |
| Journal.Flip | accounts/models.py:319-345 | the reversal has one line per original line: same account and amount, opposite side |
| Journal.FlipTotals | accounts/models.py:319-345 | reversal swaps the debit and credit totals, so a balanced entry reverses into a balanced one |
| Journal.FlipAccount | accounts/models.py:319-345 | reversal swaps each account's debit and credit sums |
| Journal.FlipEffect | accounts/models.py:319-345 | a reversing entry moves every account's net balance by the negation of the original |
| Journal.UntouchedAccount | accounts/models.py:85-95 | an account no line mentions has zero debits and credits in that entry |
| Journal.NetConcat | accounts/models.py:67-83 | the net balance is additive over the journal |
| Journal.NetSingle | accounts/models.py:67-83 | a single entry counts towards a balance exactly when it is posted |
| Journal.NetIgnoresUnposted | accounts/models.py:67-83 | drafts never move a balance |
| Journal.PostAt | accounts/models.py:296-317 | posting a draft adds exactly that entry's effect to every account's net balance |
| Journal.ReplaceDraft | accounts/views.py:311-343 | replacing a draft by another draft moves no balance |
| Journal.ReversalRestores | accounts/models.py:319-345 | an entry and its posted reversal cancel, whatever was recorded between them |
| Journal.TwoLines | accounts/models.py:424-466 | the automatic entries' debit/credit pair is balanced with total `x` |
| Journal.TwoLinesEffect | accounts/models.py:424-466 | a two-line entry moves the debited account towards its debit side by `x`, the credited one towards its credit side, and no other account |
| Journal.TwoLinesSwap | accounts/models.py:319-345 | swapping the two accounts undoes a two-line entry, account by account |
| AccountTree.WalkHops | accounts/management/commands/recalc_account_balances.py:9-14 | the walk's count is a number of parent links that leads from the account to a root, passing only accounts that have parents; and any such count within the fuel is what the walk returns |
| AccountTree.HopsStep | accounts/management/commands/recalc_account_balances.py:11-13 | one turn of the loop: a child with a parent is never itself a root, and its hops to a root are one more than its parent's |
| AccountTree.WalkShort | accounts/management/commands/recalc_account_balances.py:9-14 | a walk that reaches a root meets no account twice, so it follows fewer links than there are accounts |
| AccountTree.WalkLessFuel | accounts/management/commands/recalc_account_balances.py:9-14 | a walk needs no more fuel than the links it follows |
| AccountTree.PathCard | accounts/management/commands/recalc_account_balances.py:9-14 | the accounts on the path to a root are pairwise different and all exist |
| AccountTree.Depth | accounts/management/commands/recalc_account_balances.py:9-14 | the number of ancestors is bounded by the table size |
| AccountTree.AppendWellFormed | accounts/models.py:114-142 | adding an account under an existing parent keeps the forest acyclic and no existing depth changes |
| AccountTree.DepthOfChild | accounts/management/commands/recalc_account_balances.py:9-14 | a child sits exactly one level below its parent |
| AccountTree.DepthOfRoot | accounts/management/commands/recalc_account_balances.py:9-14 | a root has depth 0 |
| AccountTree.DescendsTransitive | accounts/models.py:104-111 | lying below is transitive |
| AccountTree.DescendsSplit | accounts/models.py:104-111 | an account lies below `i` exactly when it is `i` or lies below one of `i`'s children |
| AccountTree.DescendsDeeper | accounts/models.py:104-111 | a proper descendant is strictly deeper |
| AccountTree.RootOf | accounts/views.py:346-365 | every account lies below a root |
| AccountTree.LeafSubtree | accounts/models.py:97-102 | an account without children rolls up to its own value |
| AccountTree.SubtreeSumPlus | accounts/models.py:97-102 | subtree sums are linear in the per-account values |
| AccountTree.LeafRollup | accounts/models.py:97-102 | an account without children rolls up to exactly its own net balance |
| AccountTree.RollupConcat | accounts/models.py:97-102 | `rollup_balance` is additive over the journal |
| AccountTree.RollupReversal | accounts/models.py:97-102 | a posted entry followed by its posted reversal leaves every rollup as it was |
| Amounts.SumAppend | accounts/models.py:414-417 | the paid total grows by each further payment |
| Amounts.EnrollmentNetAmount | accounts/models.py:408-412 | the net amount is never negative; it is positive exactly when the percentage-discounted price exceeds the fixed discount, and then the two add up to that price; with non-negative inputs it never exceeds the total, and with no discounts it equals it |
| Amounts.NetAmountMonotone | accounts/models.py:408-412 | a larger fixed discount never raises the net amount |
| Amounts.BalanceDue | accounts/models.py:419-422 | the balance due is never negative; it is zero exactly when payments cover the net amount, and otherwise it is the shortfall |
| Amounts.PaymentReducesDue | accounts/models.py:419-422 | a further payment lowers the balance due by its amount, down to zero |
| Amounts.ReceiptNetAmount | accounts/models.py:517-523 | with a non-zero list amount the receipt's net is the discounted amount, otherwise the amount paid |
| Amounts.Outstanding | accounts/models.py:752-755 | the outstanding advance is never negative, is zero exactly when repayments cover it, and never exceeds the advance |
| Amounts.RepaymentReducesOutstanding | accounts/models.py:752-755 | a repayment within the outstanding amount lowers it by exactly that much |
| Amounts.Variance | accounts/models.py:861-864 | budget plus variance is the actual spend |
| Amounts.VariancePercentage | accounts/models.py:866-871 | for a positive budget, the percentage is the variance over the budget times 100, positive exactly when overspent; otherwise 0 |
| Books.IndexOf | accounts/models.py:34 | the lookup by code finds an account with that code and no earlier one |
| Books.GetOrCreateIdempotent | accounts/models.py:174-186 | get_or_create keeps codes unique, finds what it created, and a second call changes nothing |
| Books.IndexOfStable | accounts/models.py:114-142 | creating accounts never moves where an existing code is found |
| Books.GetOrCreateFinds | accounts/models.py:174-186 | after get_or_create the code exists |
| Books.OtherCodeStaysAbsent | accounts/models.py:174-186 | get_or_create makes no other code appear |
| Books.NextCounter | accounts/models.py:17-22 | the next value is at least 1 and exceeds the last one handed out |
| Books.NextCounterFresh | accounts/models.py:17-22 | successive values of one sequence, and the references built from them, are fresh |
| Books.NetOfUnreferenced | accounts/models.py:67-83 | an account no line mentions has a zero net balance |
| Books.TwoLinesPosting | accounts/models.py:424-466 | after an automatic two-line entry is posted, the debited and credited accounts move by `x` and every other account keeps its net balance |
| Books.Ledger.constructor | accounts/models.py:11-34 | an empty ledger is valid and its cache consistent |
| Books.Ledger.NextValue | accounts/models.py:17-22 | the value returned is the next counter of the key, which is stored; no other key changes |
| Books.Ledger.GetOrCreate | accounts/models.py:174-186 | the returned account has the code; an existing one is reused and nothing changes, otherwise one account is appended with balance 0; codes stay unique and the cache stays consistent |
| Books.Ledger.GetCashAccount | accounts/models.py:174-186 | returns the asset account 1211, creating it as a root when missing |
| Books.Ledger.GetOrCreateUnder | accounts/models.py:114-172 | creates the root parent when missing, then the sub-account under it, and returns the sub-account |
| Books.Ledger.GetOrCreateStudentArAccount | accounts/models.py:114-142 | returns the asset account `1251-NNN` of the student, under 1251 |
| Books.Ledger.GetOrCreateCourseRevenueAccount | accounts/models.py:144-172 | returns the liability account `2101-NNN` of the course, under 2101 |
| Books.Ledger.CreateEntry | accounts/models.py:290-294 | a blank reference is numbered "JE-NNNNNN" from the journal counter; a reference in use is refused with the journal unchanged; otherwise one unposted entry is appended and no balance moves |
| Books.Ledger.ReviseDraft | accounts/views.py:311-343 | editing a draft replaces its reference, date, total and lines and moves no net balance |
| Books.Ledger.RecalcTree | accounts/models.py:104-111 | exactly the subtree of `i` gets its cached balance recomputed to its own net balance; every other cached balance stays |
| Books.Ledger.PostEntry | accounts/models.py:296-317 | a posted or unbalanced entry is refused with nothing changed; otherwise it becomes posted, every account moves by exactly the entry's effect, and the accounts whose balance is recomputed are those below a line's account |
| Books.Ledger.CreatePostedEntry | accounts/models.py:424-466 | an automatic entry is created and posted; the only failure is a reference already in use |
| Books.Ledger.PostTwoLines | accounts/models.py:646-690 | a fresh JE reference, a posted debit/credit pair for `x`; failure leaves journal and balances unchanged |
| Books.Ledger.ReverseEntry | accounts/models.py:319-345 | only a posted entry is reversed; the reversal is a new posted ADJUSTMENT entry with the same total and mirrored lines, and every account moves back by the original's effect |
| Accruals.ExpenseAccountCode | accounts/models.py:692-718 | SALARY books to 5100, TEACHER_SALARY to 5110, every category to one of the eight expense codes, unknown ones to 5900 |
| Accruals.StudentEnrollment.constructor | accounts/models.py:373-404 | a new enrollment is open and has no entry |
| Accruals.StudentEnrollment.BalanceDueAfter | accounts/models.py:419-422 | the enrollment is settled exactly when the payments cover its net amount |
| Accruals.StudentEnrollment.EntryAccounts | accounts/models.py:429-431 | the student's receivable (reusing an existing link) and the course's 2101-NNN account |
| Accruals.StudentEnrollment.CreateAccrualEnrollmentEntry | accounts/models.py:424-466 | with an entry already linked nothing happens; otherwise a posted ENROLLMENT entry Dr receivable / Cr deferred revenue for the net amount is created once and linked |
| Accruals.StudentReceipt.constructor | accounts/models.py:469-504 | a new receipt has no entry |
| Accruals.StudentReceipt.Save | accounts/models.py:508-512 | a receipt without a number gets the next "SR-NNNNNN"; a numbered one keeps its number and the counters |
| Accruals.StudentReceipt.EntryAccounts | accounts/models.py:539-560 | cash 1211, then the profile's receivable; without a profile, no student is refused after 1211 exists, and a legacy student fails after 1211 and 1251 exist, because `full_name` is missing |
| Accruals.StudentReceipt.CreateAccrualJournalEntry | accounts/models.py:539-588 | once per receipt, a posted PAYMENT entry Dr cash / Cr the profile's receivable for the paid amount; without a profile it fails with no entry, leaving 1211 (and for a legacy student 1251) created |
| Accruals.ExpenseEntry.constructor | accounts/models.py:591-633 | a new expense has no entry |
| Accruals.ExpenseEntry.Save | accounts/models.py:637-641 | an expense without a reference gets the next "EX-NNNNNN" |
| Accruals.ExpenseEntry.GetOrCreateExpenseAccount | accounts/models.py:692-718 | returns the category's expense account, creating it when missing |
| Accruals.ExpenseEntry.CreateJournalEntry | accounts/models.py:646-690 | once per expense, a posted EXPENSE entry Dr the category's account / Cr cash for the amount |
| Accruals.EmployeeAdvance.constructor | accounts/models.py:720-739 | a new advance has nothing repaid and no entry |
| Accruals.EmployeeAdvance.Save | accounts/models.py:743-747 | an advance without a reference gets the next "ADV-NNNNNN" |
| Accruals.EmployeeAdvance.CreateAdvanceJournalEntry | accounts/models.py:762-817 | once per advance, a posted entry Dr employee advances 1300 / Cr cash for the amount |
| Students.Student.constructor | students/models.py:115-137 | a student with the given link and discounts |
| Students.Student.Balance | students/models.py:144-152 | zero without a linked account, else that account's net balance over the posted entries |
| Students.ReceiptLowersBalance | students/models.py:144-152 | posting a receipt of `x` that credits the student's receivable lowers the student's balance by `x` |
| Students.AccrualRaisesBalance | students/models.py:144-152 | posting an accrual of `x` that debits the student's receivable raises the student's balance by `x` |
| Students.Student.ArAccount | students/models.py:118-132 | the linked account when there is one, with nothing changed; else the 1251-NNN account, created when missing and then linked |
| Students.Student.OnCreated | students/models.py:162-170 | a newly created student ends up linked to its 1251-NNN account; otherwise nothing changes |
| TrialBalance.Placement | accounts/views.py:408-422 | both columns are non-negative and at most one is non-zero; their difference, taken from the normal side, is the net balance |
| TrialBalance.Compute | accounts/views.py:391-440 | the report's rows, column totals, and `is_balanced` exactly when the totals agree |
| TrialBalance.RowShape | accounts/views.py:391-440 | every row is an active account with postings, with columns placed by its posted debits minus credits |
| TrialBalance.RowlessAccount | accounts/views.py:391-440 | an account without a row has no posted debits or credits |
| TrialBalance.RowTotals | accounts/views.py:391-440 | the column totals differ by the accounts' summed posted debits minus credits |
| TrialBalance.PostedDiffSumZero | accounts/models.py:296-317 | posted debits equal posted credits over all accounts when every posted entry is balanced |
| TrialBalance.TrialBalanceBalanced | accounts/views.py:391-440 | on a valid ledger with non-negative amounts and active posted accounts, the trial balance is balanced |
| EntryViews.CreateManualEntry | accounts/views.py:251-282 | a taken reference, an invalid formset or unequal totals are refused with the journal unchanged; otherwise an unposted MANUAL entry of the kept lines, total the debit total, is appended |
| EntryViews.UpdateManualEntry | accounts/views.py:311-343 | a taken reference or a posted entry is refused; otherwise the draft gets the new reference, date, total and lines, and no net balance moves |
| EntryViews.RefreshRoots | accounts/views.py:354-360 | recalculating every root's tree makes the whole cached column consistent |
| EntryViews.PostJournalEntry | accounts/views.py:346-365 | posting succeeds exactly when the entry is a balanced draft; a refusal changes nothing; on success every cached balance is consistent |
| Reports.SignedAmount | accounts/views.py:1336-1358 | a line's signed amount is its debit minus credit, flipped for credit-normal accounts |
| Reports.RunningTotalIsNet | accounts/views.py:1336-1358 | the running total is the signed net of the lines' debit and credit totals |
| Reports.RunningBalances | accounts/views.py:1336-1358 | the k-th running balance is the signed total of the first k+1 lines |
| Reports.OnAccount | accounts/views.py:1336-1358 | the account's lines are all on that account |
| Reports.OnAccountTotals | accounts/views.py:1336-1358 | the filtered lines' totals are the account's debits and credits |
| Reports.FinalRunningBalance | accounts/views.py:516-535 | over posted entries the last running balance is the account's net balance |
| Reports.Remaining | accounts/views.py:881-933 | the remaining amount, floored at zero, is the enrollment balance due |
| Reports.FullyPaidCount | accounts/views.py:881-933 | no more fully paid students than students |
| Reports.OutstandingWhenUnpaid | accounts/views.py:881-933 | the outstanding total is never negative and is positive exactly when some student has not paid in full |
| Reports.CourseSummary | accounts/views.py:881-933 | the fully paid and not fully paid counts partition the students and the outstanding total is the sum of positive remainders |
| Withdrawal.WithdrawalReferenceInjective | accounts/views.py:1405 | different (student, course) pairs get different "WDR-" references |
| Withdrawal.WithdrawalLines | accounts/views.py:1399-1476 | the entry is balanced; its debit total is the positive refund plus the net amount when accrued |
| Withdrawal.WithdrawalEffect | accounts/views.py:1399-1476 | the entry's effect on every account is the refund pair's effect minus that of a Dr receivable / Cr `revenue` pair for the net amount; so the reversal undoes the accrual only when `revenue` is the course's 2101-NNN account the accrual credited and the net amount is unchanged since |
| Withdrawal.RefundAccounts | accounts/views.py:1414-1435 | the returns account 5110 and cash 1110, created when missing, distinct |
| Withdrawal.WithdrawalAccounts | accounts/views.py:1414-1467 | the accounts the withdrawal books to, in the order fetched |
| Withdrawal.CreateWithdrawalEntry | accounts/views.py:1399-1476 | corrected: a second withdrawal of the same pair is refused before anything changes; otherwise one posted WITHDRAWAL entry as above, reversing to the `revenue` account passed |
| Withdrawal.Withdraw | accounts/views.py:1364-1397 | corrected: refused exactly when the withdrawal reference is taken, leaving the enrollment open; otherwise the withdrawal entry is posted and the enrollment marked completed |
| Withdrawal.CreateWithdrawalEntryAsWritten | accounts/views.py:1399-1476 | as written: a taken reference is refused unchanged; an accrued enrollment fails with the `AttributeError` after its unposted entry and refund lines are saved; otherwise the posted withdrawal entry |
| Withdrawal.WithdrawAsWritten | accounts/views.py:1364-1397 | as written: succeeds exactly for a free reference and an enrollment never accrued, and only then completes it; afterwards the reference is always taken |
| Withdrawal.RetryAsWritten | accounts/views.py:1364-1476 | as written, an accrued enrollment's withdrawal fails, a retry is refused as a duplicate, and the enrollment stays open |
| AccountForms.KeptSaves | accounts/forms.py:343-351 | every form not marked for deletion has its line saved |
| AccountForms.KeptFrom | accounts/forms.py:343-351 | every saved line comes from a form not marked for deletion |
| AccountForms.KeptConcat | accounts/forms.py:343-351 | the saved lines keep the order of the forms |
| AccountForms.KeptTotals | accounts/views.py:251-282 | the form totals the view compares are the saved entry's totals, so equal totals is exactly a balanced entry |
| AccountForms.KeptAccounts | accounts/forms.py:343-351 | kept forms post to the accounts they name |
| AccountForms.AdvanceClean | accounts/forms.py:195-208 | refused exactly when there is neither an employee nor a non-blank name; a given name is kept; a blank one is filled from the user's full name, the username or `str(employee)` |
| AccountForms.AdvanceCleanStable | accounts/forms.py:195-208 | cleaning the cleaned name again changes nothing |
| AccountForms.ExpenseClean | accounts/forms.py:454-465 | an employee and a teacher together are refused; the category is TEACHER_SALARY exactly when a teacher is given; other categories are kept |
| AccountForms.ExpenseCleanIdempotent | accounts/forms.py:454-465 | cleaning twice is cleaning once |
| AccountForms.PeriodClean | accounts/forms.py:234-243 | refused exactly when both dates are given and the start is not before the end |
| Periods.AccountingPeriod.constructor | accounts/models.py:820-833 | a new period is open, without close stamps |
| Periods.AccountingPeriod.Close | accounts/views.py:1100-1113 | an already closed period is refused with its stamps kept; otherwise it is closed, stamped with time and user |
| Periods.AccountingPeriod.Update | accounts/views.py:1086-1091 | invalid dates and a closed period are refused with nothing changed; otherwise name and dates are replaced |
| Periods.CloseTwice | accounts/views.py:1100-1113 | a second close is refused and the first close's stamps remain |
| ParentLinks.BeforeFirst | accounts/management/commands/attach_parents.py:21-22 | the text before the first hyphen is a prefix free of hyphens |
| ParentLinks.Codes | accounts/management/commands/attach_parents.py:17 | the lookup holds exactly the account codes |
| ParentLinks.LongestPrefixIn | accounts/management/commands/attach_parents.py:24-29 | the answer is the longest proper prefix that is a code, or none when no prefix is |
| ParentLinks.ParentCode | accounts/management/commands/attach_parents.py:19-29 | the resolved code is a strict prefix of the code: before the hyphen, else the longest existing shorter code |
| ParentLinks.ResolveParentCode | accounts/management/commands/attach_parents.py:19-29 | the loop computes the resolved parent code |
| ParentLinks.LinkTarget | accounts/management/commands/attach_parents.py:32-40 | an account with a parent is never relinked; a target is an existing other account whose code is a strict prefix |
| ParentLinks.ResolveLink | accounts/management/commands/attach_parents.py:33-40 | the loop body's guards compute the link target |
| ParentLinks.Attached | accounts/management/commands/attach_parents.py:43-45 | linking changes only the parent |
| ParentLinks.LinkCount | accounts/management/commands/attach_parents.py:41 | no more links than accounts |
| ParentLinks.AttachParents | accounts/management/commands/attach_parents.py:12-49 | counts every link; a dry run keeps the table, otherwise each account gets its target |
| ParentLinks.AttachKeepsParentsExist | accounts/management/commands/attach_parents.py:38-45 | every new link names an existing account |
| ParentLinks.AttachCanCloseCycle | accounts/management/commands/attach_parents.py:33-45 | the command can close a cycle when a longer code is already the parent of a shorter one |
| ParentLinks.AttachThenDepthNeverEnds | accounts/management/commands/recalc_account_balances.py:9-14 | after that cycle is closed, the `while p` loop of `depth()` still has a parent after any number of turns |
| ParentLinks.Relink | accounts/management/commands/attach_parents.py:43-45 | relinking one account sets its parent and leaves every other account as it was |
| ParentLinks.AvoidingWalk | accounts/management/commands/attach_parents.py:43-45 | a walk that never meets the relinked account is unchanged by the link |
| ParentLinks.ClimbingWalk | accounts/management/commands/attach_parents.py:43-45 | a walk that meets the relinked account continues from its new parent and reaches a root |
| ParentLinks.LinkKeepsWellFormed | accounts/management/commands/attach_parents.py:43-45 | linking an account under one that does not lie below it keeps the table a forest |
| ParentLinks.LoopWalk | accounts/management/commands/attach_parents.py:43-45 | linking an account under one that lies below it makes every walk on the loop run out of fuel |
| ParentLinks.GuardExact | accounts/management/commands/attach_parents.py:43-45 | a link keeps the table a forest if and only if the guard lets it through |
| ParentLinks.GuardedStepKeeps | accounts/management/commands/attach_parents.py:33-45 | one guarded visit keeps the table a forest |
| ParentLinks.GuardedKeepsWellFormed | accounts/management/commands/attach_parents.py:31-45 | the guarded pass keeps the table a forest after every visit |
| ParentLinks.GuardedCount | accounts/management/commands/attach_parents.py:41 | no more guarded links than accounts |
| ParentLinks.AttachParentsGuarded | accounts/management/commands/attach_parents.py:12-49 | the command with a cycle guard: counts the links made, a dry run keeps the table, and a forest stays a forest |
| RecalcCommand.DepthOf | accounts/management/commands/recalc_account_balances.py:9-14 | the loop counts the ancestors: 0 for a root, one more than the parent otherwise |
| RecalcCommand.Level | accounts/management/commands/recalc_account_balances.py:15-16 | exactly the accounts of one depth, in listing order |
| RecalcCommand.DeepestFirst | accounts/management/commands/recalc_account_balances.py:15-16 | every account up to a depth, deeper first, equal depths in listing order |
| RecalcCommand.ProcessingOrder | accounts/management/commands/recalc_account_balances.py:15-16 | a permutation of the accounts, deepest first |
| RecalcCommand.DescendantsFirst | accounts/management/commands/recalc_account_balances.py:15-17 | every account is processed after all accounts below it |
| SetupChart.ChartTableParentsFirst | accounts/management/commands/setup_chart_of_accounts.py:9-40 | the table lists every parent before its children, with their type |
| SetupChart.ChartTableDistinct | accounts/management/commands/setup_chart_of_accounts.py:9-40 | the 21 rows have distinct codes |
| SetupChart.AddRow | accounts/management/commands/setup_chart_of_accounts.py:44-67 | a row with a missing parent is skipped; otherwise its code exists afterwards, an existing code is untouched, and only that code can appear |
| SetupChart.AfterRowsCodes | accounts/management/commands/setup_chart_of_accounts.py:44-67 | only codes of the rows are added |
| SetupChart.NoRowSkipped | accounts/management/commands/setup_chart_of_accounts.py:44-53 | with parents listed first no row is skipped |
| SetupChart.AllRowsCreated | accounts/management/commands/setup_chart_of_accounts.py:55-67 | new distinct codes each add one account |
| SetupChart.NothingToCreate | accounts/management/commands/setup_chart_of_accounts.py:55-72 | when every code exists nothing changes |
| SetupChart.SetupTwice | accounts/management/commands/setup_chart_of_accounts.py:8-75 | running the command twice is running it once |
| SetupChart.SetupOnEmpty | accounts/management/commands/setup_chart_of_accounts.py:8-75 | on an empty table all 21 accounts are created |
| SetupChart.Setup | accounts/management/commands/setup_chart_of_accounts.py:8-75 | the table after the rows; the count is the number of accounts created |
| SetupChart.AddRows | accounts/management/commands/setup_chart_of_accounts.py:44-72 | the loop over the rows, counting creations |
| SetupChart.AddRowTo | accounts/management/commands/setup_chart_of_accounts.py:45-72 | one row: skipped when its parent code is missing, otherwise fetched or created under the parent, with the ledger invariants kept |
| EmployModels.GetFullName | employ/models.py:37-42 | the full name is stripped and no longer than first name, space and last name |
| EmployModels.FullName | employ/models.py:37-42 | the full name when non-empty, else the username; empty without a user |
| EmployModels.MonthlySalary | employ/models.py:190-204 | hourly: sessions times rate; monthly: the salary; other types 0; never negative with non-negative rates |
| EmployModels.MixedIsSum | employ/models.py:190-204 | a mixed salary is the monthly plus the hourly salary |
| EmployModels.SalaryBySessions | employ/models.py:190-204 | more sessions never lower the salary; a fixed salary ignores them |
| EmployModels.BranchesList | employ/models.py:146-149 | each listed branch is non-empty, stripped and comma-free; no value gives no branches |
| EmployModels.StripAllClean | employ/models.py:146-149 | clean branch names pass through stripping and filtering unchanged |
| EmployModels.BranchesRoundTrip | employ/forms.py:78-95 | joining clean branch names and listing them back gives the same names in order |
| EmployForms.ChoicesAreClean | employ/models.py:88-92 | every branch choice is a clean branch name |
| EmployForms.TeacherClean | employ/forms.py:52-76 | no branch gives only that error; otherwise exactly the rates the salary type needs and that are missing are reported |
| EmployForms.TeacherSave | employ/forms.py:78-95 | missing rates are stored as 0 and the stored branch list reads back as chosen |
| EmployForms.SavedChoicesReadBack | employ/forms.py:78-95 | any chosen subset of the branch choices is listed back by the saved teacher |
| EmployForms.GroupName | employ/forms.py:154-163 | each known position gets its group, anything else "Employees" |
| EmployForms.GroupsDistinct | employ/forms.py:154-163 | different positions get different groups, none the fallback |
| EmployViews.DigitsOnly | employ/views.py:613-625 | the digits of the value, in order; a digit string is kept |
| EmployViews.SanitizeInt | employ/views.py:613-625 | the default when missing, digit-free or outside a non-empty allowed set; else the number read |
| EmployViews.SanitizedMonthValid | employ/views.py:627-635 | the month of a salary payment is always a real month |
| EmployViews.SanitizeMonthRoundTrip | employ/views.py:613-625 | a month written in digits is read back |
| EmployViews.ParseInt | employ/views.py:264-271 | a parse succeeds only on a non-blank string |
| EmployViews.ParseUnsigned | employ/views.py:264-271 | a run of digits, leading zeros included, parses to its value |
| EmployViews.ParseWithSign | employ/views.py:264-271 | a sign and a run of digits parse to the signed value |
| EmployViews.Sanitize | employ/views.py:264-271 | the parsed value when in range, else the default |
| EmployViews.ParseDigits | employ/views.py:264-271 | `str(n)` parses back to `n` |
| EmployViews.PreviousMonth | employ/views.py:101-111 | the month before, as a valid month |
| EmployViews.SalaryPeriod | employ/views.py:101-111 | this month from the threshold day on, otherwise the previous month |
| EmployViews.RequestedPeriod | employ/views.py:273-280 | with parameters, a sanitised valid period; without, the fallback |
| EmployViews.RepayGuard | employ/views.py:75-81 | a repayment passes exactly when positive and within the outstanding amount |
| EmployViews.RepayAccepted | employ/views.py:75-81 | the guard's arithmetic: an amount it accepts fits within `outstanding_amount`, so were `repaid_amount` raised by it the outstanding amount would drop by exactly that amount |
| EmployViews.PeriodRemaining | employ/views.py:289-305 | never negative; zero exactly when payments and advances cover the salary, else the difference |
| EmployViews.PaymentLowersRemaining | employ/views.py:289-305 | a further payment never raises what remains |
| EmployViews.ContainsIContains | employ/models.py:65-71 | a case-sensitive match of the name is also a case-insensitive one |
| EmployViews.PaySalaryAsWritten | employ/views.py:627-673 | a non-positive amount and a month already paid are refused; otherwise one salary expense dated today is appended |
| EmployViews.PastMonthPaidTwice | employ/models.py:48-76 | a past month paid today still reads as unpaid and can be paid again |
| EmployViews.PaySalary | employ/views.py:627-673 | as above, with the paid month recorded, after which that month reads as paid |
| EmployViews.PaySalaryOnce | employ/views.py:694-739 | a month is paid at most once per payee, whatever the payment date |
| Attendance.FindKey | attendance/models.py:22 | the position of the record with the key, or none when no record has it |
| Attendance.Insert | attendance/models.py:22 | a taken key is refused with the table unchanged, a free one appended; keys stay unique |
| Attendance.Upsert | attendance/views.py:171-179 | the record with the key is replaced or appended; other records stay; keys stay unique |
| Attendance.InsertAll | attendance/views.py:80-95 | the table only grows, by listed records, with unique keys |
| Attendance.InsertAllCovers | attendance/views.py:80-95 | after the inserts every listed key is present |
| Attendance.InsertAllFresh | attendance/views.py:80-95 | with free distinct keys every record is created |
| Attendance.UpsertAll | attendance/views.py:171-179 | the table grows by at most the listed records, keys unique |
| Attendance.InsertEach | attendance/views.py:80-95 | inserting the records one by one yields the table `InsertAll` describes, and the count is the number of rows added |
| Attendance.UpsertEach | attendance/views.py:171-179 | upserting the records one by one yields the table `UpsertAll` describes, and every record is counted |
| Attendance.UpsertKeeps | attendance/views.py:171-179 | an upsert keeps records with other keys and holds the new one |
| Attendance.UpsertAllHolds | attendance/views.py:171-179 | each listed record not overwritten later is in the table afterwards |
| Attendance.UpsertAllKeepsOthers | attendance/views.py:171-179 | records whose keys are not listed stay as they were |
| Attendance.NewStudentRecord | attendance/views.py:80-92 | keyed by (student, date) in the classroom, with the submitted status or "present" |
| Attendance.StudentRecords | attendance/views.py:80-95 | one record per listed student, in order |
| Attendance.StudentRecordsLastWord | attendance/views.py:80-95 | a student listed twice gets identical records |
| Attendance.DistinctBy | attendance/views.py:25-40 | the distinct keys, each present in some record and every record's key among them |
| Attendance.CountClassDay | attendance/views.py:67-75 | the count is zero exactly when attendance was not taken for that classroom and date |
| Attendance.ClassDaySummary | attendance/views.py:25-40 | one row per distinct (classroom, date) in first-seen order with its record count |
| Attendance.NewTeacherRecord | attendance/views.py:254-276 | keyed by (teacher, date), submitted status or "absent", sessions or 1 |
| Attendance.TeacherRecords | attendance/views.py:254-276 | one record per teacher, in order |
| Attendance.TeacherRecordsLastWord | attendance/views.py:254-276 | a teacher listed twice gets identical records |
| Attendance.CountsBounded | attendance/views.py:210-225 | present plus absent counts never exceed the day's records |
| Attendance.SummaryOfAbsentDate | attendance/views.py:210-225 | a date without records has an empty row |
| Attendance.Tally | attendance/views.py:221-225 | one record adds at most one to the present and absent counts |
| Attendance.SummaryOfSnoc | attendance/views.py:210-225 | a further record tallies into its own date's row and no other |
| Attendance.DayIndex | attendance/views.py:212-219 | the row of the date, or none when no row has it |
| Attendance.TeacherSummary | attendance/views.py:207-229 | one row per distinct date in first-seen order, holding that date's counts and present sessions |
| Attendance.TallyStep | attendance/views.py:210-225 | one loop iteration keeps the summary equal to the specification |
| Attendance.SummaryRowsBounded | attendance/views.py:207-229 | every row's counts are within its day's record count, which is positive |
| Attendance.OnDatePositive | attendance/views.py:207-229 | a date has records exactly when some record is on it |
| Attendance.AttendanceRegister.constructor | attendance/models.py:6-45 | empty tables with unique keys |
| Attendance.AttendanceRegister.TakeAttendance | attendance/views.py:54-102 | missing input or attendance already taken changes nothing; otherwise records are inserted, and the count is the number created |
| Attendance.AttendanceRegister.CreateRecords | attendance/views.py:80-95 | the loop inserts the students' records and counts creations |
| Attendance.AttendanceRegister.UpdateAttendance | attendance/views.py:158-189 | each student's record for the date is created or replaced; every student counted |
| Attendance.AttendanceRegister.TakeTeacherAttendance | attendance/views.py:244-287 | refused exactly when there is no date; otherwise every teacher's record is created or replaced |
| Attendance.AttendanceRegister.UpsertTeacherRecords | attendance/views.py:254-276 | the loop upserts the teachers' records and counts each teacher |
| Attendance.TakenCovers | attendance/views.py:80-95 | every listed student has a record for the date afterwards |
| Attendance.UpdatedHolds | attendance/views.py:158-189 | each listed student's only record for the date holds the submitted values and the classroom |
| Attendance.TeacherTakenHolds | attendance/views.py:244-287 | each listed teacher's only record for the date holds the submitted values |
| Attendance.UpdateKeepsOthers | attendance/views.py:158-189 | an edit touches only the listed students' records for that date |
| Courses.CompatibleBranches | courses/models.py:32-42 | each type's branches; a common subject fits every branch; an unknown type fits none |
| Courses.FormAgreesWithSubjects | classroom/form.py:34-52 | the form offers a type to a study classroom exactly when its branch is compatible with it |
| Courses.CommonOfferedEverywhere | classroom/form.py:34-52 | a common subject is offered to every classroom |
| Classrooms.CleanedBranches | classroom/models.py:34-38 | refused exactly for a study classroom without a branch; a study classroom keeps its branch; a course is left without one |
| Classrooms.CleanedBranchesIdempotent | classroom/models.py:34-38 | cleaning twice is cleaning once |
| Classrooms.Classroom.constructor | classroom/models.py:8-33 | the given fields |
| Classrooms.Classroom.Clean | classroom/models.py:34-38 | a refusal changes nothing; otherwise the branch becomes the cleaned value |
| Classrooms.EnrollmentClean | classroom/models.py:63-72 | refused exactly for a study classroom when the student is in another study classroom; a course is always accepted |
| Classrooms.Enroll | classroom/models.py:55-72 | the model check first, then the unique pair; accepted exactly when both pass, and then the enrollment is appended |
| Classrooms.EnrollKeepsInvariants | classroom/models.py:60-72 | enrolling keeps one study classroom per student and unique pairs |
| Classrooms.CourseAlwaysOpen | classroom/models.py:63-72 | a course accepts any student not already in it |
| Classrooms.CreateEnrollment | classroom/views.py:80-92 | `objects.create` refuses only a pair already enrolled, and otherwise appends it, keeping pairs unique |
| Classrooms.CreateSkipsStudyCheck | classroom/views.py:80-92 | through `create` a student in one study classroom is put in a second one, which `Enroll` refuses |

## Left out

- Money is `real`. Database rounding to two decimal places and the `Decimal` quantisation of
  `max_digits`/`decimal_places` are not modelled.
- `strip()`, `isdigit()` and `int()` work on ASCII only. Unicode whitespace and digits are not
  modelled.
- Several methods are called but defined nowhere in the repository, so they are not part of this
  model:
  - `withdraw`, `post_opening_entry`, `create_repayment_entry` and `create_advance_entry`;
  - `transactions_with_descendants`: the ledger view is modelled only through the export's lines
    on the account itself;
  - `recalc_with_children` and `rebuild_all_balances`: the recalculate command is modelled up to
    its processing order;
  - `Course.earned_revenue_account`: `Withdrawal.WithdrawAsWritten` fails on it as the source
    does; the corrected `Withdrawal.Withdraw` takes the revenue account as a parameter.
- Transactions, row locks and concurrency are not modelled. Each operation runs alone, and an
  operation refused midway may leave accounts it already created, as the source does.
- Timestamps, today's date and the acting user are inputs.
- ORM query ordering is taken as given: the order of the sequences.
- Request parsing is not modelled; submitted values arrive as maps. A `session_count` that fails
  to parse is not modelled, because sessions arrive as natural numbers.
- 404 responses for missing classrooms, enrollments, entries and employees are not modelled; the
  records are given.
- Excel and PDF exports are not modelled, except the running balance of the ledger export.
- The grade, pages, `resetdb` and reconcile code and the students views are not modelled.
- The `DiscountRule` field validators are not modelled.
- Display names and `__str__` methods are not modelled, except `Employee.full_name`.
- `ParentLinks.AttachParents` works on account values, not on the `Ledger` object. The command
  can close a cycle in the parent links (`ParentLinks.AttachCanCloseCycle`), so its result need
  not be a well-formed forest; see "## Findings".
- `depth()`, `rollup_balance` and `recalculate_tree_balances` are modelled on well-formed tables
  only (their `requires WellFormed`): on a cycle they never return, which
  `ParentLinks.AttachThenDepthNeverEnds` shows for `depth()`.
- `AccountingPeriod.closed_by` is `on_delete=SET_NULL`: deleting the closing user leaves a closed
  period without `closed_by`. Users are never deleted in this model, so `Periods.AccountingPeriod.Valid`
  pairs `is_closed` with both stamps.
- The `closed_at` that the withdrawal view sets is not a column of `StudentEnrollment`, so
  saving does not store it; it is not modelled.
- EmployViews.ParseInt: does not accept the underscores between digits that Python's `int()`
  allows (`"1_2"` reads as 12); such a parameter falls back to the default in `Sanitize`.
- EmployViews.PaySalaryAsWritten: `icontains` is modelled as ASCII case folding; the case
  folding of other scripts is not modelled. The same holds for EmployViews.PaySalary.
- `Students.Student.Balance` does not model the `except Exception` fallback to 0. With the link in
  range, no exception can arise in the model.

## Findings

| source | as written | input that shows it | evidently intended | confidence | as-written member | corrected member |
|---|---|---|---|---|---|---|
| employ/views.py:627-673 (and 694-739) | the guard asks `get_salary_status(year, month)`, which looks for salary expenses dated in that month, but the payment is dated today | paying April's salary in May: the May-dated expense leaves April unpaid, so April can be paid again | a month is paid at most once per payee | not executed | EmployViews.PaySalaryAsWritten / EmployViews.PastMonthPaidTwice | EmployViews.PaySalary / EmployViews.PaySalaryOnce |
| accounts/management/commands/attach_parents.py:33-45 | a link to the resolved parent is made without checking that the parent does not already lie below the account, and `depth()` (recalc_account_balances.py:9-14) and `rollup_balance` (accounts/models.py:97-102) then loop forever | account "1" under "12", with "12" a root: "12" is linked to "1", closing a cycle on which `depth()` never returns | the command keeps the chart a forest | not executed | ParentLinks.AttachCanCloseCycle / ParentLinks.AttachThenDepthNeverEnds | ParentLinks.AttachParentsGuarded / ParentLinks.GuardExact |
| accounts/views.py:1456-1463 | the reversal of an accrued enrollment books to `enrollment.course.earned_revenue_account`, which `Course` (accounts/models.py:206-230) does not define; the `AttributeError` escapes the view, which catches only `DoesNotExist` | any enrollment whose accrual entry was created (accounts/models.py:463): the unposted WDR entry and its refund lines stay, the enrollment stays open, and every retry is refused because "WDR-s-c" is taken | the accrual is reversed against the course's revenue account, the entry posted and the enrollment completed | not executed | Withdrawal.WithdrawAsWritten / Withdrawal.RetryAsWritten | Withdrawal.Withdraw / Withdrawal.WithdrawalEffect |
| classroom/views.py:80-92 | the assignment view saves with `objects.create`, which does not run `Classroomenrollment.clean`; its `except ValidationError` is never reached | student 7 in study classroom 0 is assigned to study classroom 1: both enrollments are saved | a student sits in at most one study classroom | not executed | Classrooms.CreateEnrollment / Classrooms.CreateSkipsStudyCheck | Classrooms.Enroll / Classrooms.EnrollKeepsInvariants |
