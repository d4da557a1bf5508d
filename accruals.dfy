/** The records that generate journal entries (accounts/models.py: StudentEnrollment,
 *  StudentReceipt, ExpenseEntry, EmployeeAdvance). Each entry is generated once,
 *  recorded as a link on the record, and is balanced and posted when created. */
module Accruals {
  import opened Common
  import opened Numbering
  import opened Journal
  import opened AccountTree
  import opened Books
  import opened Amounts
  import opened Students

  /** Expense account code per category; unknown categories book to "Other" (5900). */
  function ExpenseAccountCode(category: string): (code: string)
    ensures category == "SALARY" <==> code == "5100"
    ensures category == "TEACHER_SALARY" <==> code == "5110"
    ensures code in {"5100", "5110", "5200", "5300", "5400", "5500", "5600", "5900"}
  {
    if category == "SALARY" then "5100"
    else if category == "TEACHER_SALARY" then "5110"
    else if category == "RENT" then "5200"
    else if category == "UTILITIES" then "5300"
    else if category == "SUPPLIES" then "5400"
    else if category == "MARKETING" then "5500"
    else if category == "MAINTENANCE" then "5600"
    else "5900"
  }

  const ReceiptKey: string := "student_receipt"
  const ExpenseKey: string := "expense_entry"
  const AdvanceKey: string := "employee_advance"

  class StudentEnrollment {
    const student: Student
    const courseId: nat
    const enrollmentDate: int
    var totalAmount: Money
    var discountPercent: Money
    var discountAmount: Money
    var isCompleted: bool
    /** `enrollment_journal_entry` */
    var enrollmentEntry: Option<nat>

    constructor (student: Student, courseId: nat, enrollmentDate: int, totalAmount: Money, discountPercent: Money, discountAmount: Money)
      ensures this.student == student && this.courseId == courseId && this.enrollmentDate == enrollmentDate
      ensures this.totalAmount == totalAmount && this.discountPercent == discountPercent && this.discountAmount == discountAmount
      ensures !isCompleted && enrollmentEntry.None?
    {
      this.student := student;
      this.courseId := courseId;
      this.enrollmentDate := enrollmentDate;
      this.totalAmount := totalAmount;
      this.discountPercent := discountPercent;
      this.discountAmount := discountAmount;
      isCompleted := false;
      enrollmentEntry := None;
    }

    /** `net_amount` */
    function NetAmount(): Money
      reads this
    {
      EnrollmentNetAmount(totalAmount, discountPercent, discountAmount)
    }

    /** `balance_due`, given the paid amounts of the receipts linked to this enrollment. */
    function BalanceDueAfter(payments: seq<Money>): (r: Money)
      reads this
      ensures r == 0.0 <==> Sum(payments) >= NetAmount()
    {
      BalanceDue(NetAmount(), payments)
    }

    /** The two accounts of the enrollment entry: the student's receivable (linked on the way)
     *  and the course's deferred revenue account `2101-NNN`. */
    method EntryAccounts(l: Ledger) returns (ar: nat, rev: nat)
      requires l.Valid() && student.LinkedIn(l)
      modifies student`account, l`accounts, l`balances
      ensures l.Valid() && student.LinkedIn(l) && old(l.accounts) <= l.accounts
      ensures student.account == Some(ar) && (old(student.account).Some? ==> ar == old(student.account).value)
      ensures rev < |l.accounts| && HasCode(l.accounts, CourseRevenueCode(courseId)) && rev == IndexOf(l.accounts, CourseRevenueCode(courseId))
      ensures old(l.CacheConsistent()) ==> l.CacheConsistent()
    {
      ar := student.ArAccount(l);
      rev := l.GetOrCreateCourseRevenueAccount(courseId);
    }

    /** `create_accrual_enrollment_entry`: once per enrollment, Dr the student's receivable /
     *  Cr the course's deferred revenue, both for the net amount, posted at once. */
    method CreateAccrualEnrollmentEntry(l: Ledger, user: User, now: Time) returns (r: Result<nat, LedgerError>)
      requires l.Valid() && student.LinkedIn(l)
      modifies this`enrollmentEntry, student`account, l
      ensures l.Valid() && student.LinkedIn(l)
      ensures old(enrollmentEntry).Some? ==>
        r == Ok(old(enrollmentEntry).value) && enrollmentEntry == old(enrollmentEntry) &&
        student.account == old(student.account) &&
        l.accounts == old(l.accounts) && l.balances == old(l.balances) && l.entries == old(l.entries) && l.counters == old(l.counters)
      ensures old(enrollmentEntry).None? ==> old(l.accounts) <= l.accounts && student.HasAccountLink()
      ensures old(enrollmentEntry).None? && r.Err? ==>
        r.error == DuplicateReference && enrollmentEntry.None? && l.entries == old(l.entries)
      ensures old(enrollmentEntry).None? && r.Ok? ==>
        enrollmentEntry == Some(r.value) && student.HasAccountLink() && HasCode(l.accounts, CourseRevenueCode(courseId)) &&
        AppendedTwoLines(l, old(l.entries), r.value, Enrollment, enrollmentDate, user,
                         student.account.value, IndexOf(l.accounts, CourseRevenueCode(courseId)), NetAmount())
      ensures old(l.CacheConsistent()) ==> l.CacheConsistent()
    {
      if enrollmentEntry.Some? {
        return Ok(enrollmentEntry.value);
      }
      var ar, rev := EntryAccounts(l);
      var net := NetAmount();
      ghost var accts := l.accounts;
      r := l.PostTwoLines(enrollmentDate, Enrollment, user, now, ar, rev, net);
      assert l.accounts == accts;
      if r.Ok? {
        enrollmentEntry := Some(r.value);
      }
    }
  }

  class StudentReceipt {
    var receiptNumber: string
    const date: int
    const amount: Option<Money>
    const paidAmount: Money
    const discountPercent: Money
    const discountAmount: Money
    /** `student_profile` (students app) */
    const studentProfile: Student?
    /** `student`: the id of a legacy accounts-app student */
    const legacyStudent: Option<nat>
    /** `journal_entry` */
    var journalEntry: Option<nat>

    constructor (receiptNumber: string, date: int, amount: Option<Money>, paidAmount: Money, discountPercent: Money,
                 discountAmount: Money, studentProfile: Student?, legacyStudent: Option<nat>)
      ensures this.receiptNumber == receiptNumber && this.date == date && this.amount == amount
      ensures this.paidAmount == paidAmount && this.discountPercent == discountPercent && this.discountAmount == discountAmount
      ensures this.studentProfile == studentProfile && this.legacyStudent == legacyStudent && journalEntry.None?
    {
      this.receiptNumber := receiptNumber;
      this.date := date;
      this.amount := amount;
      this.paidAmount := paidAmount;
      this.discountPercent := discountPercent;
      this.discountAmount := discountAmount;
      this.studentProfile := studentProfile;
      this.legacyStudent := legacyStudent;
      journalEntry := None;
    }

    /** `net_amount` */
    function NetAmount(): Money
      reads this
    {
      ReceiptNetAmount(amount, paidAmount, discountPercent, discountAmount)
    }

    /** `StudentReceipt.save`: a receipt without a number gets the next "SR-NNNNNN". */
    method Save(l: Ledger)
      modifies this`receiptNumber, l`counters
      ensures old(receiptNumber) != [] ==> receiptNumber == old(receiptNumber) && l.counters == old(l.counters)
      ensures old(receiptNumber) == [] ==>
        l.counters == old(l.counters)[ReceiptKey := NextCounter(old(l.counters), ReceiptKey)] &&
        receiptNumber == Reference(ReceiptPrefix, NextCounter(old(l.counters), ReceiptKey))
    {
      if receiptNumber == [] {
        var n := l.NextValue(ReceiptKey);
        receiptNumber := Reference(ReceiptPrefix, n);
      }
    }

    /** The two accounts of the receipt entry, fetched in this order: cash 1211, then the
     *  receivable credited. With a profile it is the profile's `ar_account`. With only a legacy
     *  accounts-app student, `get_or_create_student_ar_account` creates the parent 1251 and then
     *  fails: its defaults read `student.full_name`, which the legacy model does not have. With
     *  no student at all there is no receivable. */
    method EntryAccounts(l: Ledger) returns (cash: nat, ar: Result<nat, LedgerError>)
      requires l.Valid() && (studentProfile != null ==> studentProfile.LinkedIn(l))
      modifies studentProfile, l`accounts, l`balances
      ensures l.Valid() && (studentProfile != null ==> studentProfile.LinkedIn(l)) && old(l.accounts) <= l.accounts
      ensures cash < |l.accounts| && HasCode(l.accounts, "1211") && cash == IndexOf(l.accounts, "1211")
      ensures studentProfile != null ==> ar.Ok? && studentProfile.account == Some(ar.value) && ar.value < |l.accounts|
      ensures studentProfile == null && legacyStudent.None? ==>
        ar == Err(NoStudent) && l.accounts == AfterGetOrCreate(old(l.accounts), "1211", Asset, None)
      ensures studentProfile == null && legacyStudent.Some? ==>
        ar == Err(MissingFullName) &&
        l.accounts == AfterGetOrCreate(AfterGetOrCreate(old(l.accounts), "1211", Asset, None), "1251", Asset, None)
      ensures old(l.CacheConsistent()) ==> l.CacheConsistent()
    {
      cash := l.GetCashAccount();
      if studentProfile != null {
        var a := studentProfile.ArAccount(l);
        ar := Ok(a);
      } else if legacyStudent.Some? {
        var parent := l.GetOrCreate("1251", Asset, None);
        ar := Err(MissingFullName);
      } else {
        ar := Err(NoStudent);
      }
    }

    /** `create_accrual_journal_entry`: once per receipt, Dr cash 1211 / Cr the student's
     *  receivable, both for the paid amount. Only a receipt with a student profile gets an
     *  entry: without any student it is refused, and with only a legacy student the receivable
     *  lookup fails; either way nothing is posted and the receipt stays unlinked, though the
     *  accounts fetched before the failure remain. */
    method CreateAccrualJournalEntry(l: Ledger, user: User, now: Time) returns (r: Result<nat, LedgerError>)
      requires l.Valid() && (studentProfile != null ==> studentProfile.LinkedIn(l))
      modifies this`journalEntry, studentProfile, l
      ensures l.Valid() && (studentProfile != null ==> studentProfile.LinkedIn(l))
      ensures old(journalEntry).Some? ==>
        r == Ok(old(journalEntry).value) && journalEntry == old(journalEntry) &&
        l.accounts == old(l.accounts) && l.balances == old(l.balances) && l.entries == old(l.entries) && l.counters == old(l.counters)
      ensures old(journalEntry).None? ==> old(l.accounts) <= l.accounts
      ensures old(journalEntry).None? && studentProfile == null ==>
        r == Err(if legacyStudent.None? then NoStudent else MissingFullName) && journalEntry.None? &&
        l.entries == old(l.entries) && l.counters == old(l.counters) && HasCode(l.accounts, "1211") &&
        (legacyStudent.Some? ==> HasCode(l.accounts, "1251"))
      ensures old(journalEntry).None? && r.Err? ==> journalEntry.None? && l.entries == old(l.entries)
      ensures old(journalEntry).None? && r.Ok? ==>
        journalEntry == Some(r.value) && HasCode(l.accounts, "1211") && studentProfile != null &&
        studentProfile.HasAccountLink() &&
        AppendedTwoLines(l, old(l.entries), r.value, Payment, date, user,
                         IndexOf(l.accounts, "1211"), studentProfile.account.value, paidAmount)
      ensures old(l.CacheConsistent()) ==> l.CacheConsistent()
    {
      if journalEntry.Some? {
        return Ok(journalEntry.value);
      }
      ghost var before := l.accounts;
      var cash, ar := EntryAccounts(l);
      if ar.Err? {
        if legacyStudent.Some? {
          GetOrCreateFinds(AfterGetOrCreate(before, "1211", Asset, None), "1251", Asset, None);
        }
        return Err(ar.error);
      }
      ghost var accts := l.accounts;
      r := l.PostTwoLines(date, Payment, user, now, cash, ar.value, paidAmount);
      assert l.accounts == accts;
      if r.Ok? {
        journalEntry := Some(r.value);
      }
    }
  }

  class ExpenseEntry {
    var reference: string
    const date: int
    const category: string
    const amount: Money
    const employee: Option<nat>
    const teacher: Option<nat>
    /** `journal_entry` */
    var journalEntry: Option<nat>

    constructor (reference: string, date: int, category: string, amount: Money, employee: Option<nat>, teacher: Option<nat>)
      ensures this.reference == reference && this.date == date && this.category == category && this.amount == amount
      ensures this.employee == employee && this.teacher == teacher && journalEntry.None?
    {
      this.reference := reference;
      this.date := date;
      this.category := category;
      this.amount := amount;
      this.employee := employee;
      this.teacher := teacher;
      journalEntry := None;
    }

    /** `ExpenseEntry.save`: an expense without a reference gets the next "EX-NNNNNN". */
    method Save(l: Ledger)
      modifies this`reference, l`counters
      ensures old(reference) != [] ==> reference == old(reference) && l.counters == old(l.counters)
      ensures old(reference) == [] ==>
        l.counters == old(l.counters)[ExpenseKey := NextCounter(old(l.counters), ExpenseKey)] &&
        reference == Reference(ExpensePrefix, NextCounter(old(l.counters), ExpenseKey))
    {
      if reference == [] {
        var n := l.NextValue(ExpenseKey);
        reference := Reference(ExpensePrefix, n);
      }
    }

    /** `get_or_create_expense_account`: the category's expense account. */
    method GetOrCreateExpenseAccount(l: Ledger) returns (i: nat)
      requires l.Valid()
      modifies l`accounts, l`balances
      ensures l.Valid() && i < |l.accounts| && l.accounts[i].code == ExpenseAccountCode(category) && old(l.accounts) <= l.accounts
      ensures HasCode(l.accounts, ExpenseAccountCode(category)) && i == IndexOf(l.accounts, ExpenseAccountCode(category))
      ensures l.accounts == AfterGetOrCreate(old(l.accounts), ExpenseAccountCode(category), Expense, None)
      ensures old(l.CacheConsistent()) ==> l.CacheConsistent()
    {
      i := l.GetOrCreate(ExpenseAccountCode(category), Expense, None);
    }

    /** `create_journal_entry`: once per expense, Dr the category's expense account /
     *  Cr cash 1211, both for the amount. */
    method CreateJournalEntry(l: Ledger, user: User, now: Time) returns (r: Result<nat, LedgerError>)
      requires l.Valid()
      modifies this`journalEntry, l
      ensures l.Valid()
      ensures old(journalEntry).Some? ==>
        r == Ok(old(journalEntry).value) && journalEntry == old(journalEntry) &&
        l.accounts == old(l.accounts) && l.balances == old(l.balances) && l.entries == old(l.entries) && l.counters == old(l.counters)
      ensures old(journalEntry).None? ==> old(l.accounts) <= l.accounts
      ensures old(journalEntry).None? && r.Err? ==>
        r.error == DuplicateReference && journalEntry.None? && l.entries == old(l.entries)
      ensures old(journalEntry).None? && r.Ok? ==>
        journalEntry == Some(r.value) && HasCode(l.accounts, ExpenseAccountCode(category)) && HasCode(l.accounts, "1211") &&
        AppendedTwoLines(l, old(l.entries), r.value, Journal.ExpenseEntry, date, user,
                         IndexOf(l.accounts, ExpenseAccountCode(category)), IndexOf(l.accounts, "1211"), amount)
      ensures old(l.CacheConsistent()) ==> l.CacheConsistent()
    {
      if journalEntry.Some? {
        return Ok(journalEntry.value);
      }
      var cash := l.GetCashAccount();
      var exp := GetOrCreateExpenseAccount(l);
      ghost var accts := l.accounts;
      r := l.PostTwoLines(date, Journal.ExpenseEntry, user, now, exp, cash, amount);
      assert l.accounts == accts;
      if r.Ok? {
        journalEntry := Some(r.value);
      }
    }
  }

  class EmployeeAdvance {
    const employee: Option<nat>
    const employeeName: string
    const date: int
    const amount: Money
    var repaidAmount: Money
    var isRepaid: bool
    var reference: string
    /** `journal_entry` */
    var journalEntry: Option<nat>

    constructor (employee: Option<nat>, employeeName: string, date: int, amount: Money, reference: string)
      ensures this.employee == employee && this.employeeName == employeeName && this.date == date
      ensures this.amount == amount && this.reference == reference
      ensures repaidAmount == 0.0 && !isRepaid && journalEntry.None?
    {
      this.employee := employee;
      this.employeeName := employeeName;
      this.date := date;
      this.amount := amount;
      this.reference := reference;
      repaidAmount := 0.0;
      isRepaid := false;
      journalEntry := None;
    }

    /** `outstanding_amount` */
    function OutstandingAmount(): Money
      reads this
    {
      Outstanding(amount, repaidAmount)
    }

    /** `EmployeeAdvance.save`: an advance without a reference gets the next "ADV-NNNNNN". */
    method Save(l: Ledger)
      modifies this`reference, l`counters
      ensures old(reference) != [] ==> reference == old(reference) && l.counters == old(l.counters)
      ensures old(reference) == [] ==>
        l.counters == old(l.counters)[AdvanceKey := NextCounter(old(l.counters), AdvanceKey)] &&
        reference == Reference(AdvancePrefix, NextCounter(old(l.counters), AdvanceKey))
    {
      if reference == [] {
        var n := l.NextValue(AdvanceKey);
        reference := Reference(AdvancePrefix, n);
      }
    }

    /** `create_advance_journal_entry`: once per advance, Dr employee advances 1300 /
     *  Cr cash 1211, both for the amount; the entry is of type EXPENSE. */
    method CreateAdvanceJournalEntry(l: Ledger, user: User, now: Time) returns (r: Result<nat, LedgerError>)
      requires l.Valid()
      modifies this`journalEntry, l
      ensures l.Valid()
      ensures old(journalEntry).Some? ==>
        r == Ok(old(journalEntry).value) && journalEntry == old(journalEntry) &&
        l.accounts == old(l.accounts) && l.balances == old(l.balances) && l.entries == old(l.entries) && l.counters == old(l.counters)
      ensures old(journalEntry).None? ==> old(l.accounts) <= l.accounts
      ensures old(journalEntry).None? && r.Err? ==>
        r.error == DuplicateReference && journalEntry.None? && l.entries == old(l.entries)
      ensures old(journalEntry).None? && r.Ok? ==>
        journalEntry == Some(r.value) && HasCode(l.accounts, "1300") && HasCode(l.accounts, "1211") &&
        AppendedTwoLines(l, old(l.entries), r.value, Journal.ExpenseEntry, date, user,
                         IndexOf(l.accounts, "1300"), IndexOf(l.accounts, "1211"), amount)
      ensures old(l.CacheConsistent()) ==> l.CacheConsistent()
    {
      if journalEntry.Some? {
        return Ok(journalEntry.value);
      }
      var cash := l.GetCashAccount();
      var adv := l.GetOrCreate("1300", Asset, None);
      ghost var accts := l.accounts;
      r := l.PostTwoLines(date, Journal.ExpenseEntry, user, now, adv, cash, amount);
      assert l.accounts == accts;
      if r.Ok? {
        journalEntry := Some(r.value);
      }
    }
  }
}
