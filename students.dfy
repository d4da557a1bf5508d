/** The student profile's link to its receivable account (students/models.py). */
module Students {
  import opened Common
  import opened Numbering
  import opened Journal
  import opened AccountTree
  import opened Books

  class Student {
    const id: nat
    /** `Student.account`: the linked receivable account, if any. */
    var account: Option<nat>
    /** Default discounts used when listing what a student owes. */
    var discountPercent: Option<Money>
    var discountAmount: Option<Money>

    constructor (id: nat, account: Option<nat>, discountPercent: Option<Money>, discountAmount: Option<Money>)
      ensures this.id == id && this.account == account
      ensures this.discountPercent == discountPercent && this.discountAmount == discountAmount
    {
      this.id := id;
      this.account := account;
      this.discountPercent := discountPercent;
      this.discountAmount := discountAmount;
    }

    /** The link, when present, names an account of the ledger. */
    ghost predicate LinkedIn(l: Ledger)
      reads this, l
    {
      account.Some? ==> account.value < |l.accounts|
    }

    /** `has_account_link` */
    predicate HasAccountLink()
      reads this
    {
      account.Some?
    }

    /** `Student.balance`: the linked account's net balance, zero when there is none. */
    function Balance(l: Ledger): (r: Money)
      reads this, l
      requires LinkedIn(l)
      ensures !HasAccountLink() ==> r == 0.0
      ensures HasAccountLink() ==> r == NetBalance(l.accounts[account.value].accountType, l.entries, account.value)
    {
      if account.None? then 0.0 else l.OwnNet(account.value)
    }

    /** `Student.ar_account`: the linked account, or else the `1251-NNN` account
     *  (created when missing) which is then linked. A second call changes nothing. */
    method ArAccount(l: Ledger) returns (a: nat)
      requires l.Valid() && LinkedIn(l)
      modifies this`account, l`accounts, l`balances
      ensures l.Valid() && LinkedIn(l) && HasAccountLink()
      ensures a < |l.accounts| && account == Some(a)
      ensures old(account).Some? ==> a == old(account).value && l.accounts == old(l.accounts) && l.balances == old(l.balances)
      ensures old(account).None? ==> l.accounts[a].code == StudentArCode(id) && old(l.accounts) <= l.accounts
      ensures old(l.CacheConsistent()) ==> l.CacheConsistent()
    {
      if account.Some? {
        return account.value;
      }
      a := l.GetOrCreateStudentArAccount(id);
      account := Some(a);
    }

    /** The `post_save` signal: a newly created student without a link gets its receivable account. */
    method OnCreated(l: Ledger, created: bool)
      requires l.Valid() && LinkedIn(l)
      modifies this`account, l`accounts, l`balances
      ensures l.Valid() && LinkedIn(l)
      ensures created ==> HasAccountLink()
      ensures !created || old(account).Some? ==> account == old(account) && l.accounts == old(l.accounts)
      ensures created && old(account).None? ==> l.accounts[account.value].code == StudentArCode(id)
      ensures old(l.CacheConsistent()) ==> l.CacheConsistent()
    {
      if created && account.None? {
        var a := l.GetOrCreateStudentArAccount(id);
        account := Some(a);
      }
    }
  }

  /** A posted receipt of `x` (debit cash, credit the student's receivable account) lowers the
   *  student's balance by `x`: what is owed shrinks by the amount paid. */
  lemma ReceiptLowersBalance(s: Student, l: Ledger, before: seq<Entry>, k: nat, entryType: EntryType,
                             date: int, user: User, cash: nat, x: Money)
    requires s.LinkedIn(l) && s.HasAccountLink() && l.accounts[s.account.value].accountType == Asset
    requires AppendedTwoLines(l, before, k, entryType, date, user, cash, s.account.value, x)
    requires cash != s.account.value
    ensures s.Balance(l) == NetBalance(Asset, before, s.account.value) - x
  {
    TwoLinesPosting(l, before, k, entryType, date, user, cash, s.account.value, x, s.account.value);
  }

  /** A posted accrual of `x` (debit the student's receivable account, credit revenue) raises
   *  the student's balance by `x`: what is owed grows by the amount charged. */
  lemma AccrualRaisesBalance(s: Student, l: Ledger, before: seq<Entry>, k: nat, entryType: EntryType,
                             date: int, user: User, revenue: nat, x: Money)
    requires s.LinkedIn(l) && s.HasAccountLink() && l.accounts[s.account.value].accountType == Asset
    requires AppendedTwoLines(l, before, k, entryType, date, user, s.account.value, revenue, x)
    requires revenue != s.account.value
    ensures s.Balance(l) == NetBalance(Asset, before, s.account.value) + x
  {
    TwoLinesPosting(l, before, k, entryType, date, user, s.account.value, revenue, x, s.account.value);
  }
}
