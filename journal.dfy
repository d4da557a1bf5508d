/** Double-entry bookkeeping over values: journal lines, entries and the balances
 *  an account derives from posted lines (accounts/models.py: Account.get_net_balance,
 *  get_debit_balance, get_credit_balance, Transaction.debit_amount/credit_amount). */
module Journal {
  import opened Common

  datatype AccountType = Asset | Liability | Equity | Revenue | Expense

  /** Asset and expense accounts grow with debits; the others grow with credits. */
  predicate DebitNormal(t: AccountType)
  {
    t == Asset || t == Expense
  }

  /** One `Transaction` row: an amount on one account, on the debit or the credit side. */
  datatype Line = Line(account: nat, amount: Money, isDebit: bool)

  function DebitAmount(l: Line): (r: Money)
    ensures l.isDebit ==> r == l.amount
    ensures !l.isDebit ==> r == 0.0
  {
    if l.isDebit then l.amount else 0.0
  }

  /** Exactly one of the two columns carries the amount. */
  function CreditAmount(l: Line): (r: Money)
    ensures DebitAmount(l) + r == l.amount
    ensures DebitAmount(l) == 0.0 || r == 0.0
  {
    if l.isDebit then 0.0 else l.amount
  }

  datatype EntryType = Manual | Enrollment | Payment | Completion | ExpenseEntry | Adjustment | Withdrawal

  /** A `JournalEntry` row together with its transactions. */
  datatype Entry = Entry(
    reference: string,
    date: int,
    entryType: EntryType,
    totalAmount: Money,
    isPosted: bool,
    postedAt: Option<Time>,
    postedBy: Option<User>,
    createdBy: User,
    lines: seq<Line>)

  /** Sum of the debit lines of an entry, over all accounts. */
  function TotalDebits(ls: seq<Line>): Money
  {
    if ls == [] then 0.0 else TotalDebits(ls[..|ls| - 1]) + DebitAmount(ls[|ls| - 1])
  }

  function TotalCredits(ls: seq<Line>): Money
  {
    if ls == [] then 0.0 else TotalCredits(ls[..|ls| - 1]) + CreditAmount(ls[|ls| - 1])
  }

  predicate Balanced(ls: seq<Line>)
  {
    TotalDebits(ls) == TotalCredits(ls)
  }

  /** Both totals are additive over concatenated lines. */
  lemma {:induction false} TotalsConcat(xs: seq<Line>, ys: seq<Line>)
    ensures TotalDebits(xs + ys) == TotalDebits(xs) + TotalDebits(ys)
    ensures TotalCredits(xs + ys) == TotalCredits(xs) + TotalCredits(ys)
    decreases |ys|
  {
    if ys == [] {
      assert xs + ys == xs;
    } else {
      var k := |ys| - 1;
      TotalsConcat(xs, ys[..k]);
      assert (xs + ys)[..|xs + ys| - 1] == xs + ys[..k];
    }
  }

  /** What lines do to an account is additive over concatenated lines. */
  lemma {:induction false} EffectConcat(t: AccountType, xs: seq<Line>, ys: seq<Line>, a: nat)
    ensures EntryEffect(t, xs + ys, a) == EntryEffect(t, xs, a) + EntryEffect(t, ys, a)
  {
    AccountConcat(xs, ys, a);
  }

  lemma {:induction false} AccountConcat(xs: seq<Line>, ys: seq<Line>, a: nat)
    ensures AccountDebits(xs + ys, a) == AccountDebits(xs, a) + AccountDebits(ys, a)
    ensures AccountCredits(xs + ys, a) == AccountCredits(xs, a) + AccountCredits(ys, a)
    decreases |ys|
  {
    if ys == [] {
      assert xs + ys == xs;
    } else {
      var k := |ys| - 1;
      AccountConcat(xs, ys[..k], a);
      assert (xs + ys)[..|xs + ys| - 1] == xs + ys[..k];
    }
  }

  /** Debit amount of the lines that hit account `a`. */
  function AccountDebits(ls: seq<Line>, a: nat): Money
  {
    if ls == [] then 0.0
    else AccountDebits(ls[..|ls| - 1], a) + (if ls[|ls| - 1].account == a then DebitAmount(ls[|ls| - 1]) else 0.0)
  }

  function AccountCredits(ls: seq<Line>, a: nat): Money
  {
    if ls == [] then 0.0
    else AccountCredits(ls[..|ls| - 1], a) + (if ls[|ls| - 1].account == a then CreditAmount(ls[|ls| - 1]) else 0.0)
  }

  /** `get_debit_balance`: debits on `a` over posted entries only. */
  function PostedDebits(es: seq<Entry>, a: nat): Money
  {
    if es == [] then 0.0
    else PostedDebits(es[..|es| - 1], a) + (if es[|es| - 1].isPosted then AccountDebits(es[|es| - 1].lines, a) else 0.0)
  }

  /** `get_credit_balance` */
  function PostedCredits(es: seq<Entry>, a: nat): Money
  {
    if es == [] then 0.0
    else PostedCredits(es[..|es| - 1], a) + (if es[|es| - 1].isPosted then AccountCredits(es[|es| - 1].lines, a) else 0.0)
  }

  /** Signed by the normal side of the account type. */
  function Signed(t: AccountType, debits: Money, credits: Money): Money
  {
    if DebitNormal(t) then debits - credits else credits - debits
  }

  /** `get_net_balance` of an account of type `t` with id `a`. */
  function NetBalance(t: AccountType, es: seq<Entry>, a: nat): Money
  {
    Signed(t, PostedDebits(es, a), PostedCredits(es, a))
  }

  /** What one entry's lines contribute to the net balance of `a`. */
  function EntryEffect(t: AccountType, ls: seq<Line>, a: nat): Money
  {
    Signed(t, AccountDebits(ls, a), AccountCredits(ls, a))
  }

  /** The lines of a reversing entry: same accounts and amounts, sides swapped. */
  function Flip(ls: seq<Line>): (r: seq<Line>)
    ensures |r| == |ls|
    ensures forall i :: 0 <= i < |ls| ==>
      r[i].account == ls[i].account && r[i].amount == ls[i].amount && r[i].isDebit == !ls[i].isDebit
  {
    seq(|ls|, i requires 0 <= i < |ls| => ls[i].(isDebit := !ls[i].isDebit))
  }

  lemma FlipPrefix(ls: seq<Line>, k: nat)
    requires k <= |ls|
    ensures Flip(ls)[..k] == Flip(ls[..k])
  {
  }

  /** Reversal swaps the two totals, so a balanced entry reverses into a balanced one. */
  lemma {:induction false} FlipTotals(ls: seq<Line>)
    ensures TotalDebits(Flip(ls)) == TotalCredits(ls)
    ensures TotalCredits(Flip(ls)) == TotalDebits(ls)
    ensures Balanced(ls) <==> Balanced(Flip(ls))
  {
    if ls != [] {
      var k := |ls| - 1;
      FlipTotals(ls[..k]);
      FlipPrefix(ls, k);
    }
  }

  /** Reversal swaps the two columns of every account. */
  lemma {:induction false} FlipAccount(ls: seq<Line>, a: nat)
    ensures AccountDebits(Flip(ls), a) == AccountCredits(ls, a)
    ensures AccountCredits(Flip(ls), a) == AccountDebits(ls, a)
  {
    if ls != [] {
      var k := |ls| - 1;
      FlipAccount(ls[..k], a);
      FlipPrefix(ls, k);
    }
  }

  /** Reversing an entry negates its effect on every account. */
  lemma FlipEffect(t: AccountType, ls: seq<Line>, a: nat)
    ensures EntryEffect(t, Flip(ls), a) == -EntryEffect(t, ls, a)
  {
    FlipAccount(ls, a);
  }

  /** An account no line mentions is not affected by the entry. */
  lemma {:induction false} UntouchedAccount(ls: seq<Line>, a: nat)
    requires forall x :: 0 <= x < |ls| ==> ls[x].account != a
    ensures AccountDebits(ls, a) == 0.0 && AccountCredits(ls, a) == 0.0
  {
    if ls != [] {
      UntouchedAccount(ls[..|ls| - 1], a);
    }
  }

  /** Posted sums are additive over the entry list. */
  lemma {:induction false} PostedConcat(es1: seq<Entry>, es2: seq<Entry>, a: nat)
    ensures PostedDebits(es1 + es2, a) == PostedDebits(es1, a) + PostedDebits(es2, a)
    ensures PostedCredits(es1 + es2, a) == PostedCredits(es1, a) + PostedCredits(es2, a)
    decreases |es2|
  {
    if es2 == [] {
      assert es1 + es2 == es1;
    } else {
      var k := |es2| - 1;
      PostedConcat(es1, es2[..k], a);
      assert (es1 + es2)[..|es1 + es2| - 1] == es1 + es2[..k];
    }
  }

  lemma NetConcat(t: AccountType, es1: seq<Entry>, es2: seq<Entry>, a: nat)
    ensures NetBalance(t, es1 + es2, a) == NetBalance(t, es1, a) + NetBalance(t, es2, a)
  {
    PostedConcat(es1, es2, a);
  }

  /** A single entry contributes its effect when posted and nothing otherwise. */
  lemma NetSingle(t: AccountType, e: Entry, a: nat)
    ensures NetBalance(t, [e], a) == if e.isPosted then EntryEffect(t, e.lines, a) else 0.0
  {
    assert [e][..0] == [];
    assert PostedDebits([e], a) == (if e.isPosted then AccountDebits(e.lines, a) else 0.0);
    assert PostedCredits([e], a) == (if e.isPosted then AccountCredits(e.lines, a) else 0.0);
  }

  /** Unposted entries never move a balance. */
  lemma {:induction false} NetIgnoresUnposted(t: AccountType, es: seq<Entry>, a: nat)
    requires forall k :: 0 <= k < |es| ==> !es[k].isPosted
    ensures NetBalance(t, es, a) == 0.0
  {
    if es != [] {
      NetIgnoresUnposted(t, es[..|es| - 1], a);
    }
  }

  /** Posting entry k (same lines, now posted) adds exactly its effect. */
  lemma PostAt(t: AccountType, es: seq<Entry>, k: nat, posted: Entry, a: nat)
    requires k < |es| && !es[k].isPosted
    requires posted.isPosted && posted.lines == es[k].lines
    ensures NetBalance(t, es[k := posted], a) == NetBalance(t, es, a) + EntryEffect(t, es[k].lines, a)
  {
    var pre, post := es[..k], es[k + 1..];
    assert es == pre + [es[k]] + post;
    assert es[k := posted] == pre + [posted] + post;
    NetConcat(t, pre + [es[k]], post, a);
    NetConcat(t, pre, [es[k]], a);
    NetConcat(t, pre + [posted], post, a);
    NetConcat(t, pre, [posted], a);
    NetSingle(t, es[k], a);
    NetSingle(t, posted, a);
  }

  /** Replacing a draft by another draft moves no balance. */
  lemma ReplaceDraft(t: AccountType, es: seq<Entry>, k: nat, e: Entry, a: nat)
    requires k < |es| && !es[k].isPosted && !e.isPosted
    ensures NetBalance(t, es[k := e], a) == NetBalance(t, es, a)
  {
    var pre, post := es[..k], es[k + 1..];
    assert es == pre + [es[k]] + post;
    assert es[k := e] == pre + [e] + post;
    NetConcat(t, pre + [es[k]], post, a);
    NetConcat(t, pre, [es[k]], a);
    NetConcat(t, pre + [e], post, a);
    NetConcat(t, pre, [e], a);
    NetSingle(t, es[k], a);
    NetSingle(t, e, a);
  }

  /** A posted reversal cancels the original: whatever was recorded between them,
   *  the account ends where it would be had neither been posted. */
  lemma ReversalRestores(t: AccountType, pre: seq<Entry>, e: Entry, mid: seq<Entry>, r: Entry, a: nat)
    requires e.isPosted && r.isPosted && r.lines == Flip(e.lines)
    ensures NetBalance(t, pre + [e] + mid + [r], a) == NetBalance(t, pre + mid, a)
  {
    NetConcat(t, pre + [e] + mid, [r], a);
    NetConcat(t, pre + [e], mid, a);
    NetConcat(t, pre, [e], a);
    NetConcat(t, pre, mid, a);
    NetSingle(t, e, a);
    NetSingle(t, r, a);
    FlipEffect(t, e.lines, a);
  }

  /** Debit `dr`, credit `cr`, both for `x`: the shape of every automatic entry. */
  function TwoLines(dr: nat, cr: nat, x: Money): (ls: seq<Line>)
    ensures Balanced(ls) && TotalDebits(ls) == x
  {
    var ls := [Line(dr, x, true), Line(cr, x, false)];
    var first := [Line(dr, x, true)];
    assert ls[..1] == first && first[..0] == [];
    assert CreditAmount(first[0]) == 0.0;
    assert TotalCredits(first) == TotalCredits(first[..0]) + CreditAmount(first[0]);
    assert TotalDebits(first) == x && TotalCredits(first) == 0.0;
    ls
  }

  /** What a two-line entry does to an account: the debited account moves by `x` towards
   *  its debit side, the credited one towards its credit side, all others stay. */
  lemma TwoLinesEffect(t: AccountType, dr: nat, cr: nat, x: Money, a: nat)
    requires dr != cr
    ensures a == dr ==> EntryEffect(t, TwoLines(dr, cr, x), a) == (if DebitNormal(t) then x else -x)
    ensures a == cr ==> EntryEffect(t, TwoLines(dr, cr, x), a) == (if DebitNormal(t) then -x else x)
    ensures a != dr && a != cr ==> EntryEffect(t, TwoLines(dr, cr, x), a) == 0.0
  {
    var ls := TwoLines(dr, cr, x);
    assert ls[..1] == [ls[0]];
    assert [ls[0]][..0] == [];
    assert AccountDebits(ls[..1], a) == (if a == dr then x else 0.0);
    assert AccountCredits(ls[..1], a) == 0.0;
    assert AccountDebits(ls, a) == (if a == dr then x else 0.0);
    assert AccountCredits(ls, a) == (if a == cr then x else 0.0);
  }

  /** Swapping the two accounts of a two-line entry undoes it, account by account. */
  lemma TwoLinesSwap(t: AccountType, dr: nat, cr: nat, x: Money, a: nat)
    requires dr != cr
    ensures EntryEffect(t, TwoLines(cr, dr, x), a) == -EntryEffect(t, TwoLines(dr, cr, x), a)
  {
    TwoLinesEffect(t, dr, cr, x, a);
    TwoLinesEffect(t, cr, dr, x, a);
  }
}
