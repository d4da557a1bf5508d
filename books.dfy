/** The accounting tables and the operations of accounts/models.py that change them:
 *  NumberSequence.next_value, Account.get_or_create_* helpers, JournalEntry.save,
 *  post_entry, reverse_entry and Account.recalculate_tree_balances. */
module Books {
  import opened Common
  import opened Numbering
  import opened Journal
  import opened AccountTree

  /** Why an operation was refused. `NoStudent` is the `ValueError` of a receipt without a
   *  student; `MissingFullName` the `AttributeError` of asking a legacy student for `full_name`;
   *  `NoRevenueAttribute` the `AttributeError` of asking a course for `earned_revenue_account`. */
  datatype LedgerError = AlreadyPosted | Unbalanced | NotPosted | DuplicateReference | NoStudent | MissingFullName
                       | NoRevenueAttribute

  predicate HasCode(accts: seq<Account>, code: string)
  {
    exists j :: 0 <= j < |accts| && accts[j].code == code
  }

  /** `Account.code` is unique. */
  predicate UniqueCodes(accts: seq<Account>)
  {
    forall i, j :: 0 <= i < j < |accts| ==> accts[i].code != accts[j].code
  }

  /** `Account.objects.get(code=code)` */
  function IndexOf(accts: seq<Account>, code: string, k: nat := 0): (r: nat)
    requires exists j :: k <= j < |accts| && accts[j].code == code
    ensures k <= r < |accts| && accts[r].code == code
    ensures forall j :: k <= j < r ==> accts[j].code != code
    decreases |accts| - k
  {
    if accts[k].code == code then k else IndexOf(accts, code, k + 1)
  }

  /** The account table after `Account.objects.get_or_create(code=code, defaults=…)`. */
  function AfterGetOrCreate(accts: seq<Account>, code: string, t: AccountType, parent: Option<nat>): seq<Account>
  {
    if HasCode(accts, code) then accts else accts + [Account(code, t, parent, true)]
  }

  /** get_or_create keeps codes unique, finds what it created, and a second call changes nothing. */
  lemma GetOrCreateIdempotent(accts: seq<Account>, code: string, t: AccountType, parent: Option<nat>, t2: AccountType, parent2: Option<nat>)
    requires UniqueCodes(accts)
    ensures var after := AfterGetOrCreate(accts, code, t, parent);
      UniqueCodes(after) && HasCode(after, code) && accts <= after &&
      AfterGetOrCreate(after, code, t2, parent2) == after
  {
    var after := AfterGetOrCreate(accts, code, t, parent);
    if !HasCode(accts, code) {
      assert after[|accts|].code == code;
    }
  }

  /** Appending accounts does not move where a code already present is found. */
  lemma IndexOfStable(accts: seq<Account>, after: seq<Account>, code: string)
    requires accts <= after && HasCode(accts, code)
    ensures HasCode(after, code) && IndexOf(after, code) == IndexOf(accts, code)
  {
    var i := IndexOf(accts, code);
    assert after[i] == accts[i];
    assert forall m :: 0 <= m < i ==> after[m] == accts[m];
  }

  /** The table after creating the root `parent` (when missing) and then `sub` under it. */
  function WithSubAccount(accts: seq<Account>, parent: string, sub: string, t: AccountType): seq<Account>
  {
    var mid := AfterGetOrCreate(accts, parent, t, None);
    GetOrCreateFinds(accts, parent, t, None);
    AfterGetOrCreate(mid, sub, t, Some(IndexOf(mid, parent)))
  }

  lemma GetOrCreateFinds(accts: seq<Account>, code: string, t: AccountType, parent: Option<nat>)
    ensures HasCode(AfterGetOrCreate(accts, code, t, parent), code)
  {
    if !HasCode(accts, code) {
      assert AfterGetOrCreate(accts, code, t, parent)[|accts|].code == code;
    }
  }

  /** Creating `code` does not make a different code appear. */
  lemma OtherCodeStaysAbsent(accts: seq<Account>, code: string, t: AccountType, parent: Option<nat>, other: string)
    requires !HasCode(accts, other) && other != code
    ensures !HasCode(AfterGetOrCreate(accts, code, t, parent), other)
  {
    var after := AfterGetOrCreate(accts, code, t, parent);
    forall j | 0 <= j < |after| ensures after[j].code != other {
      if j < |accts| {
        assert after[j] == accts[j];
      }
    }
  }

  predicate LinesInRange(ls: seq<Line>, n: nat)
  {
    forall x :: 0 <= x < |ls| ==> ls[x].account < n
  }

  predicate EntriesInRange(es: seq<Entry>, n: nat)
  {
    forall k :: 0 <= k < |es| ==> LinesInRange(es[k].lines, n)
  }

  /** Only balanced entries are ever posted. */
  predicate PostedBalanced(es: seq<Entry>)
  {
    forall k :: 0 <= k < |es| && es[k].isPosted ==> Balanced(es[k].lines)
  }

  predicate HasReference(es: seq<Entry>, ref: string)
  {
    exists k :: 0 <= k < |es| && es[k].reference == ref
  }

  /** `JournalEntry.reference` is unique. */
  predicate UniqueReferences(es: seq<Entry>)
  {
    forall k, m :: 0 <= k < m < |es| ==> es[k].reference != es[m].reference
  }

  /** The value `NumberSequence.next_value(key)` hands out next. */
  function NextCounter(counters: map<string, nat>, key: string): (v: nat)
    ensures v >= 1
    ensures key in counters ==> v > counters[key]
  {
    (if key in counters then counters[key] else 0) + 1
  }

  /** Successive values of one sequence are distinct, so the references built from them are too. */
  lemma NextCounterFresh(counters: map<string, nat>, key: string, prefix: string)
    ensures var v := NextCounter(counters, key);
      NextCounter(counters[key := v], key) == v + 1 &&
      Reference(prefix, NextCounter(counters[key := v], key)) != Reference(prefix, v)
  {
    var v := NextCounter(counters, key);
    ReferencesDistinct(prefix, v + 1, v);
  }

  const JournalKey: string := "journal_entry"

  /** An account no line mentions has a zero net balance. */
  lemma {:induction false} NetOfUnreferenced(t: AccountType, es: seq<Entry>, a: nat)
    requires EntriesInRange(es, a)
    ensures NetBalance(t, es, a) == 0.0
  {
    if es != [] {
      var k := |es| - 1;
      assert EntriesInRange(es[..k], a) by {
        forall m | 0 <= m < k ensures LinesInRange(es[..k][m].lines, a) {
          assert es[..k][m] == es[m];
        }
      }
      NetOfUnreferenced(t, es[..k], a);
      UntouchedAccount(es[k].lines, a);
    }
  }

  /** Some line of `ls` hits `j` or an ancestor of `j`: the accounts whose cached
   *  balance `post_entry` recomputes. */
  ghost predicate Touched(accts: seq<Account>, ls: seq<Line>, j: nat)
    requires WellFormed(accts) && j < |accts|
  {
    exists x :: 0 <= x < |ls| && Descends(accts, j, ls[x].account)
  }

  /** One more line also touches every account at or below the line's account. */
  lemma TouchedStep(accts: seq<Account>, ls: seq<Line>, x: nat)
    requires WellFormed(accts) && x < |ls|
    ensures forall j :: 0 <= j < |accts| ==>
      (Touched(accts, ls[..x + 1], j) <==> (Touched(accts, ls[..x], j) || Descends(accts, j, ls[x].account)))
  {
    forall j | 0 <= j < |accts|
      ensures Touched(accts, ls[..x + 1], j) <==> (Touched(accts, ls[..x], j) || Descends(accts, j, ls[x].account))
    {
      if Touched(accts, ls[..x + 1], j) {
        var y :| 0 <= y < x + 1 && Descends(accts, j, ls[..x + 1][y].account);
        if y < x {
          assert ls[..x][y] == ls[..x + 1][y];
        }
      }
      if Touched(accts, ls[..x], j) {
        var y :| 0 <= y < x && Descends(accts, j, ls[..x][y].account);
        assert ls[..x + 1][y] == ls[..x][y];
      }
      if Descends(accts, j, ls[x].account) {
        assert ls[..x + 1][x] == ls[x];
      }
    }
  }

  /** An entry touching neither `j` nor anything below it leaves `j`'s own totals alone. */
  lemma UntouchedNoEffect(accts: seq<Account>, ls: seq<Line>, j: nat)
    requires WellFormed(accts) && j < |accts| && !Touched(accts, ls, j)
    ensures AccountDebits(ls, j) == 0.0 && AccountCredits(ls, j) == 0.0
  {
    assert Descends(accts, j, j);
    UntouchedAccount(ls, j);
  }

  /** Entry `k` was appended, posted, to the journal `before`, and moved every account's
   *  own net balance by exactly its effect. */
  ghost predicate AppendedPosted(l: Ledger, before: seq<Entry>, k: nat)
    reads l
  {
    k == |before| && |l.entries| == k + 1 && l.entries[..k] == before && l.entries[k].isPosted &&
    forall j :: 0 <= j < |l.accounts| ==>
      l.OwnNet(j) == NetBalance(l.accounts[j].accountType, before, j) + EntryEffect(l.accounts[j].accountType, l.entries[k].lines, j)
  }

  /** Entry `k` is an automatic entry appended, posted, to `before`: of the given type, date,
   *  total and author, debiting `dr` and crediting `cr` for `x`. */
  ghost predicate AppendedTwoLines(l: Ledger, before: seq<Entry>, k: nat, entryType: EntryType, date: int,
                                   user: User, dr: nat, cr: nat, x: Money)
    reads l
  {
    AppendedPosted(l, before, k) && l.entries[k].entryType == entryType && l.entries[k].date == date &&
    l.entries[k].totalAmount == x && l.entries[k].createdBy == user && l.entries[k].lines == TwoLines(dr, cr, x)
  }

  /** What an automatic two-line entry does: the debited account moves by `x` towards its debit
   *  side, the credited one towards its credit side, every other account keeps its net balance. */
  lemma TwoLinesPosting(l: Ledger, before: seq<Entry>, k: nat, entryType: EntryType, date: int,
                        user: User, dr: nat, cr: nat, x: Money, j: nat)
    requires AppendedTwoLines(l, before, k, entryType, date, user, dr, cr, x) && dr != cr && j < |l.accounts|
    ensures var t := l.accounts[j].accountType; var was := NetBalance(t, before, j);
      l.OwnNet(j) == if j == dr then was + (if DebitNormal(t) then x else -x)
                     else if j == cr then was + (if DebitNormal(t) then -x else x)
                     else was
  {
    TwoLinesEffect(l.accounts[j].accountType, dr, cr, x, j);
  }

  class Ledger {
    /** The `Account` table; an account's id is its index. */
    var accounts: seq<Account>
    /** The cached `Account.balance` column, one per account. */
    var balances: seq<Money>
    /** `JournalEntry` rows with their `Transaction` lines; an entry's id is its index. */
    var entries: seq<Entry>
    /** `NumberSequence` rows: key to last value. */
    var counters: map<string, nat>

    ghost predicate Valid()
      reads this
    {
      |balances| == |accounts| &&
      WellFormed(accounts) && UniqueCodes(accounts) &&
      EntriesInRange(entries, |accounts|) && PostedBalanced(entries) && UniqueReferences(entries)
    }

    constructor ()
      ensures Valid() && CacheConsistent()
      ensures accounts == [] && balances == [] && entries == [] && counters == map[]
    {
      accounts := [];
      balances := [];
      entries := [];
      counters := map[];
    }

    /** `get_net_balance` of account `j`. */
    function OwnNet(j: nat): Money
      reads this
      requires j < |accounts|
    {
      NetBalance(accounts[j].accountType, entries, j)
    }

    /** Every cached balance equals the account's own net balance. */
    ghost predicate CacheConsistent()
      reads this
    {
      |balances| == |accounts| && forall j :: 0 <= j < |accounts| ==> balances[j] == OwnNet(j)
    }

    /** `NumberSequence.next_value(key)` */
    method NextValue(key: string) returns (v: nat)
      modifies this`counters
      ensures v == NextCounter(old(counters), key) && v >= 1
      ensures counters == old(counters)[key := v]
    {
      v := NextCounter(counters, key);
      counters := counters[key := v];
    }

    /** `Account.objects.get_or_create(code=code, defaults={…})`; a new account starts active with balance 0. */
    method GetOrCreate(code: string, t: AccountType, parent: Option<nat>) returns (i: nat)
      requires Valid() && (parent.Some? ==> parent.value < |accounts|)
      modifies this`accounts, this`balances
      ensures Valid()
      ensures accounts == AfterGetOrCreate(old(accounts), code, t, parent)
      ensures i < |accounts| && accounts[i].code == code && old(accounts) <= accounts
      ensures HasCode(accounts, code) && i == IndexOf(accounts, code)
      ensures HasCode(old(accounts), code) ==> i == IndexOf(old(accounts), code) && balances == old(balances)
      ensures !HasCode(old(accounts), code) ==> i == |old(accounts)| && balances == old(balances) + [0.0]
      ensures old(CacheConsistent()) ==> CacheConsistent()
    {
      if HasCode(accounts, code) {
        i := IndexOf(accounts, code);
      } else {
        var a := Account(code, t, parent, true);
        AppendWellFormed(accounts, a);
        i := |accounts|;
        ghost var was := CacheConsistent();
        NetOfUnreferenced(t, entries, i);
        accounts := accounts + [a];
        balances := balances + [0.0];
        assert EntriesInRange(entries, |accounts|) by {
          forall k, x | 0 <= k < |entries| && 0 <= x < |entries[k].lines|
            ensures entries[k].lines[x].account < |accounts|
          {
            assert LinesInRange(entries[k].lines, i);
          }
        }
        assert was ==> CacheConsistent() by {
          if was {
            forall j | 0 <= j < |accounts| ensures balances[j] == OwnNet(j) {
              if j < i {
                assert old(balances)[j] == old(OwnNet(j));
              }
            }
          }
        }
      }
    }

    /** `Account.get_cash_account` (code 1211). */
    method GetCashAccount() returns (i: nat)
      requires Valid()
      modifies this`accounts, this`balances
      ensures Valid() && i < |accounts| && accounts[i].code == "1211" && old(accounts) <= accounts
      ensures HasCode(accounts, "1211") && i == IndexOf(accounts, "1211")
      ensures accounts == AfterGetOrCreate(old(accounts), "1211", Asset, None)
      ensures old(CacheConsistent()) ==> CacheConsistent()
    {
      i := GetOrCreate("1211", Asset, None);
    }

    /** The shared shape of the two `get_or_create_*_account` helpers: the root account
     *  `parent` first, then the account `sub` under it, both of type `t`. */
    method GetOrCreateUnder(parent: string, sub: string, t: AccountType) returns (i: nat)
      requires Valid() && sub != parent
      modifies this`accounts, this`balances
      ensures Valid() && i < |accounts| && accounts[i].code == sub && old(accounts) <= accounts
      ensures HasCode(accounts, sub) && i == IndexOf(accounts, sub)
      ensures accounts == WithSubAccount(old(accounts), parent, sub, t)
      ensures !HasCode(old(accounts), sub) ==>
        accounts[i].parent.Some? && accounts[accounts[i].parent.value].code == parent && accounts[i].accountType == t
      ensures old(CacheConsistent()) ==> CacheConsistent()
    {
      var p := GetOrCreate(parent, t, None);
      ghost var mid := accounts;
      i := GetOrCreate(sub, t, Some(p));
      if !HasCode(old(accounts), sub) {
        OtherCodeStaysAbsent(old(accounts), parent, t, None, sub);
      }
    }

    /** `Account.get_or_create_student_ar_account`: the parent 1251 and the child `1251-NNN` under it. */
    method GetOrCreateStudentArAccount(studentId: nat) returns (i: nat)
      requires Valid()
      modifies this`accounts, this`balances
      ensures Valid() && i < |accounts| && accounts[i].code == StudentArCode(studentId) && old(accounts) <= accounts
      ensures HasCode(accounts, StudentArCode(studentId)) && i == IndexOf(accounts, StudentArCode(studentId))
      ensures accounts == WithSubAccount(old(accounts), "1251", StudentArCode(studentId), Asset)
      ensures !HasCode(old(accounts), StudentArCode(studentId)) ==>
        accounts[i].parent.Some? && accounts[accounts[i].parent.value].code == "1251" && accounts[i].accountType == Asset
      ensures old(CacheConsistent()) ==> CacheConsistent()
    {
      SubCodeNotParent(studentId);
      i := GetOrCreateUnder("1251", StudentArCode(studentId), Asset);
    }

    /** `Account.get_or_create_course_revenue_account`: the parent 2101 and the child `2101-NNN`. */
    method GetOrCreateCourseRevenueAccount(courseId: nat) returns (i: nat)
      requires Valid()
      modifies this`accounts, this`balances
      ensures Valid() && i < |accounts| && accounts[i].code == CourseRevenueCode(courseId) && old(accounts) <= accounts
      ensures HasCode(accounts, CourseRevenueCode(courseId)) && i == IndexOf(accounts, CourseRevenueCode(courseId))
      ensures accounts == WithSubAccount(old(accounts), "2101", CourseRevenueCode(courseId), Liability)
      ensures !HasCode(old(accounts), CourseRevenueCode(courseId)) ==>
        accounts[i].parent.Some? && accounts[accounts[i].parent.value].code == "2101" && accounts[i].accountType == Liability
      ensures old(CacheConsistent()) ==> CacheConsistent()
    {
      SubCodeNotParent(courseId);
      i := GetOrCreateUnder("2101", CourseRevenueCode(courseId), Liability);
    }

    /** The reference `JournalEntry.save` stores: the given one, or the next "JE-NNNNNN". */
    function AssignedReference(reference: string): string
      reads this
    {
      if reference == [] then Reference(JournalPrefix, NextCounter(counters, JournalKey)) else reference
    }

    /** `JournalEntry.objects.create(…)` followed by the creation of its lines; the row is unposted.
     *  A reference already in use is refused by the unique constraint. */
    method CreateEntry(reference: string, date: int, entryType: EntryType, total: Money, createdBy: User, lines: seq<Line>)
      returns (r: Result<nat, LedgerError>)
      requires Valid() && LinesInRange(lines, |accounts|)
      modifies this`entries, this`counters
      ensures Valid()
      ensures counters == if reference == [] then old(counters)[JournalKey := NextCounter(old(counters), JournalKey)] else old(counters)
      ensures HasReference(old(entries), old(AssignedReference(reference))) ==>
        r == Err(DuplicateReference) && entries == old(entries)
      ensures !HasReference(old(entries), old(AssignedReference(reference))) ==>
        r == Ok(|old(entries)|) &&
        entries == old(entries) + [Entry(old(AssignedReference(reference)), date, entryType, total, false, None, None, createdBy, lines)]
      ensures old(CacheConsistent()) ==> CacheConsistent()
    {
      var ref := reference;
      if ref == [] {
        var n := NextValue(JournalKey);
        ref := Reference(JournalPrefix, n);
      }
      if HasReference(entries, ref) {
        return Err(DuplicateReference);
      }
      var e := Entry(ref, date, entryType, total, false, None, None, createdBy, lines);
      ghost var es := entries;
      r := Ok(|entries|);
      entries := entries + [e];
      forall j | 0 <= j < |accounts|
        ensures OwnNet(j) == NetBalance(accounts[j].accountType, es, j)
      {
        NetConcat(accounts[j].accountType, es, [e], j);
        NetSingle(accounts[j].accountType, e, j);
      }
    }

    /** Saving an edited draft (the entry form and its line formset on an unposted entry):
     *  its reference, date, total and lines are replaced. Drafts count towards no balance,
     *  so every net balance, and with it the cache, stays as it was. */
    method ReviseDraft(k: nat, reference: string, date: int, total: Money, lines: seq<Line>)
      requires Valid() && k < |entries| && !entries[k].isPosted && LinesInRange(lines, |accounts|)
      requires forall m :: 0 <= m < |entries| && m != k ==> entries[m].reference != reference
      modifies this`entries
      ensures Valid()
      ensures entries == old(entries)[k := old(entries[k]).(reference := reference, date := date, totalAmount := total, lines := lines)]
      ensures forall j :: 0 <= j < |accounts| ==> OwnNet(j) == old(OwnNet(j))
      ensures old(CacheConsistent()) ==> CacheConsistent()
    {
      ghost var es := entries;
      var e := entries[k].(reference := reference, date := date, totalAmount := total, lines := lines);
      entries := entries[k := e];
      forall j | 0 <= j < |accounts|
        ensures OwnNet(j) == NetBalance(accounts[j].accountType, es, j)
      {
        ReplaceDraft(accounts[j].accountType, es, k, e, j);
      }
    }

    /** `recalculate_tree_balances` on account `i`: children first, then the account itself.
     *  Exactly the subtree of `i` gets its cached balance recomputed. */
    method RecalcTree(i: nat)
      requires Valid() && i < |accounts|
      modifies this`balances
      ensures Valid()
      ensures forall j :: 0 <= j < |accounts| ==>
        balances[j] == if Descends(accounts, j, i) then OwnNet(j) else old(balances[j])
      decreases |accounts| - Depth(accounts, i)
    {
      var k := 0;
      while k < |accounts|
        invariant 0 <= k <= |accounts|
        invariant Valid()
        invariant forall j :: 0 <= j < |accounts| ==>
          balances[j] == if exists c :: 0 <= c < k && ViaChild(accounts, j, i, c) then OwnNet(j) else old(balances[j])
      {
        if accounts[k].parent == Some(i) {
          DepthOfChild(accounts, k);
          RecalcTree(k);
          forall j | 0 <= j < |accounts|
            ensures Descends(accounts, j, k) <==> ViaChild(accounts, j, i, k)
          {
          }
        }
        k := k + 1;
      }
      balances := balances[i := OwnNet(i)];
      forall j | 0 <= j < |accounts|
        ensures balances[j] == if Descends(accounts, j, i) then OwnNet(j) else old(balances[j])
      {
        DescendsSplit(accounts, j, i);
      }
    }

    /** `JournalEntry.post_entry`: refuses an entry that is posted already or unbalanced;
     *  otherwise marks it posted and recomputes the cached balance of every account on
     *  the path from each of its lines' accounts down through their subtrees. */
    method PostEntry(k: nat, user: User, now: Time) returns (r: Result<(), LedgerError>)
      requires Valid() && k < |entries|
      modifies this`entries, this`balances
      ensures Valid()
      ensures old(entries[k].isPosted) ==>
        r == Err(AlreadyPosted) && entries == old(entries) && balances == old(balances)
      ensures !old(entries[k].isPosted) && !Balanced(old(entries[k].lines)) ==>
        r == Err(Unbalanced) && entries == old(entries) && balances == old(balances)
      ensures !old(entries[k].isPosted) && Balanced(old(entries[k].lines)) ==>
        r == Ok(()) &&
        entries == old(entries)[k := old(entries[k]).(isPosted := true, postedAt := Some(now), postedBy := Some(user))] &&
        (forall j :: 0 <= j < |accounts| ==>
          OwnNet(j) == old(OwnNet(j)) + EntryEffect(accounts[j].accountType, old(entries[k].lines), j)) &&
        (forall j :: 0 <= j < |accounts| ==>
          balances[j] == if Touched(accounts, old(entries[k].lines), j) then OwnNet(j) else old(balances[j]))
      ensures old(CacheConsistent()) ==> CacheConsistent()
    {
      var e := entries[k];
      if e.isPosted {
        return Err(AlreadyPosted);
      }
      if TotalDebits(e.lines) != TotalCredits(e.lines) {
        return Err(Unbalanced);
      }
      ghost var es := entries;
      entries := entries[k := e.(isPosted := true, postedAt := Some(now), postedBy := Some(user))];
      forall j | 0 <= j < |accounts|
        ensures OwnNet(j) == NetBalance(accounts[j].accountType, es, j) + EntryEffect(accounts[j].accountType, e.lines, j)
      {
        PostAt(accounts[j].accountType, es, k, entries[k], j);
      }
      var ls := e.lines;
      var x := 0;
      while x < |ls|
        invariant 0 <= x <= |ls|
        invariant Valid() && entries == old(entries)[k := e.(isPosted := true, postedAt := Some(now), postedBy := Some(user))]
        invariant forall j :: 0 <= j < |accounts| ==>
          balances[j] == if Touched(accounts, ls[..x], j) then OwnNet(j) else old(balances[j])
      {
        assert LinesInRange(ls, |accounts|);
        RecalcTree(ls[x].account);
        TouchedStep(accounts, ls, x);
        x := x + 1;
      }
      assert ls[..x] == ls;
      r := Ok(());
      if old(CacheConsistent()) {
        forall j | 0 <= j < |accounts|
          ensures balances[j] == OwnNet(j)
        {
          if !Touched(accounts, ls, j) {
            UntouchedNoEffect(accounts, ls, j);
          }
        }
      }
    }

    /** The pattern every automatic entry follows: `JournalEntry.objects.create` with its
     *  reference (a fresh "JE-" one when blank), its lines, then `post_entry`. A balanced
     *  entry always posts. */
    method CreatePostedEntry(reference: string, date: int, entryType: EntryType, total: Money, user: User, now: Time, lines: seq<Line>)
      returns (r: Result<nat, LedgerError>)
      requires Valid() && LinesInRange(lines, |accounts|) && Balanced(lines)
      modifies this`entries, this`balances, this`counters
      ensures Valid()
      ensures counters == if reference == [] then old(counters)[JournalKey := NextCounter(old(counters), JournalKey)] else old(counters)
      ensures var ref := old(AssignedReference(reference));
        if HasReference(old(entries), ref) then
          r == Err(DuplicateReference) && entries == old(entries) && balances == old(balances)
        else
          r == Ok(|old(entries)|) &&
          entries == old(entries) + [Entry(ref, date, entryType, total, true, Some(now), Some(user), user, lines)]
      ensures r.Ok? ==> AppendedPosted(this, old(entries), r.value)
      ensures old(CacheConsistent()) ==> CacheConsistent()
    {
      ghost var ref := AssignedReference(reference);
      r := CreateEntry(reference, date, entryType, total, user, lines);
      if r.Err? {
        return;
      }
      var posted := PostEntry(r.value, user, now);
      assert posted.Ok?;
      forall j | 0 <= j < |accounts|
        ensures NetBalance(accounts[j].accountType, old(entries) + [Entry(ref, date, entryType, total, false, None, None, user, lines)], j)
                == NetBalance(accounts[j].accountType, old(entries), j)
      {
        var e := Entry(ref, date, entryType, total, false, None, None, user, lines);
        NetConcat(accounts[j].accountType, old(entries), [e], j);
        NetSingle(accounts[j].accountType, e, j);
      }
      assert entries[..r.value] == old(entries);
    }

    /** `CreatePostedEntry` for the two-line entries the records generate. */
    method PostTwoLines(date: int, entryType: EntryType, user: User, now: Time, dr: nat, cr: nat, x: Money)
      returns (r: Result<nat, LedgerError>)
      requires Valid() && dr < |accounts| && cr < |accounts|
      modifies this`entries, this`balances, this`counters
      ensures Valid()
      ensures counters == old(counters)[JournalKey := NextCounter(old(counters), JournalKey)]
      ensures r.Err? ==> r.error == DuplicateReference && entries == old(entries) && balances == old(balances)
      ensures r.Ok? ==> AppendedTwoLines(this, old(entries), r.value, entryType, date, user, dr, cr, x)
      ensures old(CacheConsistent()) ==> CacheConsistent()
    {
      r := CreatePostedEntry([], date, entryType, x, user, now, TwoLines(dr, cr, x));
    }

    /** `JournalEntry.reverse_entry`: only a posted entry can be reversed; the reversal is a new
     *  ADJUSTMENT entry with the same total and the same lines on the opposite sides, posted at once. */
    method ReverseEntry(k: nat, user: User, now: Time, today: int) returns (r: Result<nat, LedgerError>)
      requires Valid() && k < |entries|
      modifies this`entries, this`balances, this`counters
      ensures Valid()
      ensures !old(entries[k].isPosted) ==>
        r == Err(NotPosted) && entries == old(entries) && balances == old(balances) && counters == old(counters)
      ensures old(entries[k].isPosted) ==>
        counters == old(counters)[JournalKey := NextCounter(old(counters), JournalKey)]
      ensures old(entries[k].isPosted) && r.Err? ==>
        r.error == DuplicateReference && entries == old(entries) && balances == old(balances)
      ensures r.Ok? ==>
        r.value == |old(entries)| &&
        entries == old(entries) + [Entry(Reference(JournalPrefix, NextCounter(old(counters), JournalKey)), today, Adjustment,
                                         old(entries[k].totalAmount), true, Some(now), Some(user), user, Flip(old(entries[k].lines)))] &&
        (forall j :: 0 <= j < |accounts| ==>
          OwnNet(j) == old(OwnNet(j)) - EntryEffect(accounts[j].accountType, old(entries[k].lines), j))
      ensures old(CacheConsistent()) ==> CacheConsistent()
    {
      var e := entries[k];
      if !e.isPosted {
        return Err(NotPosted);
      }
      FlipTotals(e.lines);
      assert LinesInRange(Flip(e.lines), |accounts|) by {
        assert LinesInRange(e.lines, |accounts|);
      }
      r := CreatePostedEntry([], today, Adjustment, e.totalAmount, user, now, Flip(e.lines));
      if r.Err? {
        return;
      }
      forall j | 0 <= j < |accounts|
        ensures OwnNet(j) == old(OwnNet(j)) - EntryEffect(accounts[j].accountType, e.lines, j)
      {
        FlipEffect(accounts[j].accountType, e.lines, j);
      }
    }
  }
}
