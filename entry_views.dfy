/** The manual journal-entry views (accounts/views.py): create and update with their
 *  line formset, and posting followed by a refresh of every account tree. */
module EntryViews {
  import opened Common
  import opened Numbering
  import opened Journal
  import opened AccountTree
  import opened Books
  import opened AccountForms

  datatype EntryFormError = ReferenceTaken | FormsetInvalid | Unequal | PostedEntry

  /** A non-blank reference already used by an entry other than `k` (the form's
   *  unique check; `k` is past the end when creating). */
  predicate TakenByOther(es: seq<Entry>, k: nat, reference: string)
  {
    reference != [] && exists m :: 0 <= m < |es| && m != k && es[m].reference == reference
  }

  /** `JournalEntryCreateView`: the form's reference must be free, the formset valid and
   *  its debit and credit totals equal; the entry is then saved as an unposted MANUAL
   *  entry whose total is the debit total, together with its kept lines. */
  method CreateManualEntry(l: Ledger, date: int, reference: string, user: User, forms: seq<LineForm>)
    returns (r: Result<nat, EntryFormError>)
    requires l.Valid()
    modifies l`entries, l`counters
    ensures l.Valid() && l.accounts == old(l.accounts) && l.balances == old(l.balances)
    ensures r.Err? ==> l.entries == old(l.entries)
    ensures TakenByOther(old(l.entries), |old(l.entries)|, reference) ==> r == Err(ReferenceTaken)
    ensures !TakenByOther(old(l.entries), |old(l.entries)|, reference) && !FormsetValid(forms, l.accounts) ==>
      r == Err(FormsetInvalid)
    ensures FormsetValid(forms, l.accounts) && !Balanced(Kept(forms)) ==> r.Err?
    ensures r.Ok? ==>
      FormsetValid(forms, l.accounts) && Balanced(Kept(forms)) && FormDebits(forms) == FormCredits(forms) &&
      r.value == |old(l.entries)| &&
      l.entries == old(l.entries) + [Entry(old(l.AssignedReference(reference)), date, Manual, FormDebits(forms), false, None, None, user, Kept(forms))]
    ensures l.counters == old(l.counters) || (reference == [] && l.counters == old(l.counters)[JournalKey := NextCounter(old(l.counters), JournalKey)])
    ensures old(l.CacheConsistent()) ==> l.CacheConsistent()
  {
    if reference != [] && HasReference(l.entries, reference) {
      return Err(ReferenceTaken);
    }
    if !FormsetValid(forms, l.accounts) {
      return Err(FormsetInvalid);
    }
    KeptTotals(forms);
    var debits := FormDebits(forms);
    var credits := FormCredits(forms);
    if debits != credits {
      return Err(Unequal);
    }
    KeptAccounts(forms, |l.accounts|);
    var c := l.CreateEntry(reference, date, Manual, debits, user, Kept(forms));
    if c.Err? {
      return Err(ReferenceTaken);
    }
    r := Ok(c.value);
  }

  /** `JournalEntryUpdateView`: after the form's reference check, a posted entry is refused;
   *  otherwise the same formset and balance checks as on creation, then the draft gets the
   *  new reference (numbered afresh when blank), date, debit total and kept lines. Editing
   *  a draft never moves a balance. */
  method UpdateManualEntry(l: Ledger, k: nat, date: int, reference: string, forms: seq<LineForm>)
    returns (r: Result<(), EntryFormError>)
    requires l.Valid() && k < |l.entries|
    modifies l`entries, l`counters
    ensures l.Valid() && l.accounts == old(l.accounts) && l.balances == old(l.balances)
    ensures r.Err? ==> l.entries == old(l.entries)
    ensures TakenByOther(old(l.entries), k, reference) ==> r == Err(ReferenceTaken)
    ensures !TakenByOther(old(l.entries), k, reference) && old(l.entries[k].isPosted) ==>
      r == Err(PostedEntry) && l.counters == old(l.counters)
    ensures r.Ok? ==>
      !old(l.entries[k].isPosted) && FormsetValid(forms, l.accounts) && Balanced(Kept(forms)) &&
      l.entries == old(l.entries)[k := old(l.entries[k]).(reference := old(l.AssignedReference(reference)), date := date,
                                                         totalAmount := FormDebits(forms), lines := Kept(forms))]
    ensures forall j :: 0 <= j < |l.accounts| ==> l.OwnNet(j) == old(l.OwnNet(j))
    ensures l.counters == old(l.counters) || (reference == [] && l.counters == old(l.counters)[JournalKey := NextCounter(old(l.counters), JournalKey)])
    ensures old(l.CacheConsistent()) ==> l.CacheConsistent()
  {
    if reference != [] && exists m :: 0 <= m < |l.entries| && m != k && l.entries[m].reference == reference {
      return Err(ReferenceTaken);
    }
    if l.entries[k].isPosted {
      return Err(PostedEntry);
    }
    if !FormsetValid(forms, l.accounts) {
      return Err(FormsetInvalid);
    }
    KeptTotals(forms);
    var debits := FormDebits(forms);
    var credits := FormCredits(forms);
    if debits != credits {
      return Err(Unequal);
    }
    var ref := reference;
    if ref == [] {
      var n := l.NextValue(JournalKey);
      ref := Reference(JournalPrefix, n);
      if exists m :: 0 <= m < |l.entries| && m != k && l.entries[m].reference == ref {
        return Err(ReferenceTaken);
      }
    }
    KeptAccounts(forms, |l.accounts|);
    l.ReviseDraft(k, ref, date, debits, Kept(forms));
    r := Ok(());
  }

  /** The loop over the root accounts after a posting: every tree is recalculated, so
   *  afterwards every cached balance equals its account's own net balance. */
  method RefreshRoots(l: Ledger)
    requires l.Valid()
    modifies l`balances
    ensures l.Valid() && l.CacheConsistent()
  {
    var i := 0;
    while i < |l.accounts|
      invariant 0 <= i <= |l.accounts| && l.Valid()
      invariant forall j :: 0 <= j < |l.accounts| && RootOf(l.accounts, j) < i ==> l.balances[j] == l.OwnNet(j)
    {
      if l.accounts[i].parent.None? {
        l.RecalcTree(i);
      }
      i := i + 1;
    }
  }

  /** `PostJournalEntryView.post`: `post_entry`, and on success the recalculation of every
   *  root's tree. A refused posting changes nothing; a successful one leaves the whole
   *  cached column consistent, whatever it held before. */
  method PostJournalEntry(l: Ledger, k: nat, user: User, now: Time) returns (r: Result<(), LedgerError>)
    requires l.Valid() && k < |l.entries|
    modifies l`entries, l`balances
    ensures l.Valid() && l.accounts == old(l.accounts)
    ensures r.Ok? <==> !old(l.entries[k].isPosted) && Balanced(old(l.entries[k].lines))
    ensures old(l.entries[k].isPosted) ==> r == Err(AlreadyPosted)
    ensures r.Err? ==> l.entries == old(l.entries) && l.balances == old(l.balances)
    ensures r.Ok? ==>
      l.entries == old(l.entries)[k := old(l.entries[k]).(isPosted := true, postedAt := Some(now), postedBy := Some(user))] &&
      l.CacheConsistent()
  {
    r := l.PostEntry(k, user, now);
    if r.Ok? {
      RefreshRoots(l);
    }
  }
}
