/** The `attach_parents` management command (accounts/management/commands/attach_parents.py):
 *  every account without a parent is linked to the account whose code its own code extends,
 *  either the part before a '-' or the longest shorter code that exists. */
module ParentLinks {
  import opened Common
  import opened Journal
  import opened AccountTree
  import opened Books
  import opened RecalcCommand

  /** `s.split(c, 1)[0]`: the text before the first `c`, all of `s` when there is none. */
  function BeforeFirst(s: string, c: char): (r: string)
    ensures |r| <= |s| && r == s[..|r|] && c !in r
    ensures c in s ==> |r| < |s| && s[|r|] == c
  {
    if s == [] then []
    else if s[0] == c then []
    else [s[0]] + BeforeFirst(s[1..], c)
  }

  /** The codes of the account table: the keys of the command's `codes` lookup. */
  function Codes(accts: seq<Account>): (cs: set<string>)
    ensures forall code :: code in cs <==> HasCode(accts, code)
  {
    set j | 0 <= j < |accts| :: accts[j].code
  }

  /** Cutting characters off the right of `s` one at a time, the first prefix found in `codes`:
   *  the longest proper prefix of `s`, at least one character long, that is a code. */
  function LongestPrefixIn(s: string, codes: set<string>): (r: Option<string>)
    ensures r.Some? ==> 1 <= |r.value| < |s| && r.value == s[..|r.value|] && r.value in codes
    ensures r.Some? ==> forall n :: |r.value| < n < |s| ==> s[..n] !in codes
    ensures r.None? ==> forall n :: 1 <= n < |s| ==> s[..n] !in codes
    decreases |s|
  {
    if |s| <= 1 then None
    else
      var t := s[..|s| - 1];
      assert forall n :: 0 <= n <= |t| ==> t[..n] == s[..n];
      if t in codes then Some(t) else LongestPrefixIn(t, codes)
  }

  /** What `resolve_parent_code` answers for `code` given the existing codes: for a hyphenated
   *  code the text before the first '-'; otherwise the longest shorter code, after trailing
   *  blanks are dropped. Either way a strict prefix of the code. */
  function ParentCode(code: string, codes: set<string>): (r: Option<string>)
    ensures '-' in code ==> r == Some(BeforeFirst(code, '-'))
    ensures '-' !in code ==> r == LongestPrefixIn(RStrip(code), codes)
    ensures r.Some? ==> |r.value| < |code| && r.value == code[..|r.value|]
  {
    if '-' in code then Some(BeforeFirst(code, '-')) else LongestPrefixIn(RStrip(code), codes)
  }

  /** `resolve_parent_code`. */
  method ResolveParentCode(code: string, codes: set<string>) returns (r: Option<string>)
    ensures r == ParentCode(code, codes)
  {
    if '-' in code {
      return Some(BeforeFirst(code, '-'));
    }
    var s := RStrip(code);
    while |s| > 1
      invariant LongestPrefixIn(s, codes) == LongestPrefixIn(RStrip(code), codes)
      decreases |s|
    {
      s := s[..|s| - 1];
      if s in codes {
        return Some(s);
      }
    }
    return None;
  }

  /** The parent the command gives account `j`, if any: none when it already has one, when its
   *  code resolves to nothing or to a blank code, when the resolved code is not an account, or
   *  when that account is `j` itself. */
  function LinkTarget(accts: seq<Account>, j: nat): (r: Option<nat>)
    requires j < |accts|
    ensures accts[j].parent.Some? ==> r.None?
    ensures r.Some? ==>
      r.value < |accts| && r.value != j && accts[j].parent.None? &&
      ParentCode(accts[j].code, Codes(accts)) == Some(accts[r.value].code) &&
      |accts[r.value].code| < |accts[j].code| && accts[r.value].code == accts[j].code[..|accts[r.value].code|]
  {
    if accts[j].parent.Some? then None
    else match ParentCode(accts[j].code, Codes(accts))
      case None => None
      case Some(p) =>
        if p == [] || !HasCode(accts, p) then None
        else if IndexOf(accts, p) == j then None
        else Some(IndexOf(accts, p))
  }

  /** The loop body's checks for account `j`: it has no parent yet, its code resolves to a
   *  non-blank code, that code is an account, and that account is not `j`. */
  method ResolveLink(accts: seq<Account>, codes: set<string>, j: nat) returns (link: Option<nat>)
    requires j < |accts| && codes == Codes(accts)
    ensures link == LinkTarget(accts, j)
  {
    link := None;
    if accts[j].parent.None? {
      var pcode := ResolveParentCode(accts[j].code, codes);
      if pcode.Some? && pcode.value != [] && HasCode(accts, pcode.value) {
        var p := IndexOf(accts, pcode.value);
        if p != j {
          link := Some(p);
        }
      }
    }
  }

  /** Account `j` after the command: linked to its target when it has one. */
  function Attached(accts: seq<Account>, j: nat): (a: Account)
    requires j < |accts|
    ensures a.code == accts[j].code && a.accountType == accts[j].accountType && a.isActive == accts[j].isActive
    ensures accts[j].parent.Some? ==> a == accts[j]
  {
    match LinkTarget(accts, j)
    case None => accts[j]
    case Some(p) => accts[j].(parent := Some(p))
  }

  /** The number of accounts among the first `n` that the command links. */
  function LinkCount(accts: seq<Account>, n: nat): (c: nat)
    requires n <= |accts|
    ensures c <= n
  {
    if n == 0 then 0 else LinkCount(accts, n - 1) + (if LinkTarget(accts, n - 1).Some? then 1 else 0)
  }

  /** The account table after the command (when not a dry run). */
  function AttachedAll(accts: seq<Account>): (after: seq<Account>)
    ensures |after| == |accts|
  {
    seq(|accts|, j requires 0 <= j < |accts| => Attached(accts, j))
  }

  /** `Command.handle`: one pass over the accounts; an account is linked to the target its
   *  code resolves to, and counted. A dry run counts the same links but keeps none of them. */
  method AttachParents(accts: seq<Account>, dry: bool) returns (after: seq<Account>, updated: nat)
    ensures updated == LinkCount(accts, |accts|)
    ensures dry ==> after == accts
    ensures !dry ==> after == AttachedAll(accts)
  {
    var codes := Codes(accts);
    after := accts;
    updated := 0;
    var j := 0;
    while j < |accts|
      invariant 0 <= j <= |accts| && |after| == |accts|
      invariant updated == LinkCount(accts, j)
      invariant forall m :: 0 <= m < |accts| ==> after[m] == if m < j && !dry then Attached(accts, m) else accts[m]
    {
      var acc := accts[j];
      var link := ResolveLink(accts, codes, j);
      assert Attached(accts, j) == if link.Some? then acc.(parent := link) else acc;
      if link.Some? {
        updated := updated + 1;
        if !dry {
          after := after[j := acc.(parent := link)];
        }
      }
      j := j + 1;
    }
  }

  /** Every link the command makes names an existing account, so parent links that all
   *  existed before still all exist afterwards. */
  lemma AttachKeepsParentsExist(accts: seq<Account>)
    requires ParentsExist(accts)
    ensures ParentsExist(AttachedAll(accts))
  {
  }

  /** A link goes from a code to a strictly shorter code, yet the command can still close a
   *  cycle: account "1" already hangs under "12", and "12" is then linked to "1". */
  lemma AttachCanCloseCycle()
    ensures var accts := [Account("1", Asset, Some(1), true), Account("12", Asset, None, true)];
      WellFormed(accts) && !WellFormed(AttachedAll(accts))
  {
    var accts := [Account("1", Asset, Some(1), true), Account("12", Asset, None, true)];
    assert Walk(accts, 1, 1) == Some(0);
    assert Walk(accts, 0, 2) == Some(1);
    TwelveLinksToOne(accts);
    var after := AttachedAll(accts);
    assert after[0] == accts[0] && after[1] == accts[1].(parent := Some(0));
    assert Walk(after, 0, 0) == None;
    assert Walk(after, 1, 1) == None;
    assert Walk(after, 0, 2) == None;
  }

  /** After the command closes that cycle, the loop of `depth()` in `recalc_account_balances`
   *  never stops on account "1": whatever number of turns it has taken, `p` is still set. */
  lemma AttachThenDepthNeverEnds(steps: nat)
    ensures var accts := [Account("1", Asset, Some(1), true), Account("12", Asset, None, true)];
      DepthCursor(AttachedAll(accts), 0, steps) == Some(if steps % 2 == 0 then 1 else 0)
  {
    var accts := [Account("1", Asset, Some(1), true), Account("12", Asset, None, true)];
    TwelveLinksToOne(accts);
    var after := AttachedAll(accts);
    assert after[0].parent == Some(1) && after[1].parent == Some(0);
    CycleCursor(after, steps);
  }

  lemma {:induction false} CycleCursor(after: seq<Account>, steps: nat)
    requires |after| == 2 && after[0].parent == Some(1) && after[1].parent == Some(0)
    ensures DepthCursor(after, 0, steps) == Some(if steps % 2 == 0 then 1 else 0)
  {
    if steps > 0 {
      CycleCursor(after, steps - 1);
    }
  }

  /** In that table, "12" resolves to "1". */
  lemma TwelveLinksToOne(accts: seq<Account>)
    requires accts == [Account("1", Asset, Some(1), true), Account("12", Asset, None, true)]
    ensures LinkTarget(accts, 1) == Some(0)
  {
    assert "12"[..1] == "1";
    assert accts[0].code == "1";
    assert "1" in Codes(accts);
    assert LongestPrefixIn("12", Codes(accts)) == Some("1");
    assert RStrip("12") == "12";
    assert IndexOf(accts, "1") == 0;
  }

  /** Whether following at most `fuel` parent links up from `x` meets account `j`. */
  function Climbs(accts: seq<Account>, x: nat, j: nat, fuel: nat): bool
    decreases fuel
  {
    x == j || (x < |accts| && accts[x].parent.Some? && fuel > 0 && Climbs(accts, accts[x].parent.value, j, fuel - 1))
  }

  /** The table with account `j` linked under `p`. */
  function Relink(accts: seq<Account>, j: nat, p: nat): (r: seq<Account>)
    requires j < |accts|
    ensures |r| == |accts| && r[j].parent == Some(p)
    ensures forall i :: 0 <= i < |accts| && i != j ==> r[i] == accts[i]
  {
    accts[j := accts[j].(parent := Some(p))]
  }

  /** A walk that never meets `j` is the same after `j` is relinked. */
  lemma {:induction false} AvoidingWalk(cur: seq<Account>, j: nat, p: nat, x: nat, f: nat)
    requires j < |cur| && Walk(cur, x, f).Some? && !Climbs(cur, x, j, f)
    ensures Walk(Relink(cur, j, p), x, f) == Walk(cur, x, f)
    decreases f
  {
    if cur[x].parent.Some? {
      AvoidingWalk(cur, j, p, cur[x].parent.value, f - 1);
    }
  }

  /** A walk that meets `j` goes on from `p`, which reaches a root without meeting `j`. */
  lemma {:induction false} ClimbingWalk(cur: seq<Account>, j: nat, p: nat, x: nat, f: nat)
    requires WellFormed(cur) && j < |cur| && p < |cur| && !Climbs(cur, p, j, |cur|)
    requires Climbs(cur, x, j, f)
    ensures Walk(Relink(cur, j, p), x, f + |cur| + 1).Some?
    decreases f
  {
    var n := |cur|;
    var next := Relink(cur, j, p);
    if x == j {
      AvoidingWalk(cur, j, p, p, n);
      WalkMoreFuel(next, p, n, f + n);
    } else {
      ClimbingWalk(cur, j, p, cur[x].parent.value, f - 1);
    }
  }

  /** Linking a root `j` under an account whose ancestors do not include `j` keeps the table a
   *  forest. */
  lemma LinkKeepsWellFormed(cur: seq<Account>, j: nat, p: nat)
    requires WellFormed(cur) && j < |cur| && p < |cur| && !Climbs(cur, p, j, |cur|)
    ensures WellFormed(Relink(cur, j, p))
  {
    var n := |cur|;
    var next := Relink(cur, j, p);
    forall i | 0 <= i < n
      ensures Walk(next, i, n).Some?
    {
      if Climbs(cur, i, j, n) {
        ClimbingWalk(cur, j, p, i, n);
        WalkShort(next, i, n + n + 1);
        WalkLessFuel(next, i, n + n + 1, n);
      } else {
        AvoidingWalk(cur, j, p, i, n);
      }
    }
  }

  /** Once `j` hangs under an account whose ancestors include `j`, no walk from an account on
   *  that loop ever reaches a root. */
  lemma {:induction false} LoopWalk(cur: seq<Account>, j: nat, p: nat, x: nat, c: nat, f: nat)
    requires j < |cur| && Climbs(cur, p, j, |cur|) && Climbs(cur, x, j, c)
    ensures Walk(Relink(cur, j, p), x, f).None?
    decreases f
  {
    var next := Relink(cur, j, p);
    if f > 0 {
      if x == j {
        LoopWalk(cur, j, p, p, |cur|, f - 1);
      } else {
        LoopWalk(cur, j, p, cur[x].parent.value, c - 1, f - 1);
      }
    }
  }

  /** The guard is exact: linking root `j` under `p` keeps the table a forest if and only if
   *  `j` is not among `p`'s ancestors (nor `p` itself). */
  lemma GuardExact(cur: seq<Account>, j: nat, p: nat)
    requires WellFormed(cur) && j < |cur| && p < |cur|
    ensures WellFormed(Relink(cur, j, p)) <==> !Climbs(cur, p, j, |cur|)
  {
    if Climbs(cur, p, j, |cur|) {
      LoopWalk(cur, j, p, j, 0, |cur|);
    } else {
      LinkKeepsWellFormed(cur, j, p);
    }
  }

  /** Whether the guarded command links `j` to the target `t` resolved for it: there is a
   *  target, and `j` is not among its ancestors in the current table. */
  predicate Guarded(cur: seq<Account>, j: nat, t: Option<nat>)
  {
    t.Some? && !Climbs(cur, t.value, j, |cur|)
  }

  /** The guarded command's visit of account `j`, whose resolved target is `t`. */
  function GuardedStep(cur: seq<Account>, j: nat, t: Option<nat>): (r: seq<Account>)
    requires j < |cur|
    ensures |r| == |cur|
  {
    if Guarded(cur, j, t) then Relink(cur, j, t.value) else cur
  }

  /** The table after the guarded command has visited the first `n` accounts in order. The
   *  targets are resolved against the table as it was when the command started, as the
   *  command's one `codes` lookup does: a visit changes only the visited account's parent,
   *  which no later visit reads. */
  function GuardedAttached(accts: seq<Account>, n: nat): (r: seq<Account>)
    requires n <= |accts|
    ensures |r| == |accts|
  {
    if n == 0 then accts else GuardedStep(GuardedAttached(accts, n - 1), n - 1, LinkTarget(accts, n - 1))
  }

  /** The number of links the guarded command makes among the first `n` accounts. */
  function GuardedCount(accts: seq<Account>, n: nat): (c: nat)
    requires n <= |accts|
    ensures c <= n
  {
    if n == 0 then 0
    else GuardedCount(accts, n - 1) + (if Guarded(GuardedAttached(accts, n - 1), n - 1, LinkTarget(accts, n - 1)) then 1 else 0)
  }

  /** One guarded visit keeps the table a forest. */
  lemma GuardedStepKeeps(cur: seq<Account>, j: nat, t: Option<nat>)
    requires WellFormed(cur) && j < |cur| && (t.Some? ==> t.value < |cur|)
    ensures WellFormed(GuardedStep(cur, j, t))
  {
    if Guarded(cur, j, t) {
      LinkKeepsWellFormed(cur, j, t.value);
    }
  }

  /** Every step of the guarded command keeps the table a forest. */
  lemma {:induction false} GuardedKeepsWellFormed(accts: seq<Account>, n: nat)
    requires WellFormed(accts) && n <= |accts|
    ensures WellFormed(GuardedAttached(accts, n))
  {
    if n > 0 {
      GuardedKeepsWellFormed(accts, n - 1);
      GuardedStepKeeps(GuardedAttached(accts, n - 1), n - 1, LinkTarget(accts, n - 1));
    }
  }

  /** `Command.handle` with a cycle guard: one pass over the accounts; an account is linked
   *  to the target its code resolves to unless it is already among that target's ancestors,
   *  and counted. A forest stays a forest. A dry run counts the same links but keeps none of
   *  them. */
  method AttachParentsGuarded(accts: seq<Account>, dry: bool) returns (after: seq<Account>, updated: nat)
    ensures updated == GuardedCount(accts, |accts|)
    ensures dry ==> after == accts
    ensures !dry ==> after == GuardedAttached(accts, |accts|)
    ensures WellFormed(accts) ==> WellFormed(after)
  {
    var codes := Codes(accts);
    var cur := accts;
    updated := 0;
    var j := 0;
    while j < |accts|
      invariant 0 <= j <= |accts| && |cur| == |accts|
      invariant cur == GuardedAttached(accts, j)
      invariant updated == GuardedCount(accts, j)
    {
      var link := ResolveLink(accts, codes, j);
      if link.Some? && !Climbs(cur, link.value, j, |cur|) {
        cur := Relink(cur, j, link.value);
        updated := updated + 1;
      }
      j := j + 1;
    }
    after := if dry then accts else cur;
    if WellFormed(accts) {
      GuardedKeepsWellFormed(accts, |accts|);
    }
  }
}
