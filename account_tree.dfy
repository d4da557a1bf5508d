/** The chart of accounts as a parent-linked forest (accounts/models.py: Account.parent,
 *  Account.children, rollup_balance). Account ids are indices into the account table. */
module AccountTree {
  import opened Common
  import opened Journal

  datatype Account = Account(code: string, accountType: AccountType, parent: Option<nat>, isActive: bool)

  /** Every parent link names an existing account. */
  predicate ParentsExist(accts: seq<Account>)
  {
    forall i :: 0 <= i < |accts| && accts[i].parent.Some? ==> accts[i].parent.value < |accts|
  }

  /** Follows parent links from `i`; the number of links to a root, if one is reached within `fuel` steps. */
  function Walk(accts: seq<Account>, i: nat, fuel: nat): (r: Option<nat>)
    ensures r.Some? ==> r.value <= fuel
    decreases fuel
  {
    if i >= |accts| then None
    else match accts[i].parent
      case None => Some(0)
      case Some(p) =>
        if fuel == 0 then None
        else match Walk(accts, p, fuel - 1)
          case None => None
          case Some(d) => Some(d + 1)
  }

  /** The account reached from `i` by following `k` parent links (stopping early at a root
   *  or a dangling link). */
  function Up(accts: seq<Account>, i: nat, k: nat): nat
    decreases k
  {
    if k == 0 || i >= |accts| || accts[i].parent.None? then i
    else Up(accts, accts[i].parent.value, k - 1)
  }

  /** From `i`, exactly `k` parent links lead to a root: the accounts passed on the way all
   *  exist and have a parent, and the one reached exists and has none. */
  predicate HopsToRoot(accts: seq<Account>, i: nat, k: nat)
  {
    Up(accts, i, k) < |accts| && accts[Up(accts, i, k)].parent.None? &&
    forall m :: 0 <= m < k ==> Up(accts, i, m) < |accts| && accts[Up(accts, i, m)].parent.Some?
  }

  /** One link up: `k + 1` hops from a child with a parent are `k` hops from the parent. */
  lemma HopsStep(accts: seq<Account>, i: nat, k: nat)
    requires i < |accts| && accts[i].parent.Some?
    ensures !HopsToRoot(accts, i, 0)
    ensures HopsToRoot(accts, i, k + 1) <==> HopsToRoot(accts, accts[i].parent.value, k)
  {
    var p := accts[i].parent.value;
    assert forall m :: 0 <= m <= k ==> Up(accts, i, m + 1) == Up(accts, p, m);
    if HopsToRoot(accts, p, k) {
      forall m | 0 <= m < k + 1
        ensures Up(accts, i, m) < |accts| && accts[Up(accts, i, m)].parent.Some?
      {
        if m > 0 {
          assert Up(accts, i, m) == Up(accts, p, m - 1);
        }
      }
    }
  }

  /** `Walk` counts the parent links to a root: when it succeeds with `d`, `d` links lead
   *  from `i` to a root; and whenever some `k` within the fuel does, `Walk` returns `k`. */
  lemma {:induction false} WalkHops(accts: seq<Account>, i: nat, fuel: nat)
    ensures Walk(accts, i, fuel).Some? ==> HopsToRoot(accts, i, Walk(accts, i, fuel).value)
    ensures forall k: nat :: k <= fuel && HopsToRoot(accts, i, k) ==> Walk(accts, i, fuel) == Some(k)
    decreases fuel
  {
    if i < |accts| && accts[i].parent.Some? {
      var p := accts[i].parent.value;
      HopsStep(accts, i, 0);
      if fuel > 0 {
        WalkHops(accts, p, fuel - 1);
        forall k: nat | k <= fuel && HopsToRoot(accts, i, k)
          ensures Walk(accts, i, fuel) == Some(k)
        {
          HopsStep(accts, i, k - 1);
        }
        if Walk(accts, i, fuel).Some? {
          HopsStep(accts, i, Walk(accts, p, fuel - 1).value);
        }
      }
    } else if i < |accts| {
      forall k: nat | k <= fuel && HopsToRoot(accts, i, k)
        ensures k == 0
      {
        if k > 0 {
          assert Up(accts, i, 0) == i;
        }
      }
    }
  }

  /** Following `m` links and then `k` more is following `m + k` links. */
  lemma {:induction false} UpAdd(accts: seq<Account>, i: nat, m: nat, k: nat)
    ensures Up(accts, Up(accts, i, m), k) == Up(accts, i, m + k)
    decreases m
  {
    if m > 0 && i < |accts| && accts[i].parent.Some? {
      UpAdd(accts, accts[i].parent.value, m - 1, k);
    } else if k > 0 {
      assert Up(accts, i, m) == i;
    }
  }

  /** Part way along a path to a root, the rest of the path is still one. */
  lemma HopsSuffix(accts: seq<Account>, i: nat, k: nat, m: nat)
    requires HopsToRoot(accts, i, k) && m <= k
    ensures HopsToRoot(accts, Up(accts, i, m), k - m)
  {
    var x := Up(accts, i, m);
    UpAdd(accts, i, m, k - m);
    forall m' | 0 <= m' < k - m
      ensures Up(accts, x, m') < |accts| && accts[Up(accts, x, m')].parent.Some?
    {
      UpAdd(accts, i, m, m');
    }
  }

  /** The accounts met on the way from `i` to its root are all different. */
  lemma PathDistinct(accts: seq<Account>, i: nat, k: nat, m1: nat, m2: nat)
    requires HopsToRoot(accts, i, k) && m1 < m2 <= k
    ensures Up(accts, i, m1) != Up(accts, i, m2)
  {
    HopsSuffix(accts, i, k, m1);
    HopsSuffix(accts, i, k, m2);
    var x, y := Up(accts, i, m1), Up(accts, i, m2);
    assert accts[Up(accts, x, k - m2)].parent.Some?;
    assert accts[Up(accts, y, k - m2)].parent.None?;
  }

  /** The first `t + 1` accounts of the path from `i`. */
  function PathSet(accts: seq<Account>, i: nat, t: nat): set<nat>
  {
    set m | 0 <= m <= t :: Up(accts, i, m)
  }

  lemma {:induction false} PathCard(accts: seq<Account>, i: nat, k: nat, t: nat)
    requires HopsToRoot(accts, i, k) && t <= k
    ensures |PathSet(accts, i, t)| == t + 1
    ensures forall x :: x in PathSet(accts, i, t) ==> x < |accts|
  {
    if t == 0 {
      assert PathSet(accts, i, 0) == {Up(accts, i, 0)};
    } else {
      PathCard(accts, i, k, t - 1);
      assert PathSet(accts, i, t) == PathSet(accts, i, t - 1) + {Up(accts, i, t)};
      if Up(accts, i, t) in PathSet(accts, i, t - 1) {
        var m :| 0 <= m <= t - 1 && Up(accts, i, m) == Up(accts, i, t);
        PathDistinct(accts, i, k, m, t);
      }
    }
  }

  /** The account ids of a table of `n` accounts. */
  function Below(n: nat): (r: set<nat>)
    ensures |r| == n
    ensures forall x: nat :: x in r <==> x < n
  {
    if n == 0 then {} else Below(n - 1) + {n - 1}
  }

  lemma {:induction false} SubsetCard(a: set<nat>, b: set<nat>)
    requires a <= b
    ensures |a| <= |b|
    decreases |b|
  {
    if a != {} {
      var x :| x in a;
      SubsetCard(a - {x}, b - {x});
    }
  }

  /** A walk that reaches a root passes every account at most once, so it takes fewer links
   *  than there are accounts. */
  lemma WalkShort(accts: seq<Account>, i: nat, fuel: nat)
    requires Walk(accts, i, fuel).Some?
    ensures Walk(accts, i, fuel).value < |accts|
  {
    var k := Walk(accts, i, fuel).value;
    WalkHops(accts, i, fuel);
    PathCard(accts, i, k, k);
    SubsetCard(PathSet(accts, i, k), Below(|accts|));
  }

  /** A walk needs no more fuel than the links it follows. */
  lemma {:induction false} WalkLessFuel(accts: seq<Account>, i: nat, fuel: nat, f: nat)
    requires Walk(accts, i, fuel).Some? && Walk(accts, i, fuel).value <= f
    ensures Walk(accts, i, f) == Walk(accts, i, fuel)
    decreases fuel
  {
    if accts[i].parent.Some? {
      WalkLessFuel(accts, accts[i].parent.value, fuel - 1, f - 1);
    }
  }

  /** Walking from any account reaches a root: the parent links contain no cycle. */
  predicate Acyclic(accts: seq<Account>)
  {
    forall i :: 0 <= i < |accts| ==> Walk(accts, i, |accts|).Some?
  }

  predicate WellFormed(accts: seq<Account>)
  {
    ParentsExist(accts) && Acyclic(accts)
  }

  /** Number of ancestors of account `i`. */
  function Depth(accts: seq<Account>, i: nat): (d: nat)
    requires WellFormed(accts) && i < |accts|
    ensures d <= |accts|
  {
    Walk(accts, i, |accts|).value
  }

  /** More fuel never changes a walk that already succeeded. */
  lemma {:induction false} WalkMoreFuel(accts: seq<Account>, i: nat, f: nat, g: nat)
    requires f <= g && Walk(accts, i, f).Some?
    ensures Walk(accts, i, g) == Walk(accts, i, f)
    decreases f
  {
    if accts[i].parent.Some? {
      WalkMoreFuel(accts, accts[i].parent.value, f - 1, g - 1);
    }
  }

  lemma {:induction false} WalkAppend(accts: seq<Account>, a: Account, i: nat, f: nat)
    requires ParentsExist(accts) && i < |accts|
    ensures Walk(accts + [a], i, f) == Walk(accts, i, f)
    decreases f
  {
    assert (accts + [a])[i] == accts[i];
    if accts[i].parent.Some? && f > 0 {
      WalkAppend(accts, a, accts[i].parent.value, f - 1);
    }
  }

  /** A new account whose parent already exists keeps the forest well formed,
   *  and leaves the depth of every existing account as it was. */
  lemma AppendWellFormed(accts: seq<Account>, a: Account)
    requires WellFormed(accts)
    requires a.parent.Some? ==> a.parent.value < |accts|
    ensures WellFormed(accts + [a])
    ensures forall i :: 0 <= i < |accts| ==> Depth(accts + [a], i) == Depth(accts, i)
  {
    var n := |accts|;
    var b := accts + [a];
    forall i | 0 <= i < n
      ensures Walk(b, i, n + 1) == Walk(accts, i, n)
    {
      WalkAppend(accts, a, i, n + 1);
      WalkMoreFuel(accts, i, n, n + 1);
    }
    if a.parent.Some? {
      assert Walk(b, a.parent.value, n) == Walk(accts, a.parent.value, n) by {
        WalkAppend(accts, a, a.parent.value, n);
      }
    }
    assert b[n] == a;
    assert Walk(b, n, n + 1).Some?;
    assert |b| == n + 1;
    forall i | 0 <= i < |b|
      ensures Walk(b, i, |b|).Some?
    {
      if i < n {
        assert Walk(accts, i, n).Some?;
      }
    }
  }

  /** A child sits exactly one level below its parent. */
  lemma DepthOfChild(accts: seq<Account>, i: nat)
    requires WellFormed(accts) && i < |accts| && accts[i].parent.Some?
    ensures Depth(accts, i) >= 1
    ensures Depth(accts, accts[i].parent.value) == Depth(accts, i) - 1
  {
    var p := accts[i].parent.value;
    var n := |accts|;
    assert Walk(accts, i, n).Some?;
    assert Walk(accts, p, n - 1).Some?;
    WalkMoreFuel(accts, p, n - 1, n);
  }

  /** Roots have depth 0. */
  lemma DepthOfRoot(accts: seq<Account>, i: nat)
    requires WellFormed(accts) && i < |accts| && accts[i].parent.None?
    ensures Depth(accts, i) == 0
  {
  }

  /** `j` is `i` or lies below `i` (the accounts `recalculate_tree_balances` on `i` visits). */
  ghost predicate Descends(accts: seq<Account>, j: nat, i: nat)
    requires WellFormed(accts) && j < |accts|
    decreases Depth(accts, j)
  {
    j == i ||
    (accts[j].parent.Some? &&
      (DepthOfChild(accts, j); Descends(accts, accts[j].parent.value, i)))
  }

  /** Lying below an account means lying below one of its children. */
  ghost predicate ViaChild(accts: seq<Account>, j: nat, i: nat, c: nat)
    requires WellFormed(accts) && j < |accts|
  {
    c < |accts| && accts[c].parent == Some(i) && Descends(accts, j, c)
  }

  lemma {:induction false} DescendsTransitive(accts: seq<Account>, j: nat, c: nat, i: nat)
    requires WellFormed(accts) && j < |accts| && c < |accts|
    requires Descends(accts, j, c) && Descends(accts, c, i)
    ensures Descends(accts, j, i)
    decreases Depth(accts, j)
  {
    if j != c {
      DepthOfChild(accts, j);
      DescendsTransitive(accts, accts[j].parent.value, c, i);
    }
  }

  /** Any proper descendant of `i` descends from a child of `i`, and conversely. */
  lemma {:induction false} DescendsSplit(accts: seq<Account>, j: nat, i: nat)
    requires WellFormed(accts) && j < |accts|
    ensures Descends(accts, j, i) <==> (j == i || exists c :: ViaChild(accts, j, i, c))
    decreases Depth(accts, j)
  {
    if j != i && Descends(accts, j, i) {
      var p := accts[j].parent.value;
      DepthOfChild(accts, j);
      if p == i {
        assert ViaChild(accts, j, i, j);
      } else {
        DescendsSplit(accts, p, i);
        var c :| ViaChild(accts, p, i, c);
        assert Descends(accts, j, p);
        DescendsTransitive(accts, j, p, c);
        assert ViaChild(accts, j, i, c);
      }
    }
    if j != i && (exists c :: ViaChild(accts, j, i, c)) {
      var c :| ViaChild(accts, j, i, c);
      assert Descends(accts, c, i);
      DescendsTransitive(accts, j, c, i);
    }
  }

  /** A proper descendant is strictly deeper. */
  lemma {:induction false} DescendsDeeper(accts: seq<Account>, j: nat, i: nat)
    requires WellFormed(accts) && j < |accts| && i < |accts|
    requires Descends(accts, j, i) && j != i
    ensures Depth(accts, j) > Depth(accts, i)
    decreases Depth(accts, j)
  {
    DepthOfChild(accts, j);
    var p := accts[j].parent.value;
    if p != i {
      DescendsDeeper(accts, p, i);
    }
  }

  /** The root above account `j` (`j` itself when it has no parent). */
  function RootOf(accts: seq<Account>, j: nat): (r: nat)
    requires WellFormed(accts) && j < |accts|
    ensures r < |accts| && accts[r].parent.None?
    ensures Descends(accts, j, r)
    decreases Depth(accts, j)
  {
    match accts[j].parent
    case None => j
    case Some(p) =>
      DepthOfChild(accts, j);
      RootOf(accts, p)
  }

  /** `v[i]` plus the subtree sums of `i`'s children: the shape of `rollup_balance`. */
  function SubtreeSum(accts: seq<Account>, v: seq<Money>, i: nat): Money
    requires WellFormed(accts) && |v| == |accts| && i < |accts|
    decreases |accts| - Depth(accts, i), 1, 0
  {
    v[i] + ChildrenSum(accts, v, i, 0)
  }

  /** Sum of the subtree sums of the children of `i` with id at least `k`. */
  function ChildrenSum(accts: seq<Account>, v: seq<Money>, i: nat, k: nat): Money
    requires WellFormed(accts) && |v| == |accts| && i < |accts| && k <= |accts|
    decreases |accts| - Depth(accts, i), 0, |accts| - k
  {
    if k == |accts| then 0.0
    else
      (if accts[k].parent == Some(i) then (DepthOfChild(accts, k); SubtreeSum(accts, v, k)) else 0.0)
      + ChildrenSum(accts, v, i, k + 1)
  }

  function Plus(v: seq<Money>, w: seq<Money>): (r: seq<Money>)
    requires |v| == |w|
    ensures |r| == |v| && forall j :: 0 <= j < |v| ==> r[j] == v[j] + w[j]
  {
    seq(|v|, j requires 0 <= j < |v| => v[j] + w[j])
  }

  function Zero(n: nat): (r: seq<Money>)
    ensures |r| == n && forall j :: 0 <= j < n ==> r[j] == 0.0
  {
    seq(n, j => 0.0)
  }

  /** Subtree sums are linear in the per-account values. */
  lemma {:induction false} SubtreeSumPlus(accts: seq<Account>, v: seq<Money>, w: seq<Money>, i: nat)
    requires WellFormed(accts) && |v| == |accts| && |w| == |accts| && i < |accts|
    ensures SubtreeSum(accts, Plus(v, w), i) == SubtreeSum(accts, v, i) + SubtreeSum(accts, w, i)
    decreases |accts| - Depth(accts, i), 1, 0
  {
    ChildrenSumPlus(accts, v, w, i, 0);
  }

  lemma {:induction false} ChildrenSumPlus(accts: seq<Account>, v: seq<Money>, w: seq<Money>, i: nat, k: nat)
    requires WellFormed(accts) && |v| == |accts| && |w| == |accts| && i < |accts| && k <= |accts|
    ensures ChildrenSum(accts, Plus(v, w), i, k) == ChildrenSum(accts, v, i, k) + ChildrenSum(accts, w, i, k)
    decreases |accts| - Depth(accts, i), 0, |accts| - k
  {
    if k < |accts| {
      if accts[k].parent == Some(i) {
        DepthOfChild(accts, k);
        SubtreeSumPlus(accts, v, w, k);
      }
      ChildrenSumPlus(accts, v, w, i, k + 1);
    }
  }

  /** A forest whose accounts all carry zero sums to zero everywhere. */
  lemma {:induction false} SubtreeSumZero(accts: seq<Account>, i: nat)
    requires WellFormed(accts) && i < |accts|
    ensures SubtreeSum(accts, Zero(|accts|), i) == 0.0
    decreases |accts| - Depth(accts, i), 1, 0
  {
    ChildrenSumZero(accts, i, 0);
  }

  lemma {:induction false} ChildrenSumZero(accts: seq<Account>, i: nat, k: nat)
    requires WellFormed(accts) && i < |accts| && k <= |accts|
    ensures ChildrenSum(accts, Zero(|accts|), i, k) == 0.0
    decreases |accts| - Depth(accts, i), 0, |accts| - k
  {
    if k < |accts| {
      if accts[k].parent == Some(i) {
        DepthOfChild(accts, k);
        SubtreeSumZero(accts, k);
      }
      ChildrenSumZero(accts, i, k + 1);
    }
  }

  /** An account without children rolls up to its own value. */
  lemma {:induction false} LeafSubtree(accts: seq<Account>, v: seq<Money>, i: nat)
    requires WellFormed(accts) && |v| == |accts| && i < |accts|
    requires forall c :: 0 <= c < |accts| ==> accts[c].parent != Some(i)
    ensures SubtreeSum(accts, v, i) == v[i]
  {
    LeafChildren(accts, v, i, 0);
  }

  lemma {:induction false} LeafChildren(accts: seq<Account>, v: seq<Money>, i: nat, k: nat)
    requires WellFormed(accts) && |v| == |accts| && i < |accts| && k <= |accts|
    requires forall c :: 0 <= c < |accts| ==> accts[c].parent != Some(i)
    ensures ChildrenSum(accts, v, i, k) == 0.0
    decreases |accts| - k
  {
    if k < |accts| {
      LeafChildren(accts, v, i, k + 1);
    }
  }

  /** Own net balance of every account, from the journal. */
  function Nets(accts: seq<Account>, es: seq<Entry>): (r: seq<Money>)
    ensures |r| == |accts|
    ensures forall j :: 0 <= j < |accts| ==> r[j] == NetBalance(accts[j].accountType, es, j)
  {
    seq(|accts|, j requires 0 <= j < |accts| => NetBalance(accts[j].accountType, es, j))
  }

  /** `rollup_balance`: own net balance plus the rollups of all children. */
  function Rollup(accts: seq<Account>, es: seq<Entry>, i: nat): Money
    requires WellFormed(accts) && i < |accts|
  {
    SubtreeSum(accts, Nets(accts, es), i)
  }

  /** A childless account rolls up to exactly its own net balance. */
  lemma LeafRollup(accts: seq<Account>, es: seq<Entry>, i: nat)
    requires WellFormed(accts) && i < |accts|
    requires forall c :: 0 <= c < |accts| ==> accts[c].parent != Some(i)
    ensures Rollup(accts, es, i) == NetBalance(accts[i].accountType, es, i)
  {
    LeafSubtree(accts, Nets(accts, es), i);
  }

  /** Rollups are additive over the journal: appending entries adds their rollup. */
  lemma RollupConcat(accts: seq<Account>, es1: seq<Entry>, es2: seq<Entry>, i: nat)
    requires WellFormed(accts) && i < |accts|
    ensures Rollup(accts, es1 + es2, i) == Rollup(accts, es1, i) + Rollup(accts, es2, i)
  {
    var n1, n2 := Nets(accts, es1), Nets(accts, es2);
    forall j | 0 <= j < |accts|
      ensures Nets(accts, es1 + es2)[j] == Plus(n1, n2)[j]
    {
      NetConcat(accts[j].accountType, es1, es2, j);
    }
    assert Nets(accts, es1 + es2) == Plus(n1, n2);
    SubtreeSumPlus(accts, n1, n2, i);
  }

  /** A posted entry followed by its posted reversal leaves every rollup as it was. */
  lemma RollupReversal(accts: seq<Account>, es: seq<Entry>, e: Entry, r: Entry, i: nat)
    requires WellFormed(accts) && i < |accts|
    requires e.isPosted && r.isPosted && r.lines == Flip(e.lines)
    ensures Rollup(accts, es + [e, r], i) == Rollup(accts, es, i)
  {
    RollupConcat(accts, es, [e, r], i);
    forall j | 0 <= j < |accts|
      ensures Nets(accts, [e, r])[j] == 0.0
    {
      var t := accts[j].accountType;
      ReversalRestores(t, [], e, [], r, j);
      assert [] + [e] + [] + [r] == [e, r];
      assert NetBalance(t, [], j) == 0.0;
    }
    assert Nets(accts, [e, r]) == Zero(|accts|);
    SubtreeSumZero(accts, i);
  }
}
