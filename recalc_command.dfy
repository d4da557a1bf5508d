/** The `recalc_account_balances` management command
 *  (accounts/management/commands/recalc_account_balances.py): accounts are visited deepest
 *  first, so every account comes after all the accounts below it. */
module RecalcCommand {
  import opened Common
  import opened Journal
  import opened AccountTree

  /** `depth(a)`: the parent links followed upwards, counted. The walk ends only because the
   *  parent links have no cycle. */
  method DepthOf(accts: seq<Account>, i: nat) returns (d: nat)
    requires WellFormed(accts) && i < |accts|
    ensures d == Depth(accts, i)
    ensures accts[i].parent.None? ==> d == 0
    ensures accts[i].parent.Some? ==> d == Depth(accts, accts[i].parent.value) + 1
  {
    d := 0;
    var p := accts[i].parent;
    if p.Some? {
      DepthOfChild(accts, i);
    }
    while p.Some?
      invariant p.Some? ==> p.value < |accts| && d + 1 + Depth(accts, p.value) == Depth(accts, i)
      invariant p.None? ==> d == Depth(accts, i)
      decreases if p.Some? then Depth(accts, p.value) + 1 else 0
    {
      var q := p.value;
      if accts[q].parent.Some? {
        DepthOfChild(accts, q);
      }
      d := d + 1;
      p := accts[q].parent;
    }
  }

  /** The loop variable `p` of `depth(a)` for account `i` after `steps` turns of its
   *  `while p` loop, as written (no cycle check): `None` once the loop has stopped. */
  function DepthCursor(accts: seq<Account>, i: nat, steps: nat): Option<nat>
    requires i < |accts|
  {
    if steps == 0 then accts[i].parent
    else match DepthCursor(accts, i, steps - 1)
      case None => None
      case Some(q) => if q < |accts| then accts[q].parent else None
  }

  /** The accounts among the first `n` whose depth is `d`, in listing order. */
  function Level(accts: seq<Account>, d: nat, n: nat): (r: seq<nat>)
    requires WellFormed(accts) && n <= |accts|
    ensures forall x :: 0 <= x < |r| ==> r[x] < n && Depth(accts, r[x]) == d
    ensures forall i :: 0 <= i < n && Depth(accts, i) == d ==> i in r
    ensures forall x, y :: 0 <= x < y < |r| ==> r[x] < r[y]
  {
    if n == 0 then [] else Level(accts, d, n - 1) + (if Depth(accts, n - 1) == d then [n - 1] else [])
  }

  /** The accounts whose depth is at most `d`, deepest first; within a depth, in listing order. */
  function DeepestFirst(accts: seq<Account>, d: nat): (r: seq<nat>)
    requires WellFormed(accts)
    ensures forall x :: 0 <= x < |r| ==> r[x] < |accts| && Depth(accts, r[x]) <= d
    ensures forall i :: 0 <= i < |accts| && Depth(accts, i) <= d ==> i in r
    ensures forall x, y :: 0 <= x < y < |r| ==> Depth(accts, r[x]) >= Depth(accts, r[y])
    ensures forall x, y :: 0 <= x < y < |r| && Depth(accts, r[x]) == Depth(accts, r[y]) ==> r[x] < r[y]
  {
    if d == 0 then Level(accts, 0, |accts|) else Level(accts, d, |accts|) + DeepestFirst(accts, d - 1)
  }

  /** `sorted(accs, key=depth, reverse=True)`: a stable sort, so accounts of equal depth keep
   *  their listing order. Every account appears exactly once. */
  function ProcessingOrder(accts: seq<Account>): (order: seq<nat>)
    requires WellFormed(accts)
    ensures forall x :: 0 <= x < |order| ==> order[x] < |accts|
    ensures forall i :: 0 <= i < |accts| <==> i in order
    ensures forall x, y :: 0 <= x < y < |order| ==> order[x] != order[y]
    ensures forall x, y :: 0 <= x < y < |order| ==> Depth(accts, order[x]) >= Depth(accts, order[y])
  {
    DeepestFirst(accts, |accts|)
  }

  /** Every account is processed after all the accounts below it. */
  lemma DescendantsFirst(accts: seq<Account>, x: nat, y: nat)
    requires WellFormed(accts) && x < |ProcessingOrder(accts)| && y < |ProcessingOrder(accts)|
    requires var order := ProcessingOrder(accts);
      order[y] != order[x] && Descends(accts, order[y], order[x])
    ensures y < x
  {
    var order := ProcessingOrder(accts);
    DescendsDeeper(accts, order[y], order[x]);
  }
}
