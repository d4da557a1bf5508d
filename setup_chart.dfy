/** The `setup_chart_of_accounts` management command
 *  (accounts/management/commands/setup_chart_of_accounts.py): the basic chart of accounts,
 *  created row by row, each child under its parent, without touching what already exists. */
module SetupChart {
  import opened Common
  import opened Journal
  import opened AccountTree
  import opened Books

  /** One row of the command's table: code, type and the parent's code (the English and
   *  Arabic names are left out). */
  datatype ChartRow = ChartRow(code: string, accountType: AccountType, parentCode: Option<string>)

  const ChartTable: seq<ChartRow> := [
    ChartRow("1000", Asset, None),
    ChartRow("1200", Asset, Some("1000")),
    ChartRow("1211", Asset, Some("1200")),
    ChartRow("1251", Asset, Some("1200")),
    ChartRow("1300", Asset, Some("1200")),
    ChartRow("2000", Liability, None),
    ChartRow("2100", Liability, Some("2000")),
    ChartRow("2101", Liability, Some("2100")),
    ChartRow("3000", Equity, None),
    ChartRow("3100", Equity, Some("3000")),
    ChartRow("4000", Revenue, None),
    ChartRow("4100", Revenue, Some("4000")),
    ChartRow("5000", Expense, None),
    ChartRow("5100", Expense, Some("5000")),
    ChartRow("5110", Expense, Some("5000")),
    ChartRow("5200", Expense, Some("5000")),
    ChartRow("5300", Expense, Some("5000")),
    ChartRow("5400", Expense, Some("5000")),
    ChartRow("5500", Expense, Some("5000")),
    ChartRow("5600", Expense, Some("5000")),
    ChartRow("5900", Expense, Some("5000"))
  ]

  /** Every row naming a parent comes after a row for that parent, of the same type. */
  predicate ParentsFirst(rows: seq<ChartRow>)
  {
    forall k :: 0 <= k < |rows| && rows[k].parentCode.Some? ==>
      exists m :: 0 <= m < k && rows[m].code == rows[k].parentCode.value && rows[m].accountType == rows[k].accountType
  }

  predicate DistinctCodes(rows: seq<ChartRow>)
  {
    forall k, m :: 0 <= k < m < |rows| ==> rows[k].code != rows[m].code
  }

  /** The table lists every parent before its children and with their type. */
  lemma ChartTableParentsFirst()
    ensures ParentsFirst(ChartTable)
  {
    var t := ChartTable;
    forall k | 0 <= k < |t| && t[k].parentCode.Some?
      ensures exists m :: 0 <= m < k && t[m].code == t[k].parentCode.value && t[m].accountType == t[k].accountType
    {
      ParentRowAt(k);
    }
  }

  /** Where row `k`'s parent sits in the table. */
  function ParentRow(k: nat): nat
  {
    if k <= 4 then (if k == 1 then 0 else 1)
    else if k <= 7 then (if k == 6 then 5 else 6)
    else if k <= 9 then 8
    else if k <= 11 then 10
    else 12
  }

  /** Row `k` finds its parent earlier in the table, of the same type. */
  lemma ParentRowAt(k: nat)
    requires k < |ChartTable| && ChartTable[k].parentCode.Some?
    ensures ParentRow(k) < k && ChartTable[ParentRow(k)].code == ChartTable[k].parentCode.value
    ensures ChartTable[ParentRow(k)].accountType == ChartTable[k].accountType
  {
  }

  /** `a` sorts before `b`, both being four-character codes. */
  predicate CodeBefore(a: string, b: string)
  {
    |a| == 4 && |b| == 4 &&
    (a[0] < b[0] || (a[0] == b[0] && (a[1] < b[1] || (a[1] == b[1] && (a[2] < b[2] || (a[2] == b[2] && a[3] < b[3]))))))
  }

  /** Codes sorted row to row are sorted between any two rows. */
  lemma {:induction false} SortedBefore(rows: seq<ChartRow>, k: nat, m: nat)
    requires forall x :: 0 <= x < |rows| - 1 ==> CodeBefore(rows[x].code, rows[x + 1].code)
    requires k < m < |rows|
    ensures CodeBefore(rows[k].code, rows[m].code)
    decreases m - k
  {
    if k + 1 < m {
      SortedBefore(rows, k, m - 1);
    }
  }

  /** Rows `lo` to `hi` of the table are in ascending code order. */
  lemma SortedRows(lo: nat, hi: nat)
    requires lo <= hi < |ChartTable| && hi - lo <= 7
    ensures forall x :: lo <= x < hi ==> CodeBefore(ChartTable[x].code, ChartTable[x + 1].code)
  {
  }

  /** The table lists each code once: its codes are in ascending order. */
  lemma ChartTableDistinct()
    ensures DistinctCodes(ChartTable) && |ChartTable| == 21
  {
    var t := ChartTable;
    SortedRows(0, 7);
    SortedRows(7, 14);
    SortedRows(14, 20);
    forall k, m | 0 <= k < m < |t|
      ensures t[k].code != t[m].code
    {
      SortedBefore(t, k, m);
    }
  }

  /** One row: skipped when its parent code is not an account; otherwise the account is fetched
   *  or created under that parent. */
  function AddRow(accts: seq<Account>, row: ChartRow): (r: seq<Account>)
    ensures accts <= r && |r| <= |accts| + 1
    ensures row.parentCode.Some? && !HasCode(accts, row.parentCode.value) ==> r == accts
    ensures row.parentCode.None? || HasCode(accts, row.parentCode.value) ==> HasCode(r, row.code)
    ensures HasCode(accts, row.code) ==> r == accts
    ensures |r| == |accts| + 1 ==> r[|accts|].code == row.code && r[|accts|].accountType == row.accountType
    ensures forall c :: HasCode(r, c) ==> HasCode(accts, c) || c == row.code
  {
    var parent := match row.parentCode
      case None => None
      case Some(pc) => if HasCode(accts, pc) then Some(IndexOf(accts, pc)) else None;
    if row.parentCode.Some? && parent.None? then accts
    else
      var r := AfterGetOrCreate(accts, row.code, row.accountType, parent);
      assert !HasCode(accts, row.code) ==> r[|accts|].code == row.code;
      assert forall j :: 0 <= j < |accts| ==> r[j] == accts[j];
      r
  }

  /** The account table after the rows, in order. */
  function AfterRows(accts: seq<Account>, rows: seq<ChartRow>): (r: seq<Account>)
    ensures accts <= r
  {
    if rows == [] then accts else AddRow(AfterRows(accts, rows[..|rows| - 1]), rows[|rows| - 1])
  }

  /** Only codes of the rows are added. */
  lemma {:induction false} AfterRowsCodes(accts: seq<Account>, rows: seq<ChartRow>, c: string)
    ensures HasCode(AfterRows(accts, rows), c) ==> HasCode(accts, c) || exists m :: 0 <= m < |rows| && rows[m].code == c
  {
    if rows != [] && HasCode(AfterRows(accts, rows), c) {
      var init := rows[..|rows| - 1];
      if HasCode(AfterRows(accts, init), c) {
        AfterRowsCodes(accts, init, c);
        if !HasCode(accts, c) {
          var m :| 0 <= m < |init| && init[m].code == c;
          assert rows[m].code == c;
        }
      }
    }
  }

  lemma ParentsFirstPrefix(rows: seq<ChartRow>, n: nat)
    requires ParentsFirst(rows) && n <= |rows|
    ensures ParentsFirst(rows[..n])
  {
    var init := rows[..n];
    forall k | 0 <= k < |init| && init[k].parentCode.Some?
      ensures exists m :: 0 <= m < k && init[m].code == init[k].parentCode.value && init[m].accountType == init[k].accountType
    {
      var m :| 0 <= m < k && rows[m].code == rows[k].parentCode.value && rows[m].accountType == rows[k].accountType;
      assert init[m] == rows[m];
    }
  }

  /** A code present stays present when accounts are appended. */
  lemma CodeStays(accts: seq<Account>, after: seq<Account>, c: string)
    requires accts <= after && HasCode(accts, c)
    ensures HasCode(after, c)
  {
    var j :| 0 <= j < |accts| && accts[j].code == c;
    assert after[j] == accts[j];
  }

  /** With parents listed first, no row is skipped, whatever already exists. */
  lemma {:induction false} NoRowSkipped(accts: seq<Account>, rows: seq<ChartRow>)
    requires ParentsFirst(rows)
    ensures forall k :: 0 <= k < |rows| ==> HasCode(AfterRows(accts, rows), rows[k].code)
  {
    if rows != [] {
      var n := |rows| - 1;
      var init := rows[..n];
      ParentsFirstPrefix(rows, n);
      NoRowSkipped(accts, init);
      var mid := AfterRows(accts, init);
      var after := AddRow(mid, rows[n]);
      assert AfterRows(accts, rows) == after;
      forall k | 0 <= k < n ensures HasCode(mid, rows[k].code) {
        assert init[k] == rows[k];
      }
      LastRowAdded(mid, rows);
      forall k | 0 <= k < n ensures HasCode(after, rows[k].code) {
        CodeStays(mid, after, rows[k].code);
      }
    }
  }

  /** The last row is added once every earlier row's code exists. */
  lemma LastRowAdded(mid: seq<Account>, rows: seq<ChartRow>)
    requires ParentsFirst(rows) && |rows| > 0
    requires forall k :: 0 <= k < |rows| - 1 ==> HasCode(mid, rows[k].code)
    ensures HasCode(AddRow(mid, rows[|rows| - 1]), rows[|rows| - 1].code)
  {
    var n := |rows| - 1;
    if rows[n].parentCode.Some? {
      var m :| 0 <= m < n && rows[m].code == rows[n].parentCode.value && rows[m].accountType == rows[n].accountType;
      assert HasCode(mid, rows[m].code);
    }
  }

  /** Rows whose codes are all new and distinct, listed parents first, each add one account. */
  lemma {:induction false} AllRowsCreated(accts: seq<Account>, rows: seq<ChartRow>)
    requires ParentsFirst(rows) && DistinctCodes(rows)
    requires forall k :: 0 <= k < |rows| ==> !HasCode(accts, rows[k].code)
    ensures |AfterRows(accts, rows)| == |accts| + |rows|
  {
    if rows != [] {
      var n := |rows| - 1;
      var init := rows[..n];
      NoRowSkipped(accts, rows);
      ParentsFirstPrefix(rows, n);
      AllRowsCreated(accts, init);
      AfterRowsCodes(accts, init, rows[n].code);
      assert HasCode(AfterRows(accts, rows), rows[n].code);
    }
  }

  /** When every code of the rows exists, the rows change nothing. */
  lemma {:induction false} NothingToCreate(accts: seq<Account>, rows: seq<ChartRow>)
    requires forall k :: 0 <= k < |rows| ==> HasCode(accts, rows[k].code)
    ensures AfterRows(accts, rows) == accts
  {
    if rows != [] {
      NothingToCreate(accts, rows[..|rows| - 1]);
    }
  }

  /** Running the command twice: the second run finds every code and creates nothing. */
  lemma SetupTwice(accts: seq<Account>)
    ensures AfterRows(AfterRows(accts, ChartTable), ChartTable) == AfterRows(accts, ChartTable)
  {
    ChartTableParentsFirst();
    NoRowSkipped(accts, ChartTable);
    NothingToCreate(AfterRows(accts, ChartTable), ChartTable);
  }

  /** On an empty account table every row is created. */
  lemma SetupOnEmpty()
    ensures |AfterRows([], ChartTable)| == 21
    ensures forall k :: 0 <= k < |ChartTable| ==> HasCode(AfterRows([], ChartTable), ChartTable[k].code)
  {
    ChartTableParentsFirst();
    ChartTableDistinct();
    NoRowSkipped([], ChartTable);
    AllRowsCreated([], ChartTable);
  }

  /** `Command.handle`: the table's rows in order, counting the accounts created. */
  method Setup(l: Ledger) returns (created: nat)
    requires l.Valid()
    modifies l`accounts, l`balances
    ensures l.Valid()
    ensures l.accounts == AfterRows(old(l.accounts), ChartTable)
    ensures created == |l.accounts| - |old(l.accounts)|
    ensures old(l.CacheConsistent()) ==> l.CacheConsistent()
  {
    created := AddRows(l, ChartTable);
  }

  /** The loop of `Command.handle` over `rows`. */
  method AddRows(l: Ledger, rows: seq<ChartRow>) returns (created: nat)
    requires l.Valid()
    modifies l`accounts, l`balances
    ensures l.Valid()
    ensures l.accounts == AfterRows(old(l.accounts), rows)
    ensures created == |l.accounts| - |old(l.accounts)|
    ensures old(l.CacheConsistent()) ==> l.CacheConsistent()
  {
    created := 0;
    var k := 0;
    while k < |rows|
      invariant 0 <= k <= |rows| && l.Valid()
      invariant l.accounts == AfterRows(old(l.accounts), rows[..k])
      invariant created == |l.accounts| - |old(l.accounts)|
      invariant old(l.CacheConsistent()) ==> l.CacheConsistent()
    {
      assert rows[..k + 1][..k] == rows[..k] && rows[..k + 1][k] == rows[k];
      var added := AddRowTo(l, rows[k]);
      created := created + added;
      k := k + 1;
    }
    assert rows[..k] == rows;
  }

  /** One iteration of `Command.handle`: a row whose parent code is missing is skipped;
   *  otherwise the account is fetched or created under the parent. */
  method AddRowTo(l: Ledger, row: ChartRow) returns (added: nat)
    requires l.Valid()
    modifies l`accounts, l`balances
    ensures l.Valid()
    ensures l.accounts == AddRow(old(l.accounts), row)
    ensures added == |l.accounts| - |old(l.accounts)|
    ensures old(l.CacheConsistent()) ==> l.CacheConsistent()
  {
    added := 0;
    if row.parentCode.None? || HasCode(l.accounts, row.parentCode.value) {
      var parent := None;
      if row.parentCode.Some? {
        parent := Some(IndexOf(l.accounts, row.parentCode.value));
      }
      var before := |l.accounts|;
      var i := l.GetOrCreate(row.code, row.accountType, parent);
      if |l.accounts| > before {
        added := 1;
      }
    }
  }
}
