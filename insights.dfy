/** The controller's own queries over a ledger snapshot: the top-5 rankings
    of the insights page, the entity-by-month tables of the summary page, and
    the budget summary restricted to the latest month. */
module Insights {
  import opened Ledger
  import opened Aggregation
  import opened Summaries

  // ---------------------------------------------------------------------
  // groupby(key)["Amount"].sum().sort_values(ascending=False).head(n)

  /** The `n` largest group totals by `key`, largest first. Every entry is a
      key that occurs with its group total, there are as many entries as
      there are keys (up to `n`), and a key left out totals no more than any
      key shown. */
  function Ranking<K(==)>(rows: seq<Row>, key: Row -> K, n: nat): (r: seq<(K, real)>)
    ensures |r| == if |KeySet(rows, key)| < n then |KeySet(rows, key)| else n
    ensures NonIncreasing(r) && DistinctKeys(r)
    ensures forall i :: 0 <= i < |r| ==> r[i].0 in KeySet(rows, key) && r[i].1 == GroupTotal(rows, key, r[i].0)
    ensures forall k, j :: k in KeySet(rows, key) && k !in Keys(r) && 0 <= j < |r| ==> GroupTotal(rows, key, k) <= r[j].1
  {
    var g := Groups(rows, key);
    RankingOfGrouping(g, rows, key, n);
    TopN(g, n)
  }

  /** The top `n` of any groupby-sum of `rows` by `key`. */
  lemma RankingOfGrouping<K>(g: seq<(K, real)>, rows: seq<Row>, key: Row -> K, n: nat)
    requires IsGrouping(g, rows, key)
    ensures |TopN(g, n)| == if |KeySet(rows, key)| < n then |KeySet(rows, key)| else n
    ensures NonIncreasing(TopN(g, n)) && DistinctKeys(TopN(g, n))
    ensures forall i :: 0 <= i < |TopN(g, n)| ==>
              TopN(g, n)[i].0 in KeySet(rows, key) && TopN(g, n)[i].1 == GroupTotal(rows, key, TopN(g, n)[i].0)
    ensures forall k, j :: k in KeySet(rows, key) && k !in Keys(TopN(g, n)) && 0 <= j < |TopN(g, n)| ==>
              GroupTotal(rows, key, k) <= TopN(g, n)[j].1
  {
    var r := TopN(g, n);
    DistinctKeysCount(g);
    TopNDistinct(g, n);
    TopNEntries(g, n);
    forall i | 0 <= i < |r| ensures r[i].0 in KeySet(rows, key) && r[i].1 == GroupTotal(rows, key, r[i].0) {
      var p :| 0 <= p < |g| && g[p] == r[i];
    }
    forall k | k in KeySet(rows, key) && k !in Keys(r)
      ensures forall j :: 0 <= j < |r| ==> GroupTotal(rows, key, k) <= r[j].1
    {
      TopNOmitted(g, n, k);
    }
  }

  /** show_top_categories_chart: the five categories with the largest totals. */
  function TopCategories(rows: seq<Row>): (r: seq<(string, real)>)
    ensures |r| <= 5 && NonIncreasing(r) && DistinctKeys(r)
    ensures forall i :: 0 <= i < |r| ==> r[i].0 in KeySet(rows, CategoryOf) && r[i].1 == GroupTotal(rows, CategoryOf, r[i].0)
  {
    Ranking(rows, CategoryOf, 5)
  }

  /** show_high_expense_days_table: the five dates with the largest totals,
      grouped by the exact date. */
  function HighExpenseDays(rows: seq<Row>): (r: seq<(Date, real)>)
    ensures |r| <= 5 && NonIncreasing(r) && DistinctKeys(r)
    ensures forall i :: 0 <= i < |r| ==> r[i].0 in KeySet(rows, DateOf) && r[i].1 == GroupTotal(rows, DateOf, r[i].0)
  {
    Ranking(rows, DateOf, 5)
  }

  /** A ledger with at least five categories shows exactly five, and a
      category that is not shown spent no more than the fifth one shown. */
  lemma TopCategoriesDominate(rows: seq<Row>, c: string)
    requires |KeySet(rows, CategoryOf)| >= 5
    requires c in KeySet(rows, CategoryOf) && c !in Keys(TopCategories(rows))
    ensures |TopCategories(rows)| == 5
    ensures GroupTotal(rows, CategoryOf, c) <= TopCategories(rows)[4].1
  {
    var r := Ranking(rows, CategoryOf, 5);
    assert r == TopCategories(rows);
  }

  /** With at most five dates, every date appears in the table. */
  lemma HighExpenseDaysCoverFewDates(rows: seq<Row>, d: Date)
    requires |KeySet(rows, DateOf)| <= 5
    requires d in KeySet(rows, DateOf)
    ensures d in Keys(HighExpenseDays(rows))
  {
    var r := Ranking(rows, DateOf, 5);
    assert r == HighExpenseDays(rows);
    DistinctKeysCount(r);
    var shown, all := Keys(r), KeySet(rows, DateOf);
    assert shown <= all;
    assert |all - shown| == |all| - |shown| == 0;
  }

  // ---------------------------------------------------------------------
  // groupby([entity, Date.to_period("M")]).sum().unstack(fill_value=0)

  /** show_category_table: one cell per category and month that occur, the
      sum of that category's rows in that month (0 when there are none). */
  function CategoryByMonth(rows: seq<Row>): (t: map<(string, Month), real>)
    ensures forall p :: p in t <==> p.0 in KeySet(rows, CategoryOf) && p.1 in KeySet(rows, MonthOfRow)
    ensures forall p :: p in t ==> t[p] == CellTotal(rows, CategoryOf, MonthOfRow, p.0, p.1)
  {
    CrossTab(rows, CategoryOf, MonthOfRow)
  }

  /** show_spender_table. */
  function SpenderByMonth(rows: seq<Row>): (t: map<(string, Month), real>)
    ensures forall p :: p in t <==> p.0 in KeySet(rows, SpenderOf) && p.1 in KeySet(rows, MonthOfRow)
    ensures forall p :: p in t ==> t[p] == CellTotal(rows, SpenderOf, MonthOfRow, p.0, p.1)
  {
    CrossTab(rows, SpenderOf, MonthOfRow)
  }

  /** show_card_table. */
  function CardByMonth(rows: seq<Row>): (t: map<(string, Month), real>)
    ensures forall p :: p in t <==> p.0 in KeySet(rows, SourceOf) && p.1 in KeySet(rows, MonthOfRow)
    ensures forall p :: p in t ==> t[p] == CellTotal(rows, SourceOf, MonthOfRow, p.0, p.1)
  {
    CrossTab(rows, SourceOf, MonthOfRow)
  }

  /** The controller's entity-by-month tables are the transposes of the
      model's month-by-entity cross-tabs: the same cells with the same sums. */
  lemma EntityTablesTransposeMonthly(rows: seq<Row>, e: string, m: Month)
    ensures (e, m) in CategoryByMonth(rows) <==> (m, e) in MonthlyCategoryExpenses(rows)
    ensures (e, m) in CategoryByMonth(rows) ==> CategoryByMonth(rows)[(e, m)] == MonthlyCategoryExpenses(rows)[(m, e)]
    ensures (e, m) in SpenderByMonth(rows) <==> (m, e) in MonthlySpenderExpenses(rows)
    ensures (e, m) in SpenderByMonth(rows) ==> SpenderByMonth(rows)[(e, m)] == MonthlySpenderExpenses(rows)[(m, e)]
    ensures (e, m) in CardByMonth(rows) <==> (m, e) in MonthlyCardExpenses(rows)
    ensures (e, m) in CardByMonth(rows) ==> CardByMonth(rows)[(e, m)] == MonthlyCardExpenses(rows)[(m, e)]
  {
    CrossTabTranspose(rows, CategoryOf, MonthOfRow, e, m);
    CrossTabTranspose(rows, SpenderOf, MonthOfRow, e, m);
    CrossTabTranspose(rows, SourceOf, MonthOfRow, e, m);
  }

  // ---------------------------------------------------------------------
  // show_budget_summary: the rows of the latest month only

  /** The latest month that has rows (the maximum Period of the Date column);
      none for an empty ledger. */
  function LatestMonth(rows: seq<Row>): (r: Option<Month>)
    ensures r.None? <==> rows == []
    ensures r.Some? ==> r.value in KeySet(rows, MonthOfRow)
    ensures r.Some? ==> forall i :: 0 <= i < |rows| ==> !Before(r.value, MonthOfRow(rows[i]))
  {
    if rows == [] then None
    else
      var p := rows[..|rows| - 1];
      var x := rows[|rows| - 1];
      SnocPrefix(p, x);
      KeySetSnoc(p, x, MonthOfRow);
      assert rows == p + [x];
      match LatestMonth(p)
      case None => Some(MonthOfRow(x))
      case Some(q) => if Before(q, MonthOfRow(x)) then Some(MonthOfRow(x)) else Some(q)
  }

  /** The rows whose month is `m`, in ledger order, each as often as the
      ledger holds it. */
  function RowsInMonth(rows: seq<Row>, m: Month): (r: seq<Row>)
    ensures forall x :: x in r <==> x in rows && MonthOfRow(x) == m
  {
    if rows == [] then []
    else
      var p := rows[..|rows| - 1];
      var x := rows[|rows| - 1];
      assert rows == p + [x];
      if MonthOfRow(x) == m then RowsInMonth(p, m) + [x] else RowsInMonth(p, m)
  }

  /** Each row of month `m` is kept as often as the ledger holds it, and no
      other row is kept. */
  lemma {:induction false} RowsInMonthCounts(rows: seq<Row>, m: Month)
    ensures forall x :: multiset(RowsInMonth(rows, m))[x] == if MonthOfRow(x) == m then multiset(rows)[x] else 0
  {
    if rows != [] {
      var p, x := rows[..|rows| - 1], rows[|rows| - 1];
      RowsInMonthCounts(p, m);
      assert rows == p + [x];
      assert multiset(rows) == multiset(p) + multiset{x};
    }
  }

  /** `idx` lists, in increasing order, exactly the positions of the rows of
      month `m`, and `r` holds the rows at those positions. */
  ghost predicate SelectsMonthPositions(idx: seq<int>, r: seq<Row>, rows: seq<Row>, m: Month) {
    && |idx| == |r|
    && (forall i :: 0 <= i < |idx| ==> 0 <= idx[i] < |rows| && r[i] == rows[idx[i]])
    && (forall i, j :: 0 <= i < j < |idx| ==> idx[i] < idx[j])
    && (forall k :: 0 <= k < |rows| ==> (k in idx <==> MonthOfRow(rows[k]) == m))
  }

  /** The boolean-mask filter keeps the rows of month `m` in ledger order:
      the result is the ledger read at the positions of those rows. */
  lemma {:induction false} RowsInMonthPositions(rows: seq<Row>, m: Month)
    ensures exists idx :: SelectsMonthPositions(idx, RowsInMonth(rows, m), rows, m)
  {
    if rows == [] {
      assert SelectsMonthPositions([], RowsInMonth(rows, m), rows, m);
    } else {
      var p, x := rows[..|rows| - 1], rows[|rows| - 1];
      assert rows == p + [x];
      RowsInMonthPositions(p, m);
      var ip :| SelectsMonthPositions(ip, RowsInMonth(p, m), p, m);
      if MonthOfRow(x) == m {
        PositionsKeepLast(ip, RowsInMonth(p, m), p, x, m);
        assert RowsInMonth(rows, m) == RowsInMonth(p, m) + [x];
        assert SelectsMonthPositions(ip + [|p|], RowsInMonth(rows, m), rows, m);
      } else {
        PositionsSkipLast(ip, RowsInMonth(p, m), p, x, m);
        assert RowsInMonth(rows, m) == RowsInMonth(p, m);
        assert SelectsMonthPositions(ip, RowsInMonth(rows, m), rows, m);
      }
    }
  }

  lemma PositionsKeepLast(ip: seq<int>, r: seq<Row>, p: seq<Row>, x: Row, m: Month)
    requires SelectsMonthPositions(ip, r, p, m) && MonthOfRow(x) == m
    ensures SelectsMonthPositions(ip + [|p|], r + [x], p + [x], m)
  {
    var idx, rows := ip + [|p|], p + [x];
    forall k | 0 <= k < |rows| ensures (k in idx <==> MonthOfRow(rows[k]) == m) {
      if k < |p| {
        assert rows[k] == p[k];
        assert k in idx <==> k in ip;
      }
    }
    forall i | 0 <= i < |idx| ensures 0 <= idx[i] < |rows| && (r + [x])[i] == rows[idx[i]] {
      if i < |ip| {
        assert idx[i] == ip[i] && (r + [x])[i] == r[i];
      }
    }
  }

  lemma PositionsSkipLast(ip: seq<int>, r: seq<Row>, p: seq<Row>, x: Row, m: Month)
    requires SelectsMonthPositions(ip, r, p, m) && MonthOfRow(x) != m
    ensures SelectsMonthPositions(ip, r, p + [x], m)
  {
    var rows := p + [x];
    forall k | 0 <= k < |rows| ensures (k in ip <==> MonthOfRow(rows[k]) == m) {
      if k < |p| {
        assert rows[k] == p[k];
      }
    }
  }

  /** The rows of month `m` add up to that month's total. */
  lemma {:induction false} RowsInMonthTotal(rows: seq<Row>, m: Month)
    ensures Total(RowsInMonth(rows, m)) == GroupTotal(rows, MonthOfRow, m)
  {
    if rows != [] {
      var p, x := rows[..|rows| - 1], rows[|rows| - 1];
      RowsInMonthTotal(p, m);
      if MonthOfRow(x) == m {
        SnocPrefix(RowsInMonth(p, m), x);
      }
    }
  }

  /** Within the rows of month `m`, a category's total is its cell of
      month `m` in the month-by-category table. */
  lemma {:induction false} RowsInMonthCell(rows: seq<Row>, m: Month, c: string)
    ensures GroupTotal(RowsInMonth(rows, m), CategoryOf, c) == CellTotal(rows, MonthOfRow, CategoryOf, m, c)
  {
    if rows != [] {
      var p, x := rows[..|rows| - 1], rows[|rows| - 1];
      RowsInMonthCell(p, m, c);
      if MonthOfRow(x) == m {
        SnocPrefix(RowsInMonth(p, m), x);
      }
    }
  }

  /** show_budget_summary: the runtime budget summary over the latest
      month's rows, so each Used is that category's cell of the latest month
      (0 for an empty ledger). */
  function LatestMonthBudgetSummary(rows: seq<Row>, budgetLimits: Option<map<string, real>>): (s: map<string, BudgetLine>)
    ensures budgetLimits.None? ==> s == map[]
    ensures budgetLimits.Some? ==> s.Keys == budgetLimits.value.Keys
    ensures budgetLimits.Some? && rows == [] ==> forall c :: c in s ==> s[c] == BudgetLine(0.0, budgetLimits.value[c])
    ensures budgetLimits.Some? && rows != [] ==> forall c :: c in s ==>
              s[c] == BudgetLine(CellTotal(rows, MonthOfRow, CategoryOf, LatestMonth(rows).value, c), budgetLimits.value[c])
  {
    match LatestMonth(rows)
    case None => BudgetSummary([], budgetLimits)
    case Some(m) =>
      forall c ensures GroupTotal(RowsInMonth(rows, m), CategoryOf, c) == CellTotal(rows, MonthOfRow, CategoryOf, m, c) {
        RowsInMonthCell(rows, m, c);
      }
      BudgetSummary(RowsInMonth(rows, m), budgetLimits)
  }

  /** When every row falls in one month the restriction keeps every row. */
  lemma {:induction false} RowsOfOnlyMonth(rows: seq<Row>, m: Month)
    requires forall i :: 0 <= i < |rows| ==> MonthOfRow(rows[i]) == m
    ensures RowsInMonth(rows, m) == rows
  {
    if rows != [] {
      var p := rows[..|rows| - 1];
      RowsOfOnlyMonth(p, m);
      assert rows == p + [rows[|rows| - 1]];
    }
  }

  /** The latest month of a ledger whose rows all fall in `m` is `m`. */
  lemma LatestOfOneMonth(rows: seq<Row>, m: Month)
    requires rows != []
    requires forall i :: 0 <= i < |rows| ==> MonthOfRow(rows[i]) == m
    ensures LatestMonth(rows) == Some(m)
  {
    var i :| 0 <= i < |rows| && MonthOfRow(rows[i]) == LatestMonth(rows).value;
  }

  /** On a ledger of one month, restricting to the latest month changes nothing. */
  lemma SingleMonthBudgetSummary(rows: seq<Row>, m: Month, budgetLimits: Option<map<string, real>>)
    requires forall i :: 0 <= i < |rows| ==> MonthOfRow(rows[i]) == m
    ensures LatestMonthBudgetSummary(rows, budgetLimits) == BudgetSummary(rows, budgetLimits)
  {
    if rows != [] {
      LatestOfOneMonth(rows, m);
      RowsOfOnlyMonth(rows, m);
    }
  }
}
