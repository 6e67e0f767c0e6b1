/** The group-by sums behind every summary of the tracker: the grand total,
    `groupby(key)["Amount"].sum()` as an association list and as a dict, the
    chronological month series, the two-key cross-tabs with zero fill, and the
    sort-descending-then-head ranking. */
module Aggregation {
  import opened Ledger

  // ---------------------------------------------------------------------
  // Reference sums

  /** `data["Amount"].sum()`: 0 on an empty ledger. */
  function Total(rows: seq<Row>): real {
    if rows == [] then 0.0 else Total(rows[..|rows| - 1]) + rows[|rows| - 1].amount
  }

  /** Concatenating two ledgers adds their totals. */
  lemma {:induction false} TotalAppend(a: seq<Row>, b: seq<Row>)
    ensures Total(a + b) == Total(a) + Total(b)
  {
    if b != [] {
      var b' := b[..|b| - 1];
      assert (a + b)[..|a + b| - 1] == a + b';
      TotalAppend(a, b');
    } else {
      assert a + b == a;
    }
  }

  /** The sum of Amount over the rows whose key is `k` (0 when there are none):
      what one group of a groupby-sum is meant to hold. */
  function GroupTotal<K(==)>(rows: seq<Row>, key: Row -> K, k: K): real {
    if rows == [] then 0.0
    else GroupTotal(rows[..|rows| - 1], key, k)
         + (if key(rows[|rows| - 1]) == k then rows[|rows| - 1].amount else 0.0)
  }

  /** The keys that occur in `rows`: the groups a groupby produces. */
  function KeySet<K(==)>(rows: seq<Row>, key: Row -> K): set<K> {
    set i | 0 <= i < |rows| :: key(rows[i])
  }

  lemma KeySetSnoc<K>(rows: seq<Row>, r: Row, key: Row -> K)
    ensures KeySet(rows + [r], key) == KeySet(rows, key) + {key(r)}
  {
    var s := rows + [r];
    forall k | k in KeySet(s, key) ensures k in KeySet(rows, key) + {key(r)} {
      var i :| 0 <= i < |s| && key(s[i]) == k;
      if i < |rows| {
        assert s[i] == rows[i];
      }
    }
    forall k | k in KeySet(rows, key) ensures k in KeySet(s, key) {
      var i :| 0 <= i < |rows| && key(rows[i]) == k;
      assert s[i] == rows[i];
    }
    assert s[|rows|] == r;
  }

  lemma SnocPrefix(rows: seq<Row>, r: Row)
    ensures (rows + [r])[..|rows|] == rows && (rows + [r])[|rows|] == r
  {
  }

  /** A key that no row has has group total 0. */
  lemma {:induction false} GroupTotalAbsent<K>(rows: seq<Row>, key: Row -> K, k: K)
    requires k !in KeySet(rows, key)
    ensures GroupTotal(rows, key, k) == 0.0
  {
    if rows != [] {
      var p := rows[..|rows| - 1];
      assert rows == p + [rows[|rows| - 1]];
      KeySetSnoc(p, rows[|rows| - 1], key);
      GroupTotalAbsent(p, key, k);
    }
  }

  // ---------------------------------------------------------------------
  // groupby(key)["Amount"].sum() as an association list

  function Keys<K>(g: seq<(K, real)>): set<K> {
    set i | 0 <= i < |g| :: g[i].0
  }

  predicate DistinctKeys<K(==)>(g: seq<(K, real)>) {
    forall i, j :: 0 <= i < j < |g| ==> g[i].0 != g[j].0
  }

  /** `g` is the groupby-sum of `rows` by `key`: one entry per key that occurs,
      each holding that key's group total. */
  ghost predicate IsGrouping<K>(g: seq<(K, real)>, rows: seq<Row>, key: Row -> K) {
    && DistinctKeys(g)
    && Keys(g) == KeySet(rows, key)
    && forall i :: 0 <= i < |g| ==> g[i].1 == GroupTotal(rows, key, g[i].0)
  }

  /** Position of key `k` in `g`, or `|g|` when `k` is not a key of `g`. */
  function KeyIndex<K(==)>(g: seq<(K, real)>, k: K): (j: nat)
    ensures j <= |g|
    ensures j < |g| ==> g[j].0 == k
    ensures j == |g| <==> k !in Keys(g)
  {
    if g == [] then 0
    else if g[0].0 == k then 0
    else
      var j := 1 + KeyIndex(g[1..], k);
      assert forall i :: 1 <= i < |g| ==> g[i].0 == g[1..][i - 1].0;
      j
  }

  /** One step of the running groupby: add `a` to the entry of `k`, or append
      a new entry for a key not seen before. */
  function Accumulate<K(==)>(g: seq<(K, real)>, k: K, a: real): seq<(K, real)> {
    var j := KeyIndex(g, k);
    if j == |g| then g + [(k, a)] else g[j := (k, g[j].1 + a)]
  }

  lemma AccumulateGrouping<K>(g: seq<(K, real)>, rows: seq<Row>, r: Row, key: Row -> K)
    requires IsGrouping(g, rows, key)
    ensures IsGrouping(Accumulate(g, key(r), r.amount), rows + [r], key)
  {
    var k := key(r);
    var g' := Accumulate(g, k, r.amount);
    var rows' := rows + [r];
    SnocPrefix(rows, r);
    KeySetSnoc(rows, r, key);
    var j := KeyIndex(g, k);
    if j == |g| {
      GroupTotalAbsent(rows, key, k);
      assert g'[|g|] == (k, r.amount);
      assert Keys(g') == Keys(g) + {k} by {
        assert forall i :: 0 <= i < |g| ==> g'[i] == g[i];
      }
    } else {
      assert Keys(g') == Keys(g) by {
        assert forall i :: 0 <= i < |g| ==> g'[i].0 == g[i].0;
      }
    }
    forall i | 0 <= i < |g'| ensures g'[i].1 == GroupTotal(rows', key, g'[i].0) {
      if i < |g| {
        assert g'[i].0 == g[i].0;
      }
    }
  }

  /** `data.groupby(key)["Amount"].sum()`, built row by row. The model keeps
      the keys in order of first appearance; pandas sorts them, and no result
      here depends on that order. */
  function Groups<K(==)>(rows: seq<Row>, key: Row -> K): (g: seq<(K, real)>)
    ensures IsGrouping(g, rows, key)
  {
    if rows == [] then []
    else
      var p := rows[..|rows| - 1];
      var r := rows[|rows| - 1];
      AccumulateGrouping(Groups(p, key), p, r, key);
      assert p + [r] == rows;
      Accumulate(Groups(p, key), key(r), r.amount)
  }

  /** An association list with distinct keys has as many entries as keys. */
  lemma {:induction false} DistinctKeysCount<K>(g: seq<(K, real)>)
    requires DistinctKeys(g)
    ensures |Keys(g)| == |g|
  {
    if g != [] {
      var p := g[..|g| - 1];
      DistinctKeysCount(p);
      assert Keys(g) == Keys(p) + {g[|g| - 1].0} by {
        assert forall i :: 0 <= i < |p| ==> p[i] == g[i];
      }
      assert g[|g| - 1].0 !in Keys(p);
    }
  }

  /** An association list with distinct keys as a dict. */
  function ToMap<K(==)>(g: seq<(K, real)>): (m: map<K, real>)
    requires DistinctKeys(g)
    ensures m.Keys == Keys(g)
    ensures forall i :: 0 <= i < |g| ==> m[g[i].0] == g[i].1
  {
    if g == [] then map[]
    else
      DistinctKeysLast(g);
      ToMap(g[..|g| - 1])[g[|g| - 1].0 := g[|g| - 1].1]
  }

  /** Dropping the last entry keeps the keys distinct; that entry's key is
      not among the others. */
  lemma DistinctKeysLast<K>(g: seq<(K, real)>)
    requires DistinctKeys(g) && g != []
    ensures DistinctKeys(g[..|g| - 1])
    ensures Keys(g) == Keys(g[..|g| - 1]) + {g[|g| - 1].0}
    ensures forall i :: 0 <= i < |g| - 1 ==> g[..|g| - 1][i] == g[i] && g[i].0 != g[|g| - 1].0
  {
    var p := g[..|g| - 1];
    assert forall i :: 0 <= i < |p| ==> p[i] == g[i];
  }

  /** `data.groupby(key)["Amount"].sum().to_dict()`: exactly the keys that
      occur, each with its group total. */
  function GroupSums<K(==)>(rows: seq<Row>, key: Row -> K): (m: map<K, real>)
    ensures m.Keys == KeySet(rows, key)
    ensures forall k :: k in m ==> m[k] == GroupTotal(rows, key, k)
  {
    var g := Groups(rows, key);
    var m := ToMap(g);
    assert forall k :: k in m ==> exists i :: 0 <= i < |g| && g[i].0 == k;
    m
  }

  /** `dict.get(k, 0)`. */
  function GetOrZero<K>(m: map<K, real>, k: K): real {
    if k in m then m[k] else 0.0
  }

  /** Looking a key up in a groupby dict with default 0 gives its group total,
      whether or not any row has that key. */
  lemma GetOrZeroIsGroupTotal<K>(rows: seq<Row>, key: Row -> K, k: K)
    ensures GetOrZero(GroupSums(rows, key), k) == GroupTotal(rows, key, k)
  {
    if k !in GroupSums(rows, key) {
      GroupTotalAbsent(rows, key, k);
    }
  }

  // ---------------------------------------------------------------------
  // The groups partition the ledger

  predicate NoDuplicates<K(==)>(ks: seq<K>) {
    forall i, j :: 0 <= i < j < |ks| ==> ks[i] != ks[j]
  }

  /** The sum of the group totals of the keys `ks`. */
  function SumGroupTotals<K(==)>(rows: seq<Row>, key: Row -> K, ks: seq<K>): real {
    if ks == [] then 0.0
    else SumGroupTotals(rows, key, ks[..|ks| - 1]) + GroupTotal(rows, key, ks[|ks| - 1])
  }

  lemma {:induction false} SumGroupTotalsSnoc<K>(rows: seq<Row>, r: Row, key: Row -> K, ks: seq<K>)
    requires NoDuplicates(ks)
    ensures SumGroupTotals(rows + [r], key, ks)
         == SumGroupTotals(rows, key, ks) + (if key(r) in ks then r.amount else 0.0)
  {
    SnocPrefix(rows, r);
    if ks != [] {
      var p := ks[..|ks| - 1];
      assert ks == p + [ks[|ks| - 1]];
      SumGroupTotalsSnoc(rows, r, key, p);
      assert key(r) in ks <==> key(r) in p || key(r) == ks[|ks| - 1];
      assert ks[|ks| - 1] !in p;
    }
  }

  lemma {:induction false} SumGroupTotalsEmpty<K>(key: Row -> K, ks: seq<K>)
    ensures SumGroupTotals([], key, ks) == 0.0
  {
    if ks != [] {
      SumGroupTotalsEmpty(key, ks[..|ks| - 1]);
    }
  }

  /** Summing the group totals over any duplicate-free list of keys that
      covers every key of the ledger gives the grand total. */
  lemma {:induction false} GroupTotalsPartitionTotal<K>(rows: seq<Row>, key: Row -> K, ks: seq<K>)
    requires NoDuplicates(ks)
    requires forall k :: k in KeySet(rows, key) ==> k in ks
    ensures SumGroupTotals(rows, key, ks) == Total(rows)
  {
    if rows == [] {
      SumGroupTotalsEmpty(key, ks);
    } else {
      var p, r := rows[..|rows| - 1], rows[|rows| - 1];
      assert rows == p + [r];
      KeySetSnoc(p, r, key);
      GroupTotalsPartitionTotal(p, key, ks);
      SumGroupTotalsSnoc(p, r, key, ks);
    }
  }

  /** The sum of the values of an association list. */
  function SumValues<K>(g: seq<(K, real)>): real {
    if g == [] then 0.0 else SumValues(g[..|g| - 1]) + g[|g| - 1].1
  }

  function KeySeq<K>(g: seq<(K, real)>): (ks: seq<K>)
    ensures |ks| == |g| && forall i :: 0 <= i < |g| ==> ks[i] == g[i].0
  {
    seq(|g|, i requires 0 <= i < |g| => g[i].0)
  }

  lemma {:induction false} SumValuesOfGroupTotals<K>(g: seq<(K, real)>, rows: seq<Row>, key: Row -> K)
    requires forall i :: 0 <= i < |g| ==> g[i].1 == GroupTotal(rows, key, g[i].0)
    ensures SumValues(g) == SumGroupTotals(rows, key, KeySeq(g))
  {
    if g != [] {
      var p := g[..|g| - 1];
      SumValuesOfGroupTotals(p, rows, key);
      assert KeySeq(g)[..|g| - 1] == KeySeq(p);
    }
  }

  /** The entries of any groupby-sum add up to the grand total: the groups
      partition the ledger. */
  lemma GroupingSumsToTotal<K>(g: seq<(K, real)>, rows: seq<Row>, key: Row -> K)
    requires IsGrouping(g, rows, key)
    ensures SumValues(g) == Total(rows)
  {
    SumValuesOfGroupTotals(g, rows, key);
    var ks := KeySeq(g);
    forall k | k in KeySet(rows, key) ensures k in ks {
      var i :| 0 <= i < |g| && g[i].0 == k;
      assert ks[i] == k;
    }
    GroupTotalsPartitionTotal(rows, key, ks);
  }

  /** The sum of the values a dict holds for the keys `ks`. */
  function SumOver<K(==)>(m: map<K, real>, ks: seq<K>): real
    requires forall k :: k in ks ==> k in m
  {
    if ks == [] then 0.0 else SumOver(m, ks[..|ks| - 1]) + m[ks[|ks| - 1]]
  }

  lemma {:induction false} SumOverGroupSums<K>(rows: seq<Row>, key: Row -> K, ks: seq<K>)
    requires forall k :: k in ks ==> k in GroupSums(rows, key)
    ensures SumOver(GroupSums(rows, key), ks) == SumGroupTotals(rows, key, ks)
  {
    if ks != [] {
      SumOverGroupSums(rows, key, ks[..|ks| - 1]);
    }
  }

  /** Adding up a groupby dict's values, in any order, gives the grand total. */
  lemma GroupSumsAddUpToTotal<K>(rows: seq<Row>, key: Row -> K, ks: seq<K>)
    requires NoDuplicates(ks)
    requires forall k :: k in ks ==> k in GroupSums(rows, key)
    requires forall k :: k in GroupSums(rows, key) ==> k in ks
    ensures SumOver(GroupSums(rows, key), ks) == Total(rows)
  {
    forall k | k in KeySet(rows, key) ensures k in ks {
      assert k in GroupSums(rows, key);
    }
    SumOverGroupSums(rows, key, ks);
    GroupTotalsPartitionTotal(rows, key, ks);
  }

  // ---------------------------------------------------------------------
  // calculate_totals

  datatype Totals = Totals(total: real, bySpender: map<string, real>, byCategory: map<string, real>)

  /** The grand total and the per-spender and per-category dicts. */
  function CalculateTotals(rows: seq<Row>): (t: Totals)
    ensures t.total == Total(rows)
    ensures t.bySpender.Keys == KeySet(rows, SpenderOf)
    ensures forall s :: s in t.bySpender ==> t.bySpender[s] == GroupTotal(rows, SpenderOf, s)
    ensures t.byCategory.Keys == KeySet(rows, CategoryOf)
    ensures forall c :: c in t.byCategory ==> t.byCategory[c] == GroupTotal(rows, CategoryOf, c)
  {
    Totals(Total(rows), GroupSums(rows, SpenderOf), GroupSums(rows, CategoryOf))
  }

  /** The three results of calculate_totals agree: the per-spender totals and
      the per-category totals each add up to the grand total. */
  lemma TotalsAgree(rows: seq<Row>, spenders: seq<string>, categories: seq<string>)
    requires NoDuplicates(spenders)
    requires forall s :: s in spenders ==> s in CalculateTotals(rows).bySpender
    requires forall s :: s in CalculateTotals(rows).bySpender ==> s in spenders
    requires NoDuplicates(categories)
    requires forall c :: c in categories ==> c in CalculateTotals(rows).byCategory
    requires forall c :: c in CalculateTotals(rows).byCategory ==> c in categories
    ensures SumOver(CalculateTotals(rows).bySpender, spenders) == CalculateTotals(rows).total
    ensures SumOver(CalculateTotals(rows).byCategory, categories) == CalculateTotals(rows).total
  {
    GroupSumsAddUpToTotal(rows, SpenderOf, spenders);
    GroupSumsAddUpToTotal(rows, CategoryOf, categories);
  }

  // ---------------------------------------------------------------------
  // The month series (calculate_monthly_expenses, calculate_expense_trends)

  /** Strictly increasing months: chronological, one entry per month. */
  predicate Chronological(s: seq<(Month, real)>) {
    forall i, j :: 0 <= i < j < |s| ==> Before(s[i].0, s[j].0)
  }

  function InsertByMonth(s: seq<(Month, real)>, e: (Month, real)): (r: seq<(Month, real)>)
    requires Chronological(s)
    requires forall i :: 0 <= i < |s| ==> s[i].0 != e.0
    ensures |r| == |s| + 1
    ensures r[0] == e || (s != [] && r[0] == s[0])
    ensures Chronological(r)
    ensures multiset(r) == multiset(s) + multiset{e}
  {
    if s == [] then [e]
    else if Before(e.0, s[0].0) then [e] + s
    else
      ChronologicalTail(s);
      var t := InsertByMonth(s[1..], e);
      InsertAfterFirst(s, e, t);
      [s[0]] + t
  }

  lemma ChronologicalTail(s: seq<(Month, real)>)
    requires Chronological(s) && s != []
    ensures Chronological(s[1..])
    ensures forall i :: 0 < i < |s| ==> Before(s[0].0, s[i].0)
  {
    forall i, j | 0 <= i < j < |s| - 1 ensures Before(s[1..][i].0, s[1..][j].0) {
      assert s[1..][i] == s[i + 1] && s[1..][j] == s[j + 1];
    }
  }

  /** An entry later than the first goes into the tail. */
  lemma InsertAfterFirst(s: seq<(Month, real)>, e: (Month, real), t: seq<(Month, real)>)
    requires Chronological(s) && s != [] && !Before(e.0, s[0].0) && s[0].0 != e.0
    requires Chronological(t) && t != [] && (t[0] == e || (|s| > 1 && t[0] == s[1]))
    requires multiset(t) == multiset(s[1..]) + multiset{e}
    ensures Chronological([s[0]] + t)
    ensures multiset([s[0]] + t) == multiset(s) + multiset{e}
  {
    ChronologicalTail(s);
    assert Before(s[0].0, t[0].0);
    ChronologicalCons(s[0], t);
    assert s == [s[0]] + s[1..];
  }

  /** An entry before the first of a chronological list can go in front. */
  lemma ChronologicalCons(x: (Month, real), t: seq<(Month, real)>)
    requires Chronological(t) && (t != [] ==> Before(x.0, t[0].0))
    ensures Chronological([x] + t)
  {
    var r := [x] + t;
    forall i, j | 0 <= i < j < |r| ensures Before(r[i].0, r[j].0) {
      assert r[j] == t[j - 1];
      if i > 0 {
        assert r[i] == t[i - 1];
      } else if j > 1 {
        assert Before(t[0].0, t[j - 1].0);
      }
    }
  }

  /** The groups sorted chronologically, as the month-period index of a
      pandas groupby comes out. */
  function SortByMonth(g: seq<(Month, real)>): (r: seq<(Month, real)>)
    requires DistinctKeys(g)
    ensures Chronological(r)
    ensures multiset(r) == multiset(g)
  {
    if g == [] then []
    else
      var p := g[..|g| - 1];
      var s := SortByMonth(p);
      assert g == p + [g[|g| - 1]];
      assert forall i :: 0 <= i < |s| ==> s[i].0 != g[|g| - 1].0 by {
        forall i | 0 <= i < |s| ensures s[i].0 != g[|g| - 1].0 {
          assert s[i] in multiset(p);
          var j :| 0 <= j < |p| && p[j] == s[i];
        }
      }
      InsertByMonth(s, g[|g| - 1])
  }

  /** A reordering of a groupby-sum with distinct keys is a groupby-sum. */
  lemma PermutedGrouping<K>(g: seq<(K, real)>, r: seq<(K, real)>, rows: seq<Row>, key: Row -> K)
    requires IsGrouping(g, rows, key)
    requires multiset(r) == multiset(g) && DistinctKeys(r)
    ensures IsGrouping(r, rows, key)
  {
    forall k | k in Keys(r) ensures k in Keys(g) {
      var i :| 0 <= i < |r| && r[i].0 == k;
      assert r[i] in multiset(g);
      var j :| 0 <= j < |g| && g[j] == r[i];
    }
    forall k | k in Keys(g) ensures k in Keys(r) {
      var i :| 0 <= i < |g| && g[i].0 == k;
      assert g[i] in multiset(r);
      var j :| 0 <= j < |r| && r[j] == g[i];
    }
    forall i | 0 <= i < |r| ensures r[i].1 == GroupTotal(rows, key, r[i].0) {
      assert r[i] in multiset(g);
      var j :| 0 <= j < |g| && g[j] == r[i];
    }
  }

  /** `groupby(Date.to_period("M"))["Amount"].sum()`: one entry per month that
      has rows (no gap filling), in chronological order, each month holding
      the sum of its rows. */
  function MonthlyTotals(rows: seq<Row>): (s: seq<(Month, real)>)
    ensures Chronological(s)
    ensures IsGrouping(s, rows, MonthOfRow)
  {
    var g := Groups(rows, MonthOfRow);
    var s := SortByMonth(g);
    PermutedGrouping(g, s, rows, MonthOfRow);
    s
  }

  /** The month series adds up to the grand total. */
  lemma MonthlyTotalsAddUp(rows: seq<Row>)
    ensures SumValues(MonthlyTotals(rows)) == Total(rows)
  {
    GroupingSumsToTotal(MonthlyTotals(rows), rows, MonthOfRow);
  }

  // ---------------------------------------------------------------------
  // Two-key cross-tabs: groupby([a, b]).sum().unstack(fill_value=0)

  /** The sum of Amount over the rows whose first key is `a` and second key is `b`. */
  function CellTotal<A(==), B(==)>(rows: seq<Row>, rowKey: Row -> A, colKey: Row -> B, a: A, b: B): real {
    if rows == [] then 0.0
    else
      var r := rows[|rows| - 1];
      CellTotal(rows[..|rows| - 1], rowKey, colKey, a, b)
      + (if rowKey(r) == a && colKey(r) == b then r.amount else 0.0)
  }

  function PairKey<A, B>(rowKey: Row -> A, colKey: Row -> B): Row -> (A, B) {
    (r: Row) => (rowKey(r), colKey(r))
  }

  lemma {:induction false} PairGroupTotal<A, B>(rows: seq<Row>, rowKey: Row -> A, colKey: Row -> B, a: A, b: B)
    ensures GroupTotal(rows, PairKey(rowKey, colKey), (a, b)) == CellTotal(rows, rowKey, colKey, a, b)
  {
    if rows != [] {
      PairGroupTotal(rows[..|rows| - 1], rowKey, colKey, a, b);
    }
  }

  /** Every row key against every column key. */
  function Grid<A(==), B(==)>(rows: seq<Row>, rowKey: Row -> A, colKey: Row -> B): set<(A, B)> {
    set a, b | a in KeySet(rows, rowKey) && b in KeySet(rows, colKey) :: (a, b)
  }

  /** The unstacked table: a cell for every row key and every column key that
      occur, holding the sum of the matching rows. */
  function CrossTab<A(==,!new), B(==,!new)>(rows: seq<Row>, rowKey: Row -> A, colKey: Row -> B): (t: map<(A, B), real>)
    ensures forall p :: p in t <==> p.0 in KeySet(rows, rowKey) && p.1 in KeySet(rows, colKey)
    ensures forall p :: p in t ==> t[p] == CellTotal(rows, rowKey, colKey, p.0, p.1)
  {
    var cells := GroupSums(rows, PairKey(rowKey, colKey));
    var t := map p | p in Grid(rows, rowKey, colKey) :: GetOrZero(cells, p);
    assert forall p :: p in t ==> t[p] == CellTotal(rows, rowKey, colKey, p.0, p.1) by {
      forall p | p in t ensures t[p] == CellTotal(rows, rowKey, colKey, p.0, p.1) {
        GetOrZeroIsGroupTotal(rows, PairKey(rowKey, colKey), p);
        PairGroupTotal(rows, rowKey, colKey, p.0, p.1);
      }
    }
    t
  }

  /** A combination of keys that no row has is exactly 0 (`fill_value=0`). */
  lemma {:induction false} CellTotalAbsent<A, B>(rows: seq<Row>, rowKey: Row -> A, colKey: Row -> B, a: A, b: B)
    requires forall i :: 0 <= i < |rows| ==> rowKey(rows[i]) != a || colKey(rows[i]) != b
    ensures CellTotal(rows, rowKey, colKey, a, b) == 0.0
  {
    if rows != [] {
      CellTotalAbsent(rows[..|rows| - 1], rowKey, colKey, a, b);
    }
  }

  lemma CrossTabZeroFill<A(!new), B(!new)>(rows: seq<Row>, rowKey: Row -> A, colKey: Row -> B, a: A, b: B)
    requires a in KeySet(rows, rowKey) && b in KeySet(rows, colKey)
    requires forall i :: 0 <= i < |rows| ==> rowKey(rows[i]) != a || colKey(rows[i]) != b
    ensures (a, b) in CrossTab(rows, rowKey, colKey)
    ensures CrossTab(rows, rowKey, colKey)[(a, b)] == 0.0
  {
    CellTotalAbsent(rows, rowKey, colKey, a, b);
  }

  lemma {:induction false} CellTotalSwap<A, B>(rows: seq<Row>, rowKey: Row -> A, colKey: Row -> B, a: A, b: B)
    ensures CellTotal(rows, rowKey, colKey, a, b) == CellTotal(rows, colKey, rowKey, b, a)
  {
    if rows != [] {
      CellTotalSwap(rows[..|rows| - 1], rowKey, colKey, a, b);
    }
  }

  /** Grouping by (b, a) gives the transpose of grouping by (a, b): the
      month-by-entity tables and the entity-by-month tables hold the same cells. */
  lemma CrossTabTranspose<A(!new), B(!new)>(rows: seq<Row>, rowKey: Row -> A, colKey: Row -> B, a: A, b: B)
    ensures (a, b) in CrossTab(rows, rowKey, colKey) <==> (b, a) in CrossTab(rows, colKey, rowKey)
    ensures (a, b) in CrossTab(rows, rowKey, colKey)
            ==> CrossTab(rows, rowKey, colKey)[(a, b)] == CrossTab(rows, colKey, rowKey)[(b, a)]
  {
    CellTotalSwap(rows, rowKey, colKey, a, b);
  }

  /** calculate_monthly_category_expenses: a cell for every month and category that
      occur, each that category's spend in that month (0 when none). */
  function MonthlyCategoryExpenses(rows: seq<Row>): (t: map<(Month, string), real>)
    ensures forall p :: p in t <==> p.0 in KeySet(rows, MonthOfRow) && p.1 in KeySet(rows, CategoryOf)
    ensures forall p :: p in t ==> t[p] == CellTotal(rows, MonthOfRow, CategoryOf, p.0, p.1)
  {
    CrossTab(rows, MonthOfRow, CategoryOf)
  }

  /** calculate_monthly_spender_expenses: a cell for every month and spender that
      occur, each that spender's spend in that month (0 when none). */
  function MonthlySpenderExpenses(rows: seq<Row>): (t: map<(Month, string), real>)
    ensures forall p :: p in t <==> p.0 in KeySet(rows, MonthOfRow) && p.1 in KeySet(rows, SpenderOf)
    ensures forall p :: p in t ==> t[p] == CellTotal(rows, MonthOfRow, SpenderOf, p.0, p.1)
  {
    CrossTab(rows, MonthOfRow, SpenderOf)
  }

  /** calculate_monthly_card_expenses: a cell for every month and card that
      occur, each that card's spend in that month (0 when none). */
  function MonthlyCardExpenses(rows: seq<Row>): (t: map<(Month, string), real>)
    ensures forall p :: p in t <==> p.0 in KeySet(rows, MonthOfRow) && p.1 in KeySet(rows, SourceOf)
    ensures forall p :: p in t ==> t[p] == CellTotal(rows, MonthOfRow, SourceOf, p.0, p.1)
  {
    CrossTab(rows, MonthOfRow, SourceOf)
  }

  // ---------------------------------------------------------------------
  // sort_values(ascending=False).head(n)

  predicate NonIncreasing<K>(s: seq<(K, real)>) {
    forall i, j :: 0 <= i < j < |s| ==> s[j].1 <= s[i].1
  }

  function InsertByTotal<K>(s: seq<(K, real)>, e: (K, real)): (r: seq<(K, real)>)
    requires NonIncreasing(s)
    ensures |r| == |s| + 1
    ensures r[0] == e || (s != [] && r[0] == s[0])
    ensures NonIncreasing(r)
    ensures multiset(r) == multiset(s) + multiset{e}
  {
    if s == [] then [e]
    else if s[0].1 < e.1 then [e] + s
    else
      var t := InsertByTotal(s[1..], e);
      assert s == [s[0]] + s[1..];
      assert t[0].1 <= s[0].1;
      [s[0]] + t
  }

  lemma KeysCons<K>(a: (K, real), t: seq<(K, real)>)
    ensures Keys([a] + t) == {a.0} + Keys(t)
  {
    var r := [a] + t;
    assert forall i :: 0 <= i < |t| ==> r[i + 1] == t[i];
    forall k | k in Keys(r) ensures k in {a.0} + Keys(t) {
      var i :| 0 <= i < |r| && r[i].0 == k;
      if i > 0 {
        assert t[i - 1].0 == k;
      }
    }
    assert r[0].0 == a.0;
    forall k | k in Keys(t) ensures k in Keys(r) {
      var i :| 0 <= i < |t| && t[i].0 == k;
      assert r[i + 1].0 == k;
    }
  }

  lemma DistinctCons<K>(a: (K, real), t: seq<(K, real)>)
    requires a.0 !in Keys(t) && DistinctKeys(t)
    ensures DistinctKeys([a] + t)
  {
    var r := [a] + t;
    forall i, j | 0 <= i < j < |r| ensures r[i].0 != r[j].0 {
      assert r[j] == t[j - 1];
      if i > 0 {
        assert r[i] == t[i - 1];
      }
    }
  }

  /** Inserting an entry with a new key keeps the keys distinct. */
  lemma {:induction false} InsertKeepsDistinct<K>(s: seq<(K, real)>, e: (K, real))
    requires NonIncreasing(s) && DistinctKeys(s) && e.0 !in Keys(s)
    ensures DistinctKeys(InsertByTotal(s, e))
    ensures Keys(InsertByTotal(s, e)) == Keys(s) + {e.0}
  {
    if s == [] {
      KeysCons(e, s);
    } else if s[0].1 < e.1 {
      KeysCons(e, s);
      DistinctCons(e, s);
    } else {
      var u := s[1..];
      assert s == [s[0]] + u;
      KeysCons(s[0], u);
      assert DistinctKeys(u) by {
        forall i, j | 0 <= i < j < |u| ensures u[i].0 != u[j].0 {
          assert u[i] == s[i + 1] && u[j] == s[j + 1];
        }
      }
      assert s[0].0 !in Keys(u) by {
        forall i | 0 <= i < |u| ensures u[i].0 != s[0].0 {
          assert u[i] == s[i + 1];
        }
      }
      InsertKeepsDistinct(u, e);
      var t := InsertByTotal(u, e);
      KeysCons(s[0], t);
      DistinctCons(s[0], t);
    }
  }

  /** `sort_values(ascending=False)`: largest totals first. */
  function SortByTotal<K>(g: seq<(K, real)>): (r: seq<(K, real)>)
    ensures |r| == |g|
    ensures NonIncreasing(r)
    ensures multiset(r) == multiset(g)
  {
    if g == [] then []
    else
      assert g == g[..|g| - 1] + [g[|g| - 1]];
      InsertByTotal(SortByTotal(g[..|g| - 1]), g[|g| - 1])
  }

  /** Sorting keeps the keys, and keeps them distinct. */
  lemma {:induction false} SortKeepsDistinct<K>(g: seq<(K, real)>)
    requires DistinctKeys(g)
    ensures DistinctKeys(SortByTotal(g)) && Keys(SortByTotal(g)) == Keys(g)
  {
    if g != [] {
      var p := g[..|g| - 1];
      var x := g[|g| - 1];
      assert g == p + [x];
      assert DistinctKeys(p) by {
        forall i, j | 0 <= i < j < |p| ensures p[i].0 != p[j].0 {
          assert p[i] == g[i] && p[j] == g[j];
        }
      }
      assert Keys(g) == Keys(p) + {x.0} by {
        forall k | k in Keys(g) ensures k in Keys(p) + {x.0} {
          var i :| 0 <= i < |g| && g[i].0 == k;
          if i < |p| {
            assert p[i] == g[i];
          }
        }
        forall k | k in Keys(p) ensures k in Keys(g) {
          var i :| 0 <= i < |p| && p[i].0 == k;
          assert g[i] == p[i];
        }
      }
      assert x.0 !in Keys(p) by {
        forall i | 0 <= i < |p| ensures p[i].0 != x.0 {
          assert p[i] == g[i];
        }
      }
      SortKeepsDistinct(p);
      InsertKeepsDistinct(SortByTotal(p), x);
    }
  }

  /** In a list sorted largest first, an entry of the same multiset that is
      not among the first `m` is no larger than any of them. */
  lemma PrefixDominates<K>(g: seq<(K, real)>, s: seq<(K, real)>, m: nat)
    requires multiset(s) == multiset(g) && NonIncreasing(s) && m <= |s|
    ensures forall i, j :: 0 <= i < |g| && 0 <= j < m && g[i] !in s[..m] ==> g[i].1 <= s[j].1
  {
    forall i, j | 0 <= i < |g| && 0 <= j < m && g[i] !in s[..m] ensures g[i].1 <= s[j].1 {
      assert g[i] in multiset(s);
      var p :| 0 <= p < |s| && s[p] == g[i];
      assert forall q :: 0 <= q < m ==> s[..m][q] == s[q];
    }
  }

  /** `sort_values(ascending=False).head(n)`: the `n` largest entries (all of
      them when there are fewer), largest first; every entry left out is no
      larger than any entry kept. Ties come out in an unspecified order. */
  function TopN<K>(g: seq<(K, real)>, n: nat): (r: seq<(K, real)>)
    ensures |r| == if |g| < n then |g| else n
    ensures NonIncreasing(r)
    ensures multiset(r) <= multiset(g)
    ensures forall i, j :: 0 <= i < |g| && 0 <= j < |r| && g[i] !in r ==> g[i].1 <= r[j].1
  {
    var s := SortByTotal(g);
    var m := if |g| < n then |g| else n;
    PrefixDominates(g, s, m);
    SortedPrefix(s, m);
    s[..m]
  }

  /** A prefix of a list sorted largest first is sorted and a sub-multiset. */
  lemma SortedPrefix<K>(s: seq<(K, real)>, m: nat)
    requires NonIncreasing(s) && m <= |s|
    ensures NonIncreasing(s[..m]) && multiset(s[..m]) <= multiset(s)
  {
    assert s == s[..m] + s[m..];
  }

  /** Taking the largest entries keeps the keys distinct. */
  lemma TopNDistinct<K>(g: seq<(K, real)>, n: nat)
    requires DistinctKeys(g)
    ensures DistinctKeys(TopN(g, n))
  {
    var s := SortByTotal(g);
    SortKeepsDistinct(g);
    var m := if |g| < n then |g| else n;
    assert TopN(g, n) == s[..m];
  }

  /** Every entry of the top `n` is an entry of `g`. */
  lemma TopNEntries<K>(g: seq<(K, real)>, n: nat)
    ensures forall i :: 0 <= i < |TopN(g, n)| ==> TopN(g, n)[i] in g
  {
    var r := TopN(g, n);
    forall i | 0 <= i < |r| ensures r[i] in g {
      assert r[i] in multiset(r);
    }
  }

  /** A key of `g` that is not among the top `n` totals no more than any
      entry that is. */
  lemma TopNOmitted<K>(g: seq<(K, real)>, n: nat, k: K)
    requires k in Keys(g) && k !in Keys(TopN(g, n))
    ensures exists p :: 0 <= p < |g| && g[p].0 == k
                        && forall j :: 0 <= j < |TopN(g, n)| ==> g[p].1 <= TopN(g, n)[j].1
  {
    var r := TopN(g, n);
    var p :| 0 <= p < |g| && g[p].0 == k;
    assert g[p] !in r by {
      forall q | 0 <= q < |r| ensures r[q] != g[p] {
        assert r[q].0 in Keys(r);
      }
    }
  }
}
