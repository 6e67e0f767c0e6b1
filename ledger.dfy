/** The ledger's data model: one transaction row per line of the ledger file
    (columns Date, Source, Description, Category, Spender, Amount), the calendar
    month a row falls in, and the month arithmetic used by the forecast. */
module Ledger {

  datatype Option<T> = None | Some(value: T)

  type MonthNumber = m: int | 1 <= m <= 12 witness 1
  type DayNumber = d: int | 1 <= d <= 31 witness 1

  /** A date as the Date column holds it once parsed (YYYY-MM-DD). The day is
      not checked against the month's length: the add-expense dialog offers
      days 01..31 for every month. */
  datatype Date = Date(year: int, month: MonthNumber, day: DayNumber)

  /** A calendar month: the key that `to_period("M")` gives a date. */
  datatype Month = Month(year: int, month: MonthNumber)

  /** One transaction, with the six columns of the ledger in their order. */
  datatype Row = Row(date: Date, source: string, description: string,
                     category: string, spender: string, amount: real)

  /** Number of columns of the ledger table. */
  const ColumnCount: nat := 6

  function MonthOf(d: Date): Month {
    Month(d.year, d.month)
  }

  /** Position of a month on the time line, counted from January of year 0. */
  function MonthIndex(m: Month): int {
    12 * m.year + m.month - 1
  }

  /** Chronological order of months. */
  predicate Before(a: Month, b: Month) {
    a.year < b.year || (a.year == b.year && a.month < b.month)
  }

  lemma BeforeIsIndexOrder(a: Month, b: Month)
    ensures Before(a, b) <==> MonthIndex(a) < MonthIndex(b)
  {
    if a.year < b.year {
      assert MonthIndex(a) < 12 * a.year + 12 <= 12 * b.year <= MonthIndex(b);
    } else if a.year > b.year {
      assert MonthIndex(b) < 12 * b.year + 12 <= 12 * a.year <= MonthIndex(a);
    }
  }

  /** A month is determined by its position on the time line. */
  lemma MonthIndexInjective(a: Month, b: Month)
    requires MonthIndex(a) == MonthIndex(b)
    ensures a == b
  {
    BeforeIsIndexOrder(a, b);
    BeforeIsIndexOrder(b, a);
  }

  /** The following calendar month (a Period plus one): December rolls over
      to January of the next year. */
  function NextMonth(m: Month): (r: Month)
    ensures MonthIndex(r) == MonthIndex(m) + 1
    ensures Before(m, r)
  {
    if m.month == 12 then Month(m.year + 1, 1) else Month(m.year, m.month + 1)
  }

  /** The month `i` months after `m` (a Period plus `i`). */
  function AddMonths(m: Month, i: nat): (r: Month)
    ensures MonthIndex(r) == MonthIndex(m) + i
  {
    if i == 0 then m else NextMonth(AddMonths(m, i - 1))
  }

  // Column selectors: the grouping keys of the source's groupby calls.

  function SourceOf(r: Row): string { r.source }
  function CategoryOf(r: Row): string { r.category }
  function SpenderOf(r: Row): string { r.spender }
  function DateOf(r: Row): Date { r.date }
  function MonthOfRow(r: Row): Month { MonthOf(r.date) }
}
