# Monthly spend tracker: the data layer in Dafny

This project models the data layer of a desktop tracker for monthly spending.

**The model class.** `SpendTrackerModel` keeps a ledger of transactions. Each transaction has six columns: Date, Source (the card or account), Description, Category, Spender and Amount. The class also keeps three maps:

- the credit limit of each card;
- the persisted monthly budget of each category;
- a runtime-only map of budget limits, which does not exist until the first budget limit is set.

The model answers queries over the ledger:

- group totals by spender, category, month and card;
- month-by-entity cross-tabs;
- a credit-usage summary;
- two budget summaries;
- a least-squares forecast of the coming months.

**The controller.** `SpendTrackerController` turns the user's actions into changes of that state:

- import a file;
- add or delete a row;
- edit one cell;
- add or delete a card;
- set a budget limit;
- show the top-5 rankings, the entity-by-month tables and the latest month's budget summary.

**Modules.**

- `Ledger` (ledger.dfy): rows, dates, calendar months and month arithmetic.
- `Text` (text.dfy): the string steps the handlers use. These are `strip`, `lower`, `in`, `endswith`, `float()` on plain decimals, and YYYY-MM-DD dates. It also has their round trips with the table's display formats.
- `Aggregation` (aggregation.dfy): groupby-sum, month series, cross-tabs and top-n ranking.
  - Each of these is stated against a reference sum, `GroupTotal` or `CellTotal`.
  - The groups are proved to partition the grand total.
- `Summaries` (summaries.dfy): the credit summary and the two budget summaries.
- `Forecast` (forecast.dfy): the closed-form line fit, proved to satisfy the normal equations and to minimise the squared error, and its extrapolation onto the following months.
- `Store` (store.dfy): the class `SpendTrackerModel`, whose methods update its fields in place.
- `Insights` (insights.dfy): the controller's pure queries.
- `Controller` (controller.dfy): the class `SpendTrackerController`. Its methods take the outcome of each dialog as parameters and change the model.
  - The import loop is proved against the function `ImportLimits`, which states that loop's behaviour.

Amounts are exact reals. The one division (the slope of the fit) is proved to have a positive divisor. Dates are `(year, month, day)` values, with the month in 1..12 and the day in 1..31.

## Model

| member | source | states |
|---|---|---|
| `Ledger.NextMonth` | model.py:117 | the month after `m` is one step later on the time line; December rolls over to January of the next year |
| `Ledger.AddMonths` | model.py:117 | a Period plus `i` lies exactly `i` months later |
| `Text.Strip` | controller.py:185 | the stripped text is no longer than the input and neither starts nor ends with whitespace, which is every character `str.isspace` accepts, Unicode spaces included |
| `Text.StripSlice` | controller.py:185 | what `strip()` removes is whitespace at the two ends, and what it keeps is one contiguous slice of the input |
| `Text.StripExamples` | controller.py:185-192 | the no-break space and the ideographic space are stripped, so a card name made of them is empty |
| `Text.StripUnpadded` | controller.py:197 | text without surrounding whitespace is left as it is |
| `Text.Lower` | controller.py:93 | `lower()` leaves no ASCII capital letter and keeps every other character in place |
| `Text.LowerIdempotent` | controller.py:93 | lower-casing twice is lower-casing once |
| `Text.ContainsOccurrence` | controller.py:93 | Python's `sub in s` holds exactly when `sub` occurs at some position of `s` |
| `Text.ParseDecimal` | controller.py:97 | `float()` refuses blank text and any text holding an information separator (U+001C..U+001F), and gives a negative value only for a leading minus |
| `Text.FloatWhitespaceExamples` | controller.py:118 | `float()` skips a no-break space around a number, refuses one behind an information separator, and refuses a blank text |
| `Text.FormatCentsShape` | controller.py:50 | the `:.2f` display starts with a minus exactly for a negative amount and ends in a point and two digits |
| `Text.ParseFormatCents` | controller.py:214 | `float()` of an amount shown with two decimals gives back that amount, for negative amounts too |
| `Text.ParseFormatDate` | controller.py:397 | a date written as `%Y-%m-%d` reads back as the same date |
| `Aggregation.TotalAppend` | model.py:66 | the total of two ledgers concatenated is the sum of their totals |
| `Aggregation.Groups` | model.py:67-68 | the groupby-sum has one entry per key that occurs, with distinct keys, and each value is that key's reference total |
| `Aggregation.GroupSums` | model.py:54 | as a dict: its keys are exactly the keys that occur, and each value is the key's total |
| `Aggregation.GetOrZeroIsGroupTotal` | model.py:57 | `.get(k, 0)` on the groupby dict is the key's total, and 0 for a key with no rows |
| `Aggregation.GroupTotalAbsent` | model.py:146 | a key that no row has totals 0 |
| `Aggregation.DistinctKeysCount` | model.py:67 | a grouping with distinct keys has as many entries as keys |
| `Aggregation.GroupTotalsPartitionTotal` | model.py:64-69 | summing the totals of distinct keys that cover every key that occurs gives the grand total |
| `Aggregation.GroupingSumsToTotal` | model.py:64-69 | the values of any groupby-sum add up to the grand total |
| `Aggregation.GroupSumsAddUpToTotal` | model.py:66-68 | summing the groupby dict over exactly its keys gives the grand total |
| `Aggregation.CalculateTotals` | model.py:64-69 | the grand total, and per spender and per category the keys that occur, each with its total |
| `Aggregation.TotalsAgree` | model.py:64-69 | the grand total equals the sum of the per-spender totals and the sum of the per-category totals |
| `Aggregation.SortByMonth` | model.py:74 | the groups are reordered into strictly increasing months, as a permutation |
| `Aggregation.PermutedGrouping` | model.py:74 | reordering a groupby-sum, with its keys still distinct, leaves a groupby-sum of the same rows |
| `Aggregation.MonthlyTotals` | model.py:94-97 | one entry per month that has rows, in chronological order, each the month's total |
| `Aggregation.MonthlyTotalsAddUp` | model.py:71-74 | the month totals add up to the grand total |
| `Aggregation.PairGroupTotal` | model.py:80 | grouping by a pair of keys sums the same rows as the cross-tab cell |
| `Aggregation.CrossTab` | model.py:76-92 | the unstacked table has a cell for every row key and every column key that occur, each the sum of the matching rows |
| `Aggregation.MonthlyCategoryExpenses` | model.py:76-80 | a cell for every month and category that occur, each the sum of that category's rows in that month |
| `Aggregation.MonthlySpenderExpenses` | model.py:82-86 | the same table for spenders |
| `Aggregation.MonthlyCardExpenses` | model.py:88-92 | the same table for cards |
| `Aggregation.CellTotalAbsent` | model.py:80 | a combination of keys that no row has sums to 0 |
| `Aggregation.CrossTabZeroFill` | model.py:80 | such a combination is still a cell of the table, holding 0 (`fill_value=0`) |
| `Aggregation.CellTotalSwap` | controller.py:292 | swapping the two keys of a cell sums the same rows |
| `Aggregation.CrossTabTranspose` | controller.py:292 | grouping by (b, a) gives the transpose of grouping by (a, b) |
| `Aggregation.InsertByTotal` | controller.py:358 | inserting into a list sorted largest first keeps it sorted and adds exactly that entry |
| `Aggregation.InsertKeepsDistinct` | controller.py:358 | inserting an entry with a new key keeps the keys distinct |
| `Aggregation.SortByTotal` | controller.py:358 | `sort_values(ascending=False)` gives a permutation with non-increasing totals |
| `Aggregation.SortKeepsDistinct` | controller.py:358 | sorting keeps the set of keys, and keeps them distinct |
| `Aggregation.PrefixDominates` | controller.py:358 | in a list sorted largest first, an entry not among the first `m` is no larger than any of them |
| `Aggregation.TopN` | controller.py:358 | `.head(n)` of the sorted list: min(n, size) entries, non-increasing, taken from the groups, and any group left out is no larger than any kept |
| `Aggregation.TopNEntries` | controller.py:358 | every entry of the ranking is an entry of the grouping |
| `Aggregation.TopNOmitted` | controller.py:358 | a key left out of the ranking has an entry in the grouping no larger than any entry kept |
| `Aggregation.TopNDistinct` | controller.py:394 | the ranking of a grouping repeats no key |
| `Summaries.CreditSummary` | model.py:52-62 | exactly the cards with a limit; Used is the card's total (0 without rows), and Used + Remaining is the limit |
| `Summaries.CreditRemainingNegativeIffOverLimit` | model.py:58 | Remaining is not clamped: it is negative exactly when the card's total exceeds its limit |
| `Summaries.CreditUnusedCard` | model.py:57-58 | a card with no rows shows Used 0 and its whole limit remaining |
| `Summaries.UsageAgainst` | model.py:145-148 | Remaining is at least 0 and at least limit − used, and is one of the two; Exceeded holds exactly when used > limit |
| `Summaries.BudgetUsageSummary` | model.py:140-152 | exactly the categories with a persisted budget, each that budget's usage against the category total |
| `Summaries.ExceededMeansNothingRemains` | model.py:147-148 | an exceeded budget has nothing remaining; one that is not exceeded has limit − used remaining |
| `Summaries.BudgetSummary` | model.py:154-166 | empty until budget limits exist; afterwards exactly their categories, each with its total as Used and its limit |
| `Summaries.BudgetSummariesAgree` | model.py:140-166 | where both budget maps hold the same limit for a category, the two summaries report the same Used and Limit |
| `Forecast.SumCentered` | model.py:108-110 | centred values sum to 0 |
| `Forecast.SpreadPositive` | model.py:110 | for two or more months the divisor Σ(x − x̄)² is positive |
| `Forecast.NormalEquationsOfClosedForm` | model.py:108-111 | the closed-form slope and intercept make the residuals sum to 0 and be orthogonal to the indices |
| `Forecast.FitLine` | model.py:107-111 | the fitted line satisfies the normal equations of least squares |
| `Forecast.SquaredErrorDecomposition` | model.py:107-111 | the squared error of any line is the fit's squared error plus the squared gap between the two lines |
| `Forecast.FitLineIsLeastSquares` | model.py:107-111 | no line has a smaller squared error than the fitted one |
| `Forecast.PointsOnALineFitExactly` | model.py:107-111 | monthly totals that lie on a line are fitted with zero error |
| `Forecast.ForecastSeries` | model.py:99-118 | none for fewer than two months; otherwise `months_ahead` predictions, the i-th labelled i months after the last month and valued at index k − 1 + i, in chronological order |
| `Forecast.Extrapolate` | model.py:114-117 | `months_ahead` entries in chronological order, all after the last month; the i-th is labelled i + 1 months after it and valued at index k + i |
| `Forecast.ForecastExpenses` | model.py:99-105 | no forecast exactly when fewer than two months have rows |
| `Forecast.FitOfTwoPoints` | model.py:108-111 | for two months v1, v2 the line has slope v2 − v1 and intercept v1 |
| `Forecast.TwoMonthForecast` | model.py:114-115 | for two months v1, v2 the first prediction is 2·v2 − v1 |
| `Store.Put` | model.py:44 | the key is present with the new value; every other key keeps its value |
| `Store.Remove` | model.py:48-49 | exactly that key disappears; an absent key changes nothing |
| `Store.PutOverwrites` | model.py:43-45 | setting a card's limit twice keeps only the second value |
| `Store.RemoveAfterPut` | model.py:43-50 | deleting a card just added leaves the limits as deleting alone would |
| `Store.SpendTrackerModel.constructor` | model.py:8-17 | the model starts from the stored ledger and maps, with no runtime budget limits |
| `Store.SpendTrackerModel.SaveData` | model.py:36-37 | the ledger becomes the given rows; nothing else changes |
| `Store.SpendTrackerModel.ClearData` | model.py:39-41 | the ledger becomes empty; nothing else changes |
| `Store.SpendTrackerModel.AddCreditLimit` | model.py:43-45 | the card's limit is inserted or overwritten; every other key, the ledger and the budgets are unchanged |
| `Store.SpendTrackerModel.DeleteCreditCard` | model.py:47-50 | exactly the card is removed, if present; nothing else changes |
| `Store.SpendTrackerModel.SetBudgetLimit` | model.py:130-133 | the runtime limits are created if missing and get the category's limit; the persisted budgets are untouched |
| `Store.SpendTrackerModel.DeleteBudgetLimit` | model.py:135-138 | the category is removed from the persisted budgets only, if present |
| `Insights.RankingOfGrouping` | controller.py:358 | the top n of any groupby-sum: as many entries as there are keys up to n, largest first, distinct keys that occur, each with its group total; a key left out totals no more than any key shown |
| `Insights.Ranking` | controller.py:358 | the n largest group totals, largest first, distinct keys that occur, as many as there are keys up to n; a key left out totals no more than any key shown |
| `Insights.TopCategories` | controller.py:358 | at most 5 distinct categories, non-increasing, each with its category total |
| `Insights.HighExpenseDays` | controller.py:394 | at most 5 distinct dates, non-increasing, each with the total of that exact date |
| `Insights.TopCategoriesDominate` | controller.py:358 | with five or more categories exactly five are shown, and a category not shown spent no more than the fifth |
| `Insights.HighExpenseDaysCoverFewDates` | controller.py:394 | with at most five dates, every date appears |
| `Insights.CategoryByMonth` | controller.py:292 | a cell for every category and month that occur, the sum of that category's rows in that month (0 when none) |
| `Insights.SpenderByMonth` | controller.py:300 | the same table for spenders |
| `Insights.CardByMonth` | controller.py:308 | the same table for sources |
| `Insights.EntityTablesTransposeMonthly` | controller.py:289-311 | each entity-by-month table is the transpose of the model's month-by-entity cross-tab |
| `Insights.LatestMonth` | controller.py:418 | none for an empty ledger; otherwise a month that has rows and that no row's month comes after |
| `Insights.RowsInMonth` | controller.py:419 | a row is kept exactly when it is a row of the ledger whose month is m |
| `Insights.RowsInMonthCounts` | controller.py:419 | each row of month m is kept as often as the ledger holds it, and no other row is kept |
| `Insights.RowsInMonthPositions` | controller.py:419 | the kept rows are the ledger read, in increasing order, at exactly the positions whose month is m |
| `Insights.RowsInMonthTotal` | controller.py:419 | the kept rows total the month's total in the month grouping |
| `Insights.RowsInMonthCell` | controller.py:419-420 | each category total of the kept rows is that category's cell for the month in the month-by-category cross-tab |
| `Insights.LatestMonthBudgetSummary` | controller.py:415-420 | the runtime budget summary over the latest month only: each Used is the category's cell of that month, 0 for an empty ledger |
| `Insights.LatestOfOneMonth` | controller.py:418 | a non-empty ledger whose rows all fall in month m has m as its latest month |
| `Insights.RowsOfOnlyMonth` | controller.py:419 | when every row falls in month m, the filter on m keeps the whole ledger |
| `Insights.SingleMonthBudgetSummary` | controller.py:415-420 | on a ledger of one month, restricting to the latest month changes nothing |
| `Controller.SupportedFileKinds` | controller.py:81-87 | a path ending in `.csv` or `.xlsx` is read; one ending in `.xls` or `.txt` is refused |
| `Controller.UniqueSources` | controller.py:91 | every source of the imported rows once, with no repeats |
| `Controller.UniqueSourcesFirstAppearance` | controller.py:91 | the sources come in order of their first row |
| `Controller.CreditSourceIgnoresCase` | controller.py:93 | the cash and debit test gives the same answer for a source and its lower-cased form |
| `Controller.CreditSourceExamples` | controller.py:93 | "CASH" and "HDFC Debit" are not asked about; "Visa" is |
| `Controller.ImportLimits` | controller.py:91-97 | the question loop asks at most once per source position, and a stop always follows a question |
| `Controller.ImportNeverOverwrites` | controller.py:94-97 | the import loop never overwrites a limit that already exists |
| `Controller.ImportAsksOnlyEligible` | controller.py:92-95 | a source is asked about only when, lower-cased, it is not "cash", does not contain "debit", and has no limit |
| `Controller.ImportAsksEveryEligible` | controller.py:91-95 | unless a bad answer stopped the loop, every source meeting the three conditions is asked |
| `Controller.ImportAddsOnlyAnswers` | controller.py:95-97 | every new limit belongs to a source that was asked and answered with exactly that number |
| `Controller.ImportStoresAnswers` | controller.py:95-97 | an asked source whose answer `float()` accepts ends up with exactly that limit |
| `Controller.ImportStopsAtBadAnswer` | controller.py:97-101 | a loop that stopped early stopped at its last question, whose answer `float()` refused |
| `Controller.RemoveAt` | controller.py:131 | the row at position i goes; the rows before keep their positions, the rows after move up by one, and the multiset loses exactly that row |
| `Controller.EditCell` | controller.py:212-218 | only column `col` changes; the text columns take the text as typed; Amount and Date are set exactly when the text converts, to its value |
| `Controller.EditAmountWithShownText` | controller.py:213-214 | typing an amount back as the table shows it stores exactly that amount |
| `Controller.EditDateWithShownText` | controller.py:218 | typing a date back as YYYY-MM-DD stores exactly that date |
| `Controller.SpendTrackerController.UploadData` | controller.py:77-101 | a supported file that was read replaces the whole ledger, and the limits become those of the question loop over its unique sources; otherwise nothing changes |
| `Controller.SpendTrackerController.AddExpense` | controller.py:104-124 | an accepted dialog with a numeric amount appends exactly one row at the end; otherwise nothing changes |
| `Controller.SpendTrackerController.DeleteRow` | controller.py:126-133 | a selected row that exists is removed and the rest close up; otherwise the ledger is unchanged |
| `Controller.SpendTrackerController.DeleteAllData` | controller.py:135-142 | a confirmed deletion empties the ledger and keeps the limits |
| `Controller.SpendTrackerController.AddOrUpdateCard` | controller.py:184-194 | the stripped name gets the limit exactly when the limit is numeric and the name is not empty; otherwise nothing changes |
| `Controller.SpendTrackerController.DeleteCard` | controller.py:196-200 | a non-empty stripped name loses its limit; an empty name changes nothing |
| `Controller.SpendTrackerController.SaveManualChanges` | controller.py:206-222 | a cell that converts is stored and nothing else in the ledger changes; a bad text or a missing row leaves the ledger as it was |
| `Controller.SpendTrackerController.SetBudgetLimit` | controller.py:402-413 | an accepted numeric limit sets the category's runtime limit, creating the map if needed; otherwise nothing changes |

## Left out

- File I/O is not modelled: the CSV and Excel readers, `to_csv` and the JSON files of the two limit maps. The ledger and the maps are fields, and `save_data`/`load_data` become reads and writes of the ledger field. For an import, what the reader returned is a parameter, and a reader failure is `None`.
- Qt and matplotlib are not modelled. Message boxes, dialogs, progress bars, charts and `refresh_table` are left out. Each dialog's outcome (accepted or not, the typed texts, the selected row, the answer to a card-limit question) is a parameter.
- view.py is not part of this model. The answer to `ask_for_card_limit` is a `CardReply`. "Debit" and "Cancel" are `Declined`; an entered text is `Entered`.
- `pd.to_datetime` on stored date strings is not modelled. Rows hold parsed dates, and a date string that does not parse is not modelled.
- `Ledger.Date`: the day is not checked against the month's length. The add-expense dialog offers days 01..31 for every month. In the source such a row ("2025-02-31") makes `pd.to_datetime` raise, so every month or date query fails once the ledger holds one (model.py:73, 78, 84, 90, 96; controller.py:233, 291, 299, 307, 393, 417). The model instead files the row under its month, and those queries answer.
- `Controller.SpendTrackerController.AddExpense`: an amount that `float()` refuses raises out of the handler in the source (controller.py:118 is outside any `try`). The model returns with nothing changed, which is the state the exception leaves, but it does not model the exception.
- `Controller.SpendTrackerController.DeleteRow`: a selected row past the end of the ledger makes `drop` raise `KeyError` in the source (controller.py:131). The model leaves the ledger unchanged instead of raising.
- `Controller.SpendTrackerController.SaveManualChanges`: an edited row past the end makes `iat` raise `IndexError` (controller.py:214, 218), which `except ValueError` does not catch. The model leaves the ledger unchanged instead of raising, as it does for the `ValueError` the source does catch.
- Floating point is not modelled. Amounts, sums and the fit are exact reals. `round(2)` in the tables and the `:.2f` display are left out, except for the display round trip `Text.ParseFormatCents`.
- `Text.ParseDecimal` covers a subset of `float()`: surrounding whitespace, an optional sign, and digits with at most one decimal point. Exponents, `inf`, `nan` and underscores are refused, where `float()` accepts them.
- `Text.Lower` folds ASCII letters only. Python's `str.lower` is Unicode-aware.
- `Controller.EditCell`: an edit of the Date column is parsed as YYYY-MM-DD and refused otherwise. The source stores the raw text there, and a bad date only fails later, when a query parses the column.
- `Controller.EditCell`: the Amount column is always converted with `float()`. The source uses `int()` when pandas read the column as integers.
- `Aggregation.TopN`: the order of tied totals is not specified. Pandas does not promise a stable order there either.
- `Controller.SpendTrackerController.UploadData`: a source that is not a string (an empty cell read as NaN) makes `lower()` raise in the source. The model's sources are always strings.
- The pie chart of totals per spender is not modelled separately. It shows the per-spender totals of `Aggregation.CalculateTotals`.
- The monthly trend line chart is not modelled separately. It shows `Aggregation.MonthlyTotals`.
- `Forecast.ForecastSeries`: `months_ahead` is a natural number. A negative value is not modelled.
