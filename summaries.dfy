/** The three limit summaries of the model: credit usage per card, the clamped
    budget usage over the persisted budgets, and the bare used/limit summary
    over the runtime-only budget limits. */
module Summaries {
  import opened Ledger
  import opened Aggregation

  // ---------------------------------------------------------------------
  // calculate_credit_summary

  datatype CreditUsage = CreditUsage(used: real, remaining: real)

  /** One entry per card that has a limit; Used is what the card's rows add
      up to (0 when it has none) and Remaining is the limit minus Used,
      negative once the card is over its limit. */
  function CreditSummary(rows: seq<Row>, creditLimits: map<string, real>): (s: map<string, CreditUsage>)
    ensures s.Keys == creditLimits.Keys
    ensures forall card :: card in s ==> s[card].used == GroupTotal(rows, SourceOf, card)
    ensures forall card :: card in s ==> s[card].used + s[card].remaining == creditLimits[card]
  {
    var usage := GroupSums(rows, SourceOf);
    var s := map card | card in creditLimits ::
      CreditUsage(GetOrZero(usage, card), creditLimits[card] - GetOrZero(usage, card));
    assert forall card :: card in s ==> s[card].used == GroupTotal(rows, SourceOf, card) by {
      forall card | card in s ensures s[card].used == GroupTotal(rows, SourceOf, card) {
        GetOrZeroIsGroupTotal(rows, SourceOf, card);
      }
    }
    s
  }

  /** Remaining is not clamped: it is negative exactly when the card's rows
      add up to more than its limit. */
  lemma CreditRemainingNegativeIffOverLimit(rows: seq<Row>, creditLimits: map<string, real>, card: string)
    requires card in creditLimits
    ensures CreditSummary(rows, creditLimits)[card].remaining < 0.0
            <==> GroupTotal(rows, SourceOf, card) > creditLimits[card]
  {
  }

  /** A card with a limit but no rows shows Used 0 and its whole limit remaining. */
  lemma CreditUnusedCard(rows: seq<Row>, creditLimits: map<string, real>, card: string)
    requires card in creditLimits
    requires forall i :: 0 <= i < |rows| ==> rows[i].source != card
    ensures CreditSummary(rows, creditLimits)[card] == CreditUsage(0.0, creditLimits[card])
  {
    assert card !in KeySet(rows, SourceOf);
    GroupTotalAbsent(rows, SourceOf, card);
  }

  // ---------------------------------------------------------------------
  // calculate_budget_usage

  datatype BudgetUsage = BudgetUsage(limit: real, used: real, remaining: real, exceeded: bool)

  function Max(a: real, b: real): (m: real)
    ensures m >= a && m >= b && (m == a || m == b)
  {
    if a >= b then a else b
  }

  /** One category's line of the budget usage: the part of the limit left,
      never below 0, and whether the limit was exceeded. */
  function UsageAgainst(limit: real, used: real): (u: BudgetUsage)
    ensures u.limit == limit && u.used == used
    ensures u.remaining >= 0.0 && u.remaining >= limit - used
    ensures u.remaining == 0.0 || u.remaining == limit - used
    ensures u.exceeded <==> used > limit
  {
    BudgetUsage(limit, used, Max(0.0, limit - used), used > limit)
  }

  /** One entry per persisted budget: its limit, what the category's rows
      add up to, the part of the limit left and whether it was exceeded. */
  function BudgetUsageSummary(rows: seq<Row>, budgets: map<string, real>): (s: map<string, BudgetUsage>)
    ensures s.Keys == budgets.Keys
    ensures forall c :: c in s ==> s[c] == UsageAgainst(budgets[c], GroupTotal(rows, CategoryOf, c))
  {
    var usage := GroupSums(rows, CategoryOf);
    var s := map c | c in budgets :: UsageAgainst(budgets[c], GetOrZero(usage, c));
    assert forall c :: c in s ==> s[c] == UsageAgainst(budgets[c], GroupTotal(rows, CategoryOf, c)) by {
      forall c | c in s ensures s[c] == UsageAgainst(budgets[c], GroupTotal(rows, CategoryOf, c)) {
        GetOrZeroIsGroupTotal(rows, CategoryOf, c);
      }
    }
    s
  }

  /** The flag and the remainder agree: an exceeded budget has nothing left,
      and a budget that is not exceeded has exactly limit minus used left. */
  lemma ExceededMeansNothingRemains(rows: seq<Row>, budgets: map<string, real>, c: string)
    requires c in budgets
    ensures var u := BudgetUsageSummary(rows, budgets)[c];
            (u.exceeded ==> u.remaining == 0.0) && (!u.exceeded ==> u.remaining == u.limit - u.used)
  {
  }

  // ---------------------------------------------------------------------
  // calculate_budget_summary

  datatype BudgetLine = BudgetLine(used: real, limit: real)

  /** Over the runtime budget limits, which do not exist until the first
      call of set_budget_limit: no summary at all before that, afterwards one
      entry per category with a limit. */
  function BudgetSummary(rows: seq<Row>, budgetLimits: Option<map<string, real>>): (s: map<string, BudgetLine>)
    ensures budgetLimits.None? ==> s == map[]
    ensures budgetLimits.Some? ==> s.Keys == budgetLimits.value.Keys
    ensures budgetLimits.Some? ==> forall c :: c in s ==>
              s[c] == BudgetLine(GroupTotal(rows, CategoryOf, c), budgetLimits.value[c])
  {
    match budgetLimits
    case None => map[]
    case Some(limits) =>
      var usage := GroupSums(rows, CategoryOf);
      var s := map c | c in limits :: BudgetLine(GetOrZero(usage, c), limits[c]);
      assert forall c :: c in s ==> s[c] == BudgetLine(GroupTotal(rows, CategoryOf, c), limits[c]) by {
        forall c | c in s ensures s[c] == BudgetLine(GroupTotal(rows, CategoryOf, c), limits[c]) {
          GetOrZeroIsGroupTotal(rows, CategoryOf, c);
        }
      }
      s
  }

  /** Where a category has the same limit in both maps, the two budget
      summaries report the same limit and the same usage for it. */
  lemma BudgetSummariesAgree(rows: seq<Row>, budgets: map<string, real>, limits: map<string, real>, c: string)
    requires c in budgets && c in limits && budgets[c] == limits[c]
    ensures var u := BudgetUsageSummary(rows, budgets)[c];
            var b := BudgetSummary(rows, Some(limits))[c];
            u.used == b.used && u.limit == b.limit
  {
  }
}
