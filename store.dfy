/** SpendTrackerModel's state and the operations that change it in place: the
    ledger (the rows of the ledger file), the credit limits per card, the
    persisted budgets per category, and the runtime-only budget limits, which
    do not exist until the first set_budget_limit. */
module Store {
  import opened Ledger

  /** `dict[key] = value`, as a function: the key is present afterwards with
      the new value and every other key keeps its value. */
  function Put(m: map<string, real>, key: string, value: real): (r: map<string, real>)
    ensures r.Keys == m.Keys + {key}
    ensures r[key] == value
    ensures forall k :: k in m && k != key ==> r[k] == m[k]
  {
    m[key := value]
  }

  /** `if key in dict: del dict[key]`: exactly that key disappears; an absent
      key changes nothing. */
  function Remove(m: map<string, real>, key: string): (r: map<string, real>)
    ensures r.Keys == m.Keys - {key}
    ensures forall k :: k in r ==> r[k] == m[k]
    ensures key !in m ==> r == m
  {
    if key in m then m - {key} else m
  }

  /** Putting a key and then removing it leaves the map as if the key had
      only been removed. */
  lemma RemoveAfterPut(m: map<string, real>, key: string, value: real)
    ensures Remove(Put(m, key, value), key) == Remove(m, key)
  {
  }

  /** Putting twice under the same key keeps only the second value. */
  lemma PutOverwrites(m: map<string, real>, key: string, a: real, b: real)
    ensures Put(Put(m, key, a), key, b) == Put(m, key, b)
  {
  }

  class SpendTrackerModel {
    var ledger: seq<Row>
    var creditLimits: map<string, real>
    var budgets: map<string, real>
    var budgetLimits: Option<map<string, real>>

    /** A model over the rows and limit maps read at start-up (an empty
        ledger and empty maps when their files do not exist). */
    constructor (rows: seq<Row>, cards: map<string, real>, persistedBudgets: map<string, real>)
      ensures ledger == rows && creditLimits == cards && budgets == persistedBudgets
      ensures budgetLimits.None?
    {
      ledger := rows;
      creditLimits := cards;
      budgets := persistedBudgets;
      budgetLimits := None;
    }

    /** save_data: the ledger becomes `rows`, whatever it held before. */
    method SaveData(rows: seq<Row>)
      modifies this
      ensures ledger == rows
      ensures creditLimits == old(creditLimits) && budgets == old(budgets) && budgetLimits == old(budgetLimits)
    {
      ledger := rows;
    }

    /** clear_data: an empty ledger with the same columns. */
    method ClearData()
      modifies this
      ensures ledger == []
      ensures creditLimits == old(creditLimits) && budgets == old(budgets) && budgetLimits == old(budgetLimits)
    {
      ledger := [];
    }

    /** add_credit_limit: inserts or overwrites one card's limit. */
    method AddCreditLimit(card: string, limit: real)
      modifies this
      ensures creditLimits == Put(old(creditLimits), card, limit)
      ensures ledger == old(ledger) && budgets == old(budgets) && budgetLimits == old(budgetLimits)
    {
      creditLimits := Put(creditLimits, card, limit);
    }

    /** delete_credit_card: removes the card if it has a limit. */
    method DeleteCreditCard(card: string)
      modifies this
      ensures creditLimits == Remove(old(creditLimits), card)
      ensures ledger == old(ledger) && budgets == old(budgets) && budgetLimits == old(budgetLimits)
    {
      if card in creditLimits {
        creditLimits := Remove(creditLimits, card);
      }
    }

    /** set_budget_limit: creates the runtime limits on first use and sets one
        category's limit there; the persisted budgets are not touched. */
    method SetBudgetLimit(category: string, limit: real)
      modifies this
      ensures budgetLimits.Some?
      ensures old(budgetLimits).None? ==> budgetLimits.value == map[category := limit]
      ensures old(budgetLimits).Some? ==> budgetLimits.value == Put(old(budgetLimits).value, category, limit)
      ensures ledger == old(ledger) && creditLimits == old(creditLimits) && budgets == old(budgets)
    {
      var limits := if budgetLimits.None? then map[] else budgetLimits.value;
      budgetLimits := Some(Put(limits, category, limit));
    }

    /** delete_budget_limit: removes the category from the persisted budgets
        only; the runtime limits keep it. */
    method DeleteBudgetLimit(category: string)
      modifies this
      ensures budgets == Remove(old(budgets), category)
      ensures ledger == old(ledger) && creditLimits == old(creditLimits) && budgetLimits == old(budgetLimits)
    {
      if category in budgets {
        budgets := Remove(budgets, category);
      }
    }
  }
}
