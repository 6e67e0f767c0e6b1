/** The data steps of SpendTrackerController's event handlers, with the Qt
    dialogs replaced by their outcomes: the path and parsed contents of an
    imported file, the user's answer to each credit-limit question, the texts
    typed into the input fields, and whether a dialog was accepted. */
module Controller {
  import opened Ledger
  import opened Text
  import opened Aggregation
  import opened Store

  // ---------------------------------------------------------------------
  // upload_data

  /** The files the importer reads; anything else is refused. */
  predicate IsSupportedFile(path: string) {
    EndsWith(path, ".csv") || EndsWith(path, ".xlsx")
  }

  /** A `.csv` or `.xlsx` path is read; an `.xls` or `.txt` path is refused. */
  lemma SupportedFileKinds(stem: string)
    ensures IsSupportedFile(stem + ".csv") && IsSupportedFile(stem + ".xlsx")
    ensures !IsSupportedFile(stem + ".xls") && !IsSupportedFile(stem + ".txt")
  {
    var a, b, c, d := stem + ".csv", stem + ".xlsx", stem + ".xls", stem + ".txt";
    assert a[|a| - 4..] == ".csv";
    assert b[|b| - 5..] == ".xlsx";
    assert c[|c| - 4..] == ".xls" && c[|c| - 1] == 's';
    assert d[|d| - 4..] == ".txt" && d[|d| - 1] == 't';
  }

  /** `data["Source"].unique()`: every source of the ledger once, in order of
      first appearance. */
  function UniqueSources(rows: seq<Row>): (u: seq<string>)
    ensures NoDuplicates(u)
    ensures forall s :: s in u <==> s in KeySet(rows, SourceOf)
  {
    if rows == [] then []
    else
      var p := rows[..|rows| - 1];
      var x := rows[|rows| - 1];
      assert rows == p + [x];
      KeySetSnoc(p, x, SourceOf);
      var u := UniqueSources(p);
      if x.source in u then u else u + [x.source]
  }

  /** The position of the first row with source `s`, or `|rows|` when none has it. */
  function FirstSourceIndex(rows: seq<Row>, s: string): (k: nat)
    ensures k <= |rows|
    ensures k < |rows| ==> rows[k].source == s
    ensures forall i :: 0 <= i < k ==> rows[i].source != s
  {
    if rows == [] then 0
    else
      var p := rows[..|rows| - 1];
      var k := FirstSourceIndex(p, s);
      if k < |p| then k
      else if rows[|rows| - 1].source == s then |p|
      else |rows|
  }

  /** `unique()` lists the sources in order of first appearance. */
  lemma {:induction false} UniqueSourcesFirstAppearance(rows: seq<Row>)
    ensures forall i, j :: 0 <= i < j < |UniqueSources(rows)| ==>
              FirstSourceIndex(rows, UniqueSources(rows)[i]) < FirstSourceIndex(rows, UniqueSources(rows)[j])
  {
    if rows != [] {
      var p, x := rows[..|rows| - 1], rows[|rows| - 1];
      UniqueSourcesFirstAppearance(p);
      var up := UniqueSources(p);
      forall c | c in up ensures FirstSourceIndex(rows, c) == FirstSourceIndex(p, c) < |p| {
        FirstSourceOfPrefix(rows, c);
      }
      if x.source in up {
        assert UniqueSources(rows) == up;
        forall i, j | 0 <= i < j < |up| ensures FirstSourceIndex(rows, up[i]) < FirstSourceIndex(rows, up[j]) {
          assert up[i] in up && up[j] in up;
        }
      } else {
        assert FirstSourceIndex(p, x.source) == |p| by {
          var k := FirstSourceIndex(p, x.source);
          assert k < |p| ==> SourceOf(p[k]) in KeySet(p, SourceOf);
        }
        var u := up + [x.source];
        assert UniqueSources(rows) == u;
        forall i, j | 0 <= i < j < |u| ensures FirstSourceIndex(rows, u[i]) < FirstSourceIndex(rows, u[j]) {
          assert u[i] == up[i] && up[i] in up;
          if j < |up| {
            assert u[j] == up[j] && up[j] in up;
          } else {
            assert FirstSourceIndex(rows, u[j]) == |p|;
          }
        }
      }
    }
  }

  /** A source that occurs before the last row keeps its first position. */
  lemma FirstSourceOfPrefix(rows: seq<Row>, c: string)
    requires rows != [] && c in KeySet(rows[..|rows| - 1], SourceOf)
    ensures FirstSourceIndex(rows, c) == FirstSourceIndex(rows[..|rows| - 1], c) < |rows| - 1
  {
    var p := rows[..|rows| - 1];
    var a :| 0 <= a < |p| && SourceOf(p[a]) == c;
  }

  /** A source that names a card with a credit line: lower-cased, it is not
      "cash" and does not contain "debit". */
  predicate IsCreditSource(source: string) {
    Lower(source) != "cash" && !Contains(Lower(source), "debit")
  }

  /** The test ignores case: a source and its lower-cased form agree. */
  lemma CreditSourceIgnoresCase(source: string)
    ensures IsCreditSource(source) <==> IsCreditSource(Lower(source))
  {
    LowerIdempotent(source);
  }

  /** Cash and debit cards are not asked about, whatever their case. */
  lemma CreditSourceExamples()
    ensures !IsCreditSource("CASH")
    ensures !IsCreditSource("HDFC Debit")
    ensures IsCreditSource("Visa")
  {
    assert Lower("CASH") == "cash";
    assert Lower("HDFC Debit") == "hdfc debit";
    assert OccursAt("hdfc debit", "debit", 5);
    ContainsOccurrence("hdfc debit", "debit");
    assert Lower("Visa") == "visa";
    assert !Contains("visa", "debit") by {
      assert !Contains("", "debit");
      assert !Contains("a", "debit");
      assert !Contains("sa", "debit");
      assert !Contains("isa", "debit");
    }
  }

  /** A source is asked for a limit when it names a credit card that has no
      limit yet. */
  predicate NeedsCreditLimit(source: string, limits: map<string, real>) {
    IsCreditSource(source) && source !in limits
  }

  /** What the user does with the credit-limit question for one source:
      declines it (Debit, or Cancel), or enters a limit as text. */
  datatype CardReply = Declined | Entered(text: string)

  /** The limits after the question loop, the sources asked in order, and
      whether an entered limit that is not a number stopped the loop. */
  datatype ImportOutcome = ImportOutcome(limits: map<string, real>, asked: seq<string>, aborted: bool)

  /** The credit-limit loop of the importer over `sources`, as a function:
      each source that needs a limit is asked once; an entered number becomes
      its limit; an entered text that float() refuses ends the whole import
      with the limits added so far. */
  function ImportLimits(sources: seq<string>, limits: map<string, real>, reply: string -> CardReply): (o: ImportOutcome)
    ensures |o.asked| <= |sources|
    ensures o.aborted ==> o.asked != []
  {
    if sources == [] then ImportOutcome(limits, [], false)
    else
      var s := sources[0];
      if !NeedsCreditLimit(s, limits) then ImportLimits(sources[1..], limits, reply)
      else match reply(s)
        case Declined =>
          var rest := ImportLimits(sources[1..], limits, reply);
          ImportOutcome(rest.limits, [s] + rest.asked, rest.aborted)
        case Entered(t) =>
          match ParseDecimal(t)
          case None => ImportOutcome(limits, [s], true)
          case Some(v) =>
            var rest := ImportLimits(sources[1..], limits[s := v], reply);
            ImportOutcome(rest.limits, [s] + rest.asked, rest.aborted)
  }

  /** The loop never overwrites a limit that was already there. */
  lemma {:induction false} ImportNeverOverwrites(sources: seq<string>, limits: map<string, real>, reply: string -> CardReply)
    ensures var o := ImportLimits(sources, limits, reply);
            forall c :: c in limits ==> c in o.limits && o.limits[c] == limits[c]
  {
    if sources != [] {
      var s := sources[0];
      if !NeedsCreditLimit(s, limits) {
        ImportNeverOverwrites(sources[1..], limits, reply);
      } else if reply(s).Declined? {
        ImportNeverOverwrites(sources[1..], limits, reply);
      } else if ParseDecimal(reply(s).text).Some? {
        var l := limits[s := ParseDecimal(reply(s).text).value];
        ImportNeverOverwrites(sources[1..], l, reply);
        assert forall c :: c in limits ==> c in l && l[c] == limits[c];
      }
    }
  }

  /** Every source the loop asks about met the three conditions against the
      limits the loop started from, and appears among the sources. */
  lemma {:induction false} ImportAsksOnlyEligible(sources: seq<string>, limits: map<string, real>, reply: string -> CardReply)
    ensures var o := ImportLimits(sources, limits, reply);
            forall s :: s in o.asked ==> s in sources && NeedsCreditLimit(s, limits)
  {
    if sources != [] {
      var s := sources[0];
      var o := ImportLimits(sources, limits, reply);
      if !NeedsCreditLimit(s, limits) {
        ImportAsksOnlyEligible(sources[1..], limits, reply);
      } else if reply(s).Declined? {
        ImportAsksOnlyEligible(sources[1..], limits, reply);
      } else if ParseDecimal(reply(s).text).Some? {
        var l := limits[s := ParseDecimal(reply(s).text).value];
        ImportAsksOnlyEligible(sources[1..], l, reply);
        assert forall x :: NeedsCreditLimit(x, l) ==> NeedsCreditLimit(x, limits);
      }
    }
  }

  /** A new limit belongs to a source that was asked and answered with that
      number. */
  lemma {:induction false} ImportAddsOnlyAnswers(sources: seq<string>, limits: map<string, real>, reply: string -> CardReply)
    ensures var o := ImportLimits(sources, limits, reply);
            forall c :: c in o.limits && c !in limits ==>
              c in o.asked && reply(c).Entered? && ParseDecimal(reply(c).text) == Some(o.limits[c])
  {
    if sources != [] {
      var s := sources[0];
      if !NeedsCreditLimit(s, limits) {
        ImportAddsOnlyAnswers(sources[1..], limits, reply);
      } else if reply(s).Declined? {
        ImportAddsOnlyAnswers(sources[1..], limits, reply);
      } else if ParseDecimal(reply(s).text).Some? {
        var v := ParseDecimal(reply(s).text).value;
        ImportAddsOnlyAnswers(sources[1..], limits[s := v], reply);
        ImportNeverOverwrites(sources[1..], limits[s := v], reply);
      }
    }
  }

  /** An asked source whose answer `float()` accepts ends up with exactly
      that limit. */
  lemma {:induction false} ImportStoresAnswers(sources: seq<string>, limits: map<string, real>, reply: string -> CardReply)
    ensures var o := ImportLimits(sources, limits, reply);
            forall c :: c in o.asked && reply(c).Entered? && ParseDecimal(reply(c).text).Some? ==>
              c in o.limits && o.limits[c] == ParseDecimal(reply(c).text).value
  {
    if sources != [] {
      var s := sources[0];
      if !NeedsCreditLimit(s, limits) {
        ImportStoresAnswers(sources[1..], limits, reply);
      } else if reply(s).Declined? {
        ImportStoresAnswers(sources[1..], limits, reply);
      } else if ParseDecimal(reply(s).text).Some? {
        var l := limits[s := ParseDecimal(reply(s).text).value];
        ImportStoresAnswers(sources[1..], l, reply);
        ImportNeverOverwrites(sources[1..], l, reply);
      }
    }
  }

  /** Unless a bad answer stopped it, the loop asks about every source that
      needs a limit. */
  lemma {:induction false} ImportAsksEveryEligible(sources: seq<string>, limits: map<string, real>, reply: string -> CardReply)
    ensures var o := ImportLimits(sources, limits, reply);
            !o.aborted ==> forall s :: s in sources && NeedsCreditLimit(s, limits) ==> s in o.asked
  {
    if sources != [] {
      var s := sources[0];
      var rest := sources[1..];
      assert forall x :: x in sources ==> x == s || x in rest;
      if !NeedsCreditLimit(s, limits) {
        ImportAsksEveryEligible(rest, limits, reply);
      } else if reply(s).Declined? {
        ImportAsksEveryEligible(rest, limits, reply);
      } else if ParseDecimal(reply(s).text).Some? {
        var l := limits[s := ParseDecimal(reply(s).text).value];
        ImportAsksEveryEligible(rest, l, reply);
        assert forall x :: x != s && NeedsCreditLimit(x, limits) ==> NeedsCreditLimit(x, l);
      }
    }
  }

  /** A stopped loop stopped at its last question, whose answer was not a
      number. */
  lemma {:induction false} ImportStopsAtBadAnswer(sources: seq<string>, limits: map<string, real>, reply: string -> CardReply)
    ensures var o := ImportLimits(sources, limits, reply);
            o.aborted ==> o.asked != [] && reply(o.asked[|o.asked| - 1]).Entered?
                          && ParseDecimal(reply(o.asked[|o.asked| - 1]).text).None?
  {
    if sources != [] {
      var s := sources[0];
      if !NeedsCreditLimit(s, limits) {
        ImportStopsAtBadAnswer(sources[1..], limits, reply);
      } else if reply(s).Declined? {
        ImportStopsAtBadAnswer(sources[1..], limits, reply);
        StopCarriesOver(s, ImportLimits(sources[1..], limits, reply), reply);
      } else if ParseDecimal(reply(s).text).Some? {
        var l := limits[s := ParseDecimal(reply(s).text).value];
        ImportStopsAtBadAnswer(sources[1..], l, reply);
        StopCarriesOver(s, ImportLimits(sources[1..], l, reply), reply);
      }
    }
  }

  /** Asking `s` first does not change which question the loop stopped at. */
  lemma StopCarriesOver(s: string, rest: ImportOutcome, reply: string -> CardReply)
    requires rest.aborted ==> rest.asked != [] && reply(rest.asked[|rest.asked| - 1]).Entered?
                              && ParseDecimal(reply(rest.asked[|rest.asked| - 1]).text).None?
    ensures var o := ImportOutcome(rest.limits, [s] + rest.asked, rest.aborted);
            o.aborted ==> o.asked != [] && reply(o.asked[|o.asked| - 1]).Entered?
                          && ParseDecimal(reply(o.asked[|o.asked| - 1]).text).None?
  {
    if rest.aborted {
      assert ([s] + rest.asked)[|rest.asked|] == rest.asked[|rest.asked| - 1];
    }
  }

  /** The outcome of a loop that has already asked `asked` and then runs
      over the remaining sources. */
  function After(asked: seq<string>, o: ImportOutcome): ImportOutcome {
    ImportOutcome(o.limits, asked + o.asked, o.aborted)
  }

  /** One step of the loop: what asking about the first source leaves for
      the rest. */
  lemma ImportFirst(sources: seq<string>, limits: map<string, real>, reply: string -> CardReply)
    requires sources != []
    ensures var s, o := sources[0], ImportLimits(sources, limits, reply);
            && (!NeedsCreditLimit(s, limits) ==> o == ImportLimits(sources[1..], limits, reply))
            && (NeedsCreditLimit(s, limits) && reply(s).Declined? ==>
                  o == After([s], ImportLimits(sources[1..], limits, reply)))
            && (NeedsCreditLimit(s, limits) && reply(s).Entered? && ParseDecimal(reply(s).text).None? ==>
                  o == ImportOutcome(limits, [s], true))
            && (NeedsCreditLimit(s, limits) && reply(s).Entered? && ParseDecimal(reply(s).text).Some? ==>
                  o == After([s], ImportLimits(sources[1..], limits[s := ParseDecimal(reply(s).text).value], reply)))
  {
  }

  lemma AfterAfter(a: seq<string>, b: seq<string>, o: ImportOutcome)
    ensures After(a, After(b, o)) == After(a + b, o)
  {
    assert a + (b + o.asked) == (a + b) + o.asked;
  }

  // ---------------------------------------------------------------------
  // delete_row

  /** `drop(index=i).reset_index(drop=True)`: the row at position `i` goes,
      the others keep their relative order. */
  function RemoveAt(s: seq<Row>, i: nat): (r: seq<Row>)
    requires i < |s|
    ensures |r| == |s| - 1
    ensures forall j :: 0 <= j < i ==> r[j] == s[j]
    ensures forall j :: i <= j < |r| ==> r[j] == s[j + 1]
    ensures multiset(r) + multiset{s[i]} == multiset(s)
  {
    assert s == s[..i] + [s[i]] + s[i + 1..];
    s[..i] + s[i + 1..]
  }

  // ---------------------------------------------------------------------
  // save_manual_changes

  /** `a` and `b` agree on every column except column `col`. */
  predicate SameExcept(a: Row, b: Row, col: nat) {
    && (col != 0 ==> a.date == b.date)
    && (col != 1 ==> a.source == b.source)
    && (col != 2 ==> a.description == b.description)
    && (col != 3 ==> a.category == b.category)
    && (col != 4 ==> a.spender == b.spender)
    && (col != 5 ==> a.amount == b.amount)
  }

  /** The row with cell `col` set from the edited text: the text columns take
      the text as it is, Amount takes float() of it, Date a YYYY-MM-DD date;
      `None` when the text does not convert. */
  function EditCell(r: Row, col: nat, text: string): (e: Option<Row>)
    requires col < ColumnCount
    ensures e.Some? ==> SameExcept(r, e.value, col)
    ensures col == 0 ==> (e.Some? <==> ParseDate(text).Some?) && (e.Some? ==> e.value.date == ParseDate(text).value)
    ensures 1 <= col <= 4 ==> e.Some?
    ensures col == 1 ==> e.Some? && e.value.source == text
    ensures col == 2 ==> e.Some? && e.value.description == text
    ensures col == 3 ==> e.Some? && e.value.category == text
    ensures col == 4 ==> e.Some? && e.value.spender == text
    ensures col == 5 ==> (e.Some? <==> ParseDecimal(text).Some?) && (e.Some? ==> e.value.amount == ParseDecimal(text).value)
  {
    match col
    case 0 => (match ParseDate(text) case None => None case Some(d) => Some(r.(date := d)))
    case 1 => Some(r.(source := text))
    case 2 => Some(r.(description := text))
    case 3 => Some(r.(category := text))
    case 4 => Some(r.(spender := text))
    case _ => (match ParseDecimal(text) case None => None case Some(v) => Some(r.(amount := v)))
  }

  /** Typing back the amount as the table shows it (two decimals) stores
      exactly that amount. */
  lemma EditAmountWithShownText(r: Row, cents: int)
    ensures EditCell(r, 5, FormatCents(cents)) == Some(r.(amount := cents as real / 100.0))
  {
    ParseFormatCents(cents);
    assert ParseDecimal(FormatCents(cents)) == Some(cents as real / 100.0);
  }

  /** Typing a date back as YYYY-MM-DD stores exactly that date. */
  lemma EditDateWithShownText(r: Row, d: Date)
    requires d.year >= 0
    ensures EditCell(r, 0, FormatDate(d)) == Some(r.(date := d))
  {
    ParseFormatDate(d);
  }

  // ---------------------------------------------------------------------
  // The controller

  class SpendTrackerController {
    const model: SpendTrackerModel

    constructor (model: SpendTrackerModel)
      ensures this.model == model
    {
      this.model := model;
    }

    /** upload_data: a supported file that reads replaces the whole ledger;
        then every new source that needs a credit limit is asked for one. */
    method UploadData(path: string, parsed: Option<seq<Row>>, reply: string -> CardReply) returns (asked: seq<string>)
      modifies model
      ensures path == [] || !IsSupportedFile(path) || parsed.None? ==>
                asked == [] && model.ledger == old(model.ledger) && model.creditLimits == old(model.creditLimits)
      ensures path != [] && IsSupportedFile(path) && parsed.Some? ==>
                var o := ImportLimits(UniqueSources(parsed.value), old(model.creditLimits), reply);
                model.ledger == parsed.value && model.creditLimits == o.limits && asked == o.asked
      ensures model.budgets == old(model.budgets) && model.budgetLimits == old(model.budgetLimits)
    {
      asked := [];
      if path == [] || !IsSupportedFile(path) || parsed.None? {
        return;
      }
      var rows := parsed.value;
      model.SaveData(rows);
      var sources := UniqueSources(rows);
      ghost var target := ImportLimits(sources, model.creditLimits, reply);
      var i := 0;
      while i < |sources|
        invariant 0 <= i <= |sources|
        invariant model.ledger == rows
        invariant model.budgets == old(model.budgets) && model.budgetLimits == old(model.budgetLimits)
        invariant target == After(asked, ImportLimits(sources[i..], model.creditLimits, reply))
      {
        var source := sources[i];
        assert sources[i..][0] == source && sources[i..][1..] == sources[i + 1..];
        ImportFirst(sources[i..], model.creditLimits, reply);
        if IsCreditSource(source) {
          if source !in model.creditLimits {
            AfterAfter(asked, [source], ImportLimits(sources[i + 1..], model.creditLimits, reply));
            asked := asked + [source];
            match reply(source)
            case Declined =>
            case Entered(text) =>
              var limit := ParseDecimal(text);
              if limit.None? {
                return;
              }
              AfterAfter(asked[..|asked| - 1], [source],
                         ImportLimits(sources[i + 1..], model.creditLimits[source := limit.value], reply));
              model.AddCreditLimit(source, limit.value);
          }
        }
        i := i + 1;
      }
    }

    /** add_expense: an accepted dialog with a numeric amount appends one row
        at the end of the ledger; otherwise nothing is saved. */
    method AddExpense(accepted: bool, date: Date, source: string, description: string,
                      category: string, spender: string, amountText: string) returns (added: bool)
      modifies model
      ensures added <==> accepted && ParseDecimal(amountText).Some?
      ensures added ==> model.ledger == old(model.ledger)
                          + [Row(date, source, description, category, spender, ParseDecimal(amountText).value)]
      ensures !added ==> model.ledger == old(model.ledger)
      ensures model.creditLimits == old(model.creditLimits) && model.budgets == old(model.budgets)
      ensures model.budgetLimits == old(model.budgetLimits)
    {
      added := false;
      if accepted {
        var amount := ParseDecimal(amountText);
        if amount.Some? {
          var row := Row(date, source, description, category, spender, amount.value);
          model.SaveData(model.ledger + [row]);
          added := true;
        }
      }
    }

    /** delete_row: the selected row goes and the rest close up; no selection
        (a negative row) or a row past the end changes nothing. */
    method DeleteRow(selectedRow: int)
      modifies model
      ensures 0 <= selectedRow < |old(model.ledger)| ==> model.ledger == RemoveAt(old(model.ledger), selectedRow)
      ensures !(0 <= selectedRow < |old(model.ledger)|) ==> model.ledger == old(model.ledger)
      ensures model.creditLimits == old(model.creditLimits) && model.budgets == old(model.budgets)
      ensures model.budgetLimits == old(model.budgetLimits)
    {
      if selectedRow >= 0 {
        if selectedRow < |model.ledger| {
          model.SaveData(RemoveAt(model.ledger, selectedRow));
        }
      }
    }

    /** delete_all_data: a confirmed deletion empties the ledger. */
    method DeleteAllData(confirmed: bool)
      modifies model
      ensures confirmed ==> model.ledger == []
      ensures !confirmed ==> model.ledger == old(model.ledger)
      ensures model.creditLimits == old(model.creditLimits) && model.budgets == old(model.budgets)
      ensures model.budgetLimits == old(model.budgetLimits)
    {
      if confirmed {
        model.ClearData();
      }
    }

    /** add_or_update_card: the stripped name gets the limit, provided the
        limit is a number and the name is not empty. */
    method AddOrUpdateCard(nameText: string, limitText: string) returns (updated: bool)
      modifies model
      ensures updated <==> ParseDecimal(limitText).Some? && Strip(nameText) != []
      ensures updated ==> model.creditLimits == Put(old(model.creditLimits), Strip(nameText), ParseDecimal(limitText).value)
      ensures !updated ==> model.creditLimits == old(model.creditLimits)
      ensures model.ledger == old(model.ledger) && model.budgets == old(model.budgets)
      ensures model.budgetLimits == old(model.budgetLimits)
    {
      updated := false;
      var name := Strip(nameText);
      var limit := ParseDecimal(limitText);
      if limit.Some? {
        if name != [] {
          model.AddCreditLimit(name, limit.value);
          updated := true;
        }
      }
    }

    /** delete_card: the stripped name loses its limit; an empty name
        changes nothing. */
    method DeleteCard(comboText: string)
      modifies model
      ensures Strip(comboText) != [] ==> model.creditLimits == Remove(old(model.creditLimits), Strip(comboText))
      ensures Strip(comboText) == [] ==> model.creditLimits == old(model.creditLimits)
      ensures model.ledger == old(model.ledger) && model.budgets == old(model.budgets)
      ensures model.budgetLimits == old(model.budgetLimits)
    {
      var name := Strip(comboText);
      if name != [] {
        model.DeleteCreditCard(name);
      }
    }

    /** save_manual_changes: the edited cell is converted to its column's
        type and stored; text that does not convert, or a row that does not
        exist, leaves the ledger as it was. An edit outside the six columns
        saves the ledger unchanged. */
    method SaveManualChanges(row: nat, col: nat, text: string) returns (saved: bool)
      modifies model
      ensures col >= ColumnCount ==> saved && model.ledger == old(model.ledger)
      ensures col < ColumnCount && row >= |old(model.ledger)| ==> !saved && model.ledger == old(model.ledger)
      ensures col < ColumnCount && row < |old(model.ledger)| ==>
                var e := EditCell(old(model.ledger)[row], col, text);
                (saved <==> e.Some?)
                && (saved ==> model.ledger == old(model.ledger)[row := e.value])
                && (!saved ==> model.ledger == old(model.ledger))
      ensures model.creditLimits == old(model.creditLimits) && model.budgets == old(model.budgets)
      ensures model.budgetLimits == old(model.budgetLimits)
    {
      if col >= ColumnCount {
        model.SaveData(model.ledger);
        return true;
      }
      if row >= |model.ledger| {
        return false;
      }
      var edited := EditCell(model.ledger[row], col, text);
      if edited.None? {
        return false;
      }
      model.SaveData(model.ledger[row := edited.value]);
      saved := true;
    }

    /** set_budget_limit: an accepted dialog with a numeric limit sets the
        category's runtime budget limit. */
    method SetBudgetLimit(accepted: bool, category: string, limitText: string) returns (stored: bool)
      modifies model
      ensures stored <==> accepted && ParseDecimal(limitText).Some?
      ensures stored ==> model.budgetLimits.Some? && category in model.budgetLimits.value
      ensures stored ==> model.budgetLimits.value[category] == ParseDecimal(limitText).value
      ensures stored && old(model.budgetLimits).Some? ==>
                model.budgetLimits.value == Put(old(model.budgetLimits).value, category, ParseDecimal(limitText).value)
      ensures stored && old(model.budgetLimits).None? ==> model.budgetLimits.value.Keys == {category}
      ensures !stored ==> model.budgetLimits == old(model.budgetLimits)
      ensures model.ledger == old(model.ledger) && model.creditLimits == old(model.creditLimits)
      ensures model.budgets == old(model.budgets)
    {
      stored := false;
      if accepted {
        var limit := ParseDecimal(limitText);
        if limit.Some? {
          model.SetBudgetLimit(category, limit.value);
          stored := true;
        }
      }
    }
  }
}
