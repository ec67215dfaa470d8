/**
  The monthly overview tab: the months with records, newest first, of which
  the six newest get a tab; and per tab, the month's envelope table (SOLL,
  IST, `Verfügbar` and `Genutzt %` per category) with the three totals
  `Gesamt Budget`, `Gesamt Ausgaben` and `Restbetrag`. Each month is
  computed from that month's records alone: nothing carries over.
*/
module Overview {
  import opened Ledger
  import opened Ordering
  import opened Periods
  import opened Pivot

  /** How many month tabs are shown. */
  const MAX_MONTH_TABS: nat := 6

  /** The consecutive month numbers of the records' year-month keys. */
  function MonthIndexes(log: seq<Transaction>): (xs: seq<int>)
    ensures forall x :: x in xs <==> exists t :: t in log && Index(MonthOf(t.date)) == x
  {
    if log == [] then []
    else
      assert forall t :: t in log <==> t == log[0] || t in log[1..];
      [Index(MonthOf(log[0].date))] + MonthIndexes(log[1..])
  }

  function ToMonths(xs: seq<int>): (ms: seq<YearMonth>)
    ensures |ms| == |xs|
    ensures forall i :: 0 <= i < |xs| ==> ms[i] == FromIndex(xs[i])
  {
    if xs == [] then [] else [FromIndex(xs[0])] + ToMonths(xs[1..])
  }

  /** `sorted(df['year_month'].unique(), reverse=True)`. */
  function AvailableMonths(log: seq<Transaction>): (ms: seq<YearMonth>)
    ensures ms == [] <==> log == []
  {
    var xs := UniqueDescending(MonthIndexes(log));
    assert log != [] ==> Index(MonthOf(log[0].date)) in xs;
    assert xs != [] ==> xs[0] in xs;
    ToMonths(xs)
  }

  /** The months that get a tab: `available_months[:6]`. */
  function ShownMonths(log: seq<Transaction>): (shown: seq<YearMonth>)
    ensures |shown| == if |AvailableMonths(log)| <= MAX_MONTH_TABS then |AvailableMonths(log)| else MAX_MONTH_TABS
    ensures shown == AvailableMonths(log)[..|shown|]
  {
    var ms := AvailableMonths(log);
    if |ms| <= MAX_MONTH_TABS then ms else ms[..MAX_MONTH_TABS]
  }

  /** The month list holds each month with a record exactly once, newest first. */
  lemma AvailableMonthsSorted(log: seq<Transaction>)
    ensures var ms := AvailableMonths(log);
      && (forall i, j :: 0 <= i < j < |ms| ==> Newer(ms[i], ms[j]))
      && (forall m :: m in ms <==> exists t :: t in log && MonthOf(t.date) == m)
  {
    var xs := UniqueDescending(MonthIndexes(log));
    var ms := AvailableMonths(log);
    forall m ensures m in ms <==> exists t :: t in log && MonthOf(t.date) == m {
      FromIndexOfIndex(m);
      if m in ms {
        var i :| 0 <= i < |ms| && ms[i] == m;
        assert xs[i] in xs;
        var t :| t in log && Index(MonthOf(t.date)) == xs[i];
        FromIndexOfIndex(MonthOf(t.date));
      }
      if exists t :: t in log && MonthOf(t.date) == m {
        var t :| t in log && MonthOf(t.date) == m;
        assert Index(m) in xs;
        var i :| 0 <= i < |xs| && xs[i] == Index(m);
        assert ms[i] == m;
      }
    }
  }

  /**
    At most six months get a tab; they are the newest months with records,
    newest first and without repeats: every record's month either has a tab
    or is older than every month that has one. Fewer than six tabs are shown
    only when every month with records has one; a non-empty log shows at
    least one month.
  */
  lemma ShownMonthsNewest(log: seq<Transaction>)
    ensures var shown := ShownMonths(log);
      && |shown| <= MAX_MONTH_TABS
      && (forall i, j :: 0 <= i < j < |shown| ==> Newer(shown[i], shown[j]))
      && (forall i :: 0 <= i < |shown| ==> exists t :: t in log && MonthOf(t.date) == shown[i])
      && (forall t :: t in log ==>
            MonthOf(t.date) in shown || forall i :: 0 <= i < |shown| ==> Newer(shown[i], MonthOf(t.date)))
      && (|shown| == MAX_MONTH_TABS || forall t :: t in log ==> MonthOf(t.date) in shown)
      && (log != [] ==> |shown| > 0)
  {
    var ms := AvailableMonths(log);
    var shown := ShownMonths(log);
    AvailableMonthsSorted(log);
    assert forall i :: 0 <= i < |shown| ==> shown[i] == ms[i];
    forall i | 0 <= i < |shown| ensures exists t :: t in log && MonthOf(t.date) == shown[i] {
      assert ms[i] in ms;
    }
    forall t | t in log
      ensures MonthOf(t.date) in shown || forall i :: 0 <= i < |shown| ==> Newer(shown[i], MonthOf(t.date))
    {
      assert MonthOf(t.date) in ms;
      var k :| 0 <= k < |ms| && ms[k] == MonthOf(t.date);
      if k < |shown| {
        assert shown[k] == MonthOf(t.date);
      }
    }
    if |shown| < MAX_MONTH_TABS {
      assert shown == ms;
    }
    if log != [] {
      assert MonthOf(log[0].date) in ms;
    }
  }

  /** One line of a month's envelope table. */
  datatype MonthLine = MonthLine(
    category: string,
    soll: real,
    ist: real,
    available: real,      // Verfügbar
    usedPercent: Percent) // Genutzt %

  function Line(r: Row): MonthLine {
    MonthLine(r.key, r.soll, r.ist, r.soll - r.ist, Percentage(r.ist, r.soll))
  }

  function Lines(rows: seq<Row>): (lines: seq<MonthLine>)
    ensures |lines| == |rows|
    ensures forall i :: 0 <= i < |rows| ==> lines[i] == Line(rows[i])
  {
    if rows == [] then [] else [Line(rows[0])] + Lines(rows[1..])
  }

  /** What one month tab shows. */
  datatype MonthSummary = MonthSummary(
    month: YearMonth,
    lines: seq<MonthLine>,
    totalBudget: real,    // Gesamt Budget
    totalSpending: real,  // Gesamt Ausgaben
    remainder: real)      // Restbetrag

  /** The tab of month `m`: the records whose year-month is `m`, grouped by category. */
  function Summarize(log: seq<Transaction>, m: YearMonth): (s: MonthSummary)
    ensures s.month == m
    ensures s.lines == [] <==> forall t :: t in log ==> MonthOf(t.date) != m
  {
    SelectMembers(log, InMonth(m));
    var rows := Table(Select(log, InMonth(m)), ByCategory);
    var budget := ColumnTotal(rows, Soll);
    var spending := ColumnTotal(rows, Ist);
    MonthSummary(m, Lines(rows), budget, spending, budget - spending)
  }

  /** All month tabs, newest first. */
  function MonthTabs(log: seq<Transaction>): (tabs: seq<MonthSummary>)
    ensures |tabs| == |ShownMonths(log)|
    ensures forall i :: 0 <= i < |tabs| ==> tabs[i].month == ShownMonths(log)[i]
  {
    var shown := ShownMonths(log);
    seq(|shown|, i requires 0 <= i < |shown| => Summarize(log, shown[i]))
  }

  /** Reference definition: the sum of amounts of kind `k` recorded in month `m` under category `c`. */
  function EnvelopeTotal(log: seq<Transaction>, m: YearMonth, c: string, k: Kind): real {
    if log == [] then 0.0
    else (if MonthOf(log[0].date) == m && log[0].category == c then Amount(log[0], k) else 0.0)
         + EnvelopeTotal(log[1..], m, c, k)
  }

  lemma {:induction false} MaskedKeyTotal(log: seq<Transaction>, m: YearMonth, c: string, k: Kind)
    ensures KeyTotal(Select(log, InMonth(m)), ByCategory, c, k) == EnvelopeTotal(log, m, c, k)
  {
    if log != [] {
      MaskedKeyTotal(log[1..], m, c, k);
      if InScope(InMonth(m), log[0]) {
        assert ([log[0]] + Select(log[1..], InMonth(m)))[1..] == Select(log[1..], InMonth(m));
      }
    }
  }

  /**
    A month's table has one line per category with a record in that month,
    in ascending category order.
  */
  lemma SummaryCategories(log: seq<Transaction>, m: YearMonth)
    ensures var lines := Summarize(log, m).lines;
      && (forall i, j :: 0 <= i < j < |lines| ==> StrLess(lines[i].category, lines[j].category))
      && (forall i :: 0 <= i < |lines| ==>
            exists t :: t in log && MonthOf(t.date) == m && t.category == lines[i].category)
      && (forall t :: t in log && MonthOf(t.date) == m ==>
            exists i :: 0 <= i < |lines| && lines[i].category == t.category)
  {
    LinesOrdered(log, m);
    LinesFromMonth(log, m);
    MonthInLines(log, m);
  }

  lemma LinesOrdered(log: seq<Transaction>, m: YearMonth)
    ensures var lines := Summarize(log, m).lines;
      forall i, j :: 0 <= i < j < |lines| ==> StrLess(lines[i].category, lines[j].category)
  {
    var sel := Select(log, InMonth(m));
    var rows := Table(sel, ByCategory);
    assert Summarize(log, m).lines == Lines(rows);
    TableKeys(sel, ByCategory);
  }

  lemma LinesFromMonth(log: seq<Transaction>, m: YearMonth)
    ensures var lines := Summarize(log, m).lines;
      forall i :: 0 <= i < |lines| ==>
        exists t :: t in log && MonthOf(t.date) == m && t.category == lines[i].category
  {
    var sel := Select(log, InMonth(m));
    var rows := Table(sel, ByCategory);
    var lines := Lines(rows);
    assert Summarize(log, m).lines == lines;
    forall i | 0 <= i < |lines|
      ensures exists t :: t in log && MonthOf(t.date) == m && t.category == lines[i].category
    {
      var t := RowSource(sel, ByCategory, i);
      SelectedRecord(log, InMonth(m), t);
      assert lines[i].category == rows[i].key;
      assert t in log && MonthOf(t.date) == m && t.category == lines[i].category;
    }
  }

  lemma MonthInLines(log: seq<Transaction>, m: YearMonth)
    ensures var lines := Summarize(log, m).lines;
      forall t :: t in log && MonthOf(t.date) == m ==>
        exists i :: 0 <= i < |lines| && lines[i].category == t.category
  {
    var sel := Select(log, InMonth(m));
    var rows := Table(sel, ByCategory);
    var lines := Lines(rows);
    assert Summarize(log, m).lines == lines;
    forall t | t in log && MonthOf(t.date) == m
      ensures exists i :: 0 <= i < |lines| && lines[i].category == t.category
    {
      SelectedRecord(log, InMonth(m), t);
      var i := RowOf(sel, ByCategory, t);
      assert lines[i].category == t.category;
    }
  }

  /**
    In a month's table the SOLL and IST cells of a category are the sums of
    that month's amounts of each type under that category (0 when there are
    none of a type), and `Verfügbar` is SOLL minus IST.
  */
  lemma SummaryCells(log: seq<Transaction>, m: YearMonth)
    ensures var lines := Summarize(log, m).lines;
      forall i :: 0 <= i < |lines| ==>
        && lines[i].soll == EnvelopeTotal(log, m, lines[i].category, Soll)
        && lines[i].ist == EnvelopeTotal(log, m, lines[i].category, Ist)
        && lines[i].available == lines[i].soll - lines[i].ist
  {
    var sel := Select(log, InMonth(m));
    var rows := Table(sel, ByCategory);
    var lines := Summarize(log, m).lines;
    forall i | 0 <= i < |lines|
      ensures lines[i].soll == EnvelopeTotal(log, m, lines[i].category, Soll)
      ensures lines[i].ist == EnvelopeTotal(log, m, lines[i].category, Ist)
    {
      MaskedKeyTotal(log, m, rows[i].key, Soll);
      MaskedKeyTotal(log, m, rows[i].key, Ist);
    }
  }

  /** A category with no record of a type in the month shows 0 in that type's cell. */
  lemma {:induction false} MissingTypeIsZero(log: seq<Transaction>, m: YearMonth, c: string, k: Kind)
    requires forall t :: t in log && MonthOf(t.date) == m && t.category == c ==> t.kind != k
    ensures EnvelopeTotal(log, m, c, k) == 0.0
  {
    if log != [] {
      assert log[0] in log;
      assert forall t :: t in log[1..] ==> t in log;
      MissingTypeIsZero(log[1..], m, c, k);
    }
  }

  function LinesTotal(lines: seq<MonthLine>, k: Kind): real {
    if lines == [] then 0.0
    else (match k case Soll => lines[0].soll case Ist => lines[0].ist) + LinesTotal(lines[1..], k)
  }

  function AvailableTotal(lines: seq<MonthLine>): real {
    if lines == [] then 0.0 else lines[0].available + AvailableTotal(lines[1..])
  }

  lemma {:induction false} LinesTotals(rows: seq<Row>)
    ensures LinesTotal(Lines(rows), Soll) == ColumnTotal(rows, Soll)
    ensures LinesTotal(Lines(rows), Ist) == ColumnTotal(rows, Ist)
    ensures AvailableTotal(Lines(rows)) == ColumnTotal(rows, Soll) - ColumnTotal(rows, Ist)
  {
    if rows != [] {
      assert Lines(rows)[1..] == Lines(rows[1..]);
      LinesTotals(rows[1..]);
    }
  }

  /**
    `Gesamt Budget` and `Gesamt Ausgaben` are the sums of the SOLL and IST
    columns and equal the sums of all of the month's SOLL and IST amounts;
    `Restbetrag` is their difference and the sum of the `Verfügbar` column.
  */
  lemma SummaryTotals(log: seq<Transaction>, m: YearMonth)
    ensures var s := Summarize(log, m);
      && s.totalBudget == LinesTotal(s.lines, Soll) == ScopeTotal(log, InMonth(m), Soll)
      && s.totalSpending == LinesTotal(s.lines, Ist) == ScopeTotal(log, InMonth(m), Ist)
      && s.remainder == s.totalBudget - s.totalSpending == AvailableTotal(s.lines)
  {
    var sel := Select(log, InMonth(m));
    var rows := Table(sel, ByCategory);
    LinesTotals(rows);
    TableConserves(sel, ByCategory, Soll);
    TableConserves(sel, ByCategory, Ist);
    SelectTotal(log, InMonth(m), Soll);
    SelectTotal(log, InMonth(m), Ist);
  }

  /** A record in another month, inserted anywhere in the log, leaves the month's tab unchanged. */
  lemma SummaryIsolated(log: seq<Transaction>, i: nat, t: Transaction, m: YearMonth)
    requires i <= |log| && MonthOf(t.date) != m
    ensures Summarize(log[..i] + [t] + log[i..], m) == Summarize(log, m)
  {
    InsertOutsideScope(log, i, t, InMonth(m));
  }

  /** A record in the month adds its amount to exactly one of the month's two totals. */
  lemma SummaryGrows(log: seq<Transaction>, i: nat, t: Transaction)
    requires i <= |log|
    ensures var m := MonthOf(t.date);
      var before, after := Summarize(log, m), Summarize(log[..i] + [t] + log[i..], m);
      && after.totalBudget == before.totalBudget + Amount(t, Soll)
      && after.totalSpending == before.totalSpending + Amount(t, Ist)
      && after.remainder == before.remainder + Amount(t, Soll) - Amount(t, Ist)
  {
    var m := MonthOf(t.date);
    var log' := log[..i] + [t] + log[i..];
    TableConserves(Select(log, InMonth(m)), ByCategory, Soll);
    TableConserves(Select(log, InMonth(m)), ByCategory, Ist);
    TableConserves(Select(log', InMonth(m)), ByCategory, Soll);
    TableConserves(Select(log', InMonth(m)), ByCategory, Ist);
    InsertInsideScope(log, i, t, InMonth(m), Soll);
    InsertInsideScope(log, i, t, InMonth(m), Ist);
  }

  /**
    `Genutzt %` of a log of non-negative entries: IST / SOLL * 100 when the
    envelope has a budget; 0 when it has neither budget nor spending; and an
    unreplaced infinity exactly when it has spending but no budget.
  */
  lemma UsedPercentCases(log: seq<Transaction>, m: YearMonth)
    requires WellFormed(log)
    ensures var lines := Summarize(log, m).lines;
      forall i :: 0 <= i < |lines| ==>
        && 0.0 <= lines[i].soll && 0.0 <= lines[i].ist
        && (lines[i].soll != 0.0 ==> lines[i].usedPercent == Finite(lines[i].ist / lines[i].soll * 100.0))
        && (lines[i].soll == 0.0 && lines[i].ist == 0.0 ==> lines[i].usedPercent == Finite(0.0))
        && (lines[i].usedPercent == PlusInfinity <==> lines[i].soll == 0.0 && lines[i].ist > 0.0)
        && lines[i].usedPercent != MinusInfinity
  {
    var sel := Select(log, InMonth(m));
    var rows := Table(sel, ByCategory);
    var lines := Summarize(log, m).lines;
    SelectWellFormed(log, InMonth(m));
    forall i | 0 <= i < |lines|
      ensures 0.0 <= lines[i].soll && 0.0 <= lines[i].ist
      ensures lines[i].usedPercent == PlusInfinity <==> lines[i].soll == 0.0 && lines[i].ist > 0.0
      ensures lines[i].usedPercent != MinusInfinity
    {
      KeyTotalBounds(sel, ByCategory, rows[i].key, Soll);
      KeyTotalBounds(sel, ByCategory, rows[i].key, Ist);
      PercentageOfNonNegative(rows[i].ist, rows[i].soll);
    }
  }

  /**
    The month tabs as a whole: at most six, for pairwise different months
    with records, newest first; fewer than six only when every month with
    records has a tab; and each tab's three totals are its month's SOLL sum,
    IST sum and their difference.
  */
  lemma MonthTabsContent(log: seq<Transaction>)
    ensures var tabs := MonthTabs(log);
      && |tabs| <= MAX_MONTH_TABS
      && (forall i, j :: 0 <= i < j < |tabs| ==> Newer(tabs[i].month, tabs[j].month))
      && (forall i :: 0 <= i < |tabs| ==> exists t :: t in log && MonthOf(t.date) == tabs[i].month)
      && (|tabs| == MAX_MONTH_TABS ||
          forall t :: t in log ==> exists i :: 0 <= i < |tabs| && tabs[i].month == MonthOf(t.date))
      && (forall i :: 0 <= i < |tabs| ==>
            && tabs[i].totalBudget == ScopeTotal(log, InMonth(tabs[i].month), Soll)
            && tabs[i].totalSpending == ScopeTotal(log, InMonth(tabs[i].month), Ist)
            && tabs[i].remainder == tabs[i].totalBudget - tabs[i].totalSpending)
  {
    var shown := ShownMonths(log);
    var tabs := MonthTabs(log);
    ShownMonthsNewest(log);
    forall t | t in log && |tabs| != MAX_MONTH_TABS
      ensures exists i :: 0 <= i < |tabs| && tabs[i].month == MonthOf(t.date)
    {
      var i :| 0 <= i < |shown| && shown[i] == MonthOf(t.date);
    }
    forall i | 0 <= i < |tabs|
      ensures tabs[i].totalBudget == ScopeTotal(log, InMonth(tabs[i].month), Soll)
      ensures tabs[i].totalSpending == ScopeTotal(log, InMonth(tabs[i].month), Ist)
      ensures tabs[i].remainder == tabs[i].totalBudget - tabs[i].totalSpending
    {
      assert tabs[i] == Summarize(log, shown[i]);
      SummaryTotals(log, shown[i]);
    }
  }
}
