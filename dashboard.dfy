/**
  The dashboard tab: the years with records, newest first; for the chosen
  year, a table of SOLL and IST per period (month name, quarter or year,
  depending on the view) and a per-category table with the deviation
  `Abweichung % = (IST - SOLL) / SOLL * 100`.
*/
module Dashboard {
  import opened Ledger
  import opened Ordering
  import opened Periods
  import opened Pivot

  datatype Option<T> = None | Some(value: T)

  /** The year column of the log. */
  function YearsOf(log: seq<Transaction>): (ys: seq<int>)
    ensures forall y :: y in ys <==> exists t :: t in log && t.date.year == y
  {
    if log == [] then []
    else
      assert forall t :: t in log <==> t == log[0] || t in log[1..];
      [log[0].date.year] + YearsOf(log[1..])
  }

  /** The year selector's options: each year with a record once, newest first. */
  function Years(log: seq<Transaction>): (ys: seq<int>)
    ensures Descending(ys)
    ensures forall y :: y in ys <==> exists t :: t in log && t.date.year == y
    ensures ys == [] <==> log == []
  {
    var ys := UniqueDescending(YearsOf(log));
    assert log != [] ==> log[0] in log && log[0].date.year in ys;
    assert ys != [] ==> ys[0] in ys;
    ys
  }

  /** One line of the category performance table. */
  datatype PerformanceLine = PerformanceLine(
    category: string,
    soll: real,
    ist: real,
    deviation: Percent)  // Abweichung %

  function Performance(r: Row): PerformanceLine {
    PerformanceLine(r.key, r.soll, r.ist, Percentage(r.ist - r.soll, r.soll))
  }

  function PerformanceLines(rows: seq<Row>): (lines: seq<PerformanceLine>)
    ensures |lines| == |rows|
    ensures forall i :: 0 <= i < |rows| ==> lines[i] == Performance(rows[i])
  {
    if rows == [] then [] else [Performance(rows[0])] + PerformanceLines(rows[1..])
  }

  /** What the dashboard shows for one year and view: the chart's table and the performance table. */
  datatype DashboardView = DashboardView(periods: seq<Row>, performance: seq<PerformanceLine>)

  /** The dashboard for `year` in view `mode`; nothing when there are no years to choose from. */
  function Dashboard(log: seq<Transaction>, year: int, mode: ViewMode): (v: Option<DashboardView>)
    ensures v.None? <==> log == []
  {
    if Years(log) == [] then None
    else
      var selected := Select(log, InYear(year));
      Some(DashboardView(Table(selected, ByPeriod(mode)), PerformanceLines(Table(selected, ByCategory))))
  }

  /** A record of another year, inserted anywhere in a non-empty log, leaves the dashboard unchanged. */
  lemma DashboardYearOnly(log: seq<Transaction>, i: nat, t: Transaction, year: int, mode: ViewMode)
    requires i <= |log| && log != [] && t.date.year != year
    ensures Dashboard(log[..i] + [t] + log[i..], year, mode) == Dashboard(log, year, mode)
  {
    InsertOutsideScope(log, i, t, InYear(year));
    var log' := log[..i] + [t] + log[i..];
    assert log' != [] by {
      assert |log'| == |log| + 1;
    }
  }

  function PerformanceTotal(lines: seq<PerformanceLine>, k: Kind): real {
    if lines == [] then 0.0
    else (match k case Soll => lines[0].soll case Ist => lines[0].ist) + PerformanceTotal(lines[1..], k)
  }

  lemma {:induction false} PerformanceTotals(rows: seq<Row>, k: Kind)
    ensures PerformanceTotal(PerformanceLines(rows), k) == ColumnTotal(rows, k)
  {
    if rows != [] {
      assert PerformanceLines(rows)[1..] == PerformanceLines(rows[1..]);
      PerformanceTotals(rows[1..], k);
    }
  }

  /**
    Both dashboard tables account for exactly the chosen year's money: in
    every view, each type's column of the period table and of the category
    table adds up to the sum of that year's amounts of that type.
  */
  lemma DashboardTotals(log: seq<Transaction>, year: int, mode: ViewMode, k: Kind)
    requires Dashboard(log, year, mode).Some?
    ensures var v := Dashboard(log, year, mode).value;
      && ColumnTotal(v.periods, k) == ScopeTotal(log, InYear(year), k)
      && PerformanceTotal(v.performance, k) == ScopeTotal(log, InYear(year), k)
  {
    var selected := Select(log, InYear(year));
    TableConserves(selected, ByPeriod(mode), k);
    TableConserves(selected, ByCategory, k);
    PerformanceTotals(Table(selected, ByCategory), k);
    SelectTotal(log, InYear(year), k);
  }

  /** The keys of the rows, in order. */
  function RowKeys(rows: seq<Row>): (ks: seq<string>)
    ensures |ks| == |rows|
    ensures forall i :: 0 <= i < |rows| ==> ks[i] == rows[i].key
  {
    if rows == [] then [] else [rows[0].key] + RowKeys(rows[1..])
  }

  /** A table's keys are pairwise different, so it has at most as many rows as there are possible keys. */
  lemma TableWithin(txs: seq<Transaction>, g: GroupBy, bound: set<string>)
    requires forall t :: t in txs ==> GroupKey(g, t) in bound
    ensures |Table(txs, g)| <= |bound|
  {
    var rows := Table(txs, g);
    var ks := RowKeys(rows);
    TableKeys(txs, g);
    assert Ascending(ks);
    AscendingDistinct(ks);
    forall x | x in ks ensures x in bound {
      var i :| 0 <= i < |ks| && ks[i] == x;
      var t := RowSource(txs, g, i);
    }
    DistinctWithin(ks, bound);
  }

  /** The quarterly view has one bar per quarter with records, labelled Q1 to Q4: at most four. */
  lemma QuarterlyView(log: seq<Transaction>, year: int)
    requires Dashboard(log, year, Quarterly).Some?
    ensures var periods := Dashboard(log, year, Quarterly).value.periods;
      && |periods| <= 4
      && forall i :: 0 <= i < |periods| ==> periods[i].key in QUARTER_LABELS
  {
    var selected := Select(log, InYear(year));
    var periods := Table(selected, ByPeriod(Quarterly));
    forall t | t in selected ensures GroupKey(ByPeriod(Quarterly), t) in QUARTER_LABELS {
      QuarterLabelOf(t.date);
    }
    TableWithin(selected, ByPeriod(Quarterly), QUARTER_LABELS);
    assert |QUARTER_LABELS| == 4;
    forall i | 0 <= i < |periods| ensures periods[i].key in QUARTER_LABELS {
      var t := RowSource(selected, ByPeriod(Quarterly), i);
      QuarterLabelOf(t.date);
    }
  }

  /** The monthly view has one bar per month name with records: at most twelve. */
  lemma MonthlyView(log: seq<Transaction>, year: int)
    requires Dashboard(log, year, Monthly).Some?
    ensures var periods := Dashboard(log, year, Monthly).value.periods;
      && |periods| <= 12
      && forall i :: 0 <= i < |periods| ==> periods[i].key in MONTH_NAMES
  {
    var selected := Select(log, InYear(year));
    var periods := Table(selected, ByPeriod(Monthly));
    var names := set n | n in MONTH_NAMES;
    TableWithin(selected, ByPeriod(Monthly), names);
    assert Distinct(MONTH_NAMES);
    DistinctCardinality(MONTH_NAMES);
    forall i | 0 <= i < |periods| ensures periods[i].key in MONTH_NAMES {
      var t := RowSource(selected, ByPeriod(Monthly), i);
    }
  }

  /**
    Since the log is filtered to one year, the yearly view has a single bar,
    labelled with the year and holding the year's totals, when the year has
    records, and none otherwise.
  */
  lemma YearlyView(log: seq<Transaction>, year: int)
    requires Dashboard(log, year, Yearly).Some?
    ensures var periods := Dashboard(log, year, Yearly).value.periods;
      && (periods == [] <==> forall t :: t in log ==> t.date.year != year)
      && (periods != [] ==> periods == [Row(IntToString(year),
                                          ScopeTotal(log, InYear(year), Soll),
                                          ScopeTotal(log, InYear(year), Ist))])
  {
    var selected := Select(log, InYear(year));
    var periods := Table(selected, ByPeriod(Yearly));
    SelectMembers(log, InYear(year));
    TableWithin(selected, ByPeriod(Yearly), {IntToString(year)});
    assert |{IntToString(year)}| == 1;
    if t :| t in log && t.date.year == year {
      var i := RowOf(selected, ByPeriod(Yearly), t);
      assert periods == [periods[0]];
      assert periods[0].key == IntToString(year);
      TableConserves(selected, ByPeriod(Yearly), Soll);
      TableConserves(selected, ByPeriod(Yearly), Ist);
      SelectTotal(log, InYear(year), Soll);
      SelectTotal(log, InYear(year), Ist);
    } else {
      assert selected == [];
    }
  }

  /**
    `Abweichung %` of a log of non-negative entries: the usage percentage
    minus 100 when the category has a budget (so never below -100); 0 when
    it has neither budget nor spending; and an unreplaced infinity exactly
    when it has spending but no budget.
  */
  lemma DeviationCases(log: seq<Transaction>, year: int, mode: ViewMode)
    requires WellFormed(log) && Dashboard(log, year, mode).Some?
    ensures var lines := Dashboard(log, year, mode).value.performance;
      forall i :: 0 <= i < |lines| ==> DeviationOf(lines[i])
  {
    var selected := Select(log, InYear(year));
    var rows := Table(selected, ByCategory);
    var lines := PerformanceLines(rows);
    SelectWellFormed(log, InYear(year));
    forall i | 0 <= i < |lines| ensures DeviationOf(lines[i]) {
      KeyTotalBounds(selected, ByCategory, rows[i].key, Soll);
      KeyTotalBounds(selected, ByCategory, rows[i].key, Ist);
      PerformanceDeviation(rows[i]);
    }
  }

  /** The facts about one line's `Abweichung %` that hold for non-negative cells. */
  predicate DeviationOf(line: PerformanceLine) {
    && 0.0 <= line.soll && 0.0 <= line.ist
    && (line.soll != 0.0 ==>
          line.deviation == Finite(line.ist / line.soll * 100.0 - 100.0) && line.deviation.value >= -100.0)
    && (line.soll == 0.0 && line.ist == 0.0 ==> line.deviation == Finite(0.0))
    && (line.deviation == PlusInfinity <==> line.soll == 0.0 && line.ist > 0.0)
    && line.deviation != MinusInfinity
  }

  lemma PerformanceDeviation(r: Row)
    requires 0.0 <= r.soll && 0.0 <= r.ist
    ensures DeviationOf(Performance(r))
  {
    PercentageOfNonNegative(r.ist, r.soll);
    DeviationFromUsage(r.soll, r.ist);
    if r.soll != 0.0 {
      assert r.ist / r.soll >= 0.0;
    }
  }
}
