/**
  The periods the planner groups its log by: the year-month of the monthly
  overview (a monthly period), and the labels of the dashboard's three
  views: English month name, "Q" and the quarter number, or the year.
  Also the row masks that restrict the log to one month or one year.
*/
module Periods {
  import opened Ledger

  /** A monthly period: the key the overview gives every record. */
  datatype YearMonth = YearMonth(year: int, month: Month)

  function MonthOf(d: Date): YearMonth {
    YearMonth(d.year, d.month)
  }

  /** Months counted consecutively; the order monthly periods are compared in. */
  function Index(ym: YearMonth): int {
    ym.year * 12 + (ym.month - 1)
  }

  /** The monthly period with the given consecutive number. */
  function FromIndex(i: int): (ym: YearMonth)
    ensures Index(ym) == i
  {
    YearMonth(i / 12, i % 12 + 1)
  }

  /** Numbering months loses nothing: every period is recovered from its number. */
  lemma FromIndexOfIndex(ym: YearMonth)
    ensures FromIndex(Index(ym)) == ym
  {
    var i := Index(ym);
    assert i == ym.year * 12 + (ym.month - 1);
    assert 0 <= ym.month - 1 < 12;
    assert i / 12 == ym.year && i % 12 == ym.month - 1 by {
      DivModUnique(i, ym.year, ym.month - 1);
    }
  }

  lemma DivModUnique(i: int, q: int, r: int)
    requires 0 <= r < 12 && i == q * 12 + r
    ensures i / 12 == q && i % 12 == r
  {
  }

  /** `a` is a later month than `b`. */
  predicate Newer(a: YearMonth, b: YearMonth) {
    Index(a) > Index(b)
  }

  /** The dashboard's three views. */
  datatype ViewMode = Monthly | Quarterly | Yearly

  /** pandas' `month_name()` in its default English locale. */
  const MONTH_NAMES: seq<string> := [
    "January", "February", "March", "April", "May", "June",
    "July", "August", "September", "October", "November", "December"]

  /** pandas' `dt.quarter`. */
  function QuarterOf(m: Month): (q: int)
    ensures 1 <= q <= 4
    ensures 3 * (q - 1) < m <= 3 * q
  {
    (m - 1) / 3 + 1
  }

  function DigitChar(n: int): char
    requires 0 <= n <= 9
  {
    ['0', '1', '2', '3', '4', '5', '6', '7', '8', '9'][n]
  }

  /** Python's `str` on a non-negative integer. */
  function NatToString(n: nat): string
    decreases n
  {
    if n < 10 then [DigitChar(n)] else NatToString(n / 10) + [DigitChar(n % 10)]
  }

  /** Python's `str` on an integer. */
  function IntToString(n: int): string {
    if n < 0 then "-" + NatToString(-n) else NatToString(n)
  }

  /** The labels of the quarterly view. */
  const QUARTER_LABELS: set<string> := {"Q1", "Q2", "Q3", "Q4"}

  /** The `Zeitraum` column: the period a record is shown under in the given view. */
  function PeriodLabel(mode: ViewMode, d: Date): (l: string)
    ensures mode == Monthly ==> l in MONTH_NAMES
    ensures mode == Quarterly ==> |l| == 2 && l[0] == 'Q' && '1' <= l[1] <= '4'
  {
    assert IntToString(QuarterOf(d.month)) == [DigitChar(QuarterOf(d.month))];
    match mode
    case Monthly => MONTH_NAMES[d.month - 1]
    case Quarterly => "Q" + IntToString(QuarterOf(d.month))
    case Yearly => IntToString(d.year)
  }

  /** The quarterly view labels every record "Q" and its month's quarter: Q1 for January to March, up to Q4 for October to December. */
  lemma QuarterLabelOf(d: Date)
    ensures PeriodLabel(Quarterly, d) in QUARTER_LABELS
    ensures PeriodLabel(Quarterly, d) == "Q1" <==> d.month <= 3
    ensures PeriodLabel(Quarterly, d) == "Q2" <==> 4 <= d.month <= 6
    ensures PeriodLabel(Quarterly, d) == "Q3" <==> 7 <= d.month <= 9
    ensures PeriodLabel(Quarterly, d) == "Q4" <==> 10 <= d.month
  {
    var q := QuarterOf(d.month);
    assert IntToString(q) == [DigitChar(q)];
    if q == 1 {
      assert PeriodLabel(Quarterly, d) == "Q1";
    } else if q == 2 {
      assert PeriodLabel(Quarterly, d) == "Q2";
    } else if q == 3 {
      assert PeriodLabel(Quarterly, d) == "Q3";
    } else {
      assert PeriodLabel(Quarterly, d) == "Q4";
    }
  }

  /** The monthly view gives different months different names. */
  lemma MonthLabelsDistinct(d1: Date, d2: Date)
    ensures PeriodLabel(Monthly, d1) in MONTH_NAMES
    ensures PeriodLabel(Monthly, d1) == PeriodLabel(Monthly, d2) <==> d1.month == d2.month
  {
    assert forall i, j :: 0 <= i < j < 12 ==> MONTH_NAMES[i] != MONTH_NAMES[j];
  }

  /** The row masks of the two tabs: one monthly period, or one calendar year. */
  datatype Scope = InMonth(ym: YearMonth) | InYear(year: int)

  predicate InScope(s: Scope, t: Transaction) {
    match s
    case InMonth(ym) => MonthOf(t.date) == ym
    case InYear(y) => t.date.year == y
  }

  /** The records of `log` inside the scope, in log order: `df[mask]`. */
  function Select(log: seq<Transaction>, s: Scope): (r: seq<Transaction>)
    ensures |r| <= |log|
    ensures forall i :: 0 <= i < |r| ==> InScope(s, r[i])
  {
    if log == [] then []
    else if InScope(s, log[0]) then [log[0]] + Select(log[1..], s)
    else Select(log[1..], s)
  }

  /** A record is selected exactly when it is in the log and inside the scope. */
  lemma {:induction false} SelectMembers(log: seq<Transaction>, s: Scope)
    ensures forall t :: t in Select(log, s) <==> t in log && InScope(s, t)
  {
    if log != [] {
      SelectMembers(log[1..], s);
      assert forall t :: t in log <==> t == log[0] || t in log[1..];
    }
  }

  lemma SelectedRecord(log: seq<Transaction>, s: Scope, t: Transaction)
    ensures t in Select(log, s) <==> t in log && InScope(s, t)
  {
    SelectMembers(log, s);
  }

  lemma {:induction false} SelectAppend(a: seq<Transaction>, b: seq<Transaction>, s: Scope)
    ensures Select(a + b, s) == Select(a, s) + Select(b, s)
  {
    if a == [] {
      assert a + b == b;
    } else {
      assert (a + b)[1..] == a[1..] + b;
      SelectAppend(a[1..], b, s);
    }
  }

  /** Inserting a record outside the scope anywhere in the log leaves the selection unchanged. */
  lemma InsertOutsideScope(log: seq<Transaction>, i: nat, t: Transaction, s: Scope)
    requires i <= |log| && !InScope(s, t)
    ensures Select(log[..i] + [t] + log[i..], s) == Select(log, s)
  {
    var front, back := log[..i], log[i..];
    SelectAppend(front + [t], back, s);
    SelectAppend(front, [t], s);
    SelectAppend(front, back, s);
    assert front + back == log;
    assert Select([t], s) == [];
    assert Select(front, s) + [] == Select(front, s);
  }

  /** Inserting a record inside the scope adds exactly its amount to each column total. */
  lemma InsertInsideScope(log: seq<Transaction>, i: nat, t: Transaction, s: Scope, k: Kind)
    requires i <= |log| && InScope(s, t)
    ensures Total(Select(log[..i] + [t] + log[i..], s), k) == Total(Select(log, s), k) + Amount(t, k)
  {
    var before, after := Select(log[..i], s), Select(log[i..], s);
    SelectAppend(log[..i] + [t], log[i..], s);
    SelectAppend(log[..i], [t], s);
    SelectAppend(log[..i], log[i..], s);
    assert log[..i] + log[i..] == log;
    assert Select([t], s) == [t];
    assert Total([t], k) == Amount(t, k);
    TotalAppend(before + [t], after, k);
    TotalAppend(before, [t], k);
    TotalAppend(before, after, k);
  }

  /** Reference definition: the sum of the amounts of kind `k` of the records inside the scope. */
  function ScopeTotal(log: seq<Transaction>, s: Scope, k: Kind): real {
    if log == [] then 0.0
    else (if InScope(s, log[0]) then Amount(log[0], k) else 0.0) + ScopeTotal(log[1..], s, k)
  }

  /** Summing the selected records gives the sum over the scope. */
  lemma {:induction false} SelectTotal(log: seq<Transaction>, s: Scope, k: Kind)
    ensures Total(Select(log, s), k) == ScopeTotal(log, s, k)
  {
    if log != [] {
      SelectTotal(log[1..], s, k);
      if InScope(s, log[0]) {
        assert ([log[0]] + Select(log[1..], s))[1..] == Select(log[1..], s);
      }
    }
  }

  /** The selection of a log of non-negative entries has non-negative entries. */
  lemma SelectWellFormed(log: seq<Transaction>, s: Scope)
    requires WellFormed(log)
    ensures WellFormed(Select(log, s))
  {
    var sel := Select(log, s);
    SelectMembers(log, s);
    forall i | 0 <= i < |sel| ensures sel[i].amount >= 0.0 {
      assert sel[i] in log;
      var j :| 0 <= j < |log| && log[j] == sel[i];
    }
  }
}
