# Cash-stuffing budget planner: the monthly envelope summary

This project models, in Dafny, the computing core of a small Streamlit app
for "cash stuffing" envelope budgeting. The app keeps a flat log of
transactions. Each record has a date, a category (the envelope), a
description, an amount and a stored type. The type is `SOLL` (money
budgeted into the envelope) or `IST` (money spent from it). From this log
the app draws two tabs:

- **Monthly overview** (`Monatsübersicht`). The distinct year-months of the
  log are listed newest first, and the six newest get a tab. Each tab
  groups that month's records by category and type, with missing type
  columns filled with 0. The table shows `SOLL`, `IST`, `Verfügbar`
  (SOLL − IST) and `Genutzt %` (IST / SOLL · 100, where 0/0 becomes 0).
  Three totals sit above it: `Gesamt Budget`, `Gesamt Ausgaben` and
  `Restbetrag`. Each month is computed from its own records only. Nothing
  carries over from earlier months.
- **Dashboard**. The distinct years are listed newest first. For the chosen
  year, the records are grouped by period, in one of three views: English
  month name, `"Q"` plus the quarter number, or the year itself. A second
  table groups them by category, with
  `Abweichung % = (IST − SOLL) / SOLL · 100`.

The model is a set of pure functions over `seq<Transaction>`:

| module (file) | what it holds |
|---|---|
| `Ledger` (ledger.dfy) | the record, the type mapping of the entry form, per-type sums |
| `Ordering` (ordering.dfy) | Python's string order; "distinct values, sorted" for strings (ascending) and numbers (descending) |
| `Periods` (periods.dfy) | year-month keys, the dashboard's period labels, the month and year row masks |
| `Pivot` (pivot.dfy) | the group-by/unstack table shared by both tabs, and the float percentage columns |
| `Overview` (overview.dfy) | month list, shown months, month tables and totals |
| `Dashboard` (dashboard.dfy) | year list, period and category tables for one year |

Amounts are Dafny `real`, so every sum is exact. A percentage is a
`Percent`, which is `Finite(v)`, `PlusInfinity` or `MinusInfinity`. This
matches float division in pandas. `x / 0` is ±infinity for `x ≠ 0`, and
`fillna(0)` does not replace it. `0 / 0` is NaN, and `fillna(0)` turns that
into 0. Group keys are sorted the way pandas sorts them: by Python's
code-point order on strings.

Each month's table is built only from that month's records
(app.py:93-94): nothing carries over between months, and the app keeps no
balance, savings goal, loan or transfer apart from the transaction log.

## Model

| member | source | states |
|---|---|---|
| `Ledger.Classify` | app.py:69 | the stored type is SOLL exactly when the letters S, O, L, L occur consecutively somewhere in the chosen option, IST otherwise |
| `Ledger.Record` | app.py:60-70 | the saved record keeps the entered date, category, description and non-negative amount; its stored type is "SOLL" exactly when the chosen option contains "SOLL", otherwise "IST" |
| `Ledger.FormLabelsClassify` | app.py:62-69 | of the form's two options, "SOLL (Budget)" is stored as SOLL and "IST (Ausgabe)" as IST |
| `Ledger.ClassifyStoredType` | app.py:69 | classifying a stored type name gives back the same type, so the mapping is stable on stored values |
| `Ledger.TotalNonNegative` | app.py:65 | amounts entered through the non-negative field give non-negative sums |
| `Ordering.UniqueAscending` | app.py:96 | the group keys of a table are each distinct key exactly once, in ascending Python string order |
| `Ordering.UniqueDescending` | app.py:85 | `sorted(unique(), reverse=True)` lists every value exactly once, strictly descending |
| `Ordering.StrLessTransitive` | app.py:96 | the string order used to sort group keys is transitive |
| `Ordering.StrLessTotal` | app.py:96 | any two different keys are ordered one way or the other |
| `Periods.FromIndexOfIndex` | app.py:84 | numbering year-months consecutively loses nothing, so ordering by number orders the monthly periods |
| `Periods.QuarterOf` | app.py:132 | the quarter of a month lies in 1..4, and month m falls in quarter q exactly when 3(q−1) < m ≤ 3q |
| `Periods.PeriodLabel` | app.py:129-136 | the `Zeitraum` of a record: in the monthly view one of the twelve English month names, in the quarterly view "Q" followed by a digit from 1 to 4 |
| `Periods.QuarterLabelOf` | app.py:132 | the quarterly view labels each record "Q1" to "Q4": "Q1" exactly for January to March, "Q2" exactly for April to June, "Q3" exactly for July to September, "Q4" exactly for October to December |
| `Periods.MonthLabelsDistinct` | app.py:130 | the monthly view gives each record its month's name, and different months get different names |
| `Periods.Select` | app.py:93-94 | the row mask `df[mask]` keeps no more records than the log has, each of them inside the month or year |
| `Periods.SelectMembers` | app.py:93-94 | a row mask keeps exactly the records of the log that lie in the month (or the year) |
| `Periods.InsertOutsideScope` | app.py:128 | inserting a record outside the month or year, at any position in the log, leaves the masked rows unchanged |
| `Periods.InsertInsideScope` | app.py:93-94 | inserting a record inside the month or year adds exactly its amount to the masked total of its type |
| `Periods.SelectTotal` | app.py:128 | the masked rows add up to the sum of the amounts of the log's records inside the month or year |
| `Pivot.Table` | app.py:96-98 | the grouped table `groupby(...).sum().unstack(fill_value=0)` with the missing type columns added; it has no row exactly when there are no records |
| `Pivot.TableKeys` | app.py:137 | a grouped table has one row for each key that occurs, in ascending order, and no row for a key that does not occur |
| `Pivot.AbsentKindIsZero` | app.py:138-139 | a key with no record of a type gets 0 in that type's column rather than no cell |
| `Pivot.TableConserves` | app.py:144-146 | each type column of a grouped table adds up to the sum of all amounts of that type, so grouping neither loses nor duplicates money |
| `Pivot.KeyTotalBounds` | app.py:65 | with non-negative amounts, each cell lies between 0 and the column's overall total |
| `Pivot.Percentage` | app.py:101 | a float percentage column after `fillna(0)`: with a non-zero denominator it is the finite value that times the denominator gives 100 times the numerator; with a zero denominator it is 0 exactly when the numerator is 0 |
| `Pivot.PercentageOfNonNegative` | app.py:101 | with non-negative sums a percentage is never −infinity; it is +infinity exactly when the denominator is 0 and the numerator is not, and finite and ≥ 0 otherwise |
| `Pivot.DeviationFromUsage` | app.py:147 | `Abweichung %` equals `Genutzt %` minus 100 when SOLL ≠ 0, and equals `Genutzt %` (0 or an infinity) when SOLL = 0 |
| `Overview.AvailableMonths` | app.py:84-85 | the month list `sorted(unique(), reverse=True)` of the records' year-months; it is empty exactly when the log is |
| `Overview.AvailableMonthsSorted` | app.py:84-85 | the month list holds each month with a record exactly once, strictly newest first |
| `Overview.ShownMonths` | app.py:90-91 | the tabs show the first min(6, n) of the n months in the month list |
| `Overview.ShownMonthsNewest` | app.py:85-91 | at most six tabs; newest first; each shown month has a record; every other month with records is older than all shown months; fewer than six tabs only when every month with records has one; a non-empty log shows at least one month |
| `Overview.MonthTabs` | app.py:90-94 | one tab per shown month, the i-th tab for the i-th shown month |
| `Overview.MonthTabsContent` | app.py:90-108 | the tabs are at most six, for months with records, newest first and pairwise different; fewer than six only when every month with records has a tab; each tab's `Gesamt Budget` and `Gesamt Ausgaben` are its month's SOLL and IST sums and `Restbetrag` their difference |
| `Overview.Summarize` | app.py:93-108 | the tab of a month is labelled with that month, and its table is empty exactly when the log has no record in that month |
| `Overview.SummaryCategories` | app.py:93-96 | a month's table lists each category with a record in that month exactly once, in ascending order, and no other category |
| `Overview.SummaryCells` | app.py:93-100 | a category's SOLL and IST cells equal the sums of that month's amounts of that category and type; `Verfügbar` is SOLL − IST |
| `Overview.MissingTypeIsZero` | app.py:96-98 | a category with no record of a type in the month has 0 in that type's cell |
| `Overview.SummaryTotals` | app.py:100-108 | `Gesamt Budget` and `Gesamt Ausgaben` are the column sums and equal the month's total SOLL and IST amounts; `Restbetrag` is their difference and the sum of `Verfügbar` |
| `Overview.SummaryIsolated` | app.py:93-94 | a record of another month, inserted anywhere in the log, leaves the month's tab unchanged |
| `Overview.SummaryGrows` | app.py:93-108 | a record of the month raises `Gesamt Budget` by its SOLL amount and `Gesamt Ausgaben` by its IST amount, and changes `Restbetrag` by the difference |
| `Overview.UsedPercentCases` | app.py:101 | `Genutzt %` is IST/SOLL·100 when SOLL ≠ 0, 0 when both are 0, +infinity exactly when SOLL = 0 < IST, and never −infinity |
| `Dashboard.Years` | app.py:121-122 | the year selector lists each year with a record exactly once, strictly newest first; it is empty exactly when the log is |
| `Dashboard.Dashboard` | app.py:127-147 | the dashboard shows its tables exactly when the log is non-empty, which is when the year selector has options |
| `Dashboard.DashboardYearOnly` | app.py:127-128 | a record of another year, inserted anywhere in a non-empty log, leaves the dashboard unchanged |
| `Dashboard.DashboardTotals` | app.py:128-146 | in every view, the period table and the category table both add up, per type, to the chosen year's total |
| `Dashboard.TableWithin` | app.py:137 | a grouped table has no more rows than there are possible keys |
| `Dashboard.QuarterlyView` | app.py:131-137 | the quarterly view has at most four rows, each labelled Q1..Q4 |
| `Dashboard.MonthlyView` | app.py:129-137 | the monthly view has at most twelve rows, each labelled with an English month name |
| `Dashboard.YearlyView` | app.py:133-139 | the yearly view has no row if the year has no records; otherwise it has one row, labelled with the year and holding the year's SOLL and IST totals |
| `Dashboard.DeviationCases` | app.py:144-147 | per category, `Abweichung %` is IST/SOLL·100 − 100 (so ≥ −100) when SOLL ≠ 0, 0 when both are 0, +infinity exactly when SOLL = 0 < IST, and never −infinity |

## Left out

- SQLite storage (app.py:10-53): `init_db`, `load_data` and `save_transaction`. The log is a parameter, and saving an entry is appending `Record(...)` to it. The bare `except` in `load_data`, which returns an empty frame, is not modelled.
- All Streamlit rendering: page setup, forms, tabs, metrics, `st.dataframe`, `st.bar_chart`, `st.rerun` and the background gradient (app.py:8, 56-148). The chosen year and view are parameters. `Dashboard` returns nothing when the year list is empty, as the `if years:` guard does.
- The "Letzte Buchungen" list of the month's raw records sorted by date (app.py:113-114). It only displays records.
- Currency and percent string formatting, and `round(1)` (app.py:101, 106-111, 147). Amounts are exact reals, so float rounding and the sign of a float zero are not modelled. Sums of non-negative amounts never produce −0.0.
- Date parsing with `pd.to_datetime` (app.py:36) and the tab titles `str(period)` (app.py:90). Dates are integer year, month and day. Days are not checked against the calendar, because only year and month take part in the tables.
- The entry form's fixed list of seven categories (app.py:63). The database does not enforce it, so categories are free strings.
- Missing values read back from the database (a NULL amount or category) are not modelled. pandas would skip them in sums and group-bys.
