/**
  The table both tabs build from a slice of the log:
  `groupby([key, 'type'])['amount'].sum().unstack(fill_value=0)` followed by
  adding whichever of the SOLL and IST columns is missing as zeros. A table
  has one row per distinct key, in the ascending order pandas sorts group
  keys in, and in every row the sum of the amounts of each type recorded
  under that key.
*/
module Pivot {
  import opened Ledger
  import opened Ordering
  import opened Periods

  /** The column a table is grouped by: `category`, or the dashboard's `Zeitraum`. */
  datatype GroupBy = ByCategory | ByPeriod(mode: ViewMode)

  function GroupKey(g: GroupBy, t: Transaction): string {
    match g
    case ByCategory => t.category
    case ByPeriod(mode) => PeriodLabel(mode, t.date)
  }

  /** One row of the unstacked table: its key and its SOLL and IST cells. */
  datatype Row = Row(key: string, soll: real, ist: real)

  function Cell(r: Row, k: Kind): real {
    match k
    case Soll => r.soll
    case Ist => r.ist
  }

  /** The sum of the amounts of kind `k` among the records grouped under `key`. */
  function KeyTotal(txs: seq<Transaction>, g: GroupBy, key: string, k: Kind): real {
    if txs == [] then 0.0
    else (if GroupKey(g, txs[0]) == key then Amount(txs[0], k) else 0.0) + KeyTotal(txs[1..], g, key, k)
  }

  /** The grouping column of `txs`. */
  function Keys(txs: seq<Transaction>, g: GroupBy): (ks: seq<string>)
    ensures forall x :: x in ks <==> exists t :: t in txs && GroupKey(g, t) == x
  {
    if txs == [] then []
    else
      assert forall t :: t in txs <==> t == txs[0] || t in txs[1..];
      [GroupKey(g, txs[0])] + Keys(txs[1..], g)
  }

  /** One row for each key of `ks`, in the order of `ks`. */
  function RowsFor(ks: seq<string>, txs: seq<Transaction>, g: GroupBy): (rows: seq<Row>)
    ensures |rows| == |ks|
    ensures forall i :: 0 <= i < |ks| ==> rows[i] == Row(ks[i], KeyTotal(txs, g, ks[i], Soll), KeyTotal(txs, g, ks[i], Ist))
  {
    if ks == [] then []
    else [Row(ks[0], KeyTotal(txs, g, ks[0], Soll), KeyTotal(txs, g, ks[0], Ist))] + RowsFor(ks[1..], txs, g)
  }

  /** The unstacked table of `txs` grouped by `g`. */
  function Table(txs: seq<Transaction>, g: GroupBy): (rows: seq<Row>)
    ensures rows == [] <==> txs == []
  {
    var ks := UniqueAscending(Keys(txs, g));
    assert txs != [] ==> GroupKey(g, txs[0]) in ks;
    assert ks != [] ==> ks[0] in ks;
    RowsFor(ks, txs, g)
  }

  /** A column's sum, as `table[column].sum()`. */
  function ColumnTotal(rows: seq<Row>, k: Kind): real {
    if rows == [] then 0.0 else Cell(rows[0], k) + ColumnTotal(rows[1..], k)
  }

  /** The sums of kind `k` under each key of `ks`, added up. */
  function KeysTotal(ks: seq<string>, txs: seq<Transaction>, g: GroupBy, k: Kind): real {
    if ks == [] then 0.0 else KeyTotal(txs, g, ks[0], k) + KeysTotal(ks[1..], txs, g, k)
  }

  /**
    The table has exactly one row per key occurring in `txs`, and its rows
    are in ascending key order.
  */
  lemma TableKeys(txs: seq<Transaction>, g: GroupBy)
    ensures var rows := Table(txs, g);
      && (forall i, j :: 0 <= i < j < |rows| ==> StrLess(rows[i].key, rows[j].key))
      && (forall t :: t in txs ==> exists i :: 0 <= i < |rows| && rows[i].key == GroupKey(g, t))
      && (forall i :: 0 <= i < |rows| ==> exists t :: t in txs && GroupKey(g, t) == rows[i].key)
  {
    var ks := UniqueAscending(Keys(txs, g));
    var rows := Table(txs, g);
    assert forall i :: 0 <= i < |rows| ==> rows[i].key == ks[i];
    forall t | t in txs ensures exists i :: 0 <= i < |rows| && rows[i].key == GroupKey(g, t) {
      assert GroupKey(g, t) in ks;
      var i :| 0 <= i < |ks| && ks[i] == GroupKey(g, t);
      assert rows[i].key == ks[i];
    }
    forall i | 0 <= i < |rows| ensures exists t :: t in txs && GroupKey(g, t) == rows[i].key {
      assert ks[i] in ks;
    }
  }

  /** A record that the `i`-th row's key comes from. */
  lemma RowSource(txs: seq<Transaction>, g: GroupBy, i: nat) returns (t: Transaction)
    requires i < |Table(txs, g)|
    ensures t in txs && GroupKey(g, t) == Table(txs, g)[i].key
  {
    var ks := UniqueAscending(Keys(txs, g));
    assert ks[i] in ks;
    t :| t in txs && GroupKey(g, t) == ks[i];
  }

  /** The row that a record is counted in. */
  lemma RowOf(txs: seq<Transaction>, g: GroupBy, t: Transaction) returns (i: nat)
    requires t in txs
    ensures i < |Table(txs, g)| && Table(txs, g)[i].key == GroupKey(g, t)
  {
    var ks := UniqueAscending(Keys(txs, g));
    assert GroupKey(g, t) in ks;
    i :| 0 <= i < |ks| && ks[i] == GroupKey(g, t);
  }

  /** A key with no record of kind `k` gets 0 in that column rather than no cell. */
  lemma {:induction false} AbsentKindIsZero(txs: seq<Transaction>, g: GroupBy, key: string, k: Kind)
    requires forall t :: t in txs && GroupKey(g, t) == key ==> t.kind != k
    ensures KeyTotal(txs, g, key, k) == 0.0
  {
    if txs != [] {
      assert txs[0] in txs;
      assert forall t :: t in txs[1..] ==> t in txs;
      AbsentKindIsZero(txs[1..], g, key, k);
    }
  }

  lemma {:induction false} RowsForColumn(ks: seq<string>, txs: seq<Transaction>, g: GroupBy, k: Kind)
    ensures ColumnTotal(RowsFor(ks, txs, g), k) == KeysTotal(ks, txs, g, k)
  {
    if ks != [] {
      var rows := RowsFor(ks, txs, g);
      assert rows[1..] == RowsFor(ks[1..], txs, g);
      RowsForColumn(ks[1..], txs, g, k);
    }
  }

  /** Prepending a record adds its amount under exactly one key of a duplicate-free key list, if its key is there. */
  lemma {:induction false} KeysTotalCons(ks: seq<string>, t: Transaction, rest: seq<Transaction>, g: GroupBy, k: Kind)
    requires Distinct(ks)
    ensures KeysTotal(ks, [t] + rest, g, k)
         == KeysTotal(ks, rest, g, k) + (if GroupKey(g, t) in ks then Amount(t, k) else 0.0)
  {
    if ks != [] {
      assert ([t] + rest)[1..] == rest;
      assert Distinct(ks[1..]) by {
        forall i, j | 0 <= i < j < |ks[1..]| ensures ks[1..][i] != ks[1..][j] {
          assert ks[1..][i] == ks[i + 1] && ks[1..][j] == ks[j + 1];
        }
      }
      assert ks[0] !in ks[1..] by {
        forall i | 0 <= i < |ks[1..]| ensures ks[1..][i] != ks[0] {
          assert ks[1..][i] == ks[i + 1];
        }
      }
      assert GroupKey(g, t) in ks <==> GroupKey(g, t) == ks[0] || GroupKey(g, t) in ks[1..];
      KeysTotalCons(ks[1..], t, rest, g, k);
    }
  }

  /** Summing the per-key sums over a duplicate-free list of all keys gives the overall sum. */
  lemma {:induction false} KeysTotalCovers(ks: seq<string>, txs: seq<Transaction>, g: GroupBy, k: Kind)
    requires Distinct(ks)
    requires forall t :: t in txs ==> GroupKey(g, t) in ks
    ensures KeysTotal(ks, txs, g, k) == Total(txs, k)
  {
    if txs == [] {
      KeysTotalEmpty(ks, g, k);
    } else {
      assert txs == [txs[0]] + txs[1..];
      assert txs[0] in txs;
      assert forall t :: t in txs[1..] ==> t in txs;
      KeysTotalCovers(ks, txs[1..], g, k);
      KeysTotalCons(ks, txs[0], txs[1..], g, k);
    }
  }

  lemma {:induction false} KeysTotalEmpty(ks: seq<string>, g: GroupBy, k: Kind)
    ensures KeysTotal(ks, [], g, k) == 0.0
  {
    if ks != [] {
      KeysTotalEmpty(ks[1..], g, k);
    }
  }

  /**
    Grouping neither loses nor duplicates money: each column of the table
    adds up to the sum of all amounts of that type in `txs`.
  */
  lemma TableConserves(txs: seq<Transaction>, g: GroupBy, k: Kind)
    ensures ColumnTotal(Table(txs, g), k) == Total(txs, k)
  {
    var ks := UniqueAscending(Keys(txs, g));
    AscendingDistinct(ks);
    RowsForColumn(ks, txs, g, k);
    KeysTotalCovers(ks, txs, g, k);
  }

  /** A per-key sum never exceeds the sum over all keys when amounts are non-negative. */
  lemma {:induction false} KeyTotalBounds(txs: seq<Transaction>, g: GroupBy, key: string, k: Kind)
    requires WellFormed(txs)
    ensures 0.0 <= KeyTotal(txs, g, key, k) <= Total(txs, k)
  {
    if txs != [] {
      assert WellFormed(txs[1..]) by {
        forall i | 0 <= i < |txs[1..]| ensures txs[1..][i].amount >= 0.0 {
          assert txs[1..][i] == txs[i + 1];
        }
      }
      assert txs[0].amount >= 0.0;
      KeyTotalBounds(txs[1..], g, key, k);
    }
  }

  /**
    A percentage column `(num / den * 100).fillna(0)` on floats: dividing by
    zero gives an infinity of the numerator's sign, and 0/0 gives NaN, which
    `fillna(0)` replaces by 0; an infinity is not replaced.
  */
  datatype Percent = Finite(value: real) | PlusInfinity | MinusInfinity

  function Percentage(num: real, den: real): (p: Percent)
    ensures den != 0.0 ==> p.Finite? && p.value * den == num * 100.0
    ensures den == 0.0 ==> (p == Finite(0.0) <==> num == 0.0)
  {
    if den != 0.0 then Finite(num / den * 100.0)
    else if num == 0.0 then Finite(0.0)
    else if num > 0.0 then PlusInfinity
    else MinusInfinity
  }

  /**
    With non-negative sums, a percentage is never minus infinity, is finite
    and non-negative unless the denominator is zero and the numerator is not,
    and in that case it is plus infinity.
  */
  lemma PercentageOfNonNegative(num: real, den: real)
    requires num >= 0.0 && den >= 0.0
    ensures Percentage(num, den) != MinusInfinity
    ensures Percentage(num, den) == PlusInfinity <==> den == 0.0 && num > 0.0
    ensures Percentage(num, den).Finite? ==> Percentage(num, den).value >= 0.0
  {
  }

  /**
    The deviation `(IST - SOLL) / SOLL * 100` is the usage `IST / SOLL * 100`
    shifted down by 100 when SOLL is not zero, and equals the usage when it is.
  */
  lemma DeviationFromUsage(soll: real, ist: real)
    ensures soll != 0.0 ==> Percentage(ist, soll).Finite? && Percentage(ist - soll, soll) == Finite(Percentage(ist, soll).value - 100.0)
    ensures soll == 0.0 ==> Percentage(ist - soll, soll) == Percentage(ist, soll)
  {
    if soll != 0.0 {
      var usage := ist / soll;
      assert usage * soll == ist;
      assert (usage - 1.0) * soll == ist - soll;
      var deviation := (ist - soll) / soll;
      assert deviation * soll == ist - soll;
      ZeroFactor(deviation - (usage - 1.0), soll);
    }
  }

  lemma ZeroFactor(x: real, y: real)
    requires x * y == 0.0 && y != 0.0
    ensures x == 0.0
  {
  }
}
