/**
  The flat transaction log of the cash-stuffing planner: one record per
  entry, with a date, a category, a free-text description, an amount and a
  stored type that is either "SOLL" (money budgeted into an envelope) or
  "IST" (money spent from it). Also the entry form's mapping from its type
  label to the stored type, and the per-type sums every table is built from.
*/
module Ledger {

  /** The stored `type` column. */
  datatype Kind = Soll | Ist

  type Month = m: int | 1 <= m <= 12 witness 1
  type Day = d: int | 1 <= d <= 31 witness 1

  /** A calendar date; only its year and month take part in the tables. */
  datatype Date = Date(year: int, month: Month, day: Day)

  datatype Transaction = Transaction(
    date: Date,
    category: string,
    description: string,
    amount: real,
    kind: Kind)

  /** The two options of the entry form's type selector. */
  const BUDGET_LABEL: string := "SOLL (Budget)"
  const SPENDING_LABEL: string := "IST (Ausgabe)"

  /** The amount field's lower bound. */
  const MIN_AMOUNT: real := 0.0

  /** `sub` occurs in `s` starting at position `i`. */
  predicate OccursAt(s: string, sub: string, i: int) {
    0 <= i <= |s| - |sub| && s[i..i + |sub|] == sub
  }

  /** Python's substring test `sub in s`. */
  predicate Contains(s: string, sub: string) {
    exists i | 0 <= i <= |s| :: OccursAt(s, sub, i)
  }

  /** The text written to the `type` column for each kind. */
  function StoredType(k: Kind): string {
    match k
    case Soll => "SOLL"
    case Ist => "IST"
  }

  /** The chosen form option is stored as "SOLL" when it mentions SOLL, as "IST" otherwise. */
  function Classify(option: string): (k: Kind)
    ensures k == Soll <==>
      exists i :: 0 <= i <= |option| - 4 && SollAt(option, i)
  {
    if Contains(option, "SOLL") then
      var i :| 0 <= i <= |option| && OccursAt(option, "SOLL", i);
      assert option[i..i + 4][0] == option[i] && option[i..i + 4][1] == option[i + 1];
      assert option[i..i + 4][2] == option[i + 2] && option[i..i + 4][3] == option[i + 3];
      assert SollAt(option, i);
      Soll
    else
      assert forall i :: 0 <= i <= |option| - 4 && SollAt(option, i) ==> OccursAt(option, "SOLL", i) by {
        forall i | 0 <= i <= |option| - 4 && SollAt(option, i) ensures OccursAt(option, "SOLL", i) {
          assert option[i..i + 4] == "SOLL";
        }
      }
      Ist
  }

  /** The letters S, O, L, L stand at positions `i` to `i + 3` of `s`. */
  predicate SollAt(s: string, i: int)
    requires 0 <= i <= |s| - 4
  {
    s[i] == 'S' && s[i + 1] == 'O' && s[i + 2] == 'L' && s[i + 3] == 'L'
  }

  /** Classifying a stored type name gives back the kind it was written for. */
  lemma ClassifyStoredType(k: Kind)
    ensures Classify(StoredType(k)) == k
  {
    match k
    case Soll =>
      assert OccursAt("SOLL", "SOLL", 0);
    case Ist =>
  }

  /** The budget option is stored as SOLL and the spending option as IST. */
  lemma FormLabelsClassify()
    ensures Classify(BUDGET_LABEL) == Soll
    ensures Classify(SPENDING_LABEL) == Ist
  {
    assert OccursAt(BUDGET_LABEL, "SOLL", 0);
    var s := SPENDING_LABEL;
    forall i ensures !OccursAt(s, "SOLL", i) {
      if 0 <= i <= |s| - 4 {
        // an occurrence would need an 'S' followed by an 'O'
        assert s[i..i + 4][0] == s[i] && s[i..i + 4][1] == s[i + 1];
      }
    }
  }

  /** The record the entry form saves for its inputs. */
  function Record(d: Date, option: string, category: string, description: string, amount: real): (t: Transaction)
    requires MIN_AMOUNT <= amount
    ensures t.amount >= 0.0 && t.amount == amount
    ensures StoredType(t.kind) == "SOLL" <==> Contains(option, "SOLL")
    ensures StoredType(t.kind) == "SOLL" || StoredType(t.kind) == "IST"
    ensures t.date == d && t.category == category && t.description == description
  {
    Transaction(d, category, description, amount, Classify(option))
  }

  /** Every amount in the log was entered through the form's non-negative field. */
  predicate WellFormed(log: seq<Transaction>) {
    forall i :: 0 <= i < |log| ==> log[i].amount >= 0.0
  }

  /** What a record contributes to the column of kind `k`. */
  function Amount(t: Transaction, k: Kind): real {
    if t.kind == k then t.amount else 0.0
  }

  /** The sum of the amounts of kind `k` in `txs`. */
  function Total(txs: seq<Transaction>, k: Kind): real {
    if txs == [] then 0.0 else Amount(txs[0], k) + Total(txs[1..], k)
  }

  lemma {:induction false} TotalAppend(a: seq<Transaction>, b: seq<Transaction>, k: Kind)
    ensures Total(a + b, k) == Total(a, k) + Total(b, k)
  {
    if a == [] {
      assert a + b == b;
    } else {
      assert (a + b)[1..] == a[1..] + b;
      TotalAppend(a[1..], b, k);
    }
  }

  /** A log of non-negative entries has non-negative totals. */
  lemma {:induction false} TotalNonNegative(txs: seq<Transaction>, k: Kind)
    requires WellFormed(txs)
    ensures Total(txs, k) >= 0.0
  {
    if txs != [] {
      assert WellFormed(txs[1..]) by {
        forall i | 0 <= i < |txs[1..]| ensures txs[1..][i].amount >= 0.0 {
          assert txs[1..][i] == txs[i + 1];
        }
      }
      TotalNonNegative(txs[1..], k);
    }
  }
}
