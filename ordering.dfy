/**
  The two orders the tables are listed in: Python's order on strings (the
  order pandas sorts group keys in) and the newest-first order of
  `sorted(..., reverse=True)` on numbers, each with the fold that turns a
  column into its distinct values in that order (`sorted(unique())`).
*/
module Ordering {

  /** Python's `<` on str: code-point lexicographic order, a proper prefix first. */
  predicate StrLess(a: string, b: string)
    decreases |a|
  {
    |b| > 0 && (|a| == 0 || (if a[0] == b[0] then StrLess(a[1..], b[1..]) else a[0] < b[0]))
  }

  lemma {:induction false} StrLessIrreflexive(a: string)
    ensures !StrLess(a, a)
    decreases |a|
  {
    if |a| > 0 {
      StrLessIrreflexive(a[1..]);
    }
  }

  lemma {:induction false} StrLessTransitive(a: string, b: string, c: string)
    requires StrLess(a, b) && StrLess(b, c)
    ensures StrLess(a, c)
    decreases |a|
  {
    if |a| > 0 && a[0] == b[0] && b[0] == c[0] {
      StrLessTransitive(a[1..], b[1..], c[1..]);
    }
  }

  lemma {:induction false} StrLessTotal(a: string, b: string)
    requires a != b
    ensures StrLess(a, b) || StrLess(b, a)
    decreases |a|
  {
    if |a| > 0 && |b| > 0 && a[0] == b[0] {
      assert a == [a[0]] + a[1..] && b == [b[0]] + b[1..];
      StrLessTotal(a[1..], b[1..]);
    }
  }

  /** Strictly ascending in Python's string order; in particular free of duplicates. */
  predicate Ascending(ks: seq<string>) {
    forall i, j :: 0 <= i < j < |ks| ==> StrLess(ks[i], ks[j])
  }

  /** Strictly descending numbers; in particular free of duplicates. */
  predicate Descending(xs: seq<int>) {
    forall i, j :: 0 <= i < j < |xs| ==> xs[i] > xs[j]
  }

  predicate Distinct<T(==)>(s: seq<T>) {
    forall i, j :: 0 <= i < j < |s| ==> s[i] != s[j]
  }

  lemma AscendingDistinct(ks: seq<string>)
    requires Ascending(ks)
    ensures Distinct(ks)
  {
    forall i, j | 0 <= i < j < |ks| ensures ks[i] != ks[j] {
      StrLessIrreflexive(ks[i]);
    }
  }

  /** `k` added to an ascending list of distinct keys, unless it is already there. */
  function InsertKey(ks: seq<string>, k: string): (r: seq<string>)
    requires Ascending(ks)
    ensures Ascending(r)
    ensures forall x :: x in r <==> x in ks || x == k
  {
    if ks == [] then [k]
    else if k == ks[0] then ks
    else if StrLess(k, ks[0]) then
      assert Ascending([k] + ks) by {
        forall j | 0 < j < |ks| ensures StrLess(k, ks[j]) {
          StrLessTransitive(k, ks[0], ks[j]);
        }
      }
      [k] + ks
    else
      StrLessTotal(k, ks[0]);
      var rest := InsertKey(ks[1..], k);
      assert forall x :: x in ks <==> x == ks[0] || x in ks[1..];
      assert forall j :: 0 <= j < |rest| ==> StrLess(ks[0], rest[j]) by {
        forall j | 0 <= j < |rest| ensures StrLess(ks[0], rest[j]) {
          assert rest[j] in rest;
          if rest[j] != k {
            var m :| 0 <= m < |ks[1..]| && ks[1..][m] == rest[j];
            assert ks[m + 1] == rest[j];
          }
        }
      }
      [ks[0]] + rest
  }

  /** The distinct keys of `xs` in ascending order: Python's `sorted(set(xs))`. */
  function UniqueAscending(xs: seq<string>): (r: seq<string>)
    ensures Ascending(r)
    ensures forall x :: x in r <==> x in xs
  {
    if xs == [] then []
    else
      assert forall x :: x in xs <==> x == xs[0] || x in xs[1..];
      InsertKey(UniqueAscending(xs[1..]), xs[0])
  }

  /** `x` added to a descending list of distinct numbers, unless it is already there. */
  function InsertDesc(xs: seq<int>, x: int): (r: seq<int>)
    requires Descending(xs)
    ensures Descending(r)
    ensures forall v :: v in r <==> v in xs || v == x
  {
    if xs == [] then [x]
    else if x == xs[0] then xs
    else if x > xs[0] then [x] + xs
    else
      var rest := InsertDesc(xs[1..], x);
      assert forall v :: v in xs <==> v == xs[0] || v in xs[1..];
      assert forall j :: 0 <= j < |rest| ==> xs[0] > rest[j] by {
        forall j | 0 <= j < |rest| ensures xs[0] > rest[j] {
          assert rest[j] in rest;
          if rest[j] != x {
            var m :| 0 <= m < |xs[1..]| && xs[1..][m] == rest[j];
            assert xs[m + 1] == rest[j];
          }
        }
      }
      [xs[0]] + rest
  }

  /** The distinct values of `xs`, largest first: Python's `sorted(xs.unique(), reverse=True)`. */
  function UniqueDescending(xs: seq<int>): (r: seq<int>)
    ensures Descending(r)
    ensures forall v :: v in r <==> v in xs
  {
    if xs == [] then []
    else
      assert forall v :: v in xs <==> v == xs[0] || v in xs[1..];
      InsertDesc(UniqueDescending(xs[1..]), xs[0])
  }

  /** A duplicate-free sequence has as many elements as its set. */
  lemma {:induction false} DistinctCardinality<T>(s: seq<T>)
    requires Distinct(s)
    ensures |set x | x in s| == |s|
  {
    if s != [] {
      var rest := s[1..];
      assert Distinct(rest) by {
        forall i, j | 0 <= i < j < |rest| ensures rest[i] != rest[j] {
          assert rest[i] == s[i + 1] && rest[j] == s[j + 1];
        }
      }
      DistinctCardinality(rest);
      assert (set x | x in s) == (set x | x in rest) + {s[0]};
      assert s[0] !in rest by {
        forall i | 0 <= i < |rest| ensures rest[i] != s[0] {
          assert rest[i] == s[i + 1];
        }
      }
    }
  }

  lemma {:induction false} SubsetCardinality<T>(a: set<T>, b: set<T>)
    requires a <= b
    ensures |a| <= |b|
  {
    if a != {} {
      var x :| x in a;
      SubsetCardinality(a - {x}, b - {x});
    }
  }

  /** A duplicate-free sequence drawn from a finite set is no longer than the set. */
  lemma DistinctWithin<T>(s: seq<T>, bound: set<T>)
    requires Distinct(s)
    requires forall x :: x in s ==> x in bound
    ensures |s| <= |bound|
  {
    DistinctCardinality(s);
    SubsetCardinality((set x | x in s), bound);
  }
}
