/** The row order used by the pipeline: rows are sorted by
    `(stock_name, timestamp)`, with Python's string order on symbol names, and
    every per-symbol step works on the run of rows that share a symbol. */
module Ordering {

  /** Python's `<` on `str`: lexicographic by code point, a proper prefix
      being smaller. */
  predicate StrLt(a: string, b: string)
    decreases |a|
  {
    if |a| == 0 then |b| > 0
    else if |b| == 0 then false
    else a[0] < b[0] || (a[0] == b[0] && StrLt(a[1..], b[1..]))
  }

  lemma {:induction false} StrLtIrreflexive(a: string)
    ensures !StrLt(a, a)
    decreases |a|
  {
    if |a| > 0 {
      StrLtIrreflexive(a[1..]);
    }
  }

  lemma {:induction false} StrLtTransitive(a: string, b: string, c: string)
    requires StrLt(a, b) && StrLt(b, c)
    ensures StrLt(a, c)
    decreases |a|
  {
    if |a| > 0 && a[0] == b[0] && b[0] == c[0] {
      StrLtTransitive(a[1..], b[1..], c[1..]);
    }
  }

  lemma {:induction false} StrLtTotal(a: string, b: string)
    requires a != b
    ensures StrLt(a, b) || StrLt(b, a)
    decreases |a|
  {
    if |a| > 0 && |b| > 0 && a[0] == b[0] {
      assert a == [a[0]] + a[1..] && b == [b[0]] + b[1..];
      StrLtTotal(a[1..], b[1..]);
    }
  }

  /** The sort key of a row: its symbol, then its timestamp. */
  datatype Key = Key(stock: string, timestamp: int)

  predicate KeyLt(a: Key, b: Key)
  {
    StrLt(a.stock, b.stock) || (a.stock == b.stock && a.timestamp < b.timestamp)
  }

  predicate KeyLe(a: Key, b: Key)
  {
    KeyLt(a, b) || a == b
  }

  lemma KeyLeTransitive(a: Key, b: Key, c: Key)
    requires KeyLe(a, b) && KeyLe(b, c)
    ensures KeyLe(a, c)
  {
    if StrLt(a.stock, b.stock) && StrLt(b.stock, c.stock) {
      StrLtTransitive(a.stock, b.stock, c.stock);
    }
  }

  lemma KeyLeTotal(a: Key, b: Key)
    ensures KeyLe(a, b) || KeyLe(b, a)
  {
    if a.stock != b.stock {
      StrLtTotal(a.stock, b.stock);
    }
  }

  /** Keys in order have their symbols in order. */
  lemma KeyLeStock(a: Key, b: Key)
    requires KeyLe(a, b)
    ensures a.stock == b.stock || StrLt(a.stock, b.stock)
  {
  }

  /** Rows whose keys never decrease. */
  ghost predicate Sorted<T>(xs: seq<T>, key: T -> Key)
  {
    forall i, j :: 0 <= i < j < |xs| ==> KeyLe(key(xs[i]), key(xs[j]))
  }

  /** Inserts `x` before the first element whose key is not smaller, so that
      `x` lands ahead of rows with an equal key. */
  function Insert<T>(x: T, xs: seq<T>, key: T -> Key): (r: seq<T>)
    ensures |r| == |xs| + 1
  {
    if |xs| == 0 then [x]
    else if KeyLe(key(x), key(xs[0])) then [x] + xs
    else [xs[0]] + Insert(x, xs[1..], key)
  }

  /** A stable sort by key (the table sort of the pipeline; pandas' own
      algorithm is not modelled, only its outcome). */
  function SortBy<T>(xs: seq<T>, key: T -> Key): (r: seq<T>)
    ensures |r| == |xs|
  {
    if |xs| == 0 then [] else Insert(xs[0], SortBy(xs[1..], key), key)
  }

  lemma {:induction false} InsertPermutes<T>(x: T, xs: seq<T>, key: T -> Key)
    ensures multiset(Insert(x, xs, key)) == multiset(xs) + multiset{x}
    decreases |xs|
  {
    if |xs| > 0 && !KeyLe(key(x), key(xs[0])) {
      InsertPermutes(x, xs[1..], key);
      assert xs == [xs[0]] + xs[1..];
    }
  }

  /** A lower bound of `x` and of every element of `xs` bounds every
      element of the insertion. */
  lemma {:induction false} InsertLowerBound<T>(x: T, xs: seq<T>, key: T -> Key, b: Key)
    requires KeyLe(b, key(x))
    requires forall i :: 0 <= i < |xs| ==> KeyLe(b, key(xs[i]))
    ensures forall i :: 0 <= i < |Insert(x, xs, key)| ==> KeyLe(b, key(Insert(x, xs, key)[i]))
    decreases |xs|
  {
    if |xs| > 0 && !KeyLe(key(x), key(xs[0])) {
      InsertLowerBound(x, xs[1..], key, b);
    }
  }

  lemma {:induction false} InsertSorted<T>(x: T, xs: seq<T>, key: T -> Key)
    requires Sorted(xs, key)
    ensures Sorted(Insert(x, xs, key), key)
    decreases |xs|
  {
    var r := Insert(x, xs, key);
    if |xs| == 0 {
    } else if KeyLe(key(x), key(xs[0])) {
      forall i, j | 0 <= i < j < |r| ensures KeyLe(key(r[i]), key(r[j])) {
        if i == 0 {
          KeyLeTransitive(key(x), key(xs[0]), key(r[j]));
        }
      }
    } else {
      var tail := Insert(x, xs[1..], key);
      InsertSorted(x, xs[1..], key);
      KeyLeTotal(key(x), key(xs[0]));
      InsertLowerBound(x, xs[1..], key, key(xs[0]));
      assert r == [xs[0]] + tail;
      forall i, j | 0 <= i < j < |r| ensures KeyLe(key(r[i]), key(r[j])) {
        if i == 0 {
          assert r[j] == tail[j - 1];
        } else {
          assert r[i] == tail[i - 1] && r[j] == tail[j - 1];
        }
      }
    }
  }

  /** Sorting keeps every row exactly once. */
  lemma {:induction false} SortByPermutes<T>(xs: seq<T>, key: T -> Key)
    ensures multiset(SortBy(xs, key)) == multiset(xs)
    ensures |SortBy(xs, key)| == |xs|
    decreases |xs|
  {
    if |xs| > 0 {
      SortByPermutes(xs[1..], key);
      InsertPermutes(xs[0], SortBy(xs[1..], key), key);
      assert xs == [xs[0]] + xs[1..];
    }
    assert |multiset(SortBy(xs, key))| == |multiset(xs)|;
  }

  /** Sorting puts the rows in key order. */
  lemma {:induction false} SortBySorted<T>(xs: seq<T>, key: T -> Key)
    ensures Sorted(SortBy(xs, key), key)
    decreases |xs|
  {
    if |xs| > 0 {
      SortBySorted(xs[1..], key);
      InsertSorted(xs[0], SortBy(xs[1..], key), key);
    }
  }

  /** The rows of one symbol, in their original order
      (`df[df.stock_name == s]`). */
  function OfStock<T>(xs: seq<T>, key: T -> Key, s: string): seq<T>
  {
    if |xs| == 0 then []
    else (if key(xs[0]).stock == s then [xs[0]] else []) + OfStock(xs[1..], key, s)
  }

  lemma {:induction false} OfStockAppend<T>(a: seq<T>, b: seq<T>, key: T -> Key, s: string)
    ensures OfStock(a + b, key, s) == OfStock(a, key, s) + OfStock(b, key, s)
    decreases |a|
  {
    if |a| > 0 {
      assert (a + b)[0] == a[0];
      assert (a + b)[1..] == a[1..] + b;
      OfStockAppend(a[1..], b, key, s);
    } else {
      assert a + b == b;
    }
  }

  /** Filtering a table on which every row has symbol `s` keeps it whole. */
  lemma {:induction false} OfStockAll<T>(xs: seq<T>, key: T -> Key, s: string)
    requires forall i :: 0 <= i < |xs| ==> key(xs[i]).stock == s
    ensures OfStock(xs, key, s) == xs
    decreases |xs|
  {
    if |xs| > 0 {
      OfStockAll(xs[1..], key, s);
    }
  }

  /** Filtering a table with no row of symbol `s` leaves nothing. */
  lemma {:induction false} OfStockNone<T>(xs: seq<T>, key: T -> Key, s: string)
    requires forall i :: 0 <= i < |xs| ==> key(xs[i]).stock != s
    ensures OfStock(xs, key, s) == []
    decreases |xs|
  {
    if |xs| > 0 {
      OfStockNone(xs[1..], key, s);
    }
  }

  /** Every row kept by the filter has the symbol and comes from the input. */
  lemma {:induction false} OfStockMembers<T>(xs: seq<T>, key: T -> Key, s: string)
    ensures forall i :: 0 <= i < |OfStock(xs, key, s)| ==>
      key(OfStock(xs, key, s)[i]).stock == s && OfStock(xs, key, s)[i] in xs
    decreases |xs|
  {
    if |xs| > 0 {
      OfStockMembers(xs[1..], key, s);
    }
  }

  /** A row inserted into a sorted table shows up in the filtered table
      exactly where inserting it into the filtered table would put it. */
  lemma {:induction false} OfStockInsert<T>(x: T, xs: seq<T>, key: T -> Key, s: string)
    requires Sorted(xs, key)
    ensures OfStock(Insert(x, xs, key), key, s) ==
      if key(x).stock == s then Insert(x, OfStock(xs, key, s), key) else OfStock(xs, key, s)
    decreases |xs|
  {
    if |xs| == 0 {
    } else if KeyLe(key(x), key(xs[0])) {
      assert Insert(x, xs, key) == [x] + xs;
      assert ([x] + xs)[1..] == xs;
      var f := OfStock(xs, key, s);
      if key(x).stock == s && |f| > 0 {
        OfStockMembers(xs, key, s);
        var k :| 0 <= k < |xs| && xs[k] == f[0];
        if k > 0 {
          KeyLeTransitive(key(x), key(xs[0]), key(xs[k]));
        }
      }
    } else {
      OfStockInsert(x, xs[1..], key, s);
      var r := Insert(x, xs, key);
      var tail := Insert(x, xs[1..], key);
      assert r == [xs[0]] + tail;
      assert r[0] == xs[0] && r[1..] == tail;
      var head := if key(xs[0]).stock == s then [xs[0]] else [];
      var f := OfStock(xs[1..], key, s);
      assert OfStock(r, key, s) == head + OfStock(tail, key, s);
      assert OfStock(xs, key, s) == head + f;
      if key(x).stock == s {
        assert OfStock(tail, key, s) == Insert(x, f, key);
        if key(xs[0]).stock == s {
          assert ([xs[0]] + f)[0] == xs[0] && ([xs[0]] + f)[1..] == f;
          assert Insert(x, [xs[0]] + f, key) == [xs[0]] + Insert(x, f, key);
        } else {
          assert head + f == f;
          assert head + Insert(x, f, key) == Insert(x, f, key);
        }
      } else {
        assert OfStock(tail, key, s) == f;
      }
    }
  }

  /** Filtering on a symbol commutes with the sort: the sorted rows of one
      symbol do not depend on the rows of any other symbol. */
  lemma {:induction false} OfStockSortBy<T>(xs: seq<T>, key: T -> Key, s: string)
    ensures OfStock(SortBy(xs, key), key, s) == SortBy(OfStock(xs, key, s), key)
    decreases |xs|
  {
    if |xs| > 0 {
      OfStockSortBy(xs[1..], key, s);
      SortBySorted(xs[1..], key);
      OfStockInsert(xs[0], SortBy(xs[1..], key), key, s);
      var f := OfStock(xs[1..], key, s);
      if key(xs[0]).stock == s {
        assert OfStock(xs, key, s) == [xs[0]] + f;
        assert ([xs[0]] + f)[0] == xs[0] && ([xs[0]] + f)[1..] == f;
      } else {
        assert OfStock(xs, key, s) == f;
      }
    }
  }

  /** The number of leading rows that share the first row's symbol. */
  function RunLength<T>(xs: seq<T>, key: T -> Key): (k: nat)
    requires |xs| > 0
    ensures 1 <= k <= |xs|
    ensures forall i :: 0 <= i < k ==> key(xs[i]).stock == key(xs[0]).stock
    ensures k < |xs| ==> key(xs[k]).stock != key(xs[0]).stock
  {
    RunEnd(xs, key, 1)
  }

  function RunEnd<T>(xs: seq<T>, key: T -> Key, from: nat): (k: nat)
    requires 1 <= from <= |xs|
    requires forall i :: 0 <= i < from ==> key(xs[i]).stock == key(xs[0]).stock
    ensures from <= k <= |xs|
    ensures forall i :: 0 <= i < k ==> key(xs[i]).stock == key(xs[0]).stock
    ensures k < |xs| ==> key(xs[k]).stock != key(xs[0]).stock
    decreases |xs| - from
  {
    if from == |xs| || key(xs[from]).stock != key(xs[0]).stock then from
    else RunEnd(xs, key, from + 1)
  }

  /** In a sorted table the leading run is the whole of its symbol's rows,
      and the remaining rows are sorted and carry other symbols. */
  lemma RunIsWholeGroup<T>(xs: seq<T>, key: T -> Key, s: string)
    requires |xs| > 0 && Sorted(xs, key)
    ensures var k := RunLength(xs, key);
      && Sorted(xs[k..], key)
      && OfStock(xs, key, key(xs[0]).stock) == xs[..k]
      && OfStock(xs[k..], key, key(xs[0]).stock) == []
      && (s != key(xs[0]).stock ==> OfStock(xs, key, s) == OfStock(xs[k..], key, s))
  {
    var k := RunLength(xs, key);
    var t := key(xs[0]).stock;
    assert xs == xs[..k] + xs[k..];
    OfStockAppend(xs[..k], xs[k..], key, t);
    OfStockAppend(xs[..k], xs[k..], key, s);
    OfStockAll(xs[..k], key, t);
    if s != t {
      OfStockNone(xs[..k], key, s);
    }
    RestHasOtherSymbols(xs, key);
    OfStockNone(xs[k..], key, t);
  }

  /** In a sorted table no row after the leading run has the run's symbol. */
  lemma RestHasOtherSymbols<T>(xs: seq<T>, key: T -> Key)
    requires |xs| > 0 && Sorted(xs, key)
    ensures var k := RunLength(xs, key);
      forall i :: 0 <= i < |xs[k..]| ==> key(xs[k..][i]).stock != key(xs[0]).stock
  {
    var k := RunLength(xs, key);
    var t := key(xs[0]).stock;
    forall i | 0 <= i < |xs[k..]| ensures key(xs[k..][i]).stock != t {
      var j := k + i;
      KeyLeStock(key(xs[0]), key(xs[k]));
      KeyLeStock(key(xs[k]), key(xs[j]));
      var u := key(xs[k]).stock;
      assert StrLt(t, u);
      if key(xs[j]).stock != u {
        StrLtTransitive(t, u, key(xs[j]).stock);
      }
      StrLtIrreflexive(t);
    }
  }
}
