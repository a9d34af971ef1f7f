/** `split_train_test`: per symbol, in timestamp order, the last
    `round(frac * n)` rows are test and the rest train, with a manifest of
    row counts and timestamp bounds per symbol. */
module Split {
  import opened Cells
  import opened Ordering
  import opened Features

  /** Python's `round` on a number: to the nearest integer, ties to the
      even one. */
  function RoundHalfEven(x: real): (r: int)
    ensures -0.5 <= r as real - x <= 0.5
    ensures (r as real - x == 0.5 || x - r as real == 0.5) ==> r % 2 == 0
  {
    var f := x.Floor;
    var d := x - f as real;
    if d < 0.5 then f
    else if d > 0.5 then f + 1
    else if f % 2 == 0 then f
    else f + 1
  }

  /** Python's normalisation of a slice bound `k` on a sequence of length
      `n`: a negative bound counts from the end, and the result is clamped
      to `0 .. n`. */
  function SliceBound(k: int, n: nat): (b: nat)
    ensures b <= n
    ensures 0 <= k <= n ==> b == k
    ensures -(n as int) <= k < 0 ==> b as int == n as int + k
    ensures k < -(n as int) ==> b == 0
    ensures n < k ==> b == n
  {
    if k < 0 then (if n + k < 0 then 0 else n + k)
    else if k > n then n
    else k
  }

  /** `g.iloc[:k]`. */
  function Head<T>(g: seq<T>, k: int): seq<T>
  {
    g[..SliceBound(k, |g|)]
  }

  /** `g.iloc[k:]`. */
  function Tail<T>(g: seq<T>, k: int): seq<T>
  {
    g[SliceBound(k, |g|)..]
  }

  /** `frac * n`, taken exactly, as the sum of `n` copies of `frac`
      (`ScaleIsProduct` states that this is the product; the sum keeps the
      arithmetic linear). */
  function Scale(frac: real, n: nat): real
  {
    if n == 0 then 0.0 else Scale(frac, n - 1) + frac
  }

  /** `test_n = int(round(test_frac * n))`, with the fraction taken exactly. */
  function TestCount(frac: real, n: nat): (t: int)
    ensures -0.5 <= t as real - Scale(frac, n) <= 0.5
    ensures (t as real - Scale(frac, n) == 0.5 || Scale(frac, n) - t as real == 0.5) ==> t % 2 == 0
  {
    RoundHalfEven(Scale(frac, n))
  }

  /** `series.min()` over timestamps: NaT (here NaN) for an empty series. */
  function MinTimestamp(rows: seq<FeatureRow>): (m: Cell<int>)
    ensures m.NaN? <==> |rows| == 0
    ensures m.Num? ==> (forall i :: 0 <= i < |rows| ==> m.value <= rows[i].row.timestamp)
  {
    if |rows| == 0 then NaN
    else
      var rest := MinTimestamp(rows[1..]);
      if rest.NaN? || rows[0].row.timestamp <= rest.value then Num(rows[0].row.timestamp)
      else rest
  }

  /** `series.max()` over timestamps. */
  function MaxTimestamp(rows: seq<FeatureRow>): (m: Cell<int>)
    ensures m.NaN? <==> |rows| == 0
    ensures m.Num? ==> (forall i :: 0 <= i < |rows| ==> rows[i].row.timestamp <= m.value)
  {
    if |rows| == 0 then NaN
    else
      var rest := MaxTimestamp(rows[1..]);
      if rest.NaN? || rows[0].row.timestamp >= rest.value then Num(rows[0].row.timestamp)
      else rest
  }

  /** The minimum and the maximum are timestamps of actual rows. */
  lemma {:induction false} BoundsAttained(rows: seq<FeatureRow>)
    requires |rows| > 0
    ensures exists i :: 0 <= i < |rows| && rows[i].row.timestamp == MinTimestamp(rows).value
    ensures exists i :: 0 <= i < |rows| && rows[i].row.timestamp == MaxTimestamp(rows).value
    decreases |rows|
  {
    if |rows| > 1 {
      BoundsAttained(rows[1..]);
      var a :| 0 <= a < |rows[1..]| && rows[1..][a].row.timestamp == MinTimestamp(rows[1..]).value;
      var b :| 0 <= b < |rows[1..]| && rows[1..][b].row.timestamp == MaxTimestamp(rows[1..]).value;
      assert rows[a + 1].row.timestamp == MinTimestamp(rows[1..]).value;
      assert rows[b + 1].row.timestamp == MaxTimestamp(rows[1..]).value;
    } else {
      assert rows[0].row.timestamp == MinTimestamp(rows).value;
      assert rows[0].row.timestamp == MaxTimestamp(rows).value;
    }
  }

  /** One symbol's entry of the split manifest (`splits[stock]`); the
      timestamps are kept as numbers rather than formatted. */
  datatype SplitInfo = SplitInfo(
    trainRows: nat,
    testRows: nat,
    trainStart: Cell<int>,
    trainEnd: Cell<int>,
    testStart: Cell<int>,
    testEnd: Cell<int>)

  datatype GroupSplit = GroupSplit(train: seq<FeatureRow>, test: seq<FeatureRow>, info: SplitInfo)

  /** The split of one symbol's rows `g`, already in timestamp order. */
  function SplitGroup(g: seq<FeatureRow>, frac: real): (r: GroupSplit)
    ensures r.train + r.test == g
    ensures r.info.trainRows == |r.train| && r.info.testRows == |r.test|
  {
    var n := |g|;
    var testN := TestCount(frac, n);
    var train := Head(g, n - testN);
    var test := Tail(g, n - testN);
    assert train + test == g;
    GroupSplit(train, test, SplitInfo(|train|, |test|,
      MinTimestamp(train), MaxTimestamp(train), MinTimestamp(test), MaxTimestamp(test)))
  }

  /** The manifest's counts add up to the group's size; for a fraction in
      `[0, 1]` the test half has exactly `round(frac * n)` rows, none for
      fraction 0 and all for fraction 1. */
  lemma SplitGroupCounts(g: seq<FeatureRow>, frac: real)
    ensures SplitGroup(g, frac).info.trainRows + SplitGroup(g, frac).info.testRows == |g|
    ensures 0.0 <= frac <= 1.0 ==> SplitGroup(g, frac).info.testRows == TestCount(frac, |g|)
    ensures 0.0 <= frac <= 1.0 ==> |SplitGroup(g, frac).train| == |g| - TestCount(frac, |g|)
    ensures frac == 0.0 ==> SplitGroup(g, frac).test == [] && SplitGroup(g, frac).train == g
    ensures frac == 1.0 ==> SplitGroup(g, frac).train == [] && SplitGroup(g, frac).test == g
  {
    var r := SplitGroup(g, frac);
    assert |r.train| + |r.test| == |g|;
    if 0.0 <= frac <= 1.0 {
      TestCountInRange(frac, |g|);
    }
    if frac == 0.0 {
      ScaleIsProduct(frac, |g|);
      RoundHalfEvenUnique(0.0, 0);
    }
    if frac == 1.0 {
      ScaleIsProduct(frac, |g|);
      RoundHalfEvenUnique(|g| as real, |g|);
    }
  }

  /** The whole table's split: concatenated train rows, concatenated test
      rows and the manifest. */
  datatype TableSplit = TableSplit(train: seq<FeatureRow>, test: seq<FeatureRow>, manifest: map<string, SplitInfo>)

  /** `pd.concat([])` raises: a table with no rows has no group to
      concatenate. */
  datatype SplitError = NoObjectsToConcatenate

  datatype Result<+T> = Ok(value: T) | Failure(error: SplitError)

  /** The loop over `df.groupby('stock_name')` on a table sorted by
      (symbol, timestamp): each run of one symbol is one group, and `split`
      cuts one group into its train and test halves. */
  function SplitRuns(xs: seq<FeatureRow>, split: seq<FeatureRow> -> GroupSplit): (r: TableSplit)
    ensures forall s :: s in r.manifest <==> exists i :: 0 <= i < |xs| && xs[i].row.stock == s
    decreases |xs|
  {
    if |xs| == 0 then TableSplit([], [], map[])
    else
      var k := RunLength(xs, FeatureKey);
      assert forall i :: k <= i < |xs| ==> xs[i] == xs[k..][i - k];
      var here := split(xs[..k]);
      var rest := SplitRuns(xs[k..], split);
      TableSplit(here.train + rest.train, here.test + rest.test,
        rest.manifest[xs[0].row.stock := here.info])
  }

  /** The per-group split with the configured test fraction. */
  function Splitter(frac: real): seq<FeatureRow> -> GroupSplit
  {
    g => SplitGroup(g, frac)
  }

  /** A per-group split that cuts every group into a prefix and the
      remaining suffix. */
  ghost predicate Partitions(split: seq<FeatureRow> -> GroupSplit)
  {
    forall g :: split(g).train + split(g).test == g
  }

  lemma SplitterPartitions(frac: real)
    ensures Partitions(Splitter(frac))
  {
    forall g ensures Splitter(frac)(g).train + Splitter(frac)(g).test == g {
      var r := SplitGroup(g, frac);
    }
  }

  /** `split_train_test`. Grouping by symbol and sorting each group by
      timestamp is a stable sort of the table by (symbol, timestamp). */
  function SplitTrainTest(df: seq<FeatureRow>, frac: real): (r: Result<TableSplit>)
    ensures r.Failure? <==> |df| == 0
    ensures r.Ok? ==> multiset(r.value.train) + multiset(r.value.test) == multiset(df)
  {
    if |df| == 0 then Failure(NoObjectsToConcatenate)
    else
      SplitterPartitions(frac);
      SortByPermutes(df, FeatureKey);
      SplitRunsPermutes(SortBy(df, FeatureKey), Splitter(frac));
      Ok(SplitRuns(SortBy(df, FeatureKey), Splitter(frac)))
  }

  /** Python's rounding, pinned down: an integer closer than one half, or
      exactly one half away and even, is the rounded value. */
  lemma RoundHalfEvenUnique(x: real, k: int)
    requires (-0.5 < k as real - x < 0.5) || ((k as real - x == 0.5 || x - k as real == 0.5) && k % 2 == 0)
    ensures RoundHalfEven(x) == k
  {
    var r := RoundHalfEven(x);
    assert -1 <= r - k <= 1;
  }

  lemma {:induction false} ScaleIsProduct(frac: real, n: nat)
    ensures Scale(frac, n) == frac * n as real
  {
    if n > 0 {
      ScaleIsProduct(frac, n - 1);
      assert frac * n as real == frac * (n - 1) as real + frac;
    }
  }

  lemma {:induction false} ScaleInRange(frac: real, n: nat)
    requires 0.0 <= frac <= 1.0
    ensures 0.0 <= Scale(frac, n) <= n as real
  {
    if n > 0 {
      ScaleInRange(frac, n - 1);
    }
  }

  /** A fraction in `[0, 1]` rounds to a count in `0 .. n`. */
  lemma TestCountInRange(frac: real, n: nat)
    requires 0.0 <= frac <= 1.0
    ensures 0 <= TestCount(frac, n) <= n
  {
    ScaleInRange(frac, n);
  }

  /** Within one symbol, key order is timestamp order. */
  lemma SortedGroupTimestamps(g: seq<FeatureRow>)
    requires Sorted(g, FeatureKey)
    requires forall i :: 0 <= i < |g| ==> g[i].row.stock == g[0].row.stock
    ensures forall i, j :: 0 <= i < j < |g| ==> g[i].row.timestamp <= g[j].row.timestamp
  {
    if |g| > 0 {
      StrLtIrreflexive(g[0].row.stock);
    }
  }

  /** Chronological split: in a group sorted by timestamp, every test row
      is no earlier than every train row, and the manifest's train end is
      no later than its test start. */
  lemma SplitGroupChronological(g: seq<FeatureRow>, frac: real)
    requires Sorted(g, FeatureKey)
    requires forall i :: 0 <= i < |g| ==> g[i].row.stock == g[0].row.stock
    ensures var r := SplitGroup(g, frac);
      forall i, j :: 0 <= i < |r.train| && 0 <= j < |r.test| ==>
        r.train[i].row.timestamp <= r.test[j].row.timestamp
    ensures var r := SplitGroup(g, frac);
      r.info.trainEnd.Num? && r.info.testStart.Num? ==> r.info.trainEnd.value <= r.info.testStart.value
  {
    var r := SplitGroup(g, frac);
    SortedGroupTimestamps(g);
    HalvesOrdered(r.train, r.test, g);
    if r.info.trainEnd.Num? && r.info.testStart.Num? {
      BoundsAttained(r.train);
      BoundsAttained(r.test);
    }
  }

  lemma HalvesOrdered(a: seq<FeatureRow>, b: seq<FeatureRow>, g: seq<FeatureRow>)
    requires a + b == g
    requires forall i, j :: 0 <= i < j < |g| ==> g[i].row.timestamp <= g[j].row.timestamp
    ensures forall i, j :: 0 <= i < |a| && 0 <= j < |b| ==> a[i].row.timestamp <= b[j].row.timestamp
  {
    forall i, j | 0 <= i < |a| && 0 <= j < |b|
      ensures a[i].row.timestamp <= b[j].row.timestamp
    {
      assert a[i] == g[i] && b[j] == g[|a| + j];
    }
  }

  /** In a group sorted by timestamp the manifest's bounds are the first
      and last timestamps of each half. */
  lemma {:induction false} SortedBounds(rows: seq<FeatureRow>)
    requires |rows| > 0
    requires forall i, j :: 0 <= i < j < |rows| ==> rows[i].row.timestamp <= rows[j].row.timestamp
    ensures MinTimestamp(rows) == Num(rows[0].row.timestamp)
    ensures MaxTimestamp(rows) == Num(rows[|rows| - 1].row.timestamp)
  {
    var lo := MinTimestamp(rows);
    var hi := MaxTimestamp(rows);
    BoundsAttained(rows);
    var a :| 0 <= a < |rows| && rows[a].row.timestamp == lo.value;
    var b :| 0 <= b < |rows| && rows[b].row.timestamp == hi.value;
  }

  /** Every row of the table lands in exactly one of train and test. */
  lemma {:induction false} SplitRunsPermutes(xs: seq<FeatureRow>, split: seq<FeatureRow> -> GroupSplit)
    requires Partitions(split)
    ensures multiset(SplitRuns(xs, split).train) + multiset(SplitRuns(xs, split).test) == multiset(xs)
    decreases |xs|
  {
    if |xs| > 0 {
      var k := RunLength(xs, FeatureKey);
      SplitRunsPermutes(xs[k..], split);
      var here := split(xs[..k]);
      var rest := SplitRuns(xs[k..], split);
      CombineHalves(here.train, here.test, rest.train, rest.test, xs, k);
    }
  }

  lemma CombineHalves<T>(a: seq<T>, b: seq<T>, c: seq<T>, d: seq<T>, xs: seq<T>, k: nat)
    requires k <= |xs|
    requires a + b == xs[..k]
    requires multiset(c) + multiset(d) == multiset(xs[k..])
    ensures multiset(a + c) + multiset(b + d) == multiset(xs)
  {
    assert xs[..k] + xs[k..] == xs;
    calc {
      multiset(a + c) + multiset(b + d);
      multiset(a) + multiset(b) + (multiset(c) + multiset(d));
      multiset(a + b) + multiset(xs[k..]);
      multiset(xs[..k] + xs[k..]);
    }
  }

  /** Both halves of a split group hold only rows of the group's symbol. */
  lemma HalvesStock(g: seq<FeatureRow>, train: seq<FeatureRow>, test: seq<FeatureRow>, t: string)
    requires train + test == g
    requires forall i :: 0 <= i < |g| ==> g[i].row.stock == t
    ensures forall i :: 0 <= i < |train| ==> FeatureKey(train[i]).stock == t
    ensures forall i :: 0 <= i < |test| ==> FeatureKey(test[i]).stock == t
  {
    assert forall i :: 0 <= i < |train| ==> train[i] == g[i];
    assert forall i :: 0 <= i < |test| ==> test[i] == g[|train| + i];
  }

  /** Split isolation: on a sorted table, the train and test rows of
      symbol `s` are the split of that symbol's rows alone. */
  lemma {:induction false} SplitRunsIsolation(xs: seq<FeatureRow>, split: seq<FeatureRow> -> GroupSplit, s: string)
    requires Sorted(xs, FeatureKey)
    requires Partitions(split)
    ensures OfStock(SplitRuns(xs, split).train, FeatureKey, s) == split(OfStock(xs, FeatureKey, s)).train
    ensures OfStock(SplitRuns(xs, split).test, FeatureKey, s) == split(OfStock(xs, FeatureKey, s)).test
    decreases |xs|
  {
    if |xs| > 0 {
      var k := RunLength(xs, FeatureKey);
      var t := xs[0].row.stock;
      var run := xs[..k];
      var here := split(run);
      var rest := SplitRuns(xs[k..], split);
      var r := SplitRuns(xs, split);
      assert r.train == here.train + rest.train && r.test == here.test + rest.test;
      RunIsWholeGroup(xs, FeatureKey, s);
      SplitRunsIsolation(xs[k..], split, s);
      HalvesStock(run, here.train, here.test, t);
      OfStockAppend(here.train, rest.train, FeatureKey, s);
      OfStockAppend(here.test, rest.test, FeatureKey, s);
      if s == t {
        assert OfStock(xs, FeatureKey, s) == run;
        assert OfStock(xs[k..], FeatureKey, s) == [];
        IsolationOwnRun(here, rest, split, s);
      } else {
        assert OfStock(xs, FeatureKey, s) == OfStock(xs[k..], FeatureKey, s);
        IsolationOtherRun(here, rest, s);
      }
    }
  }

  /** The step of the isolation proof for a run of another symbol: it
      contributes nothing. */
  lemma IsolationOtherRun(here: GroupSplit, rest: TableSplit, s: string)
    requires forall i :: 0 <= i < |here.train| ==> FeatureKey(here.train[i]).stock != s
    requires forall i :: 0 <= i < |here.test| ==> FeatureKey(here.test[i]).stock != s
    ensures OfStock(here.train, FeatureKey, s) + OfStock(rest.train, FeatureKey, s) ==
      OfStock(rest.train, FeatureKey, s)
    ensures OfStock(here.test, FeatureKey, s) + OfStock(rest.test, FeatureKey, s) ==
      OfStock(rest.test, FeatureKey, s)
  {
    OfStockNone(here.train, FeatureKey, s);
    OfStockNone(here.test, FeatureKey, s);
  }

  /** The step of the isolation proof for the run of symbol `s` itself:
      the run contributes all of its split, the rest nothing. */
  lemma IsolationOwnRun(here: GroupSplit, rest: TableSplit, split: seq<FeatureRow> -> GroupSplit, s: string)
    requires Partitions(split)
    requires forall i :: 0 <= i < |here.train| ==> FeatureKey(here.train[i]).stock == s
    requires forall i :: 0 <= i < |here.test| ==> FeatureKey(here.test[i]).stock == s
    requires OfStock(rest.train, FeatureKey, s) == split([]).train
    requires OfStock(rest.test, FeatureKey, s) == split([]).test
    ensures OfStock(here.train, FeatureKey, s) + OfStock(rest.train, FeatureKey, s) == here.train
    ensures OfStock(here.test, FeatureKey, s) + OfStock(rest.test, FeatureKey, s) == here.test
  {
    OfStockAll(here.train, FeatureKey, s);
    OfStockAll(here.test, FeatureKey, s);
    assert split([]).train + split([]).test == [];
  }

  /** On a sorted table the manifest has an entry exactly for the symbols
      present, and the entry of `s` is the split of that symbol's rows
      alone. */
  lemma {:induction false} SplitRunsManifest(xs: seq<FeatureRow>, split: seq<FeatureRow> -> GroupSplit, s: string)
    requires Sorted(xs, FeatureKey)
    ensures s in SplitRuns(xs, split).manifest <==> |OfStock(xs, FeatureKey, s)| > 0
    ensures s in SplitRuns(xs, split).manifest ==>
      SplitRuns(xs, split).manifest[s] == split(OfStock(xs, FeatureKey, s)).info
    decreases |xs|
  {
    if |xs| > 0 {
      var k := RunLength(xs, FeatureKey);
      var t := xs[0].row.stock;
      var rest := SplitRuns(xs[k..], split);
      assert SplitRuns(xs, split).manifest == rest.manifest[t := split(xs[..k]).info];
      RunIsWholeGroup(xs, FeatureKey, s);
      SplitRunsManifest(xs[k..], split, s);
    }
  }

  /** A per-group split that never yields test rows (or never train rows)
      yields none for the whole table either. */
  lemma {:induction false} SplitRunsEmptyHalf(xs: seq<FeatureRow>, split: seq<FeatureRow> -> GroupSplit)
    ensures (forall g :: split(g).test == []) ==> SplitRuns(xs, split).test == []
    ensures (forall g :: split(g).train == []) ==> SplitRuns(xs, split).train == []
    decreases |xs|
  {
    if |xs| > 0 {
      var k := RunLength(xs, FeatureKey);
      SplitRunsEmptyHalf(xs[k..], split);
    }
  }

  /** On a non-empty table, each symbol's train and test rows are the
      split of that symbol's rows in timestamp order: train followed by
      test is exactly those rows. */
  lemma SplitTrainTestPerSymbol(df: seq<FeatureRow>, frac: real, s: string)
    requires |df| > 0
    ensures var r := SplitTrainTest(df, frac).value;
      var g := SortBy(OfStock(df, FeatureKey, s), FeatureKey);
      && OfStock(r.train, FeatureKey, s) == SplitGroup(g, frac).train
      && OfStock(r.test, FeatureKey, s) == SplitGroup(g, frac).test
      && OfStock(r.train, FeatureKey, s) + OfStock(r.test, FeatureKey, s) == g
  {
    var sorted := SortBy(df, FeatureKey);
    var g := SortBy(OfStock(df, FeatureKey, s), FeatureKey);
    SplitterPartitions(frac);
    SortBySorted(df, FeatureKey);
    SplitRunsIsolation(sorted, Splitter(frac), s);
    OfStockSortBy(df, FeatureKey, s);
    assert Splitter(frac)(g) == SplitGroup(g, frac);
  }

  /** The manifest has an entry exactly for the symbols of the table; the
      entry of `s` describes the split of that symbol's rows in timestamp
      order, so its counts add up to the symbol's row count and, for a
      fraction in `[0, 1]`, it has `round(frac * n)` test rows. */
  lemma SplitTrainTestManifest(df: seq<FeatureRow>, frac: real, s: string)
    requires |df| > 0
    ensures var r := SplitTrainTest(df, frac).value;
      var n := |OfStock(df, FeatureKey, s)|;
      && (s in r.manifest <==> n > 0)
      && (s in r.manifest ==>
            && r.manifest[s] == SplitGroup(SortBy(OfStock(df, FeatureKey, s), FeatureKey), frac).info
            && r.manifest[s].trainRows + r.manifest[s].testRows == n
            && (0.0 <= frac <= 1.0 ==> r.manifest[s].testRows == TestCount(frac, n)))
  {
    var sorted := SortBy(df, FeatureKey);
    var g := SortBy(OfStock(df, FeatureKey, s), FeatureKey);
    SortBySorted(df, FeatureKey);
    SplitRunsManifest(sorted, Splitter(frac), s);
    OfStockSortBy(df, FeatureKey, s);
    assert Splitter(frac)(g) == SplitGroup(g, frac);
    SplitGroupCounts(g, frac);
  }

  /** Each symbol's test rows are no earlier than its train rows. */
  lemma SplitTrainTestChronological(df: seq<FeatureRow>, frac: real, s: string)
    requires |df| > 0
    ensures var r := SplitTrainTest(df, frac).value;
      var train := OfStock(r.train, FeatureKey, s);
      var test := OfStock(r.test, FeatureKey, s);
      forall i, j :: 0 <= i < |train| && 0 <= j < |test| ==>
        train[i].row.timestamp <= test[j].row.timestamp
  {
    var g := SortBy(OfStock(df, FeatureKey, s), FeatureKey);
    SplitTrainTestPerSymbol(df, frac, s);
    SymbolRowsSorted(df, s);
    SplitGroupChronological(g, frac);
  }

  /** One symbol's rows, sorted, form a sorted group of that symbol. */
  lemma SymbolRowsSorted(df: seq<FeatureRow>, s: string)
    ensures var g := SortBy(OfStock(df, FeatureKey, s), FeatureKey);
      Sorted(g, FeatureKey) && forall i :: 0 <= i < |g| ==> g[i].row.stock == g[0].row.stock == s
  {
    var g := SortBy(OfStock(df, FeatureKey, s), FeatureKey);
    SortBySorted(OfStock(df, FeatureKey, s), FeatureKey);
    SortByPermutes(OfStock(df, FeatureKey, s), FeatureKey);
    OfStockMembers(df, FeatureKey, s);
    forall i | 0 <= i < |g| ensures g[i].row.stock == s {
      assert g[i] in multiset(OfStock(df, FeatureKey, s));
    }
  }

  /** A fraction of 0 puts every row in train, a fraction of 1 every row in
      test. */
  lemma SplitTrainTestExtremes(df: seq<FeatureRow>)
    requires |df| > 0
    ensures SplitTrainTest(df, 0.0).value.test == []
    ensures SplitTrainTest(df, 1.0).value.train == []
  {
    forall g ensures Splitter(0.0)(g).test == [] {
      SplitGroupCounts(g, 0.0);
    }
    forall g ensures Splitter(1.0)(g).train == [] {
      SplitGroupCounts(g, 1.0);
    }
    SplitRunsEmptyHalf(SortBy(df, FeatureKey), Splitter(0.0));
    SplitRunsEmptyHalf(SortBy(df, FeatureKey), Splitter(1.0));
  }

  /** Ties round to even: 2.5 rounds to 2 and 3.5 to 4; and the default
      fraction 0.2 on 12 rows gives 2 test rows. */
  lemma RoundingExamples()
    ensures RoundHalfEven(2.5) == 2 && RoundHalfEven(3.5) == 4
    ensures TestCount(0.2, 12) == 2 && TestCount(0.2, 7) == 1
  {
    RoundHalfEvenUnique(2.5, 2);
    RoundHalfEvenUnique(3.5, 4);
    ScaleIsProduct(0.2, 12);
    ScaleIsProduct(0.2, 7);
    RoundHalfEvenUnique(2.4, 2);
    RoundHalfEvenUnique(1.4, 1);
  }

  /** A fraction above 1 makes the split point negative, which Python's
      slicing counts from the end: with 4 rows and fraction 1.5, test is
      the last 2 rows rather than 6 rows. */
  lemma OverlargeFractionCountsFromEnd(g: seq<FeatureRow>)
    requires |g| == 4
    ensures SplitGroup(g, 1.5).test == g[2..]
    ensures SplitGroup(g, 1.5).train == g[..2]
  {
    ScaleIsProduct(1.5, 4);
    RoundHalfEvenUnique(6.0, 6);
    assert SliceBound(4 - 6, 4) == 2;
  }
}
