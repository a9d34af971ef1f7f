/** `prepare_features`: sort the raw table by (symbol, timestamp), coerce the
    volume column, compute each symbol's rolling statistics and look-ahead
    label independently, and drop rows whose label is missing. */
module Features {
  import opened Cells
  import opened Ordering
  import opened Rolling

  /** How many rows ahead the label looks. */
  const Horizon: nat := 5

  /** A raw observation after timestamp parsing. `volume` is NaN when the
      file's cell is missing or not numeric. */
  datatype RawRow = RawRow(stock: string, timestamp: int, close: real, volume: Cell<int>)

  /** An observation after numeric coercion. */
  datatype Row = Row(stock: string, timestamp: int, close: real, volume: int)

  /** An observation with the columns `compute` adds. */
  datatype FeatureRow = FeatureRow(
    row: Row,
    rollingAvg10: Cell<real>,
    volumeSum10: Cell<int>,
    closeTPlus5: Cell<real>,
    target5min: Cell<int>)

  function RawKey(r: RawRow): Key { Key(r.stock, r.timestamp) }

  function RowKey(r: Row): Key { Key(r.stock, r.timestamp) }

  function FeatureKey(f: FeatureRow): Key { RowKey(f.row) }

  /** `pd.to_numeric(volume, errors='coerce').fillna(0)`. */
  function CoerceVolume(v: Cell<int>): int
  {
    match v
    case NaN => 0
    case Num(x) => x
  }

  function Coerce(r: RawRow): Row
  {
    Row(r.stock, r.timestamp, r.close, CoerceVolume(r.volume))
  }

  function CoerceAll(rs: seq<RawRow>): (rows: seq<Row>)
    ensures |rows| == |rs|
  {
    if |rs| == 0 then [] else [Coerce(rs[0])] + CoerceAll(rs[1..])
  }

  function Closes(g: seq<Row>): seq<real>
  {
    seq(|g|, i requires 0 <= i < |g| => g[i].close)
  }

  function Volumes(g: seq<Row>): seq<int>
  {
    seq(|g|, i requires 0 <= i < |g| => g[i].volume)
  }

  function Rows(fs: seq<FeatureRow>): seq<Row>
  {
    seq(|fs|, i requires 0 <= i < |fs| => fs[i].row)
  }

  /** `xs.shift(-k)`: each row takes the value `k` rows further down; the
      last `k` rows get NaN. */
  function ShiftUp(xs: seq<real>, k: nat): (r: seq<Cell<real>>)
    ensures |r| == |xs|
    ensures forall i :: 0 <= i < |xs| ==> (r[i].NaN? <==> |xs| <= i + k)
    ensures forall i :: 0 <= i < |xs| && i + k < |xs| ==> r[i].value == xs[i + k]
  {
    seq(|xs|, i requires 0 <= i < |xs| => if i + k < |xs| then Num(xs[i + k]) else NaN)
  }

  /** `(a > b).astype('Int64')`: a comparison with NaN is False, so the
      result is 0 and never NA. */
  function GreaterAsInt64(a: Cell<real>, b: real): (r: Cell<int>)
    ensures r == Num(0) || r == Num(1)
    ensures r == Num(1) <==> a.Num? && a.value > b
  {
    Num(if a.Num? && a.value > b then 1 else 0)
  }

  /** The inner `compute` of `prepare_features`, applied to the rows of one
      symbol in timestamp order. */
  function Compute(g: seq<Row>): (r: seq<FeatureRow>)
    ensures |r| == |g|
    ensures forall i :: 0 <= i < |g| ==> r[i].row == g[i] && r[i].target5min.Num?
  {
    var avg := RollingMean(Closes(g));
    var vsum := RollingSum(Volumes(g));
    var ahead := ShiftUp(Closes(g), Horizon);
    seq(|g|, i requires 0 <= i < |g| =>
      FeatureRow(g[i], avg[i], vsum[i], ahead[i], GreaterAsInt64(ahead[i], g[i].close)))
  }

  /** `groupby('stock_name', group_keys=False).apply(compute)` on a table
      sorted by symbol: each run of one symbol is computed on its own and
      the results are concatenated in table order. */
  function ApplyGroups(rows: seq<Row>): (r: seq<FeatureRow>)
    ensures |r| == |rows|
    decreases |rows|
  {
    if |rows| == 0 then []
    else
      var k := RunLength(rows, RowKey);
      Compute(rows[..k]) + ApplyGroups(rows[k..])
  }

  /** `dropna(subset=['target_5min'])`. */
  function DropNaTarget(fs: seq<FeatureRow>): (r: seq<FeatureRow>)
    ensures |r| <= |fs|
    ensures forall i :: 0 <= i < |r| ==> r[i].target5min.Num?
  {
    if |fs| == 0 then []
    else (if fs[0].target5min.Num? then [fs[0]] else []) + DropNaTarget(fs[1..])
  }

  /** `prepare_features`. */
  function PrepareFeatures(raw: seq<RawRow>): (r: seq<FeatureRow>)
    ensures |r| == |raw|
    ensures forall i :: 0 <= i < |r| ==> r[i].target5min.Num?
  {
    var grouped := ApplyGroups(CoerceAll(SortBy(raw, RawKey)));
    ApplyGroupsRows(CoerceAll(SortBy(raw, RawKey)));
    DropNaKeepsLabelledRows(grouped);
    DropNaTarget(grouped)
  }

  /** Coercion keeps every row's symbol, timestamp and close, turns a
      missing or non-numeric volume into 0, and so yields defined,
      non-negative volumes from non-negative inputs. */
  lemma {:induction false} CoerceAllVolumes(rs: seq<RawRow>)
    ensures |CoerceAll(rs)| == |rs|
    ensures forall i :: 0 <= i < |rs| ==>
      RowKey(CoerceAll(rs)[i]) == RawKey(rs[i]) && CoerceAll(rs)[i].close == rs[i].close
    ensures forall i :: 0 <= i < |rs| && rs[i].volume.NaN? ==> CoerceAll(rs)[i].volume == 0
    ensures forall i :: 0 <= i < |rs| && rs[i].volume.Num? ==> CoerceAll(rs)[i].volume == rs[i].volume.value
    ensures (forall i :: 0 <= i < |rs| && rs[i].volume.Num? ==> rs[i].volume.value >= 0) ==>
      forall i :: 0 <= i < |rs| ==> CoerceAll(rs)[i].volume >= 0
    decreases |rs|
  {
    if |rs| > 0 {
      CoerceAllVolumes(rs[1..]);
      assert forall i :: 0 < i < |rs| ==> CoerceAll(rs)[i] == CoerceAll(rs[1..])[i - 1];
    }
  }

  /** Row `i` of `compute`'s result, column by column. */
  lemma ComputeAt(g: seq<Row>, i: nat)
    requires i < |g|
    ensures |Compute(g)| == |g|
    ensures Compute(g)[i] == FeatureRow(g[i], RollingMean(Closes(g))[i], RollingSum(Volumes(g))[i],
      ShiftUp(Closes(g), Horizon)[i], GreaterAsInt64(ShiftUp(Closes(g), Horizon)[i], g[i].close))
  {
  }

  /** `compute` keeps the group's rows, in order, and adds columns. */
  lemma ComputeRows(g: seq<Row>)
    ensures |Compute(g)| == |g|
    ensures forall i :: 0 <= i < |g| ==> Compute(g)[i].row == g[i]
  {
  }

  /** `volume_sum_10` of row `i` is the sum of the volumes of rows
      `max(0, i-9) .. i` of the same group; the first row's is its own
      volume. */
  lemma ComputeVolumeSum(g: seq<Row>)
    ensures forall i :: 0 <= i < |g| ==>
      Compute(g)[i].volumeSum10 == Num(SumInt(Volumes(g), if i < 9 then 0 else i - 9, i + 1))
    ensures |g| > 0 ==> Compute(g)[0].volumeSum10 == Num(g[0].volume)
  {
    RollingSumWindow(Volumes(g));
    forall i | 0 <= i < |g|
      ensures Compute(g)[i].volumeSum10 == RollingSum(Volumes(g))[i]
    {
      ComputeAt(g, i);
    }
  }

  /** `rolling_avg_10` of row `i` is the mean close of rows
      `max(0, i-9) .. i`, a window of `min(i + 1, 10)` rows; the first row's
      is its own close. */
  lemma ComputeRollingAvg(g: seq<Row>)
    ensures forall i :: 0 <= i < |g| ==>
      Compute(g)[i].rollingAvg10 ==
        Num(SumReal(Closes(g), if i < 9 then 0 else i - 9, i + 1) / (if i < 9 then i + 1 else 10) as real)
    ensures |g| > 0 ==> Compute(g)[0].rollingAvg10 == Num(g[0].close)
  {
    forall i | 0 <= i < |g|
      ensures Compute(g)[i].rollingAvg10 ==
        Num(SumReal(Closes(g), if i < 9 then 0 else i - 9, i + 1) / (if i < 9 then i + 1 else 10) as real)
    {
      ComputeAt(g, i);
      RollingMeanAt(Closes(g), i);
    }
    if |g| > 0 {
      ComputeAt(g, 0);
      RollingMeanWindow(Closes(g));
    }
  }

  /** Non-negative volumes give non-negative rolling sums, each at least the
      row's own volume. */
  lemma ComputeVolumeSumNonNegative(g: seq<Row>)
    requires forall j :: 0 <= j < |g| ==> g[j].volume >= 0
    ensures forall i :: 0 <= i < |g| ==>
      Compute(g)[i].volumeSum10.Num? && Compute(g)[i].volumeSum10.value >= g[i].volume
  {
    RollingSumNonNegative(Volumes(g));
    forall i | 0 <= i < |g|
      ensures Compute(g)[i].volumeSum10 == RollingSum(Volumes(g))[i]
    {
      ComputeAt(g, i);
    }
  }

  /** The label looks exactly five rows ahead within the group: it is 1 iff
      that row exists and closes strictly higher, and 0 otherwise (never
      NA); `close_t_plus_5` is NaN on exactly the last five rows. */
  lemma ComputeLabel(g: seq<Row>)
    ensures forall i :: 0 <= i < |g| ==>
      (Compute(g)[i].target5min == Num(1) <==> i + 5 < |g| && g[i + 5].close > g[i].close)
    ensures forall i :: 0 <= i < |g| ==>
      (Compute(g)[i].target5min == Num(0) <==> !(i + 5 < |g| && g[i + 5].close > g[i].close))
    ensures forall i :: 0 <= i < |g| ==>
      (Compute(g)[i].closeTPlus5.NaN? <==> |g| <= i + 5)
    ensures forall i :: 0 <= i < |g| && i + 5 < |g| ==>
      Compute(g)[i].closeTPlus5 == Num(g[i + 5].close)
  {
    forall i | 0 <= i < |g|
      ensures Compute(g)[i].target5min == Num(1) <==> i + 5 < |g| && g[i + 5].close > g[i].close
      ensures Compute(g)[i].target5min == Num(0) <==> !(i + 5 < |g| && g[i + 5].close > g[i].close)
      ensures Compute(g)[i].closeTPlus5.NaN? <==> |g| <= i + 5
      ensures i + 5 < |g| ==> Compute(g)[i].closeTPlus5 == Num(g[i + 5].close)
    {
      LabelAt(g, i);
    }
  }

  /** The label and look-ahead close of one row. */
  lemma LabelAt(g: seq<Row>, i: nat)
    requires i < |g|
    ensures Compute(g)[i].closeTPlus5 == (if i + 5 < |g| then Num(g[i + 5].close) else NaN)
    ensures Compute(g)[i].target5min ==
      Num(if i + 5 < |g| && g[i + 5].close > g[i].close then 1 else 0)
  {
    ComputeAt(g, i);
  }

  /** Dropping rows with a missing label keeps a table whose labels are all
      present. */
  lemma {:induction false} DropNaKeepsLabelledRows(fs: seq<FeatureRow>)
    requires forall i :: 0 <= i < |fs| ==> fs[i].target5min.Num?
    ensures DropNaTarget(fs) == fs
    decreases |fs|
  {
    if |fs| > 0 {
      DropNaKeepsLabelledRows(fs[1..]);
      assert [fs[0]] + fs[1..] == fs;
    }
  }

  /** The grouped computation keeps every row in place and labels each. */
  lemma {:induction false} ApplyGroupsRows(rows: seq<Row>)
    ensures |ApplyGroups(rows)| == |rows|
    ensures forall i :: 0 <= i < |rows| ==>
      ApplyGroups(rows)[i].row == rows[i] && ApplyGroups(rows)[i].target5min.Num?
    decreases |rows|
  {
    if |rows| > 0 {
      var k := RunLength(rows, RowKey);
      ApplyGroupsRows(rows[k..]);
      ComputeRows(rows[..k]);
    }
  }

  /** The grouped computation restricted to one symbol is `compute` of that
      symbol's rows: no window and no look-ahead crosses a symbol
      boundary. */
  lemma {:induction false} ApplyGroupsIsolation(rows: seq<Row>, s: string)
    requires Sorted(rows, RowKey)
    ensures OfStock(ApplyGroups(rows), FeatureKey, s) == Compute(OfStock(rows, RowKey, s))
    decreases |rows|
  {
    if |rows| > 0 {
      var k := RunLength(rows, RowKey);
      var run := rows[..k];
      var rest := rows[k..];
      var t := rows[0].stock;
      RunIsWholeGroup(rows, RowKey, s);
      ApplyGroupsIsolation(rest, s);
      OfStockAppend(Compute(run), ApplyGroups(rest), FeatureKey, s);
      ComputeRows(run);
      if s == t {
        OfStockAll(Compute(run), FeatureKey, s);
        assert Compute([]) == [];
      } else {
        OfStockNone(Compute(run), FeatureKey, s);
      }
    }
  }

  lemma {:induction false} CoerceInsert(x: RawRow, xs: seq<RawRow>)
    ensures CoerceAll(Insert(x, xs, RawKey)) == Insert(Coerce(x), CoerceAll(xs), RowKey)
    decreases |xs|
  {
    if |xs| > 0 {
      var c := CoerceAll(xs);
      assert c[0] == Coerce(xs[0]) && c[1..] == CoerceAll(xs[1..]);
      if KeyLe(RawKey(x), RawKey(xs[0])) {
        assert ([x] + xs)[0] == x && ([x] + xs)[1..] == xs;
      } else {
        CoerceInsert(x, xs[1..]);
        var tail := Insert(x, xs[1..], RawKey);
        assert ([xs[0]] + tail)[0] == xs[0] && ([xs[0]] + tail)[1..] == tail;
      }
    }
  }

  /** Coercing before or after the sort gives the same table. */
  lemma {:induction false} CoerceSortBy(raw: seq<RawRow>)
    ensures CoerceAll(SortBy(raw, RawKey)) == SortBy(CoerceAll(raw), RowKey)
    decreases |raw|
  {
    if |raw| > 0 {
      CoerceSortBy(raw[1..]);
      CoerceInsert(raw[0], SortBy(raw[1..], RawKey));
    }
  }

  /** Coercing before or after selecting one symbol gives the same rows. */
  lemma {:induction false} CoerceOfStock(raw: seq<RawRow>, s: string)
    ensures CoerceAll(OfStock(raw, RawKey, s)) == OfStock(CoerceAll(raw), RowKey, s)
    decreases |raw|
  {
    if |raw| > 0 {
      CoerceOfStock(raw[1..], s);
      var f := OfStock(raw[1..], RawKey, s);
      var c := CoerceAll(raw);
      assert c[0] == Coerce(raw[0]) && c[1..] == CoerceAll(raw[1..]);
      assert OfStock(c, RowKey, s) ==
        (if raw[0].stock == s then [c[0]] else []) + OfStock(CoerceAll(raw[1..]), RowKey, s);
      if raw[0].stock == s {
        assert OfStock(raw, RawKey, s) == [raw[0]] + f;
        assert ([raw[0]] + f)[0] == raw[0] && ([raw[0]] + f)[1..] == f;
        assert CoerceAll([raw[0]] + f) == [Coerce(raw[0])] + CoerceAll(f);
      } else {
        assert OfStock(raw, RawKey, s) == f;
      }
    }
  }

  /** Processing is the grouped computation over the coerced, sorted table:
      the `dropna` removes nothing. */
  lemma PrepareIsApplyGroups(raw: seq<RawRow>)
    ensures PrepareFeatures(raw) == ApplyGroups(SortBy(CoerceAll(raw), RowKey))
  {
    var sorted := SortBy(CoerceAll(raw), RowKey);
    CoerceSortBy(raw);
    ApplyGroupsRows(sorted);
    DropNaKeepsLabelledRows(ApplyGroups(sorted));
  }

  /** The processed table has one row per raw row (the `dropna` removes
      nothing), its rows are the coerced input sorted by
      (symbol, timestamp), and every label is present. */
  lemma PrepareFeaturesRows(raw: seq<RawRow>)
    ensures |PrepareFeatures(raw)| == |raw|
    ensures Rows(PrepareFeatures(raw)) == SortBy(CoerceAll(raw), RowKey)
    ensures multiset(Rows(PrepareFeatures(raw))) == multiset(CoerceAll(raw))
    ensures Sorted(PrepareFeatures(raw), FeatureKey)
    ensures forall i :: 0 <= i < |raw| ==> PrepareFeatures(raw)[i].target5min.Num?
  {
    var sorted := SortBy(CoerceAll(raw), RowKey);
    PrepareIsApplyGroups(raw);
    CoerceAllVolumes(raw);
    SortByPermutes(CoerceAll(raw), RowKey);
    SortBySorted(CoerceAll(raw), RowKey);
    ApplyGroupsRows(sorted);
    var r := PrepareFeatures(raw);
    assert Rows(r) == sorted;
    forall i, j | 0 <= i < j < |r| ensures KeyLe(FeatureKey(r[i]), FeatureKey(r[j])) {
      assert FeatureKey(r[i]) == RowKey(sorted[i]) && FeatureKey(r[j]) == RowKey(sorted[j]);
    }
  }

  /** Group isolation: the processed rows of symbol `s` are `compute` of
      that symbol's coerced rows in timestamp order, whatever the other
      symbols hold. */
  lemma PrepareFeaturesIsolation(raw: seq<RawRow>, s: string)
    ensures OfStock(PrepareFeatures(raw), FeatureKey, s) ==
      Compute(SortBy(OfStock(CoerceAll(raw), RowKey, s), RowKey))
  {
    var sorted := SortBy(CoerceAll(raw), RowKey);
    PrepareIsApplyGroups(raw);
    SortBySorted(CoerceAll(raw), RowKey);
    ApplyGroupsIsolation(sorted, s);
    OfStockSortBy(CoerceAll(raw), RowKey, s);
  }

  /** Appending rows of other symbols leaves the processed rows of `s`
      unchanged. */
  lemma AppendOtherSymbols(raw: seq<RawRow>, extra: seq<RawRow>, s: string)
    requires forall i :: 0 <= i < |extra| ==> extra[i].stock != s
    ensures OfStock(PrepareFeatures(raw + extra), FeatureKey, s) ==
      OfStock(PrepareFeatures(raw), FeatureKey, s)
  {
    PrepareFeaturesIsolation(raw + extra, s);
    PrepareFeaturesIsolation(raw, s);
    CoerceOfStock(raw + extra, s);
    CoerceOfStock(raw, s);
    OfStockAppend(raw, extra, RawKey, s);
    OfStockNone(extra, RawKey, s);
    assert OfStock(raw, RawKey, s) + [] == OfStock(raw, RawKey, s);
  }

  /** A table holding a single symbol is processed as one group. */
  lemma PrepareSingleSymbol(raw: seq<RawRow>, s: string)
    requires forall i :: 0 <= i < |raw| ==> raw[i].stock == s
    ensures PrepareFeatures(raw) == Compute(SortBy(CoerceAll(raw), RowKey))
  {
    PrepareFeaturesIsolation(raw, s);
    CoerceAllVolumes(raw);
    OfStockAll(CoerceAll(raw), RowKey, s);
    PrepareFeaturesRows(raw);
    var r := PrepareFeatures(raw);
    SortByPermutes(CoerceAll(raw), RowKey);
    OfStockAll(r, FeatureKey, s);
  }

  /** One symbol with rising closes: every row is kept, the first `n - 5`
      rows are labelled 1 and the last five are labelled 0 rather than
      dropped. */
  lemma RisingClosesLabels(g: seq<Row>)
    requires forall i, j :: 0 <= i < j < |g| ==> g[i].close < g[j].close
    ensures |Compute(g)| == |g|
    ensures forall i :: 0 <= i < |g| ==>
      Compute(g)[i].target5min == (if i + 5 < |g| then Num(1) else Num(0))
    ensures DropNaTarget(Compute(g)) == Compute(g)
  {
    ComputeLabel(g);
    ComputeRows(g);
    forall i | 0 <= i < |g|
      ensures Compute(g)[i].target5min == (if i + 5 < |g| then Num(1) else Num(0))
    {
      if i + 5 < |g| {
        assert g[i].close < g[i + 5].close;
      }
    }
    DropNaKeepsLabelledRows(Compute(g));
  }
}
