/** Trailing-window statistics of one symbol's column:
    `Series.rolling(window=10, min_periods=1)` followed by `.sum()` or
    `.mean()`. Row `i` aggregates rows `max(0, i-9) .. i`. */
module Rolling {
  import opened Cells

  const Window: nat := 10
  const MinPeriods: nat := 1

  /** The first row of the trailing window that ends at row `i`. */
  function WindowStart(i: nat): nat
  {
    if i + 1 < Window then 0 else i + 1 - Window
  }

  /** The number of rows in the trailing window that ends at row `i`. */
  function WindowCount(i: nat): nat
  {
    i + 1 - WindowStart(i)
  }

  /** `xs[lo] + ... + xs[hi-1]`. */
  function SumInt(xs: seq<int>, lo: nat, hi: nat): int
    requires lo <= hi <= |xs|
    decreases hi - lo
  {
    if lo == hi then 0 else SumInt(xs, lo, hi - 1) + xs[hi - 1]
  }

  /** `xs[lo] + ... + xs[hi-1]` over exact reals. */
  function SumReal(xs: seq<real>, lo: nat, hi: nat): real
    requires lo <= hi <= |xs|
    decreases hi - lo
  {
    if lo == hi then 0.0 else SumReal(xs, lo, hi - 1) + xs[hi - 1]
  }

  /** `xs.rolling(window=10, min_periods=1).sum()`: NaN where the window holds
      fewer than `MinPeriods` rows. */
  function RollingSum(xs: seq<int>): (r: seq<Cell<int>>)
    ensures |r| == |xs|
    ensures forall i :: 0 <= i < |xs| ==> r[i].Num?
  {
    seq(|xs|, i requires 0 <= i < |xs| =>
      if WindowCount(i) >= MinPeriods then Num(SumInt(xs, WindowStart(i), i + 1)) else NaN)
  }

  /** `xs.rolling(window=10, min_periods=1).mean()`. */
  function RollingMean(xs: seq<real>): (r: seq<Cell<real>>)
    ensures |r| == |xs|
    ensures forall i :: 0 <= i < |xs| ==> r[i].Num?
  {
    seq(|xs|, i requires 0 <= i < |xs| =>
      if WindowCount(i) >= MinPeriods
      then Num(SumReal(xs, WindowStart(i), i + 1) / WindowCount(i) as real)
      else NaN)
  }

  /** The window ending at row `i` holds `min(i + 1, 10)` rows, ends at `i`
      and never reaches before the first row. */
  lemma WindowShape(i: nat)
    ensures WindowStart(i) <= i
    ensures WindowCount(i) == if i + 1 < Window then i + 1 else Window
    ensures i > 0 ==> WindowStart(i) == WindowStart(i - 1) + (if i >= Window then 1 else 0)
  {
  }

  lemma {:induction false} SumIntDropFirst(xs: seq<int>, lo: nat, hi: nat)
    requires lo < hi <= |xs|
    ensures SumInt(xs, lo, hi) == xs[lo] + SumInt(xs, lo + 1, hi)
    decreases hi - lo
  {
    if lo + 1 < hi {
      SumIntDropFirst(xs, lo, hi - 1);
    }
  }

  lemma {:induction false} SumRealDropFirst(xs: seq<real>, lo: nat, hi: nat)
    requires lo < hi <= |xs|
    ensures SumReal(xs, lo, hi) == xs[lo] + SumReal(xs, lo + 1, hi)
    decreases hi - lo
  {
    if lo + 1 < hi {
      SumRealDropFirst(xs, lo, hi - 1);
    }
  }

  lemma {:induction false} SumIntNonNegative(xs: seq<int>, lo: nat, hi: nat)
    requires lo <= hi <= |xs|
    requires forall j :: lo <= j < hi ==> xs[j] >= 0
    ensures SumInt(xs, lo, hi) >= 0
    decreases hi - lo
  {
    if lo < hi {
      SumIntNonNegative(xs, lo, hi - 1);
    }
  }

  lemma {:induction false} SumRealBounds(xs: seq<real>, lo: nat, hi: nat, low: real, high: real)
    requires lo <= hi <= |xs|
    requires forall j :: lo <= j < hi ==> low <= xs[j] <= high
    ensures (hi - lo) as real * low <= SumReal(xs, lo, hi) <= (hi - lo) as real * high
    decreases hi - lo
  {
    if lo < hi {
      SumRealBounds(xs, lo, hi - 1, low, high);
      var n := (hi - 1 - lo) as real;
      assert (hi - lo) as real * low == n * low + low;
      assert (hi - lo) as real * high == n * high + high;
    }
  }

  /** With `min_periods=1` every row has a rolling sum, and it is the sum of
      the rows `max(0, i-9) .. i`; the first row's sum is its own value. */
  lemma RollingSumWindow(xs: seq<int>)
    ensures |RollingSum(xs)| == |xs|
    ensures forall i :: 0 <= i < |xs| ==>
      RollingSum(xs)[i] == Num(SumInt(xs, if i < 9 then 0 else i - 9, i + 1))
    ensures |xs| > 0 ==> RollingSum(xs)[0] == Num(xs[0])
  {
  }

  /** With `min_periods=1` every row has a rolling mean: the sum of the
      `min(i + 1, 10)` closes of its window divided by their number; the
      first row's mean is its own value. */
  lemma RollingMeanWindow(xs: seq<real>)
    ensures |RollingMean(xs)| == |xs|
    ensures forall i :: 0 <= i < |xs| ==>
      RollingMean(xs)[i] ==
        Num(SumReal(xs, if i < 9 then 0 else i - 9, i + 1) / (if i < 9 then i + 1 else 10) as real)
    ensures |xs| > 0 ==> RollingMean(xs)[0] == Num(xs[0])
  {
    forall i | 0 <= i < |xs|
      ensures RollingMean(xs)[i] ==
        Num(SumReal(xs, if i < 9 then 0 else i - 9, i + 1) / (if i < 9 then i + 1 else 10) as real)
    {
      RollingMeanAt(xs, i);
    }
  }

  lemma RollingMeanAt(xs: seq<real>, i: nat)
    requires i < |xs|
    ensures RollingMean(xs)[i] ==
      Num(SumReal(xs, if i < 9 then 0 else i - 9, i + 1) / (if i < 9 then i + 1 else 10) as real)
  {
  }

  /** Consecutive rolling sums differ by the row entering the window minus
      the row leaving it: the single-pass recurrence. */
  lemma RollingSumStep(xs: seq<int>, i: nat)
    requires 0 < i < |xs|
    ensures RollingSum(xs)[i].value ==
      RollingSum(xs)[i - 1].value + xs[i] - (if i >= Window then xs[i - Window] else 0)
  {
    if i >= Window {
      SumIntDropFirst(xs, i - Window, i + 1);
    }
  }

  /** Non-negative volumes give rolling sums that are non-negative and at
      least the row's own volume. */
  lemma RollingSumNonNegative(xs: seq<int>)
    requires forall j :: 0 <= j < |xs| ==> xs[j] >= 0
    ensures forall i :: 0 <= i < |xs| ==> RollingSum(xs)[i].Num? && RollingSum(xs)[i].value >= xs[i] >= 0
  {
    forall i | 0 <= i < |xs| ensures RollingSum(xs)[i].Num? && RollingSum(xs)[i].value >= xs[i] >= 0 {
      SumIntNonNegative(xs, WindowStart(i), i);
    }
  }

  /** A rolling mean lies between the smallest and the largest value of the
      column (a constant column is its own mean). */
  lemma RollingMeanBounds(xs: seq<real>, low: real, high: real)
    requires forall j :: 0 <= j < |xs| ==> low <= xs[j] <= high
    ensures forall i :: 0 <= i < |xs| ==>
      RollingMean(xs)[i].Num? && low <= RollingMean(xs)[i].value <= high
  {
    forall i | 0 <= i < |xs| ensures RollingMean(xs)[i].Num? && low <= RollingMean(xs)[i].value <= high {
      var lo := WindowStart(i);
      var c := WindowCount(i) as real;
      var sum := SumReal(xs, lo, i + 1);
      SumRealBounds(xs, lo, i + 1, low, high);
      assert c * low <= sum <= c * high;
      assert c > 0.0;
      DivBounds(sum, c, low, high);
      assert RollingMean(xs)[i] == Num(sum / c);
    }
  }

  lemma DivBounds(sum: real, c: real, low: real, high: real)
    requires c > 0.0 && c * low <= sum <= c * high
    ensures low <= sum / c <= high
  {
    assert sum / c * c == sum;
  }

  /** The single-pass rolling sum: add the row entering the window, drop
      the row leaving it. */
  method RollingSumOnline(xs: seq<int>) returns (r: seq<Cell<int>>)
    ensures r == RollingSum(xs)
  {
    var acc := 0;
    r := [];
    for i := 0 to |xs|
      invariant |r| == i
      invariant forall j :: 0 <= j < i ==> r[j] == RollingSum(xs)[j]
      invariant acc == SumInt(xs, if i < Window then 0 else i - Window, i)
    {
      acc := acc + xs[i];
      if i >= Window {
        SumIntDropFirst(xs, i - Window, i + 1);
        acc := acc - xs[i - Window];
      }
      RollingSumAt(xs, i);
      r := r + [Num(acc)];
    }
  }

  /** Row `i` of the rolling sum. */
  lemma RollingSumAt(xs: seq<int>, i: nat)
    requires i < |xs|
    ensures RollingSum(xs)[i] == Num(SumInt(xs, if i < Window then 0 else i + 1 - Window, i + 1))
  {
  }

  /** The single-pass rolling mean: a running sum of the window divided by
      the window's row count. */
  method RollingMeanOnline(xs: seq<real>) returns (r: seq<Cell<real>>)
    ensures r == RollingMean(xs)
  {
    var acc := 0.0;
    r := [];
    for i := 0 to |xs|
      invariant |r| == i
      invariant forall j :: 0 <= j < i ==> r[j] == RollingMean(xs)[j]
      invariant acc == SumReal(xs, if i < Window then 0 else i - Window, i)
    {
      acc := acc + xs[i];
      var count := i + 1;
      if i >= Window {
        SumRealDropFirst(xs, i - Window, i + 1);
        acc := acc - xs[i - Window];
        count := Window;
      }
      r := r + [Num(acc / count as real)];
    }
  }
}
