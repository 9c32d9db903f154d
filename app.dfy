/**
 * The signal calculator of the stock-chart web app: `calculate_ema` in
 * app.py. From a series of daily closing prices it derives the 100-day and
 * 200-day exponential moving averages, a 0/1 regime signal that is 1 while
 * the 100-day average is strictly above the 200-day one, and buy and sell
 * markers on the days that signal flips.
 *
 * The source attaches these as new columns of the caller's DataFrame; here
 * they are returned together as a new record, and the closes are carried
 * through unchanged.
 */
module App {
  import opened Ewm

  /** The two spans the strategy compares. */
  const ShortSpan: nat := 100
  const LongSpan: nat := 200

  datatype Option<T> = None | Some(value: T)

  /**
   * pandas `Series.shift(1)`: every value moves one day later; the first day
   * has no predecessor and holds a missing value (NaN).
   */
  function Shift(s: seq<int>): (r: seq<Option<int>>)
    ensures |r| == |s|
    ensures |s| > 0 ==> r[0] == None
    ensures forall i :: 0 < i < |s| ==> r[i] == Some(s[i - 1])
  {
    if s == [] then [] else [None] + seq(|s| - 1, i requires 0 <= i < |s| - 1 => Some(s[i]))
  }

  /** Element-wise `==` against a number: a missing value (NaN) equals nothing. */
  predicate Equals(o: Option<int>, v: int) {
    o.Some? && o.value == v
  }

  /** `np.where(fast > slow, 1, 0)`. */
  function Regime(fast: seq<real>, slow: seq<real>): (signal: seq<int>)
    requires |fast| == |slow|
    ensures |signal| == |fast|
    ensures forall i :: 0 <= i < |signal| ==> signal[i] == 0 || signal[i] == 1
    ensures forall i :: 0 <= i < |signal| ==> (signal[i] == 1 <==> fast[i] > slow[i])
  {
    seq(|fast|, i requires 0 <= i < |fast| => if fast[i] > slow[i] then 1 else 0)
  }

  /**
   * `(signal.shift(1) == from) & (signal == to)`: the days on which the
   * signal moved from `from` on the previous day to `to`.
   */
  function Crossings(signal: seq<int>, from: int, to: int): (marks: seq<bool>)
    ensures |marks| == |signal|
    ensures |signal| > 0 ==> !marks[0]
    ensures forall i :: 0 < i < |signal| ==> (marks[i] <==> signal[i - 1] == from && signal[i] == to)
  {
    var previous := Shift(signal);
    seq(|signal|, i requires 0 <= i < |signal| => Equals(previous[i], from) && signal[i] == to)
  }

  /** The closes together with the five columns `calculate_ema` adds. */
  datatype Indicators = Indicators(
    close: seq<real>,
    ema100: seq<real>,
    ema200: seq<real>,
    signal: seq<int>,
    buySignal: seq<bool>,
    sellSignal: seq<bool>)

  /** `calculate_ema`: the two averages, the regime signal and the crossover markers. */
  function CalculateEma(close: seq<real>): (df: Indicators)
    ensures df.close == close
    ensures |df.ema100| == |df.ema200| == |df.signal| == |df.buySignal| == |df.sellSignal| == |close|
    ensures |close| > 0 ==> df.ema100[0] == close[0] && df.ema200[0] == close[0]
    ensures forall i :: 0 < i < |close| ==>
      df.ema100[i] == (2.0 / 101.0) * close[i] + (1.0 - 2.0 / 101.0) * df.ema100[i - 1]
    ensures forall i :: 0 < i < |close| ==>
      df.ema200[i] == (2.0 / 201.0) * close[i] + (1.0 - 2.0 / 201.0) * df.ema200[i - 1]
    ensures forall i :: 0 <= i < |close| ==> df.signal[i] == 0 || df.signal[i] == 1
    ensures forall i :: 0 <= i < |close| ==> (df.signal[i] == 1 <==> df.ema100[i] > df.ema200[i])
    ensures |close| > 0 ==> !df.buySignal[0] && !df.sellSignal[0]
    ensures forall i :: 0 < i < |close| ==>
      (df.buySignal[i] <==> df.signal[i - 1] == 0 && df.signal[i] == 1)
    ensures forall i :: 0 < i < |close| ==>
      (df.sellSignal[i] <==> df.signal[i - 1] == 1 && df.signal[i] == 0)
  {
    var ema100 := Ema(close, ShortSpan);
    var ema200 := Ema(close, LongSpan);
    EmaRecurrence(close, ShortSpan, 2.0 / 101.0);
    EmaRecurrence(close, LongSpan, 2.0 / 201.0);
    var signal := Regime(ema100, ema200);
    Indicators(close, ema100, ema200, signal, Crossings(signal, 0, 1), Crossings(signal, 1, 0))
  }

  /**
   * The signal starts at 0, because both averages start at the first close.
   * Buy and sell markers never fall on the same day, and a day carries a
   * marker exactly when the signal differs from the day before.
   */
  lemma MarkersAtFlips(close: seq<real>)
    ensures var df := CalculateEma(close);
      |close| > 0 ==> df.signal[0] == 0
    ensures var df := CalculateEma(close);
      forall i :: 0 <= i < |close| ==> !(df.buySignal[i] && df.sellSignal[i])
    ensures var df := CalculateEma(close);
      forall i :: 0 <= i < |close| ==>
        (df.buySignal[i] || df.sellSignal[i] <==> 0 < i && df.signal[i] != df.signal[i - 1])
  {
  }

  /** The recurrence of Ema with the smoothing factor written out. */
  lemma EmaRecurrence(close: seq<real>, span: nat, alpha: real)
    requires span >= 1 && alpha == Alpha(span)
    ensures forall i :: 0 < i < |close| ==>
      Ema(close, span)[i] == alpha * close[i] + (1.0 - alpha) * Ema(close, span)[i - 1]
  {
    var ema := Ema(close, span);
    forall i | 0 < i < |close|
      ensures ema[i] == alpha * close[i] + (1.0 - alpha) * ema[i - 1]
    {
      SmoothWith(Alpha(span), alpha, ema[i - 1], close[i]);
    }
  }

  /** Substitutes `alpha` for `a` inside one step; called to guide the solver's arithmetic. */
  lemma SmoothWith(a: real, alpha: real, prev: real, x: real)
    requires 0.0 <= a <= 1.0 && a == alpha
    ensures Smooth(a, prev, x) == alpha * x + (1.0 - alpha) * prev
  {
  }

  /**
   * A flat price series: both averages equal the price every day, the signal
   * stays 0 (the comparison is strict) and no marker is ever set.
   */
  lemma ConstantCloseNoSignals(close: seq<real>, c: real)
    requires forall k :: 0 <= k < |close| ==> close[k] == c
    ensures var df := CalculateEma(close);
      forall i :: 0 <= i < |close| ==>
        df.ema100[i] == c && df.ema200[i] == c && df.signal[i] == 0 && !df.buySignal[i] && !df.sellSignal[i]
  {
    EmaOfConstant(close, ShortSpan, c);
    EmaOfConstant(close, LongSpan, c);
  }

  /**
   * One day of both recurrences on the same close x: if the short-span
   * average p is not above x and not below the long-span average q, the gap
   * between them stays non-negative, and a positive gap stays positive.
   */
  lemma GapStep(x: real, p: real, q: real)
    requires q <= p <= x
    ensures Smooth(Alpha(ShortSpan), p, x) >= Smooth(Alpha(LongSpan), q, x)
    ensures p > q ==> Smooth(Alpha(ShortSpan), p, x) > Smooth(Alpha(LongSpan), q, x)
  {
  }

  /**
   * On rising closes the 100-day average is never below the 200-day one, and
   * once it is strictly above it is still strictly above the next day.
   */
  lemma {:induction false} FastAboveSlowWhenRising(close: seq<real>, i: nat)
    requires NonDecreasing(close)
    requires i < |close|
    ensures Ema(close, ShortSpan)[i] >= Ema(close, LongSpan)[i]
    ensures 0 < i && Ema(close, ShortSpan)[i - 1] > Ema(close, LongSpan)[i - 1] ==>
      Ema(close, ShortSpan)[i] > Ema(close, LongSpan)[i]
    decreases i
  {
    if i > 0 {
      FastAboveSlowWhenRising(close, i - 1);
      EmaLagsRising(close, ShortSpan, i - 1);
      assert close[i - 1] <= close[i];
      GapStep(close[i], Ema(close, ShortSpan)[i - 1], Ema(close, LongSpan)[i - 1]);
    }
  }

  /** On rising closes, a day with signal 1 is followed only by days with signal 1. */
  lemma {:induction false} StaysAboveWhenRising(close: seq<real>, i: nat, j: nat)
    requires NonDecreasing(close)
    requires i <= j < |close|
    ensures CalculateEma(close).signal[i] == 1 ==> CalculateEma(close).signal[j] == 1
    decreases j
  {
    if i < j && CalculateEma(close).signal[i] == 1 {
      StaysAboveWhenRising(close, i, j - 1);
      FastAboveSlowWhenRising(close, j);
    }
  }

  /** On rising closes there is never a sell marker and at most one buy marker. */
  lemma RisingCloseCrossesUpAtMostOnce(close: seq<real>)
    requires NonDecreasing(close)
    ensures var df := CalculateEma(close);
      forall i :: 0 <= i < |close| ==> !df.sellSignal[i]
    ensures var df := CalculateEma(close);
      forall i, j :: 0 <= i < |close| && 0 <= j < |close| && df.buySignal[i] && df.buySignal[j] ==> i == j
  {
    var df := CalculateEma(close);
    forall i | 0 < i < |close| && df.signal[i - 1] == 1 ensures df.signal[i] == 1 {
      StaysAboveWhenRising(close, i - 1, i);
    }
    forall i, j | 0 <= i < j < |close| && df.buySignal[i]
      ensures !df.buySignal[j]
    {
      StaysAboveWhenRising(close, i, j - 1);
    }
  }

  /** On falling closes the 100-day average is never above the 200-day one. */
  lemma FastBelowSlowWhenFalling(close: seq<real>, i: nat)
    requires NonIncreasing(close)
    requires i < |close|
    ensures Ema(close, ShortSpan)[i] <= Ema(close, LongSpan)[i]
  {
    var up := Negated(close);
    assert NonDecreasing(up);
    FastAboveSlowWhenRising(up, i);
    EmaNegated(close, ShortSpan);
    EmaNegated(close, LongSpan);
  }

  /** On falling closes the signal stays 0 and no marker is ever set. */
  lemma FallingCloseNoSignals(close: seq<real>)
    requires NonIncreasing(close)
    ensures var df := CalculateEma(close);
      forall i :: 0 <= i < |close| ==> df.signal[i] == 0 && !df.buySignal[i] && !df.sellSignal[i]
  {
    forall i | 0 <= i < |close| ensures CalculateEma(close).signal[i] == 0 {
      FastBelowSlowWhenFalling(close, i);
    }
  }

  /** The number of days marked. */
  function Count(marks: seq<bool>): (n: nat) {
    if marks == [] then 0 else Count(marks[..|marks| - 1]) + (if marks[|marks| - 1] then 1 else 0)
  }

  /**
   * The markers account for every change of regime: the signal on day j is
   * the number of buy markers up to day j minus the number of sell markers.
   */
  lemma {:induction false} SignalFromMarkers(close: seq<real>, j: nat)
    requires j < |close|
    ensures var df := CalculateEma(close);
      df.signal[j] == Count(df.buySignal[..j + 1]) - Count(df.sellSignal[..j + 1])
    decreases j
  {
    var df := CalculateEma(close);
    if j == 0 {
      assert Count(df.buySignal[..1]) == Count(df.buySignal[..0]) == 0;
      assert Count(df.sellSignal[..1]) == Count(df.sellSignal[..0]) == 0;
    } else {
      SignalFromMarkers(close, j - 1);
      assert df.buySignal[..j + 1][..j] == df.buySignal[..j];
      assert df.sellSignal[..j + 1][..j] == df.sellSignal[..j];
    }
  }

  /**
   * If the signal is v on day i and 1 - v on a later day m, it flips from v
   * to 1 - v on some day in between.
   */
  lemma {:induction false} FlipBetween(close: seq<real>, i: nat, m: nat, v: int)
    requires i < m < |close|
    ensures var df := CalculateEma(close);
      df.signal[i] == v && df.signal[m] == 1 - v ==>
        exists k :: i < k <= m && df.signal[k - 1] == v && df.signal[k] == 1 - v
    decreases m
  {
    var df := CalculateEma(close);
    if df.signal[i] == v && df.signal[m] == 1 - v && df.signal[m - 1] != v {
      assert df.signal[m - 1] == 1 - v;
      FlipBetween(close, i, m - 1, v);
    }
  }

  /** Between two buy markers there is a sell marker. */
  lemma BuysSeparatedBySell(close: seq<real>, i: nat, j: nat)
    requires i < j < |close|
    ensures var df := CalculateEma(close);
      df.buySignal[i] && df.buySignal[j] ==> exists k :: i < k < j && df.sellSignal[k]
  {
    if CalculateEma(close).buySignal[i] && CalculateEma(close).buySignal[j] {
      FlipBetween(close, i, j - 1, 1);
    }
  }

  /** Between two sell markers there is a buy marker. */
  lemma SellsSeparatedByBuy(close: seq<real>, i: nat, j: nat)
    requires i < j < |close|
    ensures var df := CalculateEma(close);
      df.sellSignal[i] && df.sellSignal[j] ==> exists k :: i < k < j && df.buySignal[k]
  {
    if CalculateEma(close).sellSignal[i] && CalculateEma(close).sellSignal[j] {
      FlipBetween(close, i, j - 1, 0);
    }
  }

  /** Every sell marker has a buy marker before it: the first marker is always a buy. */
  lemma SellPrecededByBuy(close: seq<real>, j: nat)
    requires j < |close|
    ensures var df := CalculateEma(close);
      df.sellSignal[j] ==> exists k :: 0 < k < j && df.buySignal[k]
  {
    if CalculateEma(close).sellSignal[j] {
      MarkersAtFlips(close);
      FlipBetween(close, 0, j - 1, 0);
    }
  }

  /**
   * No look-ahead: every column for the first k days is what the calculation
   * gives on the first k closes alone.
   */
  lemma NoLookAhead(close: seq<real>, k: nat)
    requires k <= |close|
    ensures var whole, early := CalculateEma(close), CalculateEma(close[..k]);
      && early.ema100 == whole.ema100[..k]
      && early.ema200 == whole.ema200[..k]
      && early.signal == whole.signal[..k]
      && early.buySignal == whole.buySignal[..k]
      && early.sellSignal == whole.sellSignal[..k]
  {
    var whole := CalculateEma(close);
    EmaPrefix(close, ShortSpan, k);
    EmaPrefix(close, LongSpan, k);
    RegimePrefix(whole.ema100, whole.ema200, k);
    CrossingsPrefix(whole.signal, 0, 1, k);
    CrossingsPrefix(whole.signal, 1, 0, k);
  }

  lemma RegimePrefix(fast: seq<real>, slow: seq<real>, k: nat)
    requires |fast| == |slow| && k <= |fast|
    ensures Regime(fast[..k], slow[..k]) == Regime(fast, slow)[..k]
  {
  }

  lemma CrossingsPrefix(signal: seq<int>, from: int, to: int, k: nat)
    requires k <= |signal|
    ensures Crossings(signal[..k], from, to) == Crossings(signal, from, to)[..k]
  {
  }

  /**
   * A single upward crossing on day k (the 100-day average is above the
   * 200-day one exactly from day k on) gives exactly one buy marker, on day
   * k, and no sell marker.
   */
  lemma SingleCrossover(close: seq<real>, k: nat)
    requires 0 < k < |close|
    requires forall i :: 0 <= i < |close| ==>
      (CalculateEma(close).ema100[i] > CalculateEma(close).ema200[i] <==> k <= i)
    ensures var df := CalculateEma(close);
      forall i :: 0 <= i < |close| ==> (df.buySignal[i] <==> i == k) && !df.sellSignal[i]
  {
  }
}
