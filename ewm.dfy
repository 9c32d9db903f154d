/**
 * The exponentially weighted moving average that pandas computes for
 * `Series.ewm(span=N, adjust=False).mean()` on a series without missing
 * values, written over exact reals instead of IEEE-754 doubles.
 *
 * With adjust=False pandas seeds the average with the first observation and
 * then runs the recurrence  y[t] = alpha * x[t] + (1 - alpha) * y[t - 1]
 * forward over the rest of the series, where alpha = 2 / (span + 1).
 */
module Ewm {

  /** pandas' smoothing factor for a span; pandas rejects a span below 1. */
  function Alpha(span: nat): (a: real)
    requires span >= 1
    ensures 0.0 < a <= 1.0
    ensures span >= 2 ==> a < 1.0
  {
    2.0 / ((span + 1) as real)
  }

  /**
   * One step of the recurrence. The new average is a convex combination of
   * the previous average and the new observation, so it lies between them.
   */
  function Smooth(a: real, prev: real, x: real): (y: real)
    requires 0.0 <= a <= 1.0
  {
    a * x + (1.0 - a) * prev
  }

  /** The smoothed value lies between the previous average and the new observation. */
  lemma SmoothBetween(a: real, prev: real, x: real)
    requires 0.0 <= a <= 1.0
    ensures prev <= x ==> prev <= Smooth(a, prev, x) <= x
    ensures x <= prev ==> x <= Smooth(a, prev, x) <= prev
  {
    assert a * x + (1.0 - a) * prev == prev + a * (x - prev);
    if prev <= x {
      MulNonNegative(a, x - prev);
      MulNonNegative(1.0 - a, x - prev);
      assert (1.0 - a) * (x - prev) + a * (x - prev) == x - prev;
    } else {
      MulNonNegative(a, prev - x);
      MulNonNegative(1.0 - a, prev - x);
      assert (1.0 - a) * (prev - x) + a * (prev - x) == prev - x;
    }
  }

  /** A product of non-negative factors is non-negative; called to guide the solver's arithmetic. */
  lemma MulNonNegative(u: real, v: real)
    requires u >= 0.0 && v >= 0.0
    ensures u * v >= 0.0
  {
  }

  /** The forward pass: starting from `seed`, smooth each observation into the running average. */
  function Scan(a: real, seed: real, xs: seq<real>): (ys: seq<real>)
    requires 0.0 <= a <= 1.0
    ensures |ys| == |xs|
    ensures |xs| > 0 ==> ys[0] == Smooth(a, seed, xs[0])
    ensures forall i :: 0 < i < |xs| ==> ys[i] == Smooth(a, ys[i - 1], xs[i])
    decreases |xs|
  {
    if xs == [] then []
    else
      var y := Smooth(a, seed, xs[0]);
      [y] + Scan(a, y, xs[1..])
  }

  /**
   * `close.ewm(span=span, adjust=False).mean()`: the first average is the
   * first close, and every later one follows the recurrence.
   */
  function Ema(close: seq<real>, span: nat): (ema: seq<real>)
    requires span >= 1
    ensures |ema| == |close|
    ensures |close| > 0 ==> ema[0] == close[0]
    ensures forall i :: 0 < i < |close| ==> ema[i] == Smooth(Alpha(span), ema[i - 1], close[i])
  {
    if close == [] then [] else [close[0]] + Scan(Alpha(span), close[0], close[1..])
  }

  /** Element-wise negation of a series. */
  function Negated(s: seq<real>): (r: seq<real>)
    ensures |r| == |s|
    ensures forall i :: 0 <= i < |s| ==> r[i] == -s[i]
  {
    seq(|s|, i requires 0 <= i < |s| => -s[i])
  }

  ghost predicate NonDecreasing(s: seq<real>) {
    forall i, j :: 0 <= i <= j < |s| ==> s[i] <= s[j]
  }

  ghost predicate NonIncreasing(s: seq<real>) {
    forall i, j :: 0 <= i <= j < |s| ==> s[i] >= s[j]
  }

  lemma {:induction false} EmaUniqueAt(close: seq<real>, span: nat, e: seq<real>, i: nat)
    requires span >= 1
    requires |e| == |close|
    requires |close| > 0 ==> e[0] == close[0]
    requires forall k :: 0 < k < |close| ==> e[k] == Smooth(Alpha(span), e[k - 1], close[k])
    requires i < |close|
    ensures e[i] == Ema(close, span)[i]
    decreases i
  {
    if i > 0 {
      EmaUniqueAt(close, span, e, i - 1);
    }
  }

  /**
   * The first-value rule and the recurrence determine the average: any series
   * of the same length that obeys both is the EMA.
   */
  lemma EmaUnique(close: seq<real>, span: nat, e: seq<real>)
    requires span >= 1
    requires |e| == |close|
    requires |close| > 0 ==> e[0] == close[0]
    requires forall k :: 0 < k < |close| ==> e[k] == Smooth(Alpha(span), e[k - 1], close[k])
    ensures e == Ema(close, span)
  {
    var ema := Ema(close, span);
    forall i | 0 <= i < |close| ensures e[i] == ema[i] {
      EmaUniqueAt(close, span, e, i);
    }
  }

  /** No look-ahead: the average up to day k depends only on the closes up to day k. */
  lemma EmaPrefix(close: seq<real>, span: nat, k: nat)
    requires span >= 1
    requires k <= |close|
    ensures Ema(close[..k], span) == Ema(close, span)[..k]
  {
    EmaUnique(close[..k], span, Ema(close, span)[..k]);
  }

  lemma {:induction false} EmaWithinRangeAt(close: seq<real>, span: nat, lo: real, hi: real, i: nat)
    requires span >= 1
    requires forall k :: 0 <= k < |close| ==> lo <= close[k] <= hi
    requires i < |close|
    ensures lo <= Ema(close, span)[i] <= hi
    decreases i
  {
    if i > 0 {
      EmaWithinRangeAt(close, span, lo, hi, i - 1);
      var ema := Ema(close, span);
      SmoothBetween(Alpha(span), ema[i - 1], close[i]);
    }
  }

  /** Every average lies within any bounds that hold for all closes. */
  lemma EmaWithinRange(close: seq<real>, span: nat, lo: real, hi: real)
    requires span >= 1
    requires forall k :: 0 <= k < |close| ==> lo <= close[k] <= hi
    ensures forall i :: 0 <= i < |close| ==> lo <= Ema(close, span)[i] <= hi
  {
    forall i | 0 <= i < |close| ensures lo <= Ema(close, span)[i] <= hi {
      EmaWithinRangeAt(close, span, lo, hi, i);
    }
  }

  /** A constant series is its own moving average, for every span. */
  lemma EmaOfConstant(close: seq<real>, span: nat, c: real)
    requires span >= 1
    requires forall k :: 0 <= k < |close| ==> close[k] == c
    ensures forall i :: 0 <= i < |close| ==> Ema(close, span)[i] == c
  {
    EmaWithinRange(close, span, c, c);
  }

  /** On a rising series the average never runs ahead of the close. */
  lemma {:induction false} EmaLagsRising(close: seq<real>, span: nat, i: nat)
    requires span >= 1
    requires NonDecreasing(close)
    requires i < |close|
    ensures Ema(close, span)[i] <= close[i]
    decreases i
  {
    if i > 0 {
      EmaLagsRising(close, span, i - 1);
      var ema := Ema(close, span);
      assert close[i - 1] <= close[i];
      SmoothBetween(Alpha(span), ema[i - 1], close[i]);
    }
  }

  /** The average commutes with negation: it is odd in the closes. */
  lemma EmaNegated(close: seq<real>, span: nat)
    requires span >= 1
    ensures Ema(Negated(close), span) == Negated(Ema(close, span))
  {
    var ema := Ema(close, span);
    var a := Alpha(span);
    forall k | 0 < k < |close|
      ensures Negated(ema)[k] == Smooth(a, Negated(ema)[k - 1], Negated(close)[k])
    {
      SmoothNegated(a, ema[k - 1], close[k]);
    }
    EmaUnique(Negated(close), span, Negated(ema));
  }

  lemma SmoothNegated(a: real, p: real, x: real)
    requires 0.0 <= a <= 1.0
    ensures Smooth(a, -p, -x) == -Smooth(a, p, x)
  {
  }
}
