# EMA crossover signal calculator

A Dafny model of the signal calculator of a small stock-chart web app
(`calculate_ema` in `app.py`). Given the daily closing prices of a ticker it
computes:

- the 100-day and 200-day exponential moving averages, as pandas computes
  them with `ewm(span=N, adjust=False).mean()`. The first average is the first
  close. Each later one is `alpha * close + (1 - alpha) * previous`, with
  `alpha = 2 / (N + 1)`;
- a regime signal, 1 where the 100-day average is strictly above the 200-day
  one and 0 otherwise (`np.where`);
- buy markers on the days the signal goes from 0 to 1 against the previous
  day, and sell markers on the days it goes from 1 to 0 (`shift(1)`,
  element-wise `==` and `&`).

Files:

- `ewm.dfy`, module `Ewm`: the recursive, non-adjusted EMA over exact reals.
  `Ema` seeds the average with the first close and runs the recurrence forward
  (`Scan`), as pandas does. Its contract gives the first value and the
  recurrence at every later index. The lemmas show that the recurrence
  determines the series (`EmaUnique`) and that the average never looks ahead
  (`EmaPrefix`). They also show that it stays within any bounds of the closes
  and is the constant itself on a constant series, that it lags a rising
  series, and that it commutes with negation.
- `app.dfy`, module `App`: `Shift` (pandas `shift(1)`, where index 0 holds a
  missing value that compares unequal to everything), `Regime`, `Crossings`,
  and `CalculateEma`, which returns the closes and the five derived columns as
  a new `Indicators` record. The source adds them as columns to the caller's
  DataFrame instead. Then come the properties of the whole calculation:
  - flat, rising and falling price series;
  - the markers accounting for the signal;
  - buy and sell markers alternating;
  - no look-ahead.

The spans 100 and 200 are fixed constants, as in the source. The lemmas that
compare the two averages (`FastAboveSlowWhenRising` and the ones built on it)
are stated for these two spans. That keeps their arithmetic linear in the
closes.

## Model

| member | source | states |
|---|---|---|
| `Ewm.Alpha` | app.py:17-18 | The smoothing factor `2 / (span + 1)` lies in (0, 1] for every whole-number span of at least 1 (the source passes 100 and 200), and is below 1 for spans of 2 or more. |
| `Ewm.SmoothBetween` | app.py:17-18 | One step of the recurrence gives a value between the previous average and the new close. |
| `Ewm.Scan` | app.py:17-18 | The forward pass has one average per close. The first comes from the seed, and each later one comes from the average before it and that day's close. |
| `Ewm.Ema` | app.py:17-18 | The EMA has one value per close. The first value equals the first close, and for i > 0 the value is one step of the recurrence (`Smooth`): `alpha * close[i] + (1 - alpha) * ema[i-1]`. |
| `Ewm.EmaUnique` | app.py:17-18 | Any series of the same length that starts at the first close and obeys the recurrence is the EMA. |
| `Ewm.EmaPrefix` | app.py:17-18 | The EMA of the first k closes is the first k values of the EMA of the whole series. |
| `Ewm.EmaWithinRange` | app.py:17-18 | If every close lies in [lo, hi], every average lies in [lo, hi]. |
| `Ewm.EmaOfConstant` | app.py:17-18 | On a constant series the average equals that constant at every index, for every span. |
| `Ewm.EmaLagsRising` | app.py:17-18 | On a non-decreasing series the average is never above the close of the same day. |
| `Ewm.EmaNegated` | app.py:17-18 | The EMA of the negated closes is the negated EMA. |
| `App.Shift` | app.py:22-23 | `shift(1)` keeps the length. Index 0 holds a missing value, and index i > 0 holds the value from i - 1. |
| `App.Regime` | app.py:21 | The signal has one entry per day, and each entry is 0 or 1. It is 1 exactly when the 100-day average is strictly greater than the 200-day one. |
| `App.Crossings` | app.py:22-23 | The markers have one entry per day and are false at index 0. For i > 0 a marker is set exactly when the previous signal is `from` and the current one is `to`. The comparison of the shifted value (`Equals`) treats the missing value as equal to nothing. |
| `App.CalculateEma` | app.py:16-25 | The closes are returned unchanged, and every column has their length. Both EMAs start at the first close and follow the recurrence with alpha = 2/101 and 2/201. The signal is 0 or 1, and it is 1 exactly when EMA_100 > EMA_200. Buy and sell are false at index 0. For i > 0 buy means the signal went from 0 to 1, and sell means it went from 1 to 0. |
| `App.MarkersAtFlips` | app.py:21-23 | The signal starts at 0. Buy and sell never fall on the same day. A day carries a marker exactly when its signal differs from the previous day's. |
| `App.ConstantCloseNoSignals` | app.py:17-23 | On a constant series both EMAs equal the constant everywhere. The signal is 0 everywhere and no buy or sell marker is set. |
| `App.FastAboveSlowWhenRising` | app.py:17-18 | On non-decreasing closes, EMA_100 >= EMA_200 at every index. A day on which EMA_100 > EMA_200 strictly is followed by another such day. |
| `App.StaysAboveWhenRising` | app.py:17-21 | On non-decreasing closes, once the signal is 1 it is 1 on every later day. |
| `App.RisingCloseCrossesUpAtMostOnce` | app.py:17-23 | On non-decreasing closes there is no sell marker and at most one buy marker. |
| `App.FastBelowSlowWhenFalling` | app.py:17-18 | On non-increasing closes, EMA_100 <= EMA_200 at every index. |
| `App.FallingCloseNoSignals` | app.py:17-23 | On non-increasing closes the signal is 0 everywhere and no marker is set. |
| `App.SignalFromMarkers` | app.py:21-23 | The signal on day j equals the number of buy markers up to day j minus the number of sell markers up to day j. |
| `App.FlipBetween` | app.py:21 | If the signal is v on day i and 1 - v on a later day m, it flips from v to 1 - v on some day in (i, m]. |
| `App.BuysSeparatedBySell` | app.py:22-23 | Between any two buy markers there is a sell marker. |
| `App.SellsSeparatedByBuy` | app.py:22-23 | Between any two sell markers there is a buy marker. |
| `App.SellPrecededByBuy` | app.py:22-23 | Every sell marker has an earlier buy marker, so the first marker is a buy. |
| `App.NoLookAhead` | app.py:16-25 | Each column for the first k days equals the same column computed from the first k closes alone. |
| `App.SingleCrossover` | app.py:21-23 | If EMA_100 > EMA_200 holds exactly from day k > 0 on, the only buy marker is on day k and there is no sell marker. |

## Left out

- `fetch_stock_data` (app.py:11-14): a network call to the market-data client. The closes are an input of `CalculateEma` instead.
- `plot_stock` (app.py:27-49): chart rendering and the base64 encoding of PNG bytes produced by the plotting library, whose output cannot be stated from this code.
- The `index` route (app.py:51-63): HTTP form handling, templating, upper-casing of the ticker and the catch-all exception handler.
- Floating point: the averages are computed over exact `real` values. pandas' IEEE-754 rounding is not modelled, so the results are not claimed to match bit for bit. Near-equal averages could compare differently under rounding.
- Missing (NaN) closes and pandas' NaN options for `ewm`: closes are plain reals. The only missing value modelled is the one `shift(1)` puts at index 0.
- The DataFrame's date index, which takes no part in the calculation, and the in-place update of the caller's DataFrame: the columns are returned in a new record. That record holds only Close and the five derived columns. The other columns of the DataFrame (Open, High, Low, Volume and the rest) pass through the source untouched and are not modelled.
- `Ewm.Alpha`: spans are whole numbers. pandas also accepts fractional spans of at least 1, such as 1.5, and the model does not cover them. The source only passes 100 and 200.
- `App.FastAboveSlowWhenRising`, `App.StaysAboveWhenRising`, `App.RisingCloseCrossesUpAtMostOnce`, `App.FastBelowSlowWhenFalling` and `App.FallingCloseNoSignals` are stated for the spans 100 and 200 the source uses, not for an arbitrary pair of spans.
