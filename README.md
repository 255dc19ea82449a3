# Quantreo intrabar metrics and discrete derivatives, in Dafny

This project models two small, sequential parts of the Quantreo feature-engineering library.

- **Intrabar tick metrics** (`quantreo/data_aggregation/bar_metrics/__init__.py`). These are Numba-compiled loops over one bar's tick prices and volumes:
  - `max_traded_volume` returns the largest single-tick volume and the price of the first tick that traded it.
  - `volume_profile_features` builds a volume histogram over `n_bins` evenly spaced price bins and returns the Point of Control (POC). The POC price is the midpoint of the first fullest bin. The POC position is where that price sits in the bar's price range, from 0 to 1.

  Both are modelled as methods over `array<real>`, with loop invariants. The histogram is a fresh array filled in place, tick by tick, the way the source fills it. Each method is proved against specification functions: `FirstMaxIndex` (argmax, first occurrence wins) and `Profile`, `VolumeProfile`. The lemmas beside them state what the source promises:
  - every tick in the price range lands in exactly one bin, and a tick at the highest price lands in the last;
  - the bins together hold the ticks' total volume;
  - the POC price lies in `[price_min, price_max]`;
  - the POC position is `(2k + 1) / 2n` for POC bin `k`, so it lies in `[0, 1]`, and it is 0 when the range is a single price.

- **Discrete derivatives** (`quantreo/features_engineering/math.py`). `derivatives(df, col)` is modelled as a pure function on a frame. The frame is a map from column name to `seq<real>`. The model covers:
  - the missing-column error, in both directions;
  - velocity and acceleration as first and second differences, same length as the column, with leading entries 0;
  - a flat column giving all zeros;
  - the first difference being inverted by a running sum (telescoping).

  The frame is a value, so the input is left unchanged by construction.

Modules: `Outcomes` (the `Option` and `Result` datatypes), `RealSums` (`Sum` over `seq<real>` and its lemmas), `BarMetrics` and `MathFeatures`.

## Model

| member | source | states |
|---|---|---|
| `BarMetrics.MaxTradedVolume` | quantreo/data_aggregation/bar_metrics/__init__.py:112-142 | it needs `prices` to reach only the chosen index. An empty volume array gives (0, 0). Otherwise the result is the volume and the price at the first index of the maximum volume, and that volume is at least every tick's volume. |
| `BarMetrics.FirstMaxIndex` | quantreo/data_aggregation/bar_metrics/__init__.py:134-140 | the index returned holds a largest entry, and every earlier entry is strictly smaller: ties go to the first index, as the strict `>` and `np.argmax` make them. |
| `BarMetrics.FirstMaxUnique` | quantreo/data_aggregation/bar_metrics/__init__.py:138 | at most one index is a first maximum, so the scan's `max_idx` is exactly `FirstMaxIndex`. |
| `BarMetrics.SeqMin` | quantreo/data_aggregation/bar_metrics/__init__.py:87 | `price_min` is at most every price and is one of the prices. |
| `BarMetrics.SeqMax` | quantreo/data_aggregation/bar_metrics/__init__.py:88 | `price_max` is at least every price and is one of the prices. |
| `BarMetrics.BinEdges` | quantreo/data_aggregation/bar_metrics/__init__.py:89 | there are `n_bins + 1` edges, the first is `price_min` and the last is exactly `price_max`. |
| `BarMetrics.EdgeLast` | quantreo/data_aggregation/bar_metrics/__init__.py:89 | the evenly spaced grid ends exactly at `price_max`, as `bin_edges[-1]` does. |
| `BarMetrics.EdgeMonotone` | quantreo/data_aggregation/bar_metrics/__init__.py:89 | the edges are non-decreasing in their index, and strictly increasing when `price_max > price_min`. |
| `BarMetrics.EdgeInRange` | quantreo/data_aggregation/bar_metrics/__init__.py:89 | every edge lies in `[price_min, price_max]`. |
| `BarMetrics.BinScan` | quantreo/data_aggregation/bar_metrics/__init__.py:96-102 | the bin search started at bin `j` either finds nothing or finds a bin from `j` to `n_bins - 1`. |
| `BarMetrics.BinLands` | quantreo/data_aggregation/bar_metrics/__init__.py:96-102 | every price in `[price_min, price_max]` lands in a bin whose edges enclose it. This includes `price == price_max` and the degenerate `price_max == price_min`. |
| `BarMetrics.BinOfSomeIff` | quantreo/data_aggregation/bar_metrics/__init__.py:96-102 | a tick is counted in some bin if and only if its price lies in `[price_min, price_max]`. |
| `BarMetrics.BinOfInterior` | quantreo/data_aggregation/bar_metrics/__init__.py:97-99 | with a proper range, a price in `[edge j, edge j+1)` goes to bin `j`. The half-open bins do not overlap. |
| `BarMetrics.BinOfTop` | quantreo/data_aggregation/bar_metrics/__init__.py:100-102 | a tick at `price_max` goes to the last bin, also when all edges coincide. |
| `BarMetrics.BinOf` | quantreo/data_aggregation/bar_metrics/__init__.py:96-102 | the bin search from bin 0 either finds no bin or finds one of the `n_bins` bins. |
| `BarMetrics.Deposit` | quantreo/data_aggregation/bar_metrics/__init__.py:98-101 | `volume_per_bin[j] += volume`: the chosen bin gains the tick's volume, every other bin is unchanged, and the total grows by that volume (by nothing when no bin was chosen). |
| `BarMetrics.Profile` | quantreo/data_aggregation/bar_metrics/__init__.py:90-102 | the histogram after the filling loop has exactly `n_bins` entries, built by depositing each tick's volume in turn into the bin `BinOf` chooses. |
| `BarMetrics.AddTick` | quantreo/data_aggregation/bar_metrics/__init__.py:93-102 | the inner loop adds the tick's volume to the bin `BinOf` chooses, or to none. Every other bin is unchanged. |
| `BarMetrics.ProfileConservesVolume` | quantreo/data_aggregation/bar_metrics/__init__.py:90-102 | when all prices lie in the range, the sum of the bins equals the total volume of the ticks. |
| `BarMetrics.ProfileFlatRange` | quantreo/data_aggregation/bar_metrics/__init__.py:97-102 | when every price is the same, all of the volume is in the last bin and every other bin holds 0. |
| `BarMetrics.VolumeProfile` | quantreo/data_aggregation/bar_metrics/__init__.py:87-109 | it fails with `EmptyPrices` exactly when there are no ticks. It fails with `NonPositiveBins` exactly when there are ticks but `n_bins < 1`. |
| `BarMetrics.VolumeProfileInRange` | quantreo/data_aggregation/bar_metrics/__init__.py:104-107 | with ticks and at least one bin, the POC price lies in `[price_min, price_max]` and the position lies in `[0, 1]`. The position equals `(2k + 1) / 2n` for POC bin `k` when the range is proper. When the range is a single price, the POC price is that price and the position is 0. |
| `BarMetrics.VolumeProfileIsFirstFullestBin` | quantreo/data_aggregation/bar_metrics/__init__.py:104-105 | for whichever bin is the first with maximal volume, `poc_price` is the midpoint of its two edges. |
| `BarMetrics.PositionOfMidpoint` | quantreo/data_aggregation/bar_metrics/__init__.py:105-107 | the midpoint of bin `k` sits at relative position `(2k + 1) / 2n`, which lies in `[0, 1]`. |
| `BarMetrics.VolumeProfileFeatures` | quantreo/data_aggregation/bar_metrics/__init__.py:67-109 | filling the bin array tick by tick and taking the first fullest bin yields exactly `VolumeProfile` of the inputs, errors included. `n_bins` defaults to 20 in both. |
| `MathFeatures.Diff` | quantreo/features_engineering/math.py:26 | `diff().fillna(0)`: same length as the input, 0 first, then `x[i] - x[i-1]`. |
| `MathFeatures.Derivatives` | quantreo/features_engineering/math.py:21-30 | it fails with `MissingColumn(col)` if and only if `col` is not a column. Otherwise it returns velocity and acceleration, both as long as the column. |
| `MathFeatures.AccelerationIsSecondDifference` | quantreo/features_engineering/math.py:26-28 | `velocity[i] == x[i] - x[i-1]` and `acceleration[i] == velocity[i] - velocity[i-1]` for `i >= 1`. Velocity and acceleration are 0 at index 0, and `acceleration[1] == velocity[1] == x[1] - x[0]`. From index 2 on, acceleration is `x[i] - 2x[i-1] + x[i-2]`. |
| `MathFeatures.ConstantColumnIsAtRest` | quantreo/features_engineering/math.py:26-28 | a constant column has all-zero velocity and acceleration. |
| `MathFeatures.DiffTelescopes` | quantreo/features_engineering/math.py:26 | `x[0]` plus the running sum of the velocity up to `i` gives back `x[i]`. Differencing loses only the first value. |
| `MathFeatures.DiffOfRunningSum` | quantreo/features_engineering/math.py:26 | differencing a running sum gives back its summands after the first. |

## Left out

- NaN and floating-point rounding: prices and volumes are exact reals. So the source's behaviour with NaN entries is not modelled, such as `fillna(0)` on interior gaps or `np.argmax` returning the first NaN. Nor is rounding of the linspace edges near a bin boundary.
- `BarMetrics.MaxTradedVolume`: the model requires `prices` to have an entry at the first index of the maximum volume. The compiled source reads `prices[max_idx]` without a bounds check, so a shorter `prices` array is not defined behaviour there.
- `BarMetrics.VolumeProfileFeatures`: the model requires `volumes` to be at least as long as `prices`. The compiled source reads `volumes[i]` for every tick index without a bounds check.
- `BarMetrics.VolumeProfile`: the source raises `ValueError` for `n_bins < 1` at different library calls: `np.argmax` of an empty array for 0, and the array constructors for negative values. The model merges these into one `NonPositiveBins` error.
- `MathFeatures.Derivatives`: the frame's row index is not modelled. The outputs are aligned with the column by position, and multi-dimensional or non-numeric columns are not modelled.
- `skewness` and `kurtosis` (`quantreo/data_aggregation/bar_metrics/__init__.py:6-64`): moment statistics over square roots and float powers. Only their guard branches are exact.
- The volatility estimators, the peak and valley detector, the dataset loaders and the import-time version warning are not part of this model. They are `log`/`sqrt` numerics, a wrapper over `scipy.signal.find_peaks`, CSV I/O, and process-global start-up code.
- The library's tick/time bar aggregator and its double, triple and continuous barrier labelling engine are not part of this model. This model covers the per-bar metrics and the derivatives only.
