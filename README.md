# Gravity survey corrections in Dafny

This project models `prosp_gravi_magne/gravity_corrections.py`, a small library of corrections
for relative-gravimeter field readings, and proves properties of the model.

The core is `drift_correction`. It takes index-aligned arrays of reading times, gravimeter
readings and station labels. The label of record 0 is the base station. The function walks
the records once and writes an instrument-drift estimate for each one. Each stretch between
two base visits uses its own two base readings, offset by the drift already reached at the
stretch's first base visit. Every stretch has the time origin `time[0]` and the divisor
`time[idxs[1]] - time[0]` of the first stretch, where `idxs` are the record indices of the
base visits. So only the first stretch is a straight line through its two base readings.
Every stretch being such a line is the evidently intended behaviour.

The model has three layers:

- `DriftSpec` replays the pass as a pure function. `Step` is one loop iteration and `Run`
  is the first n iterations.
- `DriftLoop` renders the pass as an imperative method over an `array` output. That method
  is proved equal to the specification.
- `DriftProperties` and `DriftTheorems` state what the pass computes in terms of its
  inputs:
  - exactly when it succeeds, and which error it raises otherwise;
  - the drift in the first segment and in later segments;
  - what the segment cursor counts;
  - which readings the result depends on.

The source has a defect. The segment advance assigns `initial_time`/`final_time`, but the
formula reads `initial_t`/`final_t`, which are set once before the loop. The model
reproduces this as written, through `Variant.AsWritten`. The evidently intended behaviour,
where the assigned times are the ones used, is `Variant.SegmentTimes` (see Findings).

`GravityCorrections` models the other functions that use no trigonometry, as functions on
sequences of reals:

- `hms_to_hh`
- `lat_dist`
- `relative_g`
- `air_correction`
- `bouguer_correction`
- `latitude_correction`, with its sine factor passed in as a number.

All arithmetic is exact arithmetic over the reals.

## Model

| member | source | states |
|---|---|---|
| DriftSpec.BaseIndices | prosp_gravi_magne/gravity_corrections.py:92 | `idxs` holds exactly the records whose label is `station[0]`, strictly ascending, and starts with 0 |
| DriftSpec.Step | prosp_gravi_magne/gravity_corrections.py:101-109 | an iteration that succeeds appends one drift value and leaves the values already written unchanged |
| DriftSpec.Start | prosp_gravi_magne/gravity_corrections.py:88-99 | the state before the loop: cursor 1, offset 0, nothing written yet, and the reading and time pairs of the first two base visits `idxs[0] = 0` and `idxs[1]` |
| DriftSpec.Run | prosp_gravi_magne/gravity_corrections.py:101-109 | the first n iterations: on success exactly n drift values are written. The only errors the loop can raise are `SegmentOverrun` and `ZeroTimeSpan` |
| DriftSpec.Drift | prosp_gravi_magne/gravity_corrections.py:67-111 | `drift_correction` as written. On success it returns one value per reading. It fails with `EmptyInput` iff there are no records, and with `BaseNotRevisited` iff the base label never recurs |
| DriftSpec.IntendedDrift | prosp_gravi_magne/gravity_corrections.py:67-111 | the corrected `drift_correction`, where the times assigned at lines 106-107 are the ones used. It has the same length and setup errors as `Drift` |
| DriftSpec.DriftUnder | prosp_gravi_magne/gravity_corrections.py:88-111 | a successful run returns one drift value per reading (`np.zeros(g_read.size)`) |
| DriftLoop.DriftCorrection | prosp_gravi_magne/gravity_corrections.py:67-111 | the imperative function returns exactly what the specification `Drift` gives, including each error |
| DriftLoop.Pass | prosp_gravi_magne/gravity_corrections.py:88-111 | the in-place loop over the `g_dc` array, with its mutable cursor, reading pair and offset, yields the output of the specification's pass, or the error it raises |
| DriftProperties.AdvanceAtCursor | prosp_gravi_magne/gravity_corrections.py:102-105 | while record i-1 lies in segment j, the test `i - 1 != 0 and i - 1 in idxs` holds exactly when i-1 is the segment's closing base visit `idxs[j]` |
| DriftProperties.SegmentUnique | prosp_gravi_magne/gravity_corrections.py:102-105 | each record lies in exactly one base-to-base segment |
| DriftProperties.RunPrefix | prosp_gravi_magne/gravity_corrections.py:101-109 | a later iteration never rewrites an earlier drift value: every successful run of m records extends each shorter run |
| DriftProperties.RunErrorPersists | prosp_gravi_magne/gravity_corrections.py:105-109 | once an iteration raises, the whole call raises that error |
| DriftProperties.RunInvariant | prosp_gravi_magne/gravity_corrections.py:99-109 | after each iteration the loop holds the following: the cursor is on the segment of the last record; the reading pair is that segment's base readings; the time pair is as written; the span is nonzero; the offset is the drift at the segment's first base visit; the last value is that segment's line |
| DriftProperties.RunOutcome | prosp_gravi_magne/gravity_corrections.py:96-109 | the pass as written succeeds iff `time[idxs[1]] != time[0]` and no record follows the last base visit; it fails with `ZeroTimeSpan` or `SegmentOverrun` accordingly |
| DriftProperties.RunSegment | prosp_gravi_magne/gravity_corrections.py:102-109 | the drift of a record in segment k is line 109 with that segment's reading pair, the variant's time pair, and the drift at `idxs[k]` as offset |
| DriftProperties.SegmentTimesLine | prosp_gravi_magne/gravity_corrections.py:106-109 | with the branch's times used, segment k is the line through its own base readings and times |
| DriftTheorems.LastBaseIsLastRecord | prosp_gravi_magne/gravity_corrections.py:92-105 | the last base index is the last record exactly when the last label is the base label |
| DriftTheorems.DriftOutcome | prosp_gravi_magne/gravity_corrections.py:92-109 | success iff the input is non-empty, the base recurs, `time[idxs[1]] != time[0]` and the last record is a base visit; and each of the four errors iff its own condition |
| DriftTheorems.DriftFirstSegment | prosp_gravi_magne/gravity_corrections.py:95-109 | for i <= idxs[1], `g_dc[i] = (g[idxs[1]]-g[0])/(t[idxs[1]]-t[0]) * (t[i]-t[0])` |
| DriftTheorems.DriftFirstSegmentEnds | prosp_gravi_magne/gravity_corrections.py:88-109 | `g_dc[0] = 0` and `g_dc[idxs[1]] = g[idxs[1]] - g[0]` |
| DriftTheorems.DriftLaterSegment | prosp_gravi_magne/gravity_corrections.py:97-109 | in segment k >= 1, the value uses that segment's base readings and the offset `g_dc[idxs[k]]`, but the time origin `t[0]` and divisor `t[idxs[1]]-t[0]` |
| DriftTheorems.CursorCountsRevisits | prosp_gravi_magne/gravity_corrections.py:99-103 | after record n-1, `j` is 1 plus the number of base visits among records 1 .. n-2 |
| DriftTheorems.SegmentAdvance | prosp_gravi_magne/gravity_corrections.py:102-108 | the branch fires at record i iff i-1 >= 1 is a base visit. It then increments `j`, sets the pair to `(g[i-1], g[idxs[j]])` with `j` in range, and sets `base_dc = g_dc[i-1]`. Otherwise the cursor, pairs and offset are unchanged |
| DriftTheorems.TimesNeverReassigned | prosp_gravi_magne/gravity_corrections.py:97-109 | as written, the time pair read at line 109 is `(time[0], time[idxs[1]])` after every iteration |
| DriftTheorems.StepReadsOnlyBase | prosp_gravi_magne/gravity_corrections.py:102-109 | an iteration reads readings only at base indices |
| DriftTheorems.RunReadsOnlyBase | prosp_gravi_magne/gravity_corrections.py:95-109 | runs on readings that agree at the base indices are identical |
| DriftTheorems.OnlyBaseReadingsMatter | prosp_gravi_magne/gravity_corrections.py:95-109 | changing the reading of a non-base record never changes the result or the error |
| DriftTheorems.IntendedDriftSegment | prosp_gravi_magne/gravity_corrections.py:106-109 | with the assigned times used, segment k interpolates between its own base visits in both reading and time |
| DriftTheorems.IntendedDriftAtBase | prosp_gravi_magne/gravity_corrections.py:102-109 | with the assigned times used, the drift at every base visit equals the change of the base reading since record 0 |
| DriftExamples.OneSegmentBases | prosp_gravi_magne/gravity_corrections.py:92 | the base indices of `[B, S1, S2, B]` are `[0, 3]` |
| DriftExamples.TwoSegmentBases | prosp_gravi_magne/gravity_corrections.py:92 | the base indices of `[B, S1, B, S2, B]` are `[0, 2, 4]` |
| DriftExamples.OneSegmentExample | prosp_gravi_magne/gravity_corrections.py:67-111 | times 0..3, readings 100, 101, 102, 106 and labels B, S1, S2, B give `[0, 2, 4, 6]` |
| DriftExamples.ShadowedTimesExample | prosp_gravi_magne/gravity_corrections.py:97-109 | times 0..4, readings 100, 102, 104, x, 108 and labels B, S1, B, S2, B give `[0, 2, 4, 10, 12]` as written, for every x |
| DriftExamples.SegmentTimesExample | prosp_gravi_magne/gravity_corrections.py:106-109 | the same survey with the assigned times used gives `[0, 2, 4, 6, 8]` |
| GravityCorrections.Hours | prosp_gravi_magne/gravity_corrections.py:19 | `t.hour + t.minute / 60 + t.second / 3600` of one reading, times 3600, is its whole seconds since midnight |
| GravityCorrections.HmsToHh | prosp_gravi_magne/gravity_corrections.py:19 | one value per time, and each value times 3600 is the clock reading in whole seconds |
| GravityCorrections.HmsToHhInDay | prosp_gravi_magne/gravity_corrections.py:19 | a valid clock reading converts to a value in [0, 24) |
| GravityCorrections.HmsToHhOrder | prosp_gravi_magne/gravity_corrections.py:19 | decimal hours order valid readings exactly as the clock (hour, minute, second) does |
| GravityCorrections.ClockSeconds | prosp_gravi_magne/gravity_corrections.py:19 | a valid clock reading is recovered from its seconds since midnight |
| GravityCorrections.HmsToHhInjective | prosp_gravi_magne/gravity_corrections.py:19 | distinct valid clock readings have distinct decimal hours |
| GravityCorrections.LatDist | prosp_gravi_magne/gravity_corrections.py:41-46 | with `deg_2_m = 111 * 10e2 = 111000`, `result[i]*deg_2_m - lat_base*deg_2_m == distance[i]` for every station |
| GravityCorrections.LatDistRoundTrip | prosp_gravi_magne/gravity_corrections.py:41-46 | converting latitudes back to metres recovers the distances |
| GravityCorrections.DistOfLatRoundTrip | prosp_gravi_magne/gravity_corrections.py:41-46 | `lat_dist` of the metres of any latitudes recovers those latitudes |
| GravityCorrections.LatDistMonotone | prosp_gravi_magne/gravity_corrections.py:41-46 | latitude is ordered as distance, and distance 0 maps to the base's latitude |
| GravityCorrections.RelativeG | prosp_gravi_magne/gravity_corrections.py:127 | the length is preserved, `g_rel[0] = 0`, and every difference between two observations is preserved |
| GravityCorrections.RelativeGIdempotent | prosp_gravi_magne/gravity_corrections.py:127 | applying `relative_g` twice equals applying it once |
| GravityCorrections.RelativeGShift | prosp_gravi_magne/gravity_corrections.py:127 | two surveys give the same relative gravity iff they differ by a constant |
| GravityCorrections.AirCorrection | prosp_gravi_magne/gravity_corrections.py:182 | one correction per height, -0.3086 times that height |
| GravityCorrections.AirCorrectionLinear | prosp_gravi_magne/gravity_corrections.py:182 | the free-air correction is additive and homogeneous in the heights, and 0 at height 0 |
| GravityCorrections.AirCorrectionSign | prosp_gravi_magne/gravity_corrections.py:182 | the source's correction is negative exactly for positive heights, and dividing by -0.3086 recovers the height |
| GravityCorrections.BouguerCorrection | prosp_gravi_magne/gravity_corrections.py:203 | one correction per height, 0.04192 times the density times that height |
| GravityCorrections.BouguerLinearInHeight | prosp_gravi_magne/gravity_corrections.py:203 | the Bouguer correction is additive and homogeneous in the heights, and 0 at height 0 |
| GravityCorrections.BouguerLinearInDensity | prosp_gravi_magne/gravity_corrections.py:203 | the Bouguer correction is additive and homogeneous in the density, and 0 at density 0 |
| GravityCorrections.LatitudeCorrection | prosp_gravi_magne/gravity_corrections.py:151-166 | fails exactly when neither `distance` nor `st_latitude` is given; otherwise one value per given station |
| GravityCorrections.DistanceTakesPrecedence | prosp_gravi_magne/gravity_corrections.py:151-164 | when `distance` is given, `st_latitude` does not affect the result |
| GravityCorrections.LatitudeModeAsDistance | prosp_gravi_magne/gravity_corrections.py:151-164 | the latitude mode equals the distance mode applied to `dy = 6367.44 * (st_latitude - base_latitude)` |
| GravityCorrections.LatitudeCorrectionAtBase | prosp_gravi_magne/gravity_corrections.py:151-164 | a station at the base's latitude, or at distance 0, gets correction 0 |

## Left out

- `gn` (line 65), the GRS-1967 normal-gravity formula, is not modelled. It is built on `np.sin`, and transcendental floating-point functions have no exact counterpart here.
- LatitudeCorrection: `np.sin(2 * np.deg2rad(base_latitude))` is a real parameter `sinTwiceBase`, so nothing depends on its value.
- Floating point is not modelled. Readings, times and corrections are exact reals, which has three consequences:
  - the `lat_dist` round trip is exact, where the source's holds only up to rounding;
  - no 64-bit float rounding anywhere is captured;
  - a zero time span at line 109 is the error `ZeroTimeSpan`, where NumPy would warn and write inf or nan.
- Drift, DriftTheorems.DriftOutcome: `ZeroTimeSpan` stops the pass at the first division by zero. Because of this it takes priority over `SegmentOverrun`, which is why the overrun condition includes `time[idxs[1]] != time[0]`. The source has no such priority. It would write inf or nan and carry on, and could still raise `IndexError` at line 105 later. For example, time `[0,0,1]`, readings `[1,2,3]` and station `[B,B,S]` give `ZeroTimeSpan` in the model, while the source raises `IndexError`.
- DriftCorrection: requires the three arrays to have the same length. With unequal lengths the source either raises on an index or silently reads a prefix, and that outcome depends on NumPy.
- DriftCorrection: `station == station[0]` is modelled as element equality on labels, without NumPy's broadcasting of other shapes.
- RelativeG: requires a non-empty array. `g_obs[0]` raises on an empty one, and this error is not modelled as a result.
- AirCorrection, BouguerCorrection, LatDist: take sequences. A scalar `h` or `distance`, which NumPy would accept, is the one-element case.
- HmsToHh: a time is an (hour, minute, second) triple. The `datetime.time` type and its microseconds, which the source never reads, are not modelled.
- LatitudeCorrection: only the case where both arguments are `None` is an error. For a given `distance`, `st_latitude` may be anything, including `None`; in latitude mode an array-shaped `st_latitude` is assumed.
- DriftLoop.Pass: takes `idxs` as a parameter. `DriftCorrection` computes `idxs` first and then calls `Pass`. The Python function does both in one body.

## Findings

| source | as written | input that shows it | evidently intended | confidence | as-written member | corrected member |
|---|---|---|---|---|---|---|
| prosp_gravi_magne/gravity_corrections.py:106-109 | the segment advance assigns `initial_time`/`final_time`, but line 109 reads `initial_t`/`final_t`. Every segment therefore interpolates over the first segment's time origin `t[0]` and span `t[idxs[1]] - t[0]` | time `[0,1,2,3,4]`, readings `[100,102,104,x,108]`, station `[B,S1,B,S2,B]` gives `[0,2,4,10,12]`: the drift at the last base visit is 12, not 108 - 100 = 8 | each segment uses its own base visits' times, so the drift at every base visit equals the change of the base reading since record 0 (result `[0,2,4,6,8]`) | not executed | DriftExamples.ShadowedTimesExample | DriftTheorems.IntendedDriftAtBase |

The imperative `DriftLoop.DriftCorrection` follows the code as written. The corrected
behaviour is `DriftSpec.IntendedDrift`, which is `Variant.SegmentTimes`, and its properties are
`DriftTheorems.IntendedDriftSegment` and `DriftTheorems.IntendedDriftAtBase`.
