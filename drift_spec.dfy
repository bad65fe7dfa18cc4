/**
 * Pure specification of `drift_correction` (prosp_gravi_magne/gravity_corrections.py:67-111).
 *
 * The Python function makes one pass over the records. Before the pass it collects the
 * indices of the base station, seeds the first segment from record 0 and the second base
 * visit, and sets the cursor `j` to 1. Each iteration may first advance the segment and
 * then writes one drift value. `Run` replays that pass one record at a time. Its state
 * is a `Loop`; `Step` is one iteration of the `for` loop.
 */
module DriftSpec {
  import opened Outcomes

  /** The ways `drift_correction` can fail. */
  datatype DriftError =
    | EmptyInput        // `station[0]` on an empty array (line 92)
    | BaseNotRevisited  // `idxs[1]` when the base label never recurs (lines 96, 98)
    | ZeroTimeSpan      // a zero denominator at line 109 (NumPy would give inf or nan)
    | SegmentOverrun    // `idxs[j]` past the end of `idxs` (line 105)

  /**
   * Which time pair the interpolation divides by.
   * AsWritten: the branch assigns `initial_time`/`final_time`, which nothing reads, so
   *   line 109 keeps the `initial_t`/`final_t` of lines 97-98 forever.
   * SegmentTimes: the evidently intended reading, where the branch re-anchors the times too.
   */
  datatype Variant = AsWritten | SegmentTimes

  /** The loop's variables: cursor, reading pair, time pair, cumulative offset, and `g_dc[..i]`. */
  datatype Loop = Loop(j: nat, initialG: real, finalG: real, initialT: real, finalT: real,
                       baseDc: real, gDc: seq<real>)

  /** The three input arrays are index-aligned. */
  predicate Aligned<L>(time: seq<real>, gRead: seq<real>, station: seq<L>) {
    |time| == |gRead| == |station|
  }

  /** The label of record k is the base label `station[0]`. */
  predicate IsBase<L(==)>(station: seq<L>, k: nat)
    requires k < |station|
  {
    station[k] == station[0]
  }

  /** The indices below n whose label is the base label, ascending (the `np.where` of line 92). */
  function BaseIndicesBelow<L(==)>(station: seq<L>, n: nat): (idxs: seq<nat>)
    requires 0 < |station| && n <= |station|
    ensures forall p :: 0 <= p < |idxs| ==> idxs[p] < n && IsBase(station, idxs[p])
    ensures forall k :: 0 <= k < n && IsBase(station, k) ==> k in idxs
    ensures forall p, q :: 0 <= p < q < |idxs| ==> idxs[p] < idxs[q]
    ensures 0 < n ==> 0 < |idxs| && idxs[0] == 0
  {
    if n == 0 then []
    else BaseIndicesBelow(station, n - 1) + (if IsBase(station, n - 1) then [n - 1] else [])
  }

  /** Every index at which the base label occurs (`idxs`). */
  function BaseIndices<L(==)>(station: seq<L>): (idxs: seq<nat>)
    requires 0 < |station|
    ensures forall p :: 0 <= p < |idxs| ==> idxs[p] < |station| && IsBase(station, idxs[p])
    ensures forall k :: 0 <= k < |station| && IsBase(station, k) ==> k in idxs
    ensures forall p, q :: 0 <= p < q < |idxs| ==> idxs[p] < idxs[q]
    ensures 0 < |idxs| && idxs[0] == 0
  {
    BaseIndicesBelow(station, |station|)
  }

  /** What `Run` needs of `idxs`: two base visits at least, ascending, starting at record 0. */
  predicate ValidIdxs(idxs: seq<nat>, n: nat) {
    && 2 <= |idxs|
    && idxs[0] == 0
    && (forall p :: 0 <= p < |idxs| ==> idxs[p] < n)
    && (forall p, q :: 0 <= p < q < |idxs| ==> idxs[p] < idxs[q])
  }

  /** The state before the loop (lines 88-99). */
  function Start(time: seq<real>, gRead: seq<real>, idxs: seq<nat>): (s: Loop)
    requires |time| == |gRead| && ValidIdxs(idxs, |gRead|)
    ensures s.j == 1 && s.baseDc == 0.0 && s.gDc == []
    ensures s.initialG == gRead[idxs[0]] && s.finalG == gRead[idxs[1]]
    ensures s.initialT == time[idxs[0]] && s.finalT == time[idxs[1]]
  {
    Loop(1, gRead[0], gRead[idxs[1]], time[0], time[idxs[1]], 0.0, [])
  }

  /** The segment advance fires at record i: `i - 1 != 0 and i - 1 in idxs` (line 102). */
  predicate Advances(idxs: seq<nat>, i: nat) {
    1 <= i && i - 1 != 0 && i - 1 in idxs
  }

  /** The value line 109 writes: the line through the reading pair over the time span, from the origin, plus the offset. */
  function Interp(initialG: real, finalG: real, span: real, origin: real, t: real, offset: real): real
    requires span != 0.0
  {
    (finalG - initialG) / span * (t - origin) + offset
  }

  /** One iteration of the loop body for record i (lines 102-109). */
  function Step(v: Variant, time: seq<real>, gRead: seq<real>, idxs: seq<nat>, s: Loop, i: nat)
    : (r: Result<Loop, DriftError>)
    requires |time| == |gRead| && ValidIdxs(idxs, |gRead|)
    requires i < |gRead| && |s.gDc| == i
    ensures r.Ok? ==> |r.value.gDc| == i + 1 && r.value.gDc[..i] == s.gDc
  {
    var advance := Advances(idxs, i);
    if advance && |idxs| <= s.j + 1 then Err(SegmentOverrun)
    else
      var u := if advance then
                 s.(j := s.j + 1, initialG := gRead[i - 1], finalG := gRead[idxs[s.j + 1]],
                    initialT := if v == SegmentTimes then time[i - 1] else s.initialT,
                    finalT := if v == SegmentTimes then time[idxs[s.j + 1]] else s.finalT,
                    baseDc := s.gDc[i - 1])
               else s;
      if u.finalT - u.initialT == 0.0 then Err(ZeroTimeSpan)
      else
        Ok(u.(gDc := u.gDc + [Interp(u.initialG, u.finalG, u.finalT - u.initialT, u.initialT, time[i], u.baseDc)]))
  }

  /** The loop after its first n iterations, or the error one of them raised. */
  function Run(v: Variant, time: seq<real>, gRead: seq<real>, idxs: seq<nat>, n: nat)
    : (r: Result<Loop, DriftError>)
    requires |time| == |gRead| && ValidIdxs(idxs, |gRead|) && n <= |gRead|
    ensures r.Ok? ==> |r.value.gDc| == n
    ensures r.Err? ==> r.error == SegmentOverrun || r.error == ZeroTimeSpan
  {
    if n == 0 then Ok(Start(time, gRead, idxs))
    else match Run(v, time, gRead, idxs, n - 1)
      case Err(e) => Err(e)
      case Ok(s) => Step(v, time, gRead, idxs, s, n - 1)
  }

  /** `drift_correction` under a choice of time pair. */
  function DriftUnder<L(==)>(v: Variant, time: seq<real>, gRead: seq<real>, station: seq<L>)
    : (r: Result<seq<real>, DriftError>)
    requires Aligned(time, gRead, station)
    ensures r.Ok? ==> |r.value| == |gRead|
  {
    if |station| == 0 then Err(EmptyInput)
    else
      var idxs := BaseIndices(station);
      if |idxs| < 2 then Err(BaseNotRevisited)
      else Output(Run(v, time, gRead, idxs, |gRead|))
  }

  /** The drift array a finished run returns, or the error it raised. */
  function Output(r: Result<Loop, DriftError>): Result<seq<real>, DriftError> {
    match r
    case Err(e) => Err(e)
    case Ok(s) => Ok(s.gDc)
  }

  /** `drift_correction` as written. */
  function Drift<L(==)>(time: seq<real>, gRead: seq<real>, station: seq<L>)
    : (r: Result<seq<real>, DriftError>)
    requires Aligned(time, gRead, station)
    ensures r.Ok? ==> |r.value| == |gRead|
    ensures r == Err(EmptyInput) <==> |station| == 0
    ensures r == Err(BaseNotRevisited) <==> 0 < |station| && |BaseIndices(station)| < 2
  {
    DriftUnder(AsWritten, time, gRead, station)
  }

  /** `drift_correction` with the branch's time pair actually used at line 109. */
  function IntendedDrift<L(==)>(time: seq<real>, gRead: seq<real>, station: seq<L>)
    : (r: Result<seq<real>, DriftError>)
    requires Aligned(time, gRead, station)
    ensures r.Ok? ==> |r.value| == |gRead|
    ensures r == Err(EmptyInput) <==> |station| == 0
    ensures r == Err(BaseNotRevisited) <==> 0 < |station| && |BaseIndices(station)| < 2
  {
    DriftUnder(SegmentTimes, time, gRead, station)
  }

  /** The number of base revisits among records 1 .. i-1. */
  function Revisits<L(==)>(station: seq<L>, i: nat): nat
    requires i <= |station|
  {
    if i <= 1 then 0
    else Revisits(station, i - 1) + (if IsBase(station, i - 1) then 1 else 0)
  }
}
