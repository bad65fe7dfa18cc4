/**
 * The loop of `drift_correction` (prosp_gravi_magne/gravity_corrections.py:67-111) as it
 * runs: an output array filled one record at a time while the cursor, the reading pair and
 * the offset are updated in place. Proved equal to the specification `DriftSpec.Drift`.
 */
module DriftLoop {
  import opened Outcomes
  import opened DriftSpec
  import DriftProperties

  /** `drift_correction`: the base indices (line 92), then the pass over the records. */
  method DriftCorrection<L(==)>(time: seq<real>, gRead: seq<real>, station: seq<L>)
    returns (r: Result<seq<real>, DriftError>)
    requires Aligned(time, gRead, station)
    ensures r == Drift(time, gRead, station)
  {
    if |station| == 0 {
      return Err(EmptyInput);
    }
    var idxs := BaseIndices(station);
    if |idxs| < 2 {
      return Err(BaseNotRevisited);
    }
    r := Pass(time, gRead, idxs);
  }

  /** Lines 88-111 once `idxs` is known: seed the first segment, then fill `g_dc` record by record. */
  method Pass(time: seq<real>, gRead: seq<real>, idxs: seq<nat>)
    returns (r: Result<seq<real>, DriftError>)
    requires |time| == |gRead| && ValidIdxs(idxs, |gRead|)
    ensures r == Output(Run(AsWritten, time, gRead, idxs, |gRead|))
  {
    var gDc := new real[|gRead|](_ => 0.0);
    var baseDc := 0.0;
    var initialG, finalG := gRead[0], gRead[idxs[1]];
    var initialT, finalT := time[0], time[idxs[1]];
    var j := 1;
    // Assigned by the segment advance and never read afterwards.
    var initialTime, finalTime := 0.0, 0.0;
    for i := 0 to gDc.Length
      invariant Run(AsWritten, time, gRead, idxs, i)
                == Ok(Loop(j, initialG, finalG, initialT, finalT, baseDc, gDc[..i]))
    {
      ghost var written := gDc[..i];
      ghost var before := Loop(j, initialG, finalG, initialT, finalT, baseDc, written);
      ghost var advance := i - 1 != 0 && i - 1 in idxs;
      if i - 1 != 0 && i - 1 in idxs {
        j := j + 1;
        if |idxs| <= j {
          DriftProperties.OverrunStep(time, gRead, idxs, i, before);
          return Err(SegmentOverrun);
        }
        initialG := gRead[i - 1];
        finalG := gRead[idxs[j]];
        initialTime := time[i - 1];
        finalTime := time[idxs[j]];
        baseDc := gDc[i - 1];
      }
      ghost var mid := Loop(j, initialG, finalG, initialT, finalT, baseDc, written);
      DriftProperties.WriteStep(time, gRead, idxs, i, before, advance, mid);
      if finalT - initialT == 0.0 {
        return Err(ZeroTimeSpan);
      }
      gDc[i] := Interp(initialG, finalG, finalT - initialT, initialT, time[i], baseDc);
      assert gDc[..i + 1] == written + [gDc[i]];
    }
    assert gDc[..] == gDc[..gDc.Length];
    return Ok(gDc[..]);
  }
}
