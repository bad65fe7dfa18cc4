/**
 * What `drift_correction` computes, stated over its inputs: when it succeeds and how it
 * fails, the drift in the first and in later segments, the segment cursor, the readings it
 * depends on, and the evidently intended alternative to the unused time assignments.
 */
module DriftTheorems {
  import opened Outcomes
  import opened DriftSpec
  import opened DriftProperties

  /** The conditions under which the pass as written raises nothing (lines 92-109). */
  predicate CompletesRun<L(==)>(time: seq<real>, station: seq<L>)
    requires |time| == |station|
  {
    && 0 < |station|
    && 2 <= |BaseIndices(station)|
    && time[BaseIndices(station)[1]] != time[0]
    && IsBase(station, |station| - 1)
  }

  /** The last base visit is the last record exactly when the last record is a base visit. */
  lemma LastBaseIsLastRecord<L>(station: seq<L>)
    requires 0 < |station|
    ensures LastBase(BaseIndices(station)) == |station| - 1 <==> IsBase(station, |station| - 1)
  {
    var idxs := BaseIndices(station);
    if IsBase(station, |station| - 1) {
      assert |station| - 1 in idxs;
      assert forall q :: 0 <= q < |idxs| - 1 ==> idxs[q] < idxs[|idxs| - 1];
    }
  }

  /** The outcome of the pass as written: success exactly under CompletesRun, and which error otherwise. */
  lemma DriftOutcome<L>(time: seq<real>, gRead: seq<real>, station: seq<L>)
    requires Aligned(time, gRead, station)
    ensures Drift(time, gRead, station).Ok? <==> CompletesRun(time, station)
    ensures Drift(time, gRead, station) == Err(EmptyInput) <==> |station| == 0
    ensures Drift(time, gRead, station) == Err(BaseNotRevisited) <==>
            0 < |station| && |BaseIndices(station)| < 2
    ensures Drift(time, gRead, station) == Err(ZeroTimeSpan) <==>
            0 < |station| && 2 <= |BaseIndices(station)| && time[BaseIndices(station)[1]] == time[0]
    ensures Drift(time, gRead, station) == Err(SegmentOverrun) <==>
            && 0 < |station| && 2 <= |BaseIndices(station)| && time[BaseIndices(station)[1]] != time[0]
            && !IsBase(station, |station| - 1)
  {
    if 0 < |station| && 2 <= |BaseIndices(station)| {
      RunOutcome(time, gRead, BaseIndices(station), |gRead|);
      LastBaseIsLastRecord(station);
    }
  }

  /** In the first segment (records 0 .. idxs[1]) the drift is the line through the first two base readings. */
  lemma DriftFirstSegment<L>(time: seq<real>, gRead: seq<real>, station: seq<L>, i: nat)
    requires Aligned(time, gRead, station) && CompletesRun(time, station)
    requires i <= BaseIndices(station)[1]
    ensures var b1 := BaseIndices(station)[1];
            && Drift(time, gRead, station).Ok?
            && time[b1] != time[0]
            && Drift(time, gRead, station).value[i]
               == (gRead[b1] - gRead[0]) / (time[b1] - time[0]) * (time[i] - time[0])
  {
    DriftOutcome(time, gRead, station);
    RunSegment(AsWritten, time, gRead, BaseIndices(station), |gRead|, 0, i);
  }

  /** The first segment starts at zero drift and ends at the change of the base reading. */
  lemma DriftFirstSegmentEnds<L>(time: seq<real>, gRead: seq<real>, station: seq<L>)
    requires Aligned(time, gRead, station) && CompletesRun(time, station)
    ensures var b1 := BaseIndices(station)[1];
            && Drift(time, gRead, station).Ok?
            && Drift(time, gRead, station).value[0] == 0.0
            && Drift(time, gRead, station).value[b1] == gRead[b1] - gRead[0]
  {
    var b1 := BaseIndices(station)[1];
    DriftFirstSegment(time, gRead, station, 0);
    DriftFirstSegment(time, gRead, station, b1);
    var slope := (gRead[b1] - gRead[0]) / (time[b1] - time[0]);
    assert slope * (time[b1] - time[0]) == gRead[b1] - gRead[0];
  }

  /**
   * A later segment k (records idxs[k]+1 .. idxs[k+1]) uses its own pair of base readings
   * and the drift at idxs[k] as offset, but the time origin time[0] and the denominator
   * time[idxs[1]] - time[0] of the first segment: the times assigned in the branch are never read.
   */
  lemma DriftLaterSegment<L>(time: seq<real>, gRead: seq<real>, station: seq<L>, k: nat, i: nat)
    requires Aligned(time, gRead, station) && CompletesRun(time, station)
    requires 1 <= k && k + 1 < |BaseIndices(station)|
    requires BaseIndices(station)[k] < i <= BaseIndices(station)[k + 1]
    ensures var idxs := BaseIndices(station);
            && Drift(time, gRead, station).Ok?
            && time[idxs[1]] != time[0]
            && var r := Drift(time, gRead, station).value;
               r[i] == (gRead[idxs[k + 1]] - gRead[idxs[k]]) / (time[idxs[1]] - time[0])
                       * (time[i] - time[0]) + r[idxs[k]]
  {
    DriftOutcome(time, gRead, station);
    RunSegment(AsWritten, time, gRead, BaseIndices(station), |gRead|, k, i);
  }

  /** After record n-1 has been processed, the cursor j is 1 plus the number of base revisits among records 1 .. n-2. */
  lemma {:induction false} CursorCountsRevisits<L>(v: Variant, time: seq<real>, gRead: seq<real>, station: seq<L>, n: nat)
    requires Aligned(time, gRead, station) && 0 < |station| && 2 <= |BaseIndices(station)|
    requires 1 <= n <= |gRead| && Run(v, time, gRead, BaseIndices(station), n).Ok?
    ensures Run(v, time, gRead, BaseIndices(station), n).value.j == 1 + Revisits(station, n - 1)
  {
    var idxs := BaseIndices(station);
    if n > 1 {
      CursorCountsRevisits(v, time, gRead, station, n - 1);
      assert Advances(idxs, n - 1) <==> 2 <= n - 1 && IsBase(station, n - 2);
    }
  }

  /**
   * The segment advance at record i fires exactly when record i-1 (i-1 >= 1) is a base visit;
   * it moves the cursor on by one, takes the reading pair (gRead[i-1], gRead[idxs[j]]) and
   * carries the drift of record i-1 as offset; otherwise the pair and the offset stay.
   */
  lemma SegmentAdvance<L>(v: Variant, time: seq<real>, gRead: seq<real>, station: seq<L>, i: nat)
    requires Aligned(time, gRead, station) && 0 < |station| && 2 <= |BaseIndices(station)|
    requires i < |gRead| && Run(v, time, gRead, BaseIndices(station), i + 1).Ok?
    ensures Run(v, time, gRead, BaseIndices(station), i).Ok?
    ensures var idxs := BaseIndices(station);
            var s := Run(v, time, gRead, idxs, i).value;
            var u := Run(v, time, gRead, idxs, i + 1).value;
            if 2 <= i && IsBase(station, i - 1) then
              && u.j == s.j + 1 && u.j < |idxs|
              && u.initialG == gRead[i - 1] && u.finalG == gRead[idxs[u.j]]
              && u.baseDc == u.gDc[i - 1]
            else
              && u.j == s.j
              && u.initialG == s.initialG && u.finalG == s.finalG
              && u.initialT == s.initialT && u.finalT == s.finalT
              && u.baseDc == s.baseDc
  {
    var idxs := BaseIndices(station);
    RunPrefix(v, time, gRead, idxs, i, i + 1);
    assert Advances(idxs, i) <==> 2 <= i && IsBase(station, i - 1);
  }

  /** As written, the time pair of line 109 is that of lines 97-98 in every state the loop reaches. */
  lemma TimesNeverReassigned(time: seq<real>, gRead: seq<real>, idxs: seq<nat>, n: nat)
    requires |time| == |gRead| && ValidIdxs(idxs, |gRead|) && 1 <= n <= |gRead|
    requires Run(AsWritten, time, gRead, idxs, n).Ok?
    ensures Run(AsWritten, time, gRead, idxs, n).value.initialT == time[0]
    ensures Run(AsWritten, time, gRead, idxs, n).value.finalT == time[idxs[1]]
  {
    RunInvariant(AsWritten, time, gRead, idxs, n);
  }

  /** One iteration reads gRead only at base visits. */
  lemma StepReadsOnlyBase(v: Variant, time: seq<real>, gRead: seq<real>, gRead': seq<real>, idxs: seq<nat>, s: Loop, i: nat)
    requires |time| == |gRead| == |gRead'| && ValidIdxs(idxs, |gRead|) && i < |gRead| && |s.gDc| == i
    requires forall p :: 0 <= p < |idxs| ==> gRead[idxs[p]] == gRead'[idxs[p]]
    ensures Step(v, time, gRead, idxs, s, i) == Step(v, time, gRead', idxs, s, i)
  {
    if Advances(idxs, i) {
      var p :| 0 <= p < |idxs| && idxs[p] == i - 1;
      assert gRead[i - 1] == gRead'[i - 1];
      if s.j + 1 < |idxs| {
        var b := idxs[s.j + 1];
        assert gRead[b] == gRead'[b];
      }
    }
  }

  /** The run reads gRead only at base visits. */
  lemma {:induction false} RunReadsOnlyBase(v: Variant, time: seq<real>, gRead: seq<real>, gRead': seq<real>, idxs: seq<nat>, n: nat)
    requires |time| == |gRead| == |gRead'| && ValidIdxs(idxs, |gRead|) && n <= |gRead|
    requires forall p :: 0 <= p < |idxs| ==> gRead[idxs[p]] == gRead'[idxs[p]]
    ensures Run(v, time, gRead, idxs, n) == Run(v, time, gRead', idxs, n)
  {
    assert gRead[idxs[0]] == gRead'[idxs[0]] && gRead[idxs[1]] == gRead'[idxs[1]];
    if n > 0 {
      RunReadsOnlyBase(v, time, gRead, gRead', idxs, n - 1);
      if Run(v, time, gRead, idxs, n - 1).Ok? {
        StepReadsOnlyBase(v, time, gRead, gRead', idxs, Run(v, time, gRead, idxs, n - 1).value, n - 1);
      }
    }
  }

  /** Changing readings taken away from the base leaves the drift unchanged. */
  lemma OnlyBaseReadingsMatter<L>(v: Variant, time: seq<real>, gRead: seq<real>, gRead': seq<real>, station: seq<L>)
    requires Aligned(time, gRead, station) && |gRead'| == |gRead|
    requires forall k :: 0 <= k < |station| && IsBase(station, k) ==> gRead[k] == gRead'[k]
    ensures DriftUnder(v, time, gRead, station) == DriftUnder(v, time, gRead', station)
  {
    if 0 < |station| && 2 <= |BaseIndices(station)| {
      RunReadsOnlyBase(v, time, gRead, gRead', BaseIndices(station), |gRead|);
    }
  }

  /** With the branch's times used, each segment interpolates between its own base visits. */
  lemma IntendedDriftSegment<L>(time: seq<real>, gRead: seq<real>, station: seq<L>, k: nat, i: nat)
    requires Aligned(time, gRead, station) && IntendedDrift(time, gRead, station).Ok?
    requires 0 < |station| && k + 1 < |BaseIndices(station)|
    requires SegmentFirst(BaseIndices(station), k) <= i <= BaseIndices(station)[k + 1]
    ensures var idxs := BaseIndices(station);
            && time[idxs[k + 1]] != time[idxs[k]]
            && var r := IntendedDrift(time, gRead, station).value;
               r[i] == Interp(gRead[idxs[k]], gRead[idxs[k + 1]], time[idxs[k + 1]] - time[idxs[k]],
                              time[idxs[k]], time[i], if k == 0 then 0.0 else r[idxs[k]])
  {
    var idxs := BaseIndices(station);
    assert IntendedDrift(time, gRead, station) == Output(Run(SegmentTimes, time, gRead, idxs, |gRead|));
    SegmentTimesLine(time, gRead, idxs, k, i);
  }

  /** With the branch's times used, the drift at every base visit is the change of the base reading since record 0. */
  lemma {:induction false} IntendedDriftAtBase<L>(time: seq<real>, gRead: seq<real>, station: seq<L>, k: nat)
    requires Aligned(time, gRead, station) && IntendedDrift(time, gRead, station).Ok?
    requires 0 < |station| && k < |BaseIndices(station)|
    ensures var b := BaseIndices(station)[k];
            IntendedDrift(time, gRead, station).value[b] == gRead[b] - gRead[0]
  {
    var idxs := BaseIndices(station);
    var r := IntendedDrift(time, gRead, station).value;
    if k == 0 {
      IntendedDriftSegment(time, gRead, station, 0, 0);
      assert idxs[0] == 0 && time[0] - time[idxs[0]] == 0.0;
    } else {
      IntendedDriftSegment(time, gRead, station, k - 1, idxs[k]);
      var offset := if k == 1 then 0.0 else r[idxs[k - 1]];
      InterpAtEnd(gRead[idxs[k - 1]], gRead[idxs[k]], time[idxs[k - 1]], time[idxs[k]], offset);
      if k > 1 {
        IntendedDriftAtBase(time, gRead, station, k - 1);
      }
    }
  }

  /** A line through two readings, evaluated at the second time, gives the change of reading. */
  lemma InterpAtEnd(g0: real, g1: real, t0: real, t1: real, offset: real)
    requires t1 - t0 != 0.0
    ensures (g1 - g0) / (t1 - t0) * (t1 - t0) + offset == g1 - g0 + offset
  {
  }
}
