/**
 * Properties of the drift-correction pass specified in DriftSpec: when it fails, what it
 * computes in each segment, how the cursor moves, which readings it reads, and the effect
 * of the unused `initial_time`/`final_time` assignments.
 */
module DriftProperties {
  import opened Outcomes
  import opened DriftSpec

  /** Index of the last base visit. */
  function LastBase(idxs: seq<nat>): nat
    requires 0 < |idxs|
  {
    idxs[|idxs| - 1]
  }

  /** First record of segment k: record 0 for the first segment, otherwise the one after base visit k. */
  function SegmentFirst(idxs: seq<nat>, k: nat): nat
    requires k < |idxs|
  {
    if k == 0 then 0 else idxs[k] + 1
  }

  /** Time origin of segment k at line 109. */
  function Origin(v: Variant, time: seq<real>, idxs: seq<nat>, k: nat): real
    requires 0 < |time| && k < |idxs| && forall p :: 0 <= p < |idxs| ==> idxs[p] < |time|
  {
    if v == AsWritten then time[0] else time[idxs[k]]
  }

  /** Time the slope of segment k is divided by, at line 109. */
  function Span(v: Variant, time: seq<real>, idxs: seq<nat>, k: nat): real
    requires k + 1 < |idxs| && forall p :: 0 <= p < |idxs| ==> idxs[p] < |time|
  {
    if v == AsWritten then time[idxs[1]] - time[0] else time[idxs[k + 1]] - time[idxs[k]]
  }

  /**
   * What holds of the loop state after n records (1 <= n): the cursor j points at the
   * segment holding record n-1, the reading pair is that segment's bounding base readings,
   * the offset is the drift written at the segment's first base visit, and the last drift
   * written is the interpolation of line 109.
   */
  ghost predicate Inv(v: Variant, time: seq<real>, gRead: seq<real>, idxs: seq<nat>, s: Loop, n: nat)
    requires |time| == |gRead| && ValidIdxs(idxs, |gRead|) && 1 <= n <= |gRead|
  {
    && |s.gDc| == n
    && 1 <= s.j < |idxs|
    && SegmentFirst(idxs, s.j - 1) <= n - 1 <= idxs[s.j]
    && s.initialG == gRead[idxs[s.j - 1]]
    && s.finalG == gRead[idxs[s.j]]
    && s.initialT == Origin(v, time, idxs, s.j - 1)
    && s.finalT - s.initialT == Span(v, time, idxs, s.j - 1)
    && s.finalT - s.initialT != 0.0
    && s.baseDc == (if s.j == 1 then 0.0 else s.gDc[idxs[s.j - 1]])
    && s.gDc[n - 1] == Interp(s.initialG, s.finalG, s.finalT - s.initialT, s.initialT, time[n - 1], s.baseDc)
  }

  /** With record i-1 inside segment j-1 (j >= 1), the advance at record i fires exactly when i-1 is base visit j. */
  lemma AdvanceAtCursor(idxs: seq<nat>, n: nat, j: nat, i: nat)
    requires ValidIdxs(idxs, n) && 1 <= j < |idxs| && 1 <= i
    requires SegmentFirst(idxs, j - 1) <= i - 1 <= idxs[j]
    ensures Advances(idxs, i) <==> i - 1 == idxs[j]
  {
    assert idxs[0] < idxs[j];
    if Advances(idxs, i) {
      var p :| 0 <= p < |idxs| && idxs[p] == i - 1;
      assert j <= p by {
        assert forall q :: 0 <= q < j - 1 ==> idxs[q] < idxs[j - 1];
      }
      assert p <= j by {
        assert forall q :: j < q < |idxs| ==> idxs[j] < idxs[q];
      }
    } else {
      assert i - 1 == idxs[j] ==> i - 1 in idxs;
    }
  }

  /** A record lies in one segment only. */
  lemma SegmentUnique(idxs: seq<nat>, n: nat, k: nat, k': nat, i: nat)
    requires ValidIdxs(idxs, n) && k + 1 < |idxs| && k' + 1 < |idxs|
    requires SegmentFirst(idxs, k) <= i <= idxs[k + 1]
    requires SegmentFirst(idxs, k') <= i <= idxs[k' + 1]
    ensures k == k'
  {
    assert forall p, q :: 0 <= p <= q < |idxs| ==> idxs[p] <= idxs[q];
  }

  /** The state after the segment advance of record n, as written: the new pair, the offset, the old time pair. */
  ghost predicate AdvancedAsWritten(gRead: seq<real>, idxs: seq<nat>, n: nat, s: Loop, u: Loop)
    requires 1 <= n <= |gRead| && |s.gDc| == n && forall p :: 0 <= p < |idxs| ==> idxs[p] < |gRead|
  {
    && s.j + 1 < |idxs|
    && u == Loop(s.j + 1, gRead[n - 1], gRead[idxs[s.j + 1]], s.initialT, s.finalT, s.gDc[n - 1], s.gDc)
  }

  /** Record n raises the overrun when it advances past the last base visit. */
  lemma OverrunStep(time: seq<real>, gRead: seq<real>, idxs: seq<nat>, n: nat, s: Loop)
    requires |time| == |gRead| && ValidIdxs(idxs, |gRead|) && n < |gRead|
    requires Run(AsWritten, time, gRead, idxs, n) == Ok(s) && Advances(idxs, n) && |idxs| <= s.j + 1
    ensures Run(AsWritten, time, gRead, idxs, |gRead|) == Err(SegmentOverrun)
  {
    RunErrorPersists(AsWritten, time, gRead, idxs, n + 1, |gRead|);
  }

  /**
   * Record n, from the state u after the (possible) advance: it raises the division error when
   * the time pair spans no time, and otherwise writes the interpolation of line 109.
   */
  lemma WriteStep(time: seq<real>, gRead: seq<real>, idxs: seq<nat>, n: nat, s: Loop, advance: bool, u: Loop)
    requires |time| == |gRead| && ValidIdxs(idxs, |gRead|) && n < |gRead|
    requires Run(AsWritten, time, gRead, idxs, n) == Ok(s) && advance == Advances(idxs, n)
    requires if advance then AdvancedAsWritten(gRead, idxs, n, s, u) else u == s
    ensures u.finalT - u.initialT == 0.0 ==> Run(AsWritten, time, gRead, idxs, |gRead|) == Err(ZeroTimeSpan)
    ensures u.finalT - u.initialT != 0.0 ==>
            Run(AsWritten, time, gRead, idxs, n + 1)
            == Ok(u.(gDc := s.gDc + [Interp(u.initialG, u.finalG, u.finalT - u.initialT, u.initialT, time[n], u.baseDc)]))
  {
    if u.finalT - u.initialT == 0.0 {
      RunErrorPersists(AsWritten, time, gRead, idxs, n + 1, |gRead|);
    }
  }

  /** The drift already written never changes: the first n values of a longer run are those of Run(n). */
  lemma {:induction false} RunPrefix(v: Variant, time: seq<real>, gRead: seq<real>, idxs: seq<nat>, n: nat, m: nat)
    requires |time| == |gRead| && ValidIdxs(idxs, |gRead|) && n <= m <= |gRead|
    requires Run(v, time, gRead, idxs, m).Ok?
    ensures Run(v, time, gRead, idxs, n).Ok?
    ensures Run(v, time, gRead, idxs, n).value.gDc == Run(v, time, gRead, idxs, m).value.gDc[..n]
  {
    if n < m {
      RunPrefix(v, time, gRead, idxs, n, m - 1);
      var s := Run(v, time, gRead, idxs, m - 1).value;
      var t := Run(v, time, gRead, idxs, m).value;
      assert t.gDc[..m - 1] == s.gDc;
      assert t.gDc[..n] == s.gDc[..n];
    } else {
      assert Run(v, time, gRead, idxs, m).value.gDc[..m] == Run(v, time, gRead, idxs, m).value.gDc;
    }
  }

  /** An error, once raised, is the outcome of every longer run. */
  lemma {:induction false} RunErrorPersists(v: Variant, time: seq<real>, gRead: seq<real>, idxs: seq<nat>, n: nat, m: nat)
    requires |time| == |gRead| && ValidIdxs(idxs, |gRead|) && n <= m <= |gRead|
    requires Run(v, time, gRead, idxs, n).Err?
    ensures Run(v, time, gRead, idxs, m) == Run(v, time, gRead, idxs, n)
  {
    if n < m {
      RunErrorPersists(v, time, gRead, idxs, n, m - 1);
    }
  }

  /** The first iteration establishes Inv. */
  lemma StartInv(v: Variant, time: seq<real>, gRead: seq<real>, idxs: seq<nat>)
    requires |time| == |gRead| && ValidIdxs(idxs, |gRead|)
    requires Step(v, time, gRead, idxs, Start(time, gRead, idxs), 0).Ok?
    ensures Inv(v, time, gRead, idxs, Step(v, time, gRead, idxs, Start(time, gRead, idxs), 0).value, 1)
  {
    assert idxs[0] < idxs[1];
  }

  /** An iteration that does not advance keeps Inv. */
  lemma StayInv(v: Variant, time: seq<real>, gRead: seq<real>, idxs: seq<nat>, s: Loop, i: nat)
    requires |time| == |gRead| && ValidIdxs(idxs, |gRead|) && 1 <= i < |gRead|
    requires Inv(v, time, gRead, idxs, s, i) && !Advances(idxs, i)
    requires Step(v, time, gRead, idxs, s, i).Ok?
    ensures Inv(v, time, gRead, idxs, Step(v, time, gRead, idxs, s, i).value, i + 1)
  {
    AdvanceAtCursor(idxs, |gRead|, s.j, i);
    var r := Step(v, time, gRead, idxs, s, i).value;
    assert r == s.(gDc := r.gDc);
    assert r.gDc[..i] == s.gDc;
    if s.j != 1 {
      assert r.gDc[idxs[s.j - 1]] == s.gDc[idxs[s.j - 1]];
    }
  }

  /** An iteration that advances the segment keeps Inv. */
  lemma AdvanceInv(v: Variant, time: seq<real>, gRead: seq<real>, idxs: seq<nat>, s: Loop, i: nat)
    requires |time| == |gRead| && ValidIdxs(idxs, |gRead|) && 1 <= i < |gRead|
    requires Inv(v, time, gRead, idxs, s, i) && Advances(idxs, i)
    requires Step(v, time, gRead, idxs, s, i).Ok?
    ensures Inv(v, time, gRead, idxs, Step(v, time, gRead, idxs, s, i).value, i + 1)
  {
    AdvanceAtCursor(idxs, |gRead|, s.j, i);
    var r := Step(v, time, gRead, idxs, s, i).value;
    assert s.j + 1 < |idxs|;
    assert idxs[s.j] < idxs[s.j + 1];
    assert r.j == s.j + 1;
    assert r.gDc[..i] == s.gDc;
    assert r.gDc[idxs[s.j]] == s.gDc[i - 1];
  }

  /** Every successful run of n >= 1 records ends in a state satisfying Inv. */
  lemma {:induction false} RunInvariant(v: Variant, time: seq<real>, gRead: seq<real>, idxs: seq<nat>, n: nat)
    requires |time| == |gRead| && ValidIdxs(idxs, |gRead|) && 1 <= n <= |gRead|
    requires Run(v, time, gRead, idxs, n).Ok?
    ensures Inv(v, time, gRead, idxs, Run(v, time, gRead, idxs, n).value, n)
  {
    var i := n - 1;
    if i == 0 {
      StartInv(v, time, gRead, idxs);
    } else {
      RunInvariant(v, time, gRead, idxs, i);
      var s := Run(v, time, gRead, idxs, i).value;
      if Advances(idxs, i) {
        AdvanceInv(v, time, gRead, idxs, s, i);
      } else {
        StayInv(v, time, gRead, idxs, s, i);
      }
    }
  }

  /** The outcome of the first n iterations as written: which error, and exactly when none. */
  lemma {:induction false} RunOutcome(time: seq<real>, gRead: seq<real>, idxs: seq<nat>, n: nat)
    requires |time| == |gRead| && ValidIdxs(idxs, |gRead|) && 1 <= n <= |gRead|
    ensures Run(AsWritten, time, gRead, idxs, n).Ok? <==>
            time[idxs[1]] != time[0] && n - 1 <= LastBase(idxs)
    ensures time[idxs[1]] == time[0] ==> Run(AsWritten, time, gRead, idxs, n) == Err(ZeroTimeSpan)
    ensures time[idxs[1]] != time[0] && LastBase(idxs) < n - 1 ==>
            Run(AsWritten, time, gRead, idxs, n) == Err(SegmentOverrun)
  {
    var i := n - 1;
    assert idxs[0] < idxs[1];
    if i != 0 {
      RunOutcome(time, gRead, idxs, i);
      match Run(AsWritten, time, gRead, idxs, i)
      case Err(e) =>
      case Ok(s) =>
        RunInvariant(AsWritten, time, gRead, idxs, i);
        AdvanceAtCursor(idxs, |gRead|, s.j, i);
        assert s.j + 1 < |idxs| ==> idxs[s.j] < LastBase(idxs);
    }
  }

  /** In a state satisfying Inv whose last record lies in segment k, the last drift is segment k's line. */
  lemma InvSegment(v: Variant, time: seq<real>, gRead: seq<real>, idxs: seq<nat>, s: Loop, n: nat, k: nat)
    requires |time| == |gRead| && ValidIdxs(idxs, |gRead|) && 1 <= n <= |gRead|
    requires Inv(v, time, gRead, idxs, s, n)
    requires k + 1 < |idxs| && SegmentFirst(idxs, k) <= n - 1 <= idxs[k + 1]
    ensures Span(v, time, idxs, k) != 0.0
    ensures k != 0 ==> idxs[k] < n - 1
    ensures s.gDc[n - 1] == Interp(gRead[idxs[k]], gRead[idxs[k + 1]], Span(v, time, idxs, k),
                                   Origin(v, time, idxs, k), time[n - 1], if k == 0 then 0.0 else s.gDc[idxs[k]])
  {
    SegmentUnique(idxs, |gRead|, k, s.j - 1, n - 1);
  }

  /** The drift of record i of segment k is that segment's line through its base readings, offset by the drift at its first base visit. */
  lemma RunSegment(v: Variant, time: seq<real>, gRead: seq<real>, idxs: seq<nat>, n: nat, k: nat, i: nat)
    requires |time| == |gRead| && ValidIdxs(idxs, |gRead|) && n <= |gRead|
    requires Run(v, time, gRead, idxs, n).Ok?
    requires k + 1 < |idxs| && SegmentFirst(idxs, k) <= i <= idxs[k + 1] && i < n
    ensures Span(v, time, idxs, k) != 0.0
    ensures var r := Run(v, time, gRead, idxs, n).value.gDc;
            r[i] == Interp(gRead[idxs[k]], gRead[idxs[k + 1]], Span(v, time, idxs, k),
                           Origin(v, time, idxs, k), time[i], if k == 0 then 0.0 else r[idxs[k]])
  {
    RunPrefix(v, time, gRead, idxs, i + 1, n);
    RunInvariant(v, time, gRead, idxs, i + 1);
    var s := Run(v, time, gRead, idxs, i + 1).value;
    InvSegment(v, time, gRead, idxs, s, i + 1, k);
    var r := Run(v, time, gRead, idxs, n).value.gDc;
    assert s.gDc == r[..i + 1];
    assert s.gDc[i] == r[i];
    assert k != 0 ==> s.gDc[idxs[k]] == r[idxs[k]];
  }

  /** With each segment's own time pair, segment k is the line through its two base visits, offset by the drift at the first. */
  lemma SegmentTimesLine(time: seq<real>, gRead: seq<real>, idxs: seq<nat>, k: nat, i: nat)
    requires |time| == |gRead| && ValidIdxs(idxs, |gRead|)
    requires Run(SegmentTimes, time, gRead, idxs, |gRead|).Ok?
    requires k + 1 < |idxs| && SegmentFirst(idxs, k) <= i <= idxs[k + 1]
    ensures time[idxs[k + 1]] != time[idxs[k]]
    ensures var r := Run(SegmentTimes, time, gRead, idxs, |gRead|).value.gDc;
            r[i] == Interp(gRead[idxs[k]], gRead[idxs[k + 1]], time[idxs[k + 1]] - time[idxs[k]],
                           time[idxs[k]], time[i], if k == 0 then 0.0 else r[idxs[k]])
  {
    RunSegment(SegmentTimes, time, gRead, idxs, |gRead|, k, i);
    assert Span(SegmentTimes, time, idxs, k) == time[idxs[k + 1]] - time[idxs[k]];
    assert Origin(SegmentTimes, time, idxs, k) == time[idxs[k]];
  }
}
