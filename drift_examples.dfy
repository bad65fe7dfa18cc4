/** Worked surveys for `drift_correction`: one base-to-base segment, and two segments showing the unused time assignments. */
module DriftExamples {
  import opened Outcomes
  import opened DriftSpec

  /** A four-record survey with base visits at records 0 and 3. */
  const ONE_SEGMENT: seq<string> := ["B", "S1", "S2", "B"]
  const ONE_TIME: seq<real> := [0.0, 1.0, 2.0, 3.0]
  const ONE_READ: seq<real> := [100.0, 101.0, 102.0, 106.0]

  /** A five-record survey with base visits at records 0, 2 and 4. */
  const TWO_SEGMENT: seq<string> := ["B", "S1", "B", "S2", "B"]
  const TWO_TIME: seq<real> := [0.0, 1.0, 2.0, 3.0, 4.0]

  /** The readings of the five-record survey, with any reading x at the non-base record 3. */
  function TwoRead(x: real): seq<real> {
    [100.0, 102.0, 104.0, x, 108.0]
  }

  lemma OneSegmentPrefix()
    ensures BaseIndicesBelow(ONE_SEGMENT, 3) == [0]
  {
    assert ONE_SEGMENT[1] != ONE_SEGMENT[0] && ONE_SEGMENT[2] != ONE_SEGMENT[0];
    assert BaseIndicesBelow(ONE_SEGMENT, 1) == [0];
    assert BaseIndicesBelow(ONE_SEGMENT, 2) == [0];
  }

  /** `np.where(station == station[0])` of the four-record survey. */
  lemma OneSegmentBases()
    ensures BaseIndices(ONE_SEGMENT) == [0, 3]
  {
    OneSegmentPrefix();
  }

  lemma TwoSegmentPrefix()
    ensures BaseIndicesBelow(TWO_SEGMENT, 4) == [0, 2]
  {
    assert TWO_SEGMENT[1] != TWO_SEGMENT[0] && TWO_SEGMENT[3] != TWO_SEGMENT[0];
    assert BaseIndicesBelow(TWO_SEGMENT, 2) == [0];
    assert BaseIndicesBelow(TWO_SEGMENT, 3) == [0, 2];
  }

  /** `np.where(station == station[0])` of the five-record survey. */
  lemma TwoSegmentBases()
    ensures BaseIndices(TWO_SEGMENT) == [0, 2, 4]
  {
    TwoSegmentPrefix();
  }

  const ONE_IDXS: seq<nat> := [0, 3]
  const TWO_IDXS: seq<nat> := [0, 2, 4]

  /** The first three drift values of the four-record survey. */
  lemma OneSegmentRunPrefix()
    ensures Run(AsWritten, ONE_TIME, ONE_READ, ONE_IDXS, 3) == Ok(Loop(1, 100.0, 106.0, 0.0, 3.0, 0.0, [0.0, 2.0, 4.0]))
  {
    var s := Loop(1, 100.0, 106.0, 0.0, 3.0, 0.0, []);
    assert !Advances(ONE_IDXS, 0) && !Advances(ONE_IDXS, 1) && !Advances(ONE_IDXS, 2);
    assert Run(AsWritten, ONE_TIME, ONE_READ, ONE_IDXS, 1) == Ok(s.(gDc := [0.0]));
    assert Interp(100.0, 106.0, 3.0, 0.0, 1.0, 0.0) == 2.0 && [0.0] + [2.0] == [0.0, 2.0];
    assert Run(AsWritten, ONE_TIME, ONE_READ, ONE_IDXS, 2) == Ok(s.(gDc := [0.0, 2.0]));
    assert Interp(100.0, 106.0, 3.0, 0.0, 2.0, 0.0) == 4.0 && [0.0, 2.0] + [4.0] == [0.0, 2.0, 4.0];
  }

  /** The drift grows linearly from 0 to the change 106 - 100 of the base reading. */
  lemma OneSegmentExample()
    ensures Drift(ONE_TIME, ONE_READ, ONE_SEGMENT) == Ok([0.0, 2.0, 4.0, 6.0])
  {
    OneSegmentBases();
    OneSegmentRunPrefix();
    assert !Advances(ONE_IDXS, 3);
    assert Interp(100.0, 106.0, 3.0, 0.0, 3.0, 0.0) == 6.0 && [0.0, 2.0, 4.0] + [6.0] == [0.0, 2.0, 4.0, 6.0];
  }

  /** The first three drift values of the five-record survey, the same under either time pair. */
  lemma TwoSegmentRunPrefix(v: Variant, x: real)
    ensures Run(v, TWO_TIME, TwoRead(x), TWO_IDXS, 3) == Ok(Loop(1, 100.0, 104.0, 0.0, 2.0, 0.0, [0.0, 2.0, 4.0]))
  {
    var s := Loop(1, 100.0, 104.0, 0.0, 2.0, 0.0, []);
    assert !Advances(TWO_IDXS, 0) && !Advances(TWO_IDXS, 1) && !Advances(TWO_IDXS, 2);
    assert Run(v, TWO_TIME, TwoRead(x), TWO_IDXS, 1) == Ok(s.(gDc := [0.0]));
    assert Interp(100.0, 104.0, 2.0, 0.0, 1.0, 0.0) == 2.0 && [0.0] + [2.0] == [0.0, 2.0];
    assert Run(v, TWO_TIME, TwoRead(x), TWO_IDXS, 2) == Ok(s.(gDc := [0.0, 2.0]));
    assert Interp(100.0, 104.0, 2.0, 0.0, 2.0, 0.0) == 4.0 && [0.0, 2.0] + [4.0] == [0.0, 2.0, 4.0];
  }

  /**
   * Whatever x is, the second segment as written divides by the first segment's time span
   * and measures time from record 0, giving 10 and 12: the drift at the last base visit is
   * 12, not its change of reading 108 - 100.
   */
  lemma ShadowedTimesExample(x: real)
    ensures Drift(TWO_TIME, TwoRead(x), TWO_SEGMENT) == Ok([0.0, 2.0, 4.0, 10.0, 12.0])
  {
    TwoSegmentBases();
    TwoSegmentRunPrefix(AsWritten, x);
    var u := Loop(2, 104.0, 108.0, 0.0, 2.0, 4.0, []);
    assert Advances(TWO_IDXS, 3) && !Advances(TWO_IDXS, 4);
    assert Interp(104.0, 108.0, 2.0, 0.0, 3.0, 4.0) == 10.0 && [0.0, 2.0, 4.0] + [10.0] == [0.0, 2.0, 4.0, 10.0];
    assert Run(AsWritten, TWO_TIME, TwoRead(x), TWO_IDXS, 4) == Ok(u.(gDc := [0.0, 2.0, 4.0, 10.0]));
    assert Interp(104.0, 108.0, 2.0, 0.0, 4.0, 4.0) == 12.0;
    assert [0.0, 2.0, 4.0, 10.0] + [12.0] == [0.0, 2.0, 4.0, 10.0, 12.0];
  }

  /** The same survey with each segment's own time pair: the drift at each base visit is its change of reading. */
  lemma SegmentTimesExample(x: real)
    ensures IntendedDrift(TWO_TIME, TwoRead(x), TWO_SEGMENT) == Ok([0.0, 2.0, 4.0, 6.0, 8.0])
  {
    TwoSegmentBases();
    TwoSegmentRunPrefix(SegmentTimes, x);
    var u := Loop(2, 104.0, 108.0, 2.0, 4.0, 4.0, []);
    assert Advances(TWO_IDXS, 3) && !Advances(TWO_IDXS, 4);
    assert Interp(104.0, 108.0, 2.0, 2.0, 3.0, 4.0) == 6.0 && [0.0, 2.0, 4.0] + [6.0] == [0.0, 2.0, 4.0, 6.0];
    assert Run(SegmentTimes, TWO_TIME, TwoRead(x), TWO_IDXS, 4) == Ok(u.(gDc := [0.0, 2.0, 4.0, 6.0]));
    assert Interp(104.0, 108.0, 2.0, 2.0, 4.0, 4.0) == 8.0;
    assert [0.0, 2.0, 4.0, 6.0] + [8.0] == [0.0, 2.0, 4.0, 6.0, 8.0];
  }
}
