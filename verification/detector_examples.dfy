/**
  Worked inputs for `Detector.Detect`: a single spike, a constant window,
  a window larger than the history, and a zero threshold.
*/
module DetectorExamples {
  import opened Stats
  import opened Detector

  /** Five zeros followed by a spike of 10. */
  predicate IsSpike(data: seq<real>)
  {
    |data| == 6 && data[5] == 10.0 && forall j :: 0 <= j < 5 ==> data[j] == 0.0
  }

  /**
    [0, 0, 0, 0, 0, 10] with window 6 and threshold 2: the mean is 5/3 and
    the population variance 125/9, so only the spike (|z| = sqrt 5) is flagged.
  */
  lemma SpikeExample()
    ensures Detect([0.0, 0.0, 0.0, 0.0, 0.0, 10.0], 2.0, 6) == [5]
  {
    var data := [0.0, 0.0, 0.0, 0.0, 0.0, 10.0];
    assert IsSpike(data);
    SpikeAnomalies(data);
    AscendingSingleton(Detect(data, 2.0, 6), 5);
  }

  /** In such a stream, with window 6 and threshold 2, exactly index 5 is anomalous. */
  lemma SpikeAnomalies(data: seq<real>)
    requires IsSpike(data)
    ensures forall i :: Anomalous(data, 2.0, 6, i) <==> i == 5
  {
    SpikeStatistics(data);
    assert WindowStart(6, 6) == 0 && data[0..] == data;
    assert Exceeds(10.0 - 5.0 / 3.0, 125.0 / 9.0, 2.0);
    assert !Exceeds(0.0 - 5.0 / 3.0, 125.0 / 9.0, 2.0);
  }

  /** Such a stream has mean 5/3 and population variance 125/9. */
  lemma SpikeStatistics(data: seq<real>)
    requires IsSpike(data)
    ensures Mean(data) == 5.0 / 3.0
    ensures Variance(data) == 125.0 / 9.0
  {
    var zeros := data[..5];
    assert forall j :: 0 <= j < |zeros| ==> zeros[j] == 0.0;
    SumConstant(zeros, 0.0);
    assert Sum(data) == 10.0;
    SumSqDevConstant(zeros, 0.0, 5.0 / 3.0);
    assert Sq(0.0 - 5.0 / 3.0) == 25.0 / 9.0;
    assert Sq(10.0 - 5.0 / 3.0) == 625.0 / 9.0;
    assert SumSqDev(data, 5.0 / 3.0) == 750.0 / 9.0;
  }

  /** [5, 5, 5, 5] with window 4: zero variance, so nothing is flagged even at threshold 1. */
  lemma ConstantExample()
    ensures Detect([5.0, 5.0, 5.0, 5.0], 1.0, 4) == []
  {
    var data := [5.0, 5.0, 5.0, 5.0];
    assert data[WindowStart(4, 4)..] == data;
    ConstantWindowNoAnomalies(data, 1.0, 4);
  }

  /** [1, 2, 3] with window 10: the window clamps to the whole stream and no index is out of range. */
  lemma ClampExample()
    ensures Recent([1.0, 2.0, 3.0], 10) == [1.0, 2.0, 3.0]
    ensures Detect([1.0, 2.0, 3.0], 3.0, 10) == []
  {
    var data := [1.0, 2.0, 3.0];
    var r := Detect(data, 3.0, 10);
    forall i | 0 <= i < 3
      ensures !Anomalous(data, 3.0, 10, i)
    {
      ClampQuiet(i);
    }
    AscendingEmpty(r);
  }

  lemma ClampQuiet(i: int)
    requires 0 <= i < 3
    ensures !Anomalous([1.0, 2.0, 3.0], 3.0, 10, i)
  {
    var data := [1.0, 2.0, 3.0];
    assert data[WindowStart(3, 10)..] == data;
    ClampStatistics();
    assert Sq(data[i] - 2.0) <= 1.0;
  }

  lemma ClampStatistics()
    ensures Mean([1.0, 2.0, 3.0]) == 2.0
    ensures Variance([1.0, 2.0, 3.0]) == 2.0 / 3.0
  {
    var data := [1.0, 2.0, 3.0];
    var one := [1.0];
    var two := [1.0, 2.0];
    assert data[..2] == two && two[..1] == one && one[..0] == [];
    assert Sum(one) == 1.0;
    assert Sum(two) == 3.0;
    assert Sum(data) == 6.0;
    assert SumSqDev(one, 2.0) == 1.0;
    assert SumSqDev(two, 2.0) == 1.0;
    assert SumSqDev(data, 2.0) == 2.0;
  }

  /**
    A zero threshold is accepted, not rejected: every sample that differs
    from the window mean at all is flagged.
  */
  lemma ZeroThresholdExample()
    ensures forall i :: 0 <= i < 6 ==> i in Detect([0.0, 0.0, 0.0, 0.0, 0.0, 10.0], 0.0, 6)
  {
    var data := [0.0, 0.0, 0.0, 0.0, 0.0, 10.0];
    assert IsSpike(data);
    SpikeStatistics(data);
    assert WindowStart(6, 6) == 0 && data[0..] == data;
    forall i | 0 <= i < 6
      ensures Anomalous(data, 0.0, 6, i)
    {
      SqSign(data[i] - 5.0 / 3.0);
    }
  }
}
