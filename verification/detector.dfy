/**
  The sliding-window z-score detector `detect_anomalies`.

  Given the whole stream observed so far, it clamps the requested window
  to the available history, takes that many trailing samples, computes
  their population z-scores and returns, in ascending order, the absolute
  stream indices of the samples whose |z| exceeds the threshold.
*/
module Detector {
  import opened Stats

  /** Strictly ascending, hence free of duplicates. */
  predicate Ascending(r: seq<int>)
  {
    forall i, j :: 0 <= i < j < |r| ==> r[i] < r[j]
  }

  /** The window length actually used: the requested size, clamped to the history available. */
  function EffectiveWindow(n: nat, windowSize: int): (k: nat)
    requires windowSize > 0
    ensures k <= n && k <= windowSize
    ensures k == n || k == windowSize
  {
    if windowSize > n then n else windowSize
  }

  /** The trailing samples the statistics are computed over (`data[-window_size:]`). */
  function Recent(data: seq<real>, windowSize: int): (w: seq<real>)
    requires windowSize > 0
    ensures |w| == EffectiveWindow(|data|, windowSize)
    ensures data == data[..|data| - |w|] + w
  {
    data[|data| - EffectiveWindow(|data|, windowSize)..]
  }

  /** Per window position, whether its z-score exceeds the threshold (`np.abs(z_scores) > threshold`). */
  function ExceedMask(w: seq<real>, threshold: real): seq<bool>
  {
    seq(|w|, j requires 0 <= j < |w| => Exceeds(w[j] - Mean(w), Variance(w), threshold))
  }

  /**
    The mask is the z-score test: for any standard deviation s > 0 of the
    window, position j is set exactly when |(w[j] - mean) / s| > threshold.
  */
  lemma ExceedMaskZScore(w: seq<real>, threshold: real, s: real)
    requires s > 0.0 && s * s == Variance(w)
    ensures forall j :: 0 <= j < |w| ==>
              (ExceedMask(w, threshold)[j] <==> Abs((w[j] - Mean(w)) / s) > threshold)
  {
    forall j | 0 <= j < |w|
      ensures ExceedMask(w, threshold)[j] <==> Abs((w[j] - Mean(w)) / s) > threshold
    {
      ZScoreComparison(w[j] - Mean(w), s, threshold);
    }
  }

  /** The positions below n holding `true`, in order. */
  function WhereBelow(mask: seq<bool>, n: nat): (r: seq<int>)
    requires n <= |mask|
    ensures Ascending(r)
    ensures forall k :: 0 <= k < |r| ==> 0 <= r[k] < n
    ensures forall p :: p in r <==> 0 <= p < n && mask[p]
    decreases n
  {
    if n == 0 then [] else WhereBelow(mask, n - 1) + (if mask[n - 1] then [n - 1] else [])
  }

  /** The positions holding `true`, in order (`np.where(mask)[0]`). */
  function Where(mask: seq<bool>): (r: seq<int>)
    ensures Ascending(r)
    ensures forall p :: p in r <==> 0 <= p < |mask| && mask[p]
  {
    WhereBelow(mask, |mask|)
  }

  /** Adds a constant offset to every position. */
  function Shift(r: seq<int>, offset: int): seq<int>
  {
    seq(|r|, i requires 0 <= i < |r| => r[i] + offset)
  }

  /** Shifting by a constant keeps the order and moves membership by the same constant. */
  lemma ShiftMembers(r: seq<int>, offset: int)
    ensures Ascending(r) ==> Ascending(Shift(r, offset))
    ensures forall i :: i in Shift(r, offset) <==> i - offset in r
  {
    var s := Shift(r, offset);
    forall i
      ensures i in s <==> i - offset in r
    {
      if i in s {
        var k :| 0 <= k < |s| && s[k] == i;
        assert r[k] == i - offset;
      }
      if i - offset in r {
        var k :| 0 <= k < |r| && r[k] == i - offset;
        assert s[k] == i;
      }
    }
  }

  /**
    `detect_anomalies(data, threshold, window_size)`: window positions whose
    z-score exceeds the threshold, shifted by `len(data) - window_size`
    (with the clamped window size) to absolute stream indices.
  */
  function Detect(data: seq<real>, threshold: real, windowSize: int): (r: seq<int>)
    requires windowSize > 0
    ensures Ascending(r)
    ensures forall i :: i in r ==> 0 <= i < |data| && |data| - windowSize <= i
    ensures forall i :: i in r <==> Anomalous(data, threshold, windowSize, i)
  {
    var w := Recent(data, windowSize);
    var r := Shift(Where(ExceedMask(w, threshold)), |data| - |w|);
    DetectShape(data, threshold, windowSize, r);
    DetectMembers(data, threshold, windowSize, r);
    r
  }

  /** The shifted `np.where` result is strictly ascending and lies in the last `windowSize` positions. */
  lemma DetectShape(data: seq<real>, threshold: real, windowSize: int, r: seq<int>)
    requires windowSize > 0
    requires var w := Recent(data, windowSize);
             r == Shift(Where(ExceedMask(w, threshold)), |data| - |w|)
    ensures Ascending(r)
    ensures forall i :: i in r ==> 0 <= i < |data| && |data| - windowSize <= i
  {
    var w := Recent(data, windowSize);
    var positions := Where(ExceedMask(w, threshold));
    ShiftMembers(positions, |data| - |w|);
  }

  /** The shifted `np.where` result holds exactly the indices the reference definition `Anomalous` selects. */
  lemma DetectMembers(data: seq<real>, threshold: real, windowSize: int, r: seq<int>)
    requires windowSize > 0
    requires var w := Recent(data, windowSize);
             r == Shift(Where(ExceedMask(w, threshold)), |data| - |w|)
    ensures forall i :: i in r <==> Anomalous(data, threshold, windowSize, i)
  {
    var w := Recent(data, windowSize);
    var offset := |data| - |w|;
    var positions := Where(ExceedMask(w, threshold));
    ShiftMembers(positions, offset);
    forall i
      ensures i in r <==> Anomalous(data, threshold, windowSize, i)
    {
      assert i in r <==> i - offset in positions;
      MaskAt(data, threshold, windowSize, i);
    }
  }

  /** Window position i - offset is set in the exceed mask exactly when absolute index i is `Anomalous`. */
  lemma MaskAt(data: seq<real>, threshold: real, windowSize: int, i: int)
    requires windowSize > 0
    ensures var w := Recent(data, windowSize);
            var offset := |data| - |w|;
            (offset <= i < |data| && ExceedMask(w, threshold)[i - offset])
              <==> Anomalous(data, threshold, windowSize, i)
  {
    var w := Recent(data, windowSize);
    var offset := |data| - |w|;
    assert WindowStart(|data|, windowSize) == offset;
    assert data[offset..] == w;
    if offset <= i < |data| {
      assert w[i - offset] == data[i];
    }
  }

  /** First index of the window: the last `windowSize` positions, or the whole stream if it is shorter. */
  function WindowStart(n: nat, windowSize: int): (lo: nat)
    requires windowSize > 0
    ensures lo <= n
  {
    if n > windowSize then n - windowSize else 0
  }

  /**
    Reference definition: index i of the stream is an anomaly when it lies
    among the last `windowSize` positions and its sample deviates from the
    mean of those positions by more than `threshold` population standard
    deviations of them.
  */
  ghost predicate Anomalous(data: seq<real>, threshold: real, windowSize: int, i: int)
    requires windowSize > 0
  {
    var lo := WindowStart(|data|, windowSize);
    var win := data[lo..];
    lo <= i < |data| && Exceeds(data[i] - Mean(win), Variance(win), threshold)
  }

  /** The window fed to the statistics is the one the reference definition talks about. */
  lemma RecentIsWindow(data: seq<real>, windowSize: int)
    requires windowSize > 0
    ensures Recent(data, windowSize) == data[WindowStart(|data|, windowSize)..]
  {
  }

  /** A constant window (zero population variance) yields no anomalies, whatever the threshold. */
  lemma ConstantWindowNoAnomalies(data: seq<real>, threshold: real, windowSize: int)
    requires windowSize > 0
    requires Constant(data[WindowStart(|data|, windowSize)..])
    ensures Detect(data, threshold, windowSize) == []
  {
    var r := Detect(data, threshold, windowSize);
    var win := data[WindowStart(|data|, windowSize)..];
    VarianceZeroIffConstant(win);
    assert forall i :: !Anomalous(data, threshold, windowSize, i);
    assert forall i :: i !in r;
    AscendingEmpty(r);
  }

  /** The set of elements of a sequence. */
  function Elements(r: seq<int>): set<int>
  {
    set x | x in r
  }

  /** A strictly ascending sequence holds as many distinct elements as it is long. */
  lemma {:induction false} AscendingCardinality(r: seq<int>)
    requires Ascending(r)
    ensures |Elements(r)| == |r|
  {
    if |r| > 0 {
      var init := r[..|r| - 1];
      assert Ascending(init);
      AscendingCardinality(init);
      assert r[|r| - 1] !in init;
      assert Elements(r) == Elements(init) + {r[|r| - 1]};
    }
  }

  /** An ascending sequence whose elements all occur in another ascending sequence is no longer. */
  lemma AscendingSubsetShorter(r1: seq<int>, r2: seq<int>)
    requires Ascending(r1) && Ascending(r2)
    requires forall i :: i in r2 ==> i in r1
    ensures |r2| <= |r1|
  {
    var e1, e2 := Elements(r1), Elements(r2);
    AscendingCardinality(r1);
    AscendingCardinality(r2);
    assert e2 <= e1;
    assert e1 == e2 + (e1 - e2);
  }

  /** A sequence without elements is empty. */
  lemma AscendingEmpty(r: seq<int>)
    requires Ascending(r)
    requires forall i :: i !in r
    ensures r == []
  {
    assert forall x :: x !in Elements(r);
    assert Elements(r) == {};
    AscendingCardinality(r);
  }

  /** An ascending sequence whose only element is x is [x]. */
  lemma AscendingSingleton(r: seq<int>, x: int)
    requires Ascending(r)
    requires forall i :: i in r <==> i == x
    ensures r == [x]
  {
    assert Elements(r) == {x};
    AscendingCardinality(r);
    assert r[0] in r;
  }

  /** One index flagged at threshold t2 is flagged at every t1 <= t2. */
  lemma ThresholdMonotoneAt(data: seq<real>, t1: real, t2: real, windowSize: int, i: int)
    requires windowSize > 0
    requires t1 <= t2
    requires Anomalous(data, t2, windowSize, i)
    ensures Anomalous(data, t1, windowSize, i)
  {
    var win := data[WindowStart(|data|, windowSize)..];
    ExceedsAntitone(data[i] - Mean(win), Variance(win), t1, t2);
  }

  /**
    Raising the threshold never adds anomalies: every index flagged at t2
    is flagged at any t1 <= t2, so the result at t2 is no longer.
  */
  lemma ThresholdMonotone(data: seq<real>, t1: real, t2: real, windowSize: int)
    requires windowSize > 0
    requires t1 <= t2
    ensures forall i :: i in Detect(data, t2, windowSize) ==> i in Detect(data, t1, windowSize)
    ensures |Detect(data, t2, windowSize)| <= |Detect(data, t1, windowSize)|
  {
    var r1 := Detect(data, t1, windowSize);
    var r2 := Detect(data, t2, windowSize);
    forall i | i in r2
      ensures i in r1
    {
      ThresholdMonotoneAt(data, t1, t2, windowSize, i);
    }
    AscendingSubsetShorter(r1, r2);
  }
}
