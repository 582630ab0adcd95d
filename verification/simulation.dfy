/**
  The per-sample gating of the driving loop `run_simulation`: a non-finite
  sample is skipped, a finite one is appended to the stream, and the
  detector is consulted only once the stream holds at least `windowSize`
  samples (before that the anomaly set is empty).

  The sample source is an arbitrary input sequence; plotting is not modelled.
*/
module Simulation {
  import opened Detector

  /** A produced sample: a finite real, or NaN / an infinity. */
  datatype Sample = Finite(value: real) | NonFinite

  /** What the loop carries from one iteration to the next. */
  datatype LoopState = LoopState(stream: seq<real>, anomalies: seq<int>)

  /** Before the first sample: an empty stream and no anomalies. */
  const Start: LoopState := LoopState([], [])

  /** The anomaly set after an append: empty during warm-up, the detector's result afterwards. */
  function Gate(stream: seq<real>, threshold: real, windowSize: int): (r: seq<int>)
    requires windowSize > 0
    ensures |stream| < windowSize ==> r == []
    ensures |stream| >= windowSize ==> forall i :: i in r <==> Anomalous(stream, threshold, windowSize, i)
    ensures Ascending(r)
    ensures forall i :: i in r ==> |stream| - windowSize <= i < |stream|
    ensures forall i :: i in r ==> 0 <= i
  {
    if |stream| >= windowSize then Detect(stream, threshold, windowSize) else []
  }

  /** One loop iteration on sample `x`. */
  function Step(s: LoopState, x: Sample, threshold: real, windowSize: int): (s': LoopState)
    requires windowSize > 0
    ensures x.NonFinite? ==> s' == s
    ensures x.Finite? ==> s'.stream == s.stream + [x.value]
    ensures x.Finite? && |s'.stream| < windowSize ==> s'.anomalies == []
    ensures x.Finite? ==> forall i :: i in s'.anomalies ==> 0 <= i < |s'.stream|
  {
    match x
    case NonFinite => s
    case Finite(v) =>
      var stream := s.stream + [v];
      LoopState(stream, Gate(stream, threshold, windowSize))
  }

  /** The loop's state after consuming `samples` in order from `Start`. */
  function Run(samples: seq<Sample>, threshold: real, windowSize: int): (s: LoopState)
    requires windowSize > 0
    ensures |s.stream| <= |samples|
    ensures forall i :: i in s.anomalies ==> 0 <= i < |s.stream|
  {
    if |samples| == 0 then Start
    else Step(Run(samples[..|samples| - 1], threshold, windowSize), samples[|samples| - 1], threshold, windowSize)
  }

  /** Reference definition: the finite values of `samples`, in order. */
  function Finites(samples: seq<Sample>): seq<real>
  {
    if |samples| == 0 then []
    else (if samples[0].Finite? then [samples[0].value] else []) + Finites(samples[1..])
  }

  lemma {:induction false} FinitesAppend(samples: seq<Sample>, x: Sample)
    ensures Finites(samples + [x]) == Finites(samples) + Finites([x])
  {
    if |samples| > 0 {
      assert (samples + [x])[1..] == samples[1..] + [x];
      FinitesAppend(samples[1..], x);
    }
  }

  /**
    The stream after the loop is exactly the finite samples in arrival
    order: non-finite ones are dropped, nothing is reordered or invented.
  */
  lemma {:induction false} RunStream(samples: seq<Sample>, threshold: real, windowSize: int)
    requires windowSize > 0
    ensures Run(samples, threshold, windowSize).stream == Finites(samples)
  {
    if |samples| > 0 {
      var init := samples[..|samples| - 1];
      var x := samples[|samples| - 1];
      RunStream(init, threshold, windowSize);
      assert samples == init + [x];
      FinitesAppend(init, x);
      var s := Run(init, threshold, windowSize);
      assert Run(samples, threshold, windowSize) == Step(s, x, threshold, windowSize);
      assert Finites([x]) == if x.Finite? then [x.value] else [];
    }
  }

  /**
    After every iteration, skipped or not, the anomaly set is the gated
    detector result for the current stream.
  */
  lemma {:induction false} RunAnomalies(samples: seq<Sample>, threshold: real, windowSize: int)
    requires windowSize > 0
    ensures var s := Run(samples, threshold, windowSize);
            s.anomalies == Gate(s.stream, threshold, windowSize)
  {
    if |samples| > 0 {
      RunAnomalies(samples[..|samples| - 1], threshold, windowSize);
    }
  }

  /**
    The loop body of `run_simulation` over a finite input sequence,
    returning the final stream and anomaly set.
  */
  method RunSimulation(samples: seq<Sample>, threshold: real, windowSize: int)
    returns (stream: seq<real>, anomalies: seq<int>)
    requires windowSize > 0
    ensures stream == Finites(samples)
    ensures anomalies == Gate(stream, threshold, windowSize)
    ensures LoopState(stream, anomalies) == Run(samples, threshold, windowSize)
  {
    stream := [];
    anomalies := [];
    for i := 0 to |samples|
      invariant stream == Finites(samples[..i])
      invariant anomalies == Gate(stream, threshold, windowSize)
    {
      assert samples[..i + 1] == samples[..i] + [samples[i]];
      FinitesAppend(samples[..i], samples[i]);
      if samples[i].NonFinite? {
        continue;
      }
      stream := stream + [samples[i].value];
      if |stream| >= windowSize {
        anomalies := Detect(stream, threshold, windowSize);
      } else {
        anomalies := [];
      }
    }
    assert samples[..|samples|] == samples;
    RunStream(samples, threshold, windowSize);
    RunAnomalies(samples, threshold, windowSize);
  }
}
