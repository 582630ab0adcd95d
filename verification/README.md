# Streaming z-score anomaly detection, modelled in Dafny

This project models the core of a small streaming anomaly detector. The
core is `detect_anomalies`. It takes the whole stream seen so far, a
z-score threshold and a window size. It clamps the window size to the
available history, takes that many trailing samples and computes their
population z-scores (dividing by N). It returns, in ascending order, the
absolute stream indices whose |z| exceeds the threshold. The model also
covers the per-sample gating of the driving loop `run_simulation`:

- a NaN or infinite sample is skipped;
- a finite sample is appended to the stream;
- the detector is consulted only once the stream holds at least
  `window_size` samples, and before that the anomaly set is empty.

Files:

- `stats.dfy` (module `Stats`): sum, mean, population variance, the
  z-score test decided on squares, and the facts about them.
- `detector.dfy` (module `Detector`): the window clamp, the trailing
  window, `np.where` over the exceed mask, the shift to absolute indices,
  a reference definition `Anomalous`, and the detector's properties.
- `detector_examples.dfy` (module `DetectorExamples`): worked inputs.
- `simulation.dfy` (module `Simulation`): samples, the loop state, one
  loop step, the whole run, and the loop as a method.

Modelling choices:

- Samples are mathematical `real`s. The standard deviation is never
  computed. The test |z| > t is `Stats.Exceeds(d, var, t)`, which holds
  when `var > 0` and either `t < 0` or `d*d > t*t*var`.
  `Stats.ZScoreComparison` proves this equals `|d / s| > t` for every
  standard deviation `s > 0` with `s * s == var`.
- A window with zero variance gives NaN z-scores in the code, and
  `NaN > threshold` is false. `Exceeds` is therefore false when `var == 0`.
- A negative threshold is modelled as the code behaves: every sample of a
  non-constant window is flagged, because |z| >= 0 > t.
- An empty stream is modelled, not excluded. The code clamps the window
  to 0, so the slice is empty and the result is empty; the model does the
  same. Its mean and variance are defined as 0, which is never observed
  because there are no window positions.
- `window_size <= 0` is a precondition. The only caller passes its own
  `window_size` (100 by default). For such a value the code would read
  the whole array (`data[-0:]`) or produce indices past the end.
- The detector is a pure function of an immutable sequence, so the
  stream it is given cannot be modified by it.
- The code does not check the threshold: a zero threshold is accepted
  and flags every sample that differs from the window mean
  (`DetectorExamples.ZeroThresholdExample`).
- The loop starts with an empty anomaly set. In the code the variable is
  unbound until the first finite sample, but it is never read before then.

## Model

| member | source | states |
|---|---|---|
| `Stats.ZScoreComparison` | anomaly_detection.py:38-41 | For any standard deviation s > 0, `abs(d / s) > t` holds exactly when the squared test `Stats.Exceeds(d, s*s, t)` holds, for every threshold, negative ones included |
| `Stats.Variance` | anomaly_detection.py:38 | The population variance (dividing by N) of any window, empty included, is non-negative |
| `Stats.MeanBounds` | anomaly_detection.py:38 | The mean `Stats.Mean` of a non-empty window lies between any lower and any upper bound of its samples |
| `Stats.VarianceZeroIffConstant` | anomaly_detection.py:38 | A window's population variance is zero exactly when all its samples are equal (both directions) |
| `Stats.ExceedsAntitone` | anomaly_detection.py:41 | A sample that exceeds threshold t2 also exceeds every smaller threshold t1 |
| `Stats.SumSqDev` | anomaly_detection.py:38 | The sum of squared deviations is non-negative, and it is zero only if every sample equals the reference value |
| `Detector.EffectiveWindow` | anomaly_detection.py:33-34 | The window used is at most the history length and at most the requested size, and equals one of them: it is their minimum, so an oversized window is clamped, not rejected |
| `Detector.Recent` | anomaly_detection.py:37 | The analysed window has the effective length and is a suffix of the stream: the stream is a prefix followed by exactly this window |
| `Detector.RecentIsWindow` | anomaly_detection.py:33-37 | The clamped slice is the stream from position max(0, n - window_size) on |
| `Detector.ExceedMaskZScore` | anomaly_detection.py:38-41 | The exceed mask `Detector.ExceedMask` of a window is the z-score test: for any standard deviation s > 0 with s * s equal to the window's population variance, position j is set exactly when abs((w[j] - mean) / s) > threshold |
| `Detector.WhereBelow` | anomaly_detection.py:41 | The positions below n where the mask holds, strictly ascending, each in 0..n-1, and every such position present |
| `Detector.Where` | anomaly_detection.py:41 | The positions returned are strictly ascending, and a position is returned exactly when it is in range and the mask holds there |
| `Detector.ShiftMembers` | anomaly_detection.py:41 | `Detector.Shift`, adding the constant offset `len(data) - window_size` to every position, keeps the result ascending and moves membership by exactly that offset |
| `Detector.MaskAt` | anomaly_detection.py:37-41 | Absolute index i is in the window and its window position i - offset is set in the exceed mask exactly when the reference definition `Anomalous` holds for i |
| `Detector.DetectShape` | anomaly_detection.py:41 | The shifted positions are strictly ascending and every one lies in the last window_size indices of the stream |
| `Detector.DetectMembers` | anomaly_detection.py:37-41 | An absolute index is in the shifted `np.where` result exactly when the reference definition `Anomalous` holds for it |
| `Detector.Detect` | anomaly_detection.py:23-43 | The result is strictly ascending (no duplicates); every index i satisfies 0 <= i < len(data) and len(data) - window_size <= i; an index is returned exactly when its sample deviates from the window's population mean by more than threshold population standard deviations |
| `Detector.ConstantWindowNoAnomalies` | anomaly_detection.py:38-41 | If every sample of the window is equal, nothing is flagged, for any threshold |
| `Detector.AscendingCardinality` | anomaly_detection.py:41 | A strictly ascending result holds as many distinct indices as it is long |
| `Detector.ThresholdMonotoneAt` | anomaly_detection.py:41 | An index flagged at threshold t2 is flagged at every threshold t1 <= t2 |
| `Detector.ThresholdMonotone` | anomaly_detection.py:41 | For fixed data and window, each index flagged at a larger threshold is also flagged at a smaller one, so the larger threshold's result is no longer |
| `DetectorExamples.SpikeExample` | anomaly_detection.py:23-43 | [0,0,0,0,0,10] with window 6 and threshold 2 yields exactly [5] |
| `DetectorExamples.SpikeAnomalies` | anomaly_detection.py:38-41 | In a stream of five zeros and a final 10, with window 6 and threshold 2, exactly index 5 is anomalous |
| `DetectorExamples.SpikeStatistics` | anomaly_detection.py:38 | Five zeros and a final 10 have mean 5/3 and population variance 125/9 |
| `DetectorExamples.ConstantExample` | anomaly_detection.py:23-43 | [5,5,5,5] with window 4 and threshold 1 yields [] |
| `DetectorExamples.ClampExample` | anomaly_detection.py:33-41 | [1,2,3] with window 10 analyses the whole stream and yields [] at threshold 3 |
| `DetectorExamples.ClampQuiet` | anomaly_detection.py:38-41 | In that example no index is anomalous at threshold 3 |
| `DetectorExamples.ClampStatistics` | anomaly_detection.py:38 | [1,2,3] has mean 2 and population variance 2/3 |
| `DetectorExamples.ZeroThresholdExample` | anomaly_detection.py:41 | A zero threshold is accepted, and every sample of [0,0,0,0,0,10] is flagged |
| `Simulation.Gate` | anomaly_detection.py:94-97 | While the stream is shorter than window_size the anomaly set is empty; afterwards it is exactly the detector's anomalies; it is always ascending and inside the last window_size positions of the stream |
| `Simulation.Step` | anomaly_detection.py:86-97 | A non-finite sample leaves the state unchanged; a finite sample extends the stream by exactly that value at the end; after such an append the anomalies are valid stream indices, and empty during warm-up |
| `Simulation.Run` | anomaly_detection.py:82-97 | The loop state after consuming any input sequence has a stream no longer than the input, and every anomaly it holds is a valid index of that stream |
| `Simulation.FinitesAppend` | anomaly_detection.py:86-91 | The finite values of a longer input are those of the shorter input followed by the new sample's, if finite |
| `Simulation.RunStream` | anomaly_detection.py:82-91 | After any input sequence the stream is exactly its finite samples, in arrival order |
| `Simulation.RunAnomalies` | anomaly_detection.py:82-97 | After any input sequence, skipped samples included, the anomaly set is the gated detector result for the current stream |
| `Simulation.RunSimulation` | anomaly_detection.py:80-97 | The loop returns the finite samples as the stream and the gated detector result as the anomaly set, agreeing with the step-by-step run |

## Left out

- `simulate_data_stream` (random sine-plus-noise samples): the sample source is an arbitrary input sequence of `Sample`s.
- `update_plot` and all plotting in `run_simulation`, including the every-tenth-iteration redraw, `plt.pause` and `plt.show`: display and timing only. `Simulation.Step` shows that every anomaly index is a valid stream index, so the display's defensive index filter never removes one.
- The warning printed for a skipped sample: output only; the skip itself is modelled.
- Floating-point behaviour (rounding, summation order, NaN propagation): samples are reals, and the NaN of a constant window is encoded as "not flagged".
- Fail-fast validation of the threshold and window size: the code has none, so none is modelled.
- The module-level call `run_simulation()` with its default arguments.
- The default arguments of `detect_anomalies` (`threshold=3`, `window_size=100`): its only caller passes all three arguments, so `Detector.Detect` takes them explicitly.
- Idempotence of the detector is not stated as a lemma: `Detector.Detect` is a pure function, so equal arguments give equal results by construction.
