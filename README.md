# Aeon decision engines in Dafny

This project models the three decision engines of the Aeon peer-to-peer node's
trust-and-routing core, and proves properties of the model:

- **Route Weight Controller** (`Router`, `pid.dfy`): a PID step with a `dt`
  guard, an integral clamped to [-10, 10], a derivative against the previous
  error, a jitter drawn from a seeded random stream that perturbs the damping
  of the integral term, and an output clamped to [0, 1].
- **Reputation Judge** (`Judge`, `sprt.dfy`): Wald's sequential probability
  ratio test. Each evaluation window adds its log-likelihood ratio to a running
  total. The total is compared with an upper bound (Slash) and a lower bound
  (Trust). Both bounds are fixed when the judge is constructed.
- **Liveness Verifier** (`Identity`, `motion.dfy`): a guard on the sample
  count, then a ten-bin histogram of `magnitude % 10` and its Shannon entropy,
  then a clustering score 1 / (1 + total variation), and finally a
  little-endian `i32` serialisation of the quantised samples, which is hashed.
- `Errors` (`error.dfy`) mirrors the shared `AeonError` enum and `Result`
  alias. `Libm` (`libm.dfy`) holds `fminf` and `fmaxf` on finite operands.

How the model is built:

- `f32` is modelled as `real`.
- `sqrtf`, `log2f`, `logf` and BLAKE3 are function-typed parameters. A
  property holds for any implementation of them, except where a lemma names
  the law it needs in its `requires`: `log2(1) = 0` for the zero-entropy
  lemmas, and `Judge.LogLaws` (products to sums, positive above 1) for the
  five-percent example of the judge.
- ChaCha8 is modelled by the stream of words it returns from `next_u32`
  (`nat -> bv32`). The constructor takes the seed and a function from seeds to
  streams.
- The two classes whose fields change in place (`RouteWeightController`,
  `RelayReputation`) are Dafny classes. Each method is proved against a pure
  specification function, and the properties are proved about those functions.
- The liveness loops (histogram, entropy, clustering, hashing) are methods
  with loop invariants. `BLAKE3`'s streaming `Hasher` is a class that
  accumulates the bytes it is given.

The model follows the code as written, including three points that are easy
to misread:

- The jitter is `(r % 20) / 100 - 0.1`, so it ranges over [-0.1, 0.09]. It
  never reaches +0.1, so the range is not symmetric (`Router.Jitter`).
- Magnitudes outside [0, 10) after the modulo are not dropped from the
  histogram. `m % 10.0` keeps the sign of `m`, and `as usize` saturates
  negative values to 0. So every magnitude lands in
  exactly one bin, and the `idx < 10` guard never fails (`Identity.BinIndex`,
  `Identity.HistogramCounts`, `Identity.HistogramTotal`).
- The crate root `core/src/lib.rs` replaces the controller with a placeholder
  and does not compile in the judge or the liveness module. The model follows
  the engine files `router/pid.rs`, `judge/sprt.rs` and `identity/motion.rs`
  as written.

## Model

| member | source | states |
|---|---|---|
| `Router.Clamp` | core/src/router/pid.rs:24 | `fmaxf(lo, fminf(hi, v))` lies in [lo, hi], is `v` when `v` is already inside, and is the nearer bound otherwise |
| `Router.Jitter` | core/src/router/pid.rs:29 | the jitter drawn from one random word lies in [-0.1, 0.09] |
| `Router.RawOutput` | core/src/router/pid.rs:32 | the formula `kp * error + (ki * integral) / damping + kd * derivative`; the damping divides only the integral term, so when that term vanishes (`ki = 0` or a zero integral) the jitter has no effect. `UpdateStep` and `Update` use it |
| `Router.Damping` | core/src/router/pid.rs:29-30 | the damping is the controller's base damping times (1 + jitter); with base damping 1 it lies in [0.9, 1.09], so the division by it is always defined |
| `Router.UpdateStep` | core/src/router/pid.rs:21-34 | a non-positive `dt` gives `InvalidInput` and leaves the state unchanged; otherwise the output is `Ok` in [0, 1], the new integral is the sum `integral + error * dt` saturated to [-10, 10] (the sum itself when in range, the nearer bound otherwise), the new previous error is `target - current`, exactly one word is drawn, and the output uses the old previous error and the next word of the stream |
| `Router.RouteWeightController.constructor` | core/src/router/pid.rs:13-20 | stores the gains, starts with integral 0, previous error 0 and nothing drawn, takes its stream from the seed, and has base damping 1 |
| `Router.RouteWeightController.Update` | core/src/router/pid.rs:21-34 | the new state and the result are the ones `UpdateStep` gives for the old state; for `dt <= 0` the result is `InvalidInput` and nothing changes; the gains and base damping are constants, so no update changes them, and the damping is computed from the controller's own base damping |
| `Router.ReplayKeepsIntegralBounded` | core/src/router/pid.rs:24 | after any sequence of calls the integral is still in [-10, 10] |
| `Router.ReplayCountsDraws` | core/src/router/pid.rs:22-29 | the stream position advances by exactly the number of calls that passed the `dt` guard |
| `Router.OutputsAreWeights` | core/src/router/pid.rs:22-33 | in any sequence of calls, result i is `InvalidInput` exactly when call i has `dt <= 0`, and is otherwise a weight in [0, 1] |
| `Router.DriveTwins` | core/src/router/pid.rs:13-34 | two controllers with the same gains and seed, driven by the same calls, return identical result sequences, namely those of the specification |
| `Judge.NullRate` | core/src/judge/sprt.rs:23 | `p0` is at least 0.01 and at least the baseline, and equals whichever of the two is larger |
| `Judge.AltRate` | core/src/judge/sprt.rs:24 | `p1` is at most 0.99 and at most 1.5 times the baseline, and equals whichever of the two is smaller |
| `Judge.Failures` | core/src/judge/sprt.rs:26-27 | when `received <= sent`, failures plus successes equal `sent` |
| `Judge.LlrIncrement` | core/src/judge/sprt.rs:29 | the formula `failures * ln(p1/p0) + successes * ln((1-p1)/(1-p0))`; a window with no losses weighs only its deliveries (`sent * ln((1-p1)/(1-p0))`), and a window with no deliveries only its losses (`sent * ln(p1/p0)`). `Evaluate`, `Evidence` and the lemmas over windows use it |
| `Judge.Decide` | core/src/judge/sprt.rs:31-33 | Slash exactly when `llr >= upper`; Trust exactly when `llr < upper` and `llr <= lower`; Continue exactly when `lower < llr < upper` (so exactly one verdict, and Slash wins) |
| `Judge.RelayReputation.constructor` | core/src/judge/sprt.rs:14-20 | starts with `llr = 0`, `upper = ln((1 - beta) / alpha)` and `lower = ln(beta / (1 - alpha))`; the bounds are constants, so `evaluate` never changes them |
| `Judge.RelayReputation.Evaluate` | core/src/judge/sprt.rs:21-34 | an empty window gives `InvalidInput` and leaves `llr` unchanged; otherwise `llr` grows by `failures * ln(p1/p0) + successes * ln((1-p1)/(1-p0))` and the verdict is `Decide` of the new total |
| `Judge.TotalEvidenceSnoc` | core/src/judge/sprt.rs:29 | adding one more window to a sequence adds exactly that window's ratio to the total |
| `Judge.EvaluateSeries` | core/src/judge/sprt.rs:21-34 | after a sequence of windows, `llr` is its starting value plus the summed evidence of the windows; the empty windows are exactly the rejected ones; every other window's verdict is the verdict for the running total after it |
| `Judge.RepeatedEvidence` | core/src/judge/sprt.rs:29 | n copies of a window add n times its ratio |
| `Judge.EventuallySlash` | core/src/judge/sprt.rs:29-31 | if a window's ratio is positive, some number of repetitions of it reaches Slash from any starting total |
| `Judge.EventuallyTrust` | core/src/judge/sprt.rs:29-32 | if a window's ratio is negative, some number of repetitions of it reaches Trust from any starting total, whatever the order of the bounds (when `lower >= upper`, any total below `upper` is Trust) |
| `Judge.FivePercentBoundsOrdered` | core/src/judge/sprt.rs:14-20 | for `alpha = beta = 0.05` the Slash bound `ln 19` is positive and the Trust bound `ln(1/19)` negative, for any logarithm that turns products into sums and is positive above 1 |
| `Judge.LossyWindowIncriminates` | core/src/judge/sprt.rs:22-29 | a window of 100 sent and 50 received against baseline 0.1 is accepted and adds `50 ln(17/12)`, a positive amount, to the total |
| `Judge.ReliableWindowExonerates` | core/src/judge/sprt.rs:22-29 | a window of 100 sent and 99 received against baseline 0.1 is accepted and adds `ln 1.5 + 99 ln(17/18)`, a negative amount |
| `Judge.FivePercentCase` | core/src/judge/sprt.rs:14-34 | a judge built with `alpha = beta = 0.05` and starting at 0 reaches Slash after finitely many half-lost windows, and Trust after finitely many reliable ones |
| `Identity.Magnitudes` | core/src/identity/motion.rs:37-41 | one magnitude per sample, in order, each `sqrt(x*x + y*y + z*z)` of its sample |
| `Identity.Trunc` | core/src/identity/motion.rs:74-76 | truncation toward zero, as the `f32` to integer casts here and in the `%` of line 48 perform it: for non-negative values the largest integer not above, for negative ones the smallest integer not below |
| `Identity.Rem10` | core/src/identity/motion.rs:48 | `m % 10.0` lies in [0, 10) for non-negative `m` and in (-10, 0] for negative `m`, and `m` minus it is a whole multiple of 10 |
| `Identity.ToUsize` | core/src/identity/motion.rs:48 | `as usize` maps values below 1 (negative ones included) to 0, and other values to their integer part |
| `Identity.BinIndex` | core/src/identity/motion.rs:48-49 | every magnitude's bin index is below 10; negative magnitudes go to bin 0; a non-negative magnitude goes to the bin of its integer part modulo 10 |
| `Identity.Histogram` | core/src/identity/motion.rs:44-50 | ten bins, none holding more than the number of magnitudes |
| `Identity.HistogramCounts` | core/src/identity/motion.rs:47-50 | bin b holds exactly the number of magnitudes whose bin index is b |
| `Identity.HistogramTotal` | core/src/identity/motion.rs:47-50 | no magnitude is dropped: the counts sum to the number of magnitudes |
| `Identity.HistogramOfConstant` | core/src/identity/motion.rs:47-50 | equal magnitudes put all their count in one bin, and every other bin is empty |
| `Identity.BinTerm` | core/src/identity/motion.rs:54-56 | a bin's term `p * log2(p)` with `p = count / len`; an empty bin contributes 0, and a bin holding every magnitude contributes `log2(1)` |
| `Identity.EntropyOf` | core/src/identity/motion.rs:52-59 | the entropy `-sum p * log2(p)` accumulated over the bins in order; a histogram whose bins are all empty has entropy 0 |
| `Identity.Entropy` | core/src/identity/motion.rs:43-60 | the value of `compute_entropy`: `EntropyOf` of the magnitudes' histogram; no magnitudes give entropy 0. `EntropyReadsOnlyNonEmptyBins` and `ConstantMagnitudesHaveZeroEntropy` state its properties |
| `Identity.EntropyReadsOnlyNonEmptyBins` | core/src/identity/motion.rs:53-57 | only non-empty bins contribute: two logarithms that agree at the probabilities of the non-empty bins give the same entropy |
| `Identity.EntropyOfSingleBin` | core/src/identity/motion.rs:52-59 | a histogram with one full bin has entropy `-log2(1)` |
| `Identity.ConstantMagnitudesHaveZeroEntropy` | core/src/identity/motion.rs:43-60 | equal magnitudes have entropy 0 when `log2(1) = 0` |
| `Identity.SumAbsDiff` | core/src/identity/motion.rs:63-67 | the sum of absolute consecutive differences is never negative |
| `Identity.Clustering` | core/src/identity/motion.rs:68 | clustering lies in (0, 1], and is exactly 1 when there is no variation |
| `Identity.ConstantHasNoVariation` | core/src/identity/motion.rs:62-69 | a constant magnitude sequence has zero total variation |
| `Identity.Quantise` | core/src/identity/motion.rs:74-76 | `(v * 10.0) as i32` truncates toward zero when the result fits in `i32`, and saturates at the `i32` bounds when it does not |
| `Identity.LeBytes` | core/src/identity/motion.rs:77-79 | `i32::to_le_bytes`: four bytes, whose last byte has its top bit set exactly when the value is negative; `LeBytesRoundTrip` and `FromLeBytesRoundTrip` show it is a bijection |
| `Identity.FromLeBytes` | core/src/identity/motion.rs:77-79 | the inverse `i32::from_le_bytes`: negative exactly when the last byte's top bit is set |
| `Identity.LeBytesRoundTrip` | core/src/identity/motion.rs:77-79 | decoding the four little-endian bytes of an `i32` gives the same `i32` |
| `Identity.FromLeBytesRoundTrip` | core/src/identity/motion.rs:77-79 | encoding the `i32` that four bytes decode to gives the same bytes (the encoding is a bijection) |
| `Identity.SampleBytes` | core/src/identity/motion.rs:74-79 | each sample contributes exactly 12 bytes |
| `Identity.TrajectoryBytes` | core/src/identity/motion.rs:73-80 | the hash input is exactly 12 bytes per sample |
| `Identity.TrajectoryLayout` | core/src/identity/motion.rs:73-80 | sample i's bytes `qx, qy, qz` occupy positions 12*i to 12*i + 12, in sample order |
| `Identity.QuantiseAll` | core/src/identity/motion.rs:74-76 | one quantised triple per sample, in order |
| `Identity.TrajectoryRoundTrip` | core/src/identity/motion.rs:73-80 | the hashed byte stream decodes back to the quantised triples of the samples |
| `Identity.Liveness` | core/src/identity/motion.rs:20-34 | fewer than 10 samples gives `InsufficientData`; the result is `Ok` exactly when entropy reaches the minimum and clustering does not exceed the maximum; an `Ok` carries the hash of the serialised trajectory; any other rejection is `InvalidInput` |
| `Identity.IdenticalSamplesRejected` | core/src/identity/motion.rs:25-31 | at least 10 identical samples are rejected with `InvalidInput` whenever the clustering maximum is below 1, whatever the logarithm |
| `Identity.IdenticalSamplesFailEntropy` | core/src/identity/motion.rs:25-27 | with `log2(1) = 0`, identical samples already fail the entropy check, which runs first |
| `Identity.MotionVerifier.constructor` | core/src/identity/motion.rs:13-18 | minimum entropy 2.0 and maximum clustering 0.8 |
| `Identity.MotionVerifier.Verify` | core/src/identity/motion.rs:20-34 | the result is `Liveness` of the verifier's thresholds and the samples: a function of the thresholds and the input only, so identical inputs give identical results and digests |
| `Identity.MotionVerifier.ComputeEntropy` | core/src/identity/motion.rs:43-60 | the histogram loop over the array builds `Histogram` of the magnitudes, and the result is `Entropy` of the magnitudes |
| `Identity.MotionVerifier.AccumulateEntropy` | core/src/identity/motion.rs:52-59 | the loop over the bins, subtracting `p * log2(p)` for each non-empty one, yields `EntropyOf` the counts |
| `Identity.MotionVerifier.ComputeClustering` | core/src/identity/motion.rs:62-69 | the loop over consecutive pairs accumulates the total variation; the result is `Clustering` of the magnitudes |
| `Identity.Hasher.constructor` | core/src/identity/motion.rs:72 | a fresh hasher has absorbed no bytes |
| `Identity.Hasher.Update` | core/src/identity/motion.rs:77-79 | `update` appends the given bytes to everything absorbed so far, in order; `finalize` digests exactly those bytes |
| `Identity.MotionVerifier.HashTrajectory` | core/src/identity/motion.rs:71-82 | feeding `qx, qy, qz` little-endian sample by sample gives the hash of the trajectory's byte stream |

## Left out

- IEEE-754 behaviour is not modelled: `f32` rounding, NaN and infinity (for `fmaxf`, `fminf`, `%` and the casts), and the fact that `1.0 / (1.0 + x)` and the logarithms are inexact.
- Judge.RelayReputation.Evaluate: requires that a non-empty window delivered no more than was sent, where the source's `u32` subtraction would underflow (a panic in debug builds, wrap-around in release builds). It also requires a baseline other than 1, where `1 - p0` is 0 and the source divides by zero.
- Judge.RelayReputation.constructor: requires `alpha` to be neither 0 nor 1, where the source divides by zero.
- Judge.FivePercentCase: the logarithm stays abstract. The concrete case (`alpha = beta = 0.05`, windows of 100/50 and 100/99 against baseline 0.1) holds for any logarithm that maps products of positives to sums and is positive above 1 (`Judge.LogLaws`). The model does not show that `logf`, being an `f32` approximation, keeps these laws exactly, and it does not compute how many windows are needed.
- The internals of `sqrtf`, `log2f`, `logf`, BLAKE3 and ChaCha8 are not modelled. They are parameters. ChaCha8's seeding is a function from the 64-bit seed to a word stream, so the model cannot express that different seeds diverge.
- The `u32` histogram counters cannot overflow in the model: counts are unbounded naturals (an overflow would need 2^32 samples).
- `Quantise` does not model NaN mapping to 0.
- The orchestration loop (`core/src/network/service.rs`), the libp2p behaviour (`core/src/network/behaviour.rs`), the JNI bridge (`core/src/ffi.rs`), process start-up (`core/src/main.rs`) and `web_bridge.py` are not part of this model. They are asynchronous I/O, concurrency and host adapters whose behaviour lives in external libraries.
