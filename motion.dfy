/**
  Liveness Verifier: decides whether a sequence of accelerometer samples looks
  like live human motion and, if so, commits to it with a 256-bit hash.

  The checks run in order: at least ten samples; then the Shannon entropy of a
  ten-bin histogram of the magnitudes must reach a minimum; then the
  "clustering" 1 / (1 + total variation) of the magnitudes must not exceed a
  maximum. An accepted trajectory is quantised to `i32` triples, serialised
  little-endian, and hashed.

  `f32` is modelled as `real`. `sqrtf`, `log2f` and BLAKE3 are parameters.
 */
module Identity {
  import opened Errors

  /** One accelerometer reading `[x, y, z]`. */
  datatype AccelSample = AccelSample(x: real, y: real, z: real)

  newtype u8 = b: int | 0 <= b < 0x100
  newtype i32 = v: int | -0x8000_0000 <= v < 0x8000_0000

  type Digest = d: seq<u8> | |d| == 32 witness seq(32, _ => 0)

  /** `sqrtf`, supplied by the caller. */
  type Sqrt = real -> real
  /** `log2f`, supplied by the caller. */
  type Log2 = real -> real
  /** The BLAKE3 digest of a byte string, supplied by the caller. */
  type Blake3 = seq<u8> -> Digest

  const MinSamples: nat := 10
  const Bins: nat := 10

  // ---------------------------------------------------------------------------
  // Magnitudes

  function SquaredNorm(s: AccelSample): real
  {
    s.x * s.x + s.y * s.y + s.z * s.z
  }

  /** `compute_magnitudes`: the Euclidean norm of every sample, in order. */
  function Magnitudes(samples: seq<AccelSample>, sqrt: Sqrt): (mags: seq<real>)
    ensures |mags| == |samples|
    ensures forall i :: 0 <= i < |samples| ==> mags[i] == sqrt(SquaredNorm(samples[i]))
  {
    seq(|samples|, i requires 0 <= i < |samples| => sqrt(SquaredNorm(samples[i])))
  }

  // ---------------------------------------------------------------------------
  // Histogram and entropy

  /** Truncation toward zero, as the `f32` to integer casts perform it. */
  function Trunc(v: real): (t: int)
    ensures v >= 0.0 ==> 0 <= t && t as real <= v < t as real + 1.0
    ensures v < 0.0 ==> t <= 0 && t as real - 1.0 < v <= t as real
  {
    if v >= 0.0 then v.Floor else -((-v).Floor)
  }

  /** `m % 10.0` on `f32`: the remainder of truncated division, with the sign of `m`. */
  function Rem10(m: real): (r: real)
    ensures m >= 0.0 ==> 0.0 <= r < 10.0
    ensures m < 0.0 ==> -10.0 < r <= 0.0
    ensures (m - r) / 10.0 == Trunc(m / 10.0) as real
  {
    m - 10.0 * Trunc(m / 10.0) as real
  }

  /** `as usize` on a finite `f32`: truncation toward zero, with negative values saturating to 0. */
  function ToUsize(v: real): (n: nat)
    ensures v < 1.0 ==> n == 0
    ensures v >= 0.0 ==> n as real <= v < n as real + 1.0
  {
    if v <= 0.0 then 0 else v.Floor
  }

  /**
    `(m % 10.0) as usize`, the bin a magnitude falls into. It is always below
    10, so the `idx < 10` guard of the histogram loop never drops a magnitude.
   */
  function BinIndex(m: real): (idx: nat)
    ensures idx < Bins
    ensures m < 0.0 ==> idx == 0
    ensures m >= 0.0 ==> idx == m.Floor % 10
  {
    var r := Rem10(m);
    if m >= 0.0 then
      FloorOfShift(m, Trunc(m / 10.0));
      ToUsize(r)
    else ToUsize(r)
  }

  /** Taking away a whole multiple of 10 that leaves [0, 10) takes it off the integer part too. */
  lemma FloorOfShift(m: real, k: int)
    requires 0.0 <= m - 10.0 * k as real < 10.0
    ensures (m - 10.0 * k as real).Floor == m.Floor - 10 * k
    ensures m.Floor % 10 == m.Floor - 10 * k
  {
  }

  function Zeros(): (h: seq<nat>)
    ensures |h| == Bins && forall b :: 0 <= b < Bins ==> h[b] == 0
  {
    seq(Bins, _ => 0)
  }

  /** The ten-bin histogram of `mags`, built one magnitude at a time. */
  function Histogram(mags: seq<real>): (h: seq<nat>)
    ensures |h| == Bins
    ensures forall b :: 0 <= b < Bins ==> h[b] <= |mags|
    decreases |mags|
  {
    if |mags| == 0 then Zeros()
    else
      var h := Histogram(mags[..|mags| - 1]);
      var idx := BinIndex(mags[|mags| - 1]);
      if idx < Bins then h[idx := h[idx] + 1] else h
  }

  /** The bin of every magnitude, in order. */
  function BinIndices(mags: seq<real>): (idx: seq<nat>)
    ensures |idx| == |mags| && forall i :: 0 <= i < |mags| ==> idx[i] == BinIndex(mags[i])
  {
    seq(|mags|, i requires 0 <= i < |mags| => BinIndex(mags[i]))
  }

  /** Bin b of the histogram counts exactly the magnitudes whose bin index is b. */
  lemma {:induction false} HistogramCounts(mags: seq<real>, b: nat)
    requires b < Bins
    ensures Histogram(mags)[b] == multiset(BinIndices(mags))[b]
    decreases |mags|
  {
    if |mags| > 0 {
      var prefix := mags[..|mags| - 1];
      HistogramCounts(prefix, b);
      assert BinIndices(mags) == BinIndices(prefix) + [BinIndex(mags[|mags| - 1])];
    }
  }

  function Sum(h: seq<nat>): nat
    decreases |h|
  {
    if |h| == 0 then 0 else Sum(h[..|h| - 1]) + h[|h| - 1]
  }

  lemma {:induction false} SumIncrement(h: seq<nat>, i: nat)
    requires i < |h|
    ensures Sum(h[i := h[i] + 1]) == Sum(h) + 1
    decreases |h|
  {
    var h' := h[i := h[i] + 1];
    assert h'[..|h| - 1] == if i < |h| - 1 then h[..|h| - 1][i := h[i] + 1] else h[..|h| - 1];
    if i < |h| - 1 {
      SumIncrement(h[..|h| - 1], i);
    }
  }

  lemma {:induction false} SumOfZeros(h: seq<nat>)
    requires forall b :: 0 <= b < |h| ==> h[b] == 0
    ensures Sum(h) == 0
    decreases |h|
  {
    if |h| > 0 {
      SumOfZeros(h[..|h| - 1]);
    }
  }

  /** No magnitude is dropped: the counts add up to the number of magnitudes. */
  lemma {:induction false} HistogramTotal(mags: seq<real>)
    ensures Sum(Histogram(mags)) == |mags|
    decreases |mags|
  {
    if |mags| == 0 {
      SumOfZeros(Zeros());
    } else {
      HistogramTotal(mags[..|mags| - 1]);
      SumIncrement(Histogram(mags[..|mags| - 1]), BinIndex(mags[|mags| - 1]));
    }
  }

  /** Magnitudes that are all equal fill a single bin. */
  lemma {:induction false} HistogramOfConstant(mags: seq<real>, m: real)
    requires forall i :: 0 <= i < |mags| ==> mags[i] == m
    ensures Histogram(mags) == Zeros()[BinIndex(m) := |mags|]
    decreases |mags|
  {
    if |mags| > 0 {
      HistogramOfConstant(mags[..|mags| - 1], m);
    }
  }

  predicate CountsAtMost(h: seq<nat>, n: nat)
  {
    forall b :: 0 <= b < |h| ==> h[b] <= n
  }

  /** The share of `n` magnitudes that fall into a bin holding `count` of them. */
  function Probability(count: nat, n: nat): real
    requires 0 < count <= n
  {
    count as real / n as real
  }

  /** A bin's contribution `p * log2(p)`; an empty bin contributes nothing. */
  function BinTerm(count: nat, n: nat, log2: Log2): (t: real)
    requires count <= n
    ensures count == 0 ==> t == 0.0
    ensures 0 < count == n ==> t == log2(1.0)
  {
    if count > 0 then
      var p := Probability(count, n);
      assert count == n ==> p == 1.0;
      p * log2(p)
    else 0.0
  }

  /** Every bin of `h` is empty. */
  predicate AllEmpty(h: seq<nat>)
    decreases |h|
  {
    |h| == 0 || (AllEmpty(h[..|h| - 1]) && h[|h| - 1] == 0)
  }

  /** The entropy `-sum p * log2(p)` of the bins of `h`, accumulated from the first bin on. */
  function EntropyOf(h: seq<nat>, n: nat, log2: Log2): (e: real)
    requires CountsAtMost(h, n)
    ensures AllEmpty(h) ==> e == 0.0
    decreases |h|
  {
    if |h| == 0 then 0.0
    else EntropyOf(h[..|h| - 1], n, log2) - BinTerm(h[|h| - 1], n, log2)
  }

  /** One more bin subtracts its term from the entropy accumulated so far. */
  lemma EntropyStep(h: seq<nat>, k: nat, n: nat, log2: Log2)
    requires k < |h| && CountsAtMost(h, n)
    ensures CountsAtMost(h[..k], n) && CountsAtMost(h[..k + 1], n)
    ensures EntropyOf(h[..k + 1], n, log2) == EntropyOf(h[..k], n, log2) - BinTerm(h[k], n, log2)
    ensures h[k] > 0 ==> BinTerm(h[k], n, log2) == Probability(h[k], n) * log2(Probability(h[k], n))
  {
    assert h[..k + 1][..k] == h[..k];
  }

  /** `compute_entropy`: the entropy of the magnitudes' histogram. */
  function Entropy(mags: seq<real>, log2: Log2): (e: real)
    ensures |mags| == 0 ==> e == 0.0
  {
    if |mags| == 0 then
      ZerosAreEmpty(Bins);
      assert Zeros()[..Bins] == Zeros();
      EntropyOf(Histogram(mags), |mags|, log2)
    else EntropyOf(Histogram(mags), |mags|, log2)
  }

  lemma {:induction false} ZerosAreEmpty(k: nat)
    requires k <= Bins
    ensures AllEmpty(Zeros()[..k])
    decreases k
  {
    if k > 0 {
      ZerosAreEmpty(k - 1);
      assert Zeros()[..k][..k - 1] == Zeros()[..k - 1];
    }
  }

  /**
    The logarithm is consulted only at the probabilities of non-empty bins:
    two logarithms that agree there give the same entropy.
   */
  lemma {:induction false} EntropyReadsOnlyNonEmptyBins(h: seq<nat>, n: nat, log2: Log2, log2': Log2)
    requires CountsAtMost(h, n)
    requires forall b :: 0 <= b < |h| && h[b] > 0 ==>
               log2(Probability(h[b], n)) == log2'(Probability(h[b], n))
    ensures EntropyOf(h, n, log2) == EntropyOf(h, n, log2')
    decreases |h|
  {
    if |h| > 0 {
      var h0 := h[..|h| - 1];
      forall b | 0 <= b < |h0| && h0[b] > 0
        ensures log2(Probability(h0[b], n)) == log2'(Probability(h0[b], n))
      {
        assert h0[b] == h[b];
      }
      EntropyReadsOnlyNonEmptyBins(h0, n, log2, log2');
    }
  }

  /** A bin holding every magnitude has probability 1. */
  lemma WholeShare(n: nat)
    requires n > 0
    ensures Probability(n, n) == 1.0
  {
  }

  /** Entropy over a histogram that is zero except for one bin. */
  lemma {:induction false} EntropyOfSingleBin(n: nat, b: nat, k: nat, log2: Log2)
    requires b < Bins && k <= Bins && n > 0
    ensures CountsAtMost(Zeros()[b := n][..k], n)
    ensures EntropyOf(Zeros()[b := n][..k], n, log2) == if b < k then -log2(1.0) else 0.0
    decreases k
  {
    var h := Zeros()[b := n];
    if k > 0 {
      assert h[..k][..k - 1] == h[..k - 1];
      EntropyOfSingleBin(n, b, k - 1, log2);
      WholeShare(n);
    }
  }

  /** Magnitudes that all fall into one bin have zero entropy, given `log2(1) == 0`. */
  lemma ConstantMagnitudesHaveZeroEntropy(mags: seq<real>, m: real, log2: Log2)
    requires |mags| > 0 && forall i :: 0 <= i < |mags| ==> mags[i] == m
    requires log2(1.0) == 0.0
    ensures Entropy(mags, log2) == 0.0
  {
    HistogramOfConstant(mags, m);
    EntropyOfSingleBin(|mags|, BinIndex(m), Bins, log2);
    assert Zeros()[BinIndex(m) := |mags|][..Bins] == Zeros()[BinIndex(m) := |mags|];
  }

  // ---------------------------------------------------------------------------
  // Clustering

  function Abs(d: real): (a: real)
    ensures a >= 0.0 && (a == d || a == -d)
  {
    if d < 0.0 then -d else d
  }

  /** The total variation: the sum of absolute differences of consecutive magnitudes. */
  function SumAbsDiff(mags: seq<real>): (s: real)
    ensures s >= 0.0
    decreases |mags|
  {
    if |mags| <= 1 then 0.0
    else SumAbsDiff(mags[..|mags| - 1]) + Abs(mags[|mags| - 1] - mags[|mags| - 2])
  }

  /** `compute_clustering`: 1 / (1 + total variation), a value in (0, 1] that is 1 exactly for no variation. */
  function Clustering(mags: seq<real>): (c: real)
    ensures 0.0 < c <= 1.0
    ensures c == 1.0 <==> SumAbsDiff(mags) == 0.0
  {
    1.0 / (1.0 + SumAbsDiff(mags))
  }

  /** A constant sequence has no variation. */
  lemma {:induction false} ConstantHasNoVariation(mags: seq<real>, m: real)
    requires forall i :: 0 <= i < |mags| ==> mags[i] == m
    ensures SumAbsDiff(mags) == 0.0
    decreases |mags|
  {
    if |mags| > 1 {
      ConstantHasNoVariation(mags[..|mags| - 1], m);
    }
  }

  // ---------------------------------------------------------------------------
  // Serialisation for the commitment

  /** `(v * 10.0) as i32`: truncation toward zero, saturating at the `i32` bounds. */
  function Quantise(v: real): (q: i32)
    ensures -0x8000_0000 <= Trunc(v * 10.0) < 0x8000_0000 ==> q as int == Trunc(v * 10.0)
    ensures Trunc(v * 10.0) < -0x8000_0000 ==> q == -0x8000_0000
    ensures Trunc(v * 10.0) >= 0x8000_0000 ==> q == 0x7fff_ffff
  {
    var t := Trunc(v * 10.0);
    if t < -0x8000_0000 then -0x8000_0000
    else if t > 0x7fff_ffff then 0x7fff_ffff
    else t as i32
  }

  /** The two's-complement bit pattern of an `i32`, read as an unsigned number. */
  function ToUnsigned(q: i32): (u: int)
    ensures 0 <= u < 0x1_0000_0000
    ensures q >= 0 <==> u < 0x8000_0000
  {
    if q < 0 then q as int + 0x1_0000_0000 else q as int
  }

  /** `i32::to_le_bytes`: least significant byte first. */
  function LeBytes(q: i32): (b: seq<u8>)
    ensures |b| == 4
    ensures q < 0 <==> b[3] >= 0x80
  {
    var u0 := ToUnsigned(q);
    var u1 := u0 / 0x100;
    var u2 := u1 / 0x100;
    var u3 := u2 / 0x100;
    [(u0 % 0x100) as u8, (u1 % 0x100) as u8, (u2 % 0x100) as u8, u3 as u8]
  }

  /** The unsigned number four little-endian bytes stand for. */
  function LeValue(b: seq<u8>): (u: int)
    requires |b| == 4
    ensures 0 <= u < 0x1_0000_0000
  {
    b[0] as int + 0x100 * (b[1] as int + 0x100 * (b[2] as int + 0x100 * b[3] as int))
  }

  /** `i32::from_le_bytes`. */
  function FromLeBytes(b: seq<u8>): (q: i32)
    requires |b| == 4
    ensures q < 0 <==> b[3] >= 0x80
  {
    var u := LeValue(b);
    if u >= 0x8000_0000 then (u - 0x1_0000_0000) as i32 else u as i32
  }

  /** The low byte of `lo + 256 * hi` is `lo`, and the rest is `hi`. */
  lemma SplitLowByte(lo: int, hi: int)
    requires 0 <= lo < 0x100 && 0 <= hi
    ensures (lo + 0x100 * hi) % 0x100 == lo
    ensures (lo + 0x100 * hi) / 0x100 == hi
  {
  }

  /** Decoding the four little-endian bytes of an `i32` gives the `i32` back. */
  lemma LeBytesRoundTrip(q: i32)
    ensures FromLeBytes(LeBytes(q)) == q
  {
    var u0 := ToUnsigned(q);
    var u1 := u0 / 0x100;
    var u2 := u1 / 0x100;
    var b := LeBytes(q);
    assert u0 == b[0] as int + 0x100 * u1;
    assert u1 == b[1] as int + 0x100 * u2;
    assert u2 == b[2] as int + 0x100 * b[3] as int;
    assert LeValue(b) == u0;
  }

  /** Encoding the `i32` that four bytes decode to gives the bytes back: the encoding is a bijection. */
  lemma FromLeBytesRoundTrip(b: seq<u8>)
    requires |b| == 4
    ensures LeBytes(FromLeBytes(b)) == b
  {
    var r2 := b[2] as int + 0x100 * b[3] as int;
    var r1 := b[1] as int + 0x100 * r2;
    var u := b[0] as int + 0x100 * r1;
    assert LeValue(b) == u;
    assert ToUnsigned(FromLeBytes(b)) == u;
    SplitLowByte(b[0] as int, r1);
    SplitLowByte(b[1] as int, r2);
    SplitLowByte(b[2] as int, b[3] as int);
    assert LeBytes(FromLeBytes(b)) == [b[0], b[1], b[2], b[3]];
  }

  /** A sample's quantised axes. */
  datatype Quantised = Quantised(qx: i32, qy: i32, qz: i32)

  function QuantiseSample(s: AccelSample): Quantised
  {
    Quantised(Quantise(s.x), Quantise(s.y), Quantise(s.z))
  }

  /** The twelve bytes one sample contributes: `qx`, `qy`, `qz`, each little-endian. */
  function SampleBytes(s: AccelSample): (b: seq<u8>)
    ensures |b| == 12
  {
    var q := QuantiseSample(s);
    LeBytes(q.qx) + LeBytes(q.qy) + LeBytes(q.qz)
  }

  /** The byte stream fed to the hasher, sample by sample. */
  function TrajectoryBytes(samples: seq<AccelSample>): (bytes: seq<u8>)
    ensures |bytes| == 12 * |samples|
    decreases |samples|
  {
    if |samples| == 0 then []
    else TrajectoryBytes(samples[..|samples| - 1]) + SampleBytes(samples[|samples| - 1])
  }

  /** One more sample appends its three little-endian words, in the order the hasher is fed them. */
  lemma TrajectoryBytesSnoc(samples: seq<AccelSample>, i: nat)
    requires i < |samples|
    ensures TrajectoryBytes(samples[..i + 1])
            == TrajectoryBytes(samples[..i]) + LeBytes(Quantise(samples[i].x))
               + LeBytes(Quantise(samples[i].y)) + LeBytes(Quantise(samples[i].z))
  {
    assert samples[..i + 1][..i] == samples[..i];
  }

  lemma SliceOfConcat(a: seq<u8>, b: seq<u8>, lo: nat, hi: nat)
    requires lo <= hi
    ensures hi <= |a| ==> (a + b)[lo..hi] == a[lo..hi]
    ensures lo == |a| && hi == |a| + |b| ==> (a + b)[lo..hi] == b
  {
  }

  /** Sample i occupies bytes 12*i to 12*i + 12 of the stream. */
  lemma {:induction false} TrajectoryLayout(samples: seq<AccelSample>, i: nat)
    requires i < |samples|
    ensures 12 * i + 12 <= |TrajectoryBytes(samples)|
    ensures TrajectoryBytes(samples)[12 * i .. 12 * i + 12] == SampleBytes(samples[i])
    decreases |samples|
  {
    var n := |samples| - 1;
    var prefix := TrajectoryBytes(samples[..n]);
    var last := SampleBytes(samples[n]);
    assert TrajectoryBytes(samples) == prefix + last;
    assert |prefix| == 12 * n;
    if i < n {
      TrajectoryLayout(samples[..n], i);
      assert samples[..n][i] == samples[i];
      SliceOfConcat(prefix, last, 12 * i, 12 * i + 12);
    } else {
      SliceOfConcat(prefix, last, 12 * i, 12 * i + 12);
    }
  }

  /** The inverse of `TrajectoryBytes`: twelve bytes back to one quantised triple. */
  function DecodeTrajectory(bytes: seq<u8>): (qs: seq<Quantised>)
    requires |bytes| % 12 == 0
    ensures |qs| == |bytes| / 12
    decreases |bytes|
  {
    if |bytes| == 0 then []
    else
      var k := |bytes| - 12;
      DecodeTrajectory(bytes[..k])
        + [Quantised(FromLeBytes(bytes[k .. k + 4]), FromLeBytes(bytes[k + 4 .. k + 8]), FromLeBytes(bytes[k + 8 ..]))]
  }

  /** The quantised triples of a trajectory, in sample order. */
  function QuantiseAll(samples: seq<AccelSample>): (qs: seq<Quantised>)
    ensures |qs| == |samples|
    ensures forall i :: 0 <= i < |samples| ==> qs[i] == QuantiseSample(samples[i])
    decreases |samples|
  {
    if |samples| == 0 then []
    else QuantiseAll(samples[..|samples| - 1]) + [QuantiseSample(samples[|samples| - 1])]
  }

  lemma SlicesOfTriple(p: seq<u8>, a: seq<u8>, b: seq<u8>, c: seq<u8>)
    requires |a| == 4 && |b| == 4 && |c| == 4
    ensures |p + (a + b + c)| == |p| + 12
    ensures (p + (a + b + c))[..|p|] == p
    ensures (p + (a + b + c))[|p| .. |p| + 4] == a
    ensures (p + (a + b + c))[|p| + 4 .. |p| + 8] == b
    ensures (p + (a + b + c))[|p| + 8 ..] == c
  {
    var s := p + (a + b + c);
    assert s[|p| .. |p| + 4] == a by { forall i | 0 <= i < 4 ensures s[|p| + i] == a[i] { } }
    assert s[|p| + 4 .. |p| + 8] == b by { forall i | 0 <= i < 4 ensures s[|p| + 4 + i] == b[i] { } }
    assert s[|p| + 8 ..] == c by { forall i | 0 <= i < 4 ensures s[|p| + 8 + i] == c[i] { } }
  }

  lemma NextMultipleOf12(k: nat)
    requires k % 12 == 0
    ensures (k + 12) % 12 == 0
  {
  }

  lemma MultipleOf12(n: nat)
    ensures (12 * n) % 12 == 0
  {
  }

  /** Decoding one more sample's twelve bytes appends its quantised triple. */
  lemma DecodeSnoc(prefix: seq<u8>, s: AccelSample)
    requires |prefix| % 12 == 0
    ensures DecodeTrajectory(prefix + SampleBytes(s)) == DecodeTrajectory(prefix) + [QuantiseSample(s)]
  {
    var q := QuantiseSample(s);
    var xs, ys, zs := LeBytes(q.qx), LeBytes(q.qy), LeBytes(q.qz);
    assert SampleBytes(s) == xs + ys + zs;
    var bytes := prefix + (xs + ys + zs);
    var k := |prefix|;
    SlicesOfTriple(prefix, xs, ys, zs);
    LeBytesRoundTrip(q.qx);
    LeBytesRoundTrip(q.qy);
    LeBytesRoundTrip(q.qz);
    NextMultipleOf12(k);
    assert DecodeTrajectory(bytes) == DecodeTrajectory(bytes[..k])
      + [Quantised(FromLeBytes(bytes[k .. k + 4]), FromLeBytes(bytes[k + 4 .. k + 8]), FromLeBytes(bytes[k + 8 ..]))];
  }

  /** The hashed bytes decode back to the quantised samples, in sample order. */
  lemma {:induction false} TrajectoryRoundTrip(samples: seq<AccelSample>)
    ensures DecodeTrajectory(TrajectoryBytes(samples)) == QuantiseAll(samples)
    decreases |samples|
  {
    if |samples| > 0 {
      var n := |samples| - 1;
      TrajectoryRoundTrip(samples[..n]);
      MultipleOf12(n);
      DecodeSnoc(TrajectoryBytes(samples[..n]), samples[n]);
    }
  }

  // ---------------------------------------------------------------------------
  // The decision

  /**
    What `verify` returns: `InsufficientData` below ten samples, `InvalidInput`
    when the entropy check or (after it) the clustering check fails, and
    otherwise the digest of the serialised trajectory.
   */
  function Liveness(minEntropy: real, maxClustering: real, samples: seq<AccelSample>,
                    sqrt: Sqrt, log2: Log2, blake3: Blake3): (r: Result<Digest>)
    ensures |samples| < MinSamples ==> r == Err(InsufficientData)
    ensures r.Ok? <==> |samples| >= MinSamples
                         && Entropy(Magnitudes(samples, sqrt), log2) >= minEntropy
                         && Clustering(Magnitudes(samples, sqrt)) <= maxClustering
    ensures r.Ok? ==> r.value == blake3(TrajectoryBytes(samples))
    ensures |samples| >= MinSamples && r.Err? ==> r.error == InvalidInput
  {
    if |samples| < MinSamples then Err(InsufficientData)
    else
      var mags := Magnitudes(samples, sqrt);
      if Entropy(mags, log2) < minEntropy then Err(InvalidInput)
      else if Clustering(mags) > maxClustering then Err(InvalidInput)
      else Ok(blake3(TrajectoryBytes(samples)))
  }

  /**
    A trajectory of identical samples is rejected with `InvalidInput` whatever
    the logarithm: if the entropy check lets it through, its clustering is 1.
   */
  lemma IdenticalSamplesRejected(minEntropy: real, maxClustering: real, samples: seq<AccelSample>,
                                 sqrt: Sqrt, log2: Log2, blake3: Blake3)
    requires maxClustering < 1.0
    requires |samples| >= MinSamples && forall i :: 0 <= i < |samples| ==> samples[i] == samples[0]
    ensures Liveness(minEntropy, maxClustering, samples, sqrt, log2, blake3) == Err(InvalidInput)
  {
    var mags := Magnitudes(samples, sqrt);
    ConstantHasNoVariation(mags, mags[0]);
  }

  /** With `log2(1) == 0` and a positive minimum, it is the entropy check that rejects identical samples. */
  lemma IdenticalSamplesFailEntropy(minEntropy: real, samples: seq<AccelSample>, sqrt: Sqrt, log2: Log2)
    requires minEntropy > 0.0 && log2(1.0) == 0.0
    requires |samples| >= MinSamples && forall i :: 0 <= i < |samples| ==> samples[i] == samples[0]
    ensures Entropy(Magnitudes(samples, sqrt), log2) < minEntropy
  {
    var mags := Magnitudes(samples, sqrt);
    ConstantMagnitudesHaveZeroEntropy(mags, mags[0], log2);
  }

  // ---------------------------------------------------------------------------
  // Imperative parts

  /** BLAKE3's streaming hasher: it absorbs bytes and digests all of them at the end. */
  class Hasher {
    /** Every byte fed so far, in order. */
    var input: seq<u8>

    constructor ()
      ensures input == []
    {
      input := [];
    }

    method Update(bytes: seq<u8>)
      modifies this
      ensures input == old(input) + bytes
    {
      input := input + bytes;
    }

    function Finalize(blake3: Blake3): Digest
      reads this
    {
      blake3(input)
    }
  }

  class MotionVerifier {
    const minEntropy: real
    const maxClustering: real

    constructor ()
      ensures minEntropy == 2.0 && maxClustering == 0.8
    {
      minEntropy := 2.0;
      maxClustering := 0.8;
    }

    method Verify(samples: seq<AccelSample>, sqrt: Sqrt, log2: Log2, blake3: Blake3) returns (r: Result<Digest>)
      ensures r == Liveness(minEntropy, maxClustering, samples, sqrt, log2, blake3)
    {
      if |samples| < 10 {
        return Err(InsufficientData);
      }
      var magnitudes := Magnitudes(samples, sqrt);

      var entropy := ComputeEntropy(magnitudes, log2);
      if entropy < minEntropy {
        return Err(InvalidInput);
      }

      var clustering := ComputeClustering(magnitudes);
      if clustering > maxClustering {
        return Err(InvalidInput);
      }

      var digest := HashTrajectory(samples, blake3);
      r := Ok(digest);
    }

    method ComputeEntropy(mags: seq<real>, log2: Log2) returns (entropy: real)
      ensures entropy == Entropy(mags, log2)
    {
      var histogram := new nat[10](_ => 0);

      assert histogram[..] == Histogram(mags[..0]);
      for i := 0 to |mags|
        invariant histogram[..] == Histogram(mags[..i])
      {
        assert mags[..i + 1][..i] == mags[..i];
        var idx := BinIndex(mags[i]);
        if idx < 10 {
          histogram[idx] := histogram[idx] + 1;
        }
      }
      assert mags[..|mags|] == mags;

      entropy := AccumulateEntropy(histogram[..], |mags|, log2);
    }

    /** The second loop of `compute_entropy`: `-p * log2(p)` summed over the non-empty bins, in bin order. */
    method AccumulateEntropy(counts: seq<nat>, n: nat, log2: Log2) returns (entropy: real)
      requires |counts| == 10 && CountsAtMost(counts, n)
      ensures entropy == EntropyOf(counts, n, log2)
    {
      entropy := 0.0;
      for k := 0 to 10
        invariant entropy == EntropyOf(counts[..k], n, log2)
      {
        var count := counts[k];
        EntropyStep(counts, k, n, log2);
        if count > 0 {
          var p := Probability(count, n);
          entropy := entropy - p * log2(p);
        }
      }
      assert counts[..10] == counts;
    }

    method ComputeClustering(mags: seq<real>) returns (clustering: real)
      ensures clustering == Clustering(mags)
    {
      var sumDiff := 0.0;
      var i := 1;
      while i < |mags|
        invariant 1 <= i
        invariant |mags| > 0 ==> i <= |mags| && sumDiff == SumAbsDiff(mags[..i])
        invariant |mags| == 0 ==> sumDiff == 0.0
      {
        assert mags[..i + 1][..i] == mags[..i];
        var diff := mags[i] - mags[i - 1];
        sumDiff := sumDiff + if diff < 0.0 then -diff else diff;
        i := i + 1;
      }
      assert |mags| > 0 ==> mags[..|mags|] == mags;
      clustering := 1.0 / (1.0 + sumDiff);
    }

    method HashTrajectory(samples: seq<AccelSample>, blake3: Blake3) returns (digest: Digest)
      ensures digest == blake3(TrajectoryBytes(samples))
    {
      var hasher := new Hasher();
      for i := 0 to |samples|
        invariant hasher.input == TrajectoryBytes(samples[..i])
      {
        TrajectoryBytesSnoc(samples, i);
        var s := samples[i];
        var qx := Quantise(s.x);
        var qy := Quantise(s.y);
        var qz := Quantise(s.z);
        hasher.Update(LeBytes(qx));
        hasher.Update(LeBytes(qy));
        hasher.Update(LeBytes(qz));
      }
      assert samples[..|samples|] == samples;
      digest := hasher.Finalize(blake3);
    }
  }
}
