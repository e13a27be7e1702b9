/**
  Reputation Judge: Wald's sequential probability ratio test over a peer's
  delivery record. Each evaluation window adds its log-likelihood ratio to a
  running total, which is compared with two bounds fixed at construction.

  `f32` is modelled as `real`; the natural logarithm `logf` is a parameter
  `ln`, so every property below holds whatever logarithm is supplied.
 */
module Judge {
  import opened Errors
  import opened Libm

  newtype u32 = x: int | 0 <= x < 0x1_0000_0000

  /** One evaluation window: packets sent to the peer and packets it delivered. */
  datatype BatchStats = BatchStats(sent: u32, received: u32)

  datatype SlashVerdict = Slash | Trust | Continue

  /** The natural logarithm `logf`, supplied by the caller. */
  type Log = real -> real

  /** The failure probability under the null hypothesis: `fmaxf(0.01, baseline)`. */
  function NullRate(baseline: real): (p0: real)
    ensures p0 >= 0.01 && p0 >= baseline
    ensures baseline >= 0.01 ==> p0 == baseline
    ensures baseline < 0.01 ==> p0 == 0.01
  {
    FMax(0.01, baseline)
  }

  /** The elevated failure probability of the alternative: `fminf(0.99, baseline * 1.5)`. */
  function AltRate(baseline: real): (p1: real)
    ensures p1 <= 0.99 && p1 <= baseline * 1.5
    ensures baseline * 1.5 <= 0.99 ==> p1 == baseline * 1.5
    ensures baseline * 1.5 > 0.99 ==> p1 == 0.99
  {
    FMin(0.99, baseline * 1.5)
  }

  /**
    What `evaluate` needs of its arguments beyond its own guard: a window it
    does not reject delivers no more than was sent (otherwise the `u32`
    subtraction underflows), and the baseline is not 1 (otherwise `1 - p0` is 0).
   */
  predicate Admissible(batch: BatchStats, baseline: real)
  {
    batch.sent != 0 ==> batch.received <= batch.sent && baseline != 1.0
  }

  /** Lost packets: `sent - received`. */
  function Failures(batch: BatchStats): (f: nat)
    requires batch.received <= batch.sent
    ensures f + batch.received as int == batch.sent as int
  {
    (batch.sent - batch.received) as int
  }

  /** The weight `ln(p1/p0)` of one lost packet. */
  function LossWeight(baseline: real, ln: Log): real
  {
    ln(AltRate(baseline) / NullRate(baseline))
  }

  /** The weight `ln((1-p1)/(1-p0))` of one delivered packet. */
  function DeliveryWeight(baseline: real, ln: Log): real
    requires baseline != 1.0
  {
    ln((1.0 - AltRate(baseline)) / (1.0 - NullRate(baseline)))
  }

  /**
    The log-likelihood ratio of one window: each failure weighs
    `LossWeight`, each success `DeliveryWeight`. A window with no losses
    weighs only its successes, and a window with no deliveries only its
    failures.
   */
  function LlrIncrement(batch: BatchStats, baseline: real, ln: Log): (d: real)
    requires batch.received <= batch.sent && baseline != 1.0
    ensures batch.received == batch.sent ==> d == batch.sent as real * DeliveryWeight(baseline, ln)
    ensures batch.received == 0 ==> d == batch.sent as real * LossWeight(baseline, ln)
  {
    var loss, delivery := LossWeight(baseline, ln), DeliveryWeight(baseline, ln);
    Failures(batch) as real * loss + batch.received as real * delivery
  }

  /** What one window adds to the running total: nothing when `evaluate` rejects it. */
  function Evidence(batch: BatchStats, baseline: real, ln: Log): real
    requires Admissible(batch, baseline)
  {
    if batch.sent == 0 then 0.0 else LlrIncrement(batch, baseline, ln)
  }

  /** The verdict for a running total: Slash wins over Trust, and Continue is the rest. */
  function Decide(llr: real, upper: real, lower: real): (v: SlashVerdict)
    ensures v == Slash <==> llr >= upper
    ensures v == Trust <==> llr < upper && llr <= lower
    ensures v == Continue <==> lower < llr < upper
  {
    if llr >= upper then Slash
    else if llr <= lower then Trust
    else Continue
  }

  predicate AllAdmissible(batches: seq<BatchStats>, baseline: real)
  {
    forall i :: 0 <= i < |batches| ==> Admissible(batches[i], baseline)
  }

  /** The evidence of a sequence of windows, summed from the first window on. */
  function TotalEvidence(batches: seq<BatchStats>, baseline: real, ln: Log): real
    requires AllAdmissible(batches, baseline)
    decreases |batches|
  {
    if |batches| == 0 then 0.0
    else Evidence(batches[0], baseline, ln) + TotalEvidence(batches[1..], baseline, ln)
  }

  /** Adding one more window adds its evidence to the total. */
  lemma {:induction false} TotalEvidenceSnoc(batches: seq<BatchStats>, b: BatchStats, baseline: real, ln: Log)
    requires AllAdmissible(batches, baseline) && Admissible(b, baseline)
    ensures AllAdmissible(batches + [b], baseline)
    ensures TotalEvidence(batches + [b], baseline, ln) == TotalEvidence(batches, baseline, ln) + Evidence(b, baseline, ln)
    decreases |batches|
  {
    assert AllAdmissible(batches + [b], baseline) by {
      forall i | 0 <= i < |batches + [b]| ensures Admissible((batches + [b])[i], baseline) {
        if i < |batches| { assert (batches + [b])[i] == batches[i]; }
      }
    }
    if |batches| > 0 {
      assert (batches + [b])[1..] == batches[1..] + [b];
      assert AllAdmissible(batches[1..], baseline) by {
        forall i | 0 <= i < |batches[1..]| ensures Admissible(batches[1..][i], baseline) {
          assert batches[1..][i] == batches[i + 1];
        }
      }
      TotalEvidenceSnoc(batches[1..], b, baseline, ln);
    }
  }

  /** n copies of one window. */
  function Repeat(b: BatchStats, n: nat): (bs: seq<BatchStats>)
    ensures |bs| == n && forall i :: 0 <= i < n ==> bs[i] == b
  {
    seq(n, _ => b)
  }

  /** n copies of a window carry n times its evidence. */
  lemma {:induction false} RepeatedEvidence(b: BatchStats, n: nat, baseline: real, ln: Log)
    requires Admissible(b, baseline)
    ensures AllAdmissible(Repeat(b, n), baseline)
    ensures TotalEvidence(Repeat(b, n), baseline, ln) == n as real * Evidence(b, baseline, ln)
    decreases n
  {
    if n > 0 {
      assert Repeat(b, n)[1..] == Repeat(b, n - 1);
      RepeatedEvidence(b, n - 1, baseline, ln);
    }
  }

  /** How many steps of size `step` it takes to exceed `distance`. */
  function StepsToCover(distance: real, step: real): (n: nat)
    requires distance > 0.0 && step > 0.0
    ensures n as real * step > distance
  {
    var q := distance / step;
    assert q * step == distance;
    var n := q.Floor + 1;
    assert n as real > q;
    MultiplyStrict(q, n as real, step);
    n
  }

  lemma MultiplyStrict(a: real, b: real, c: real)
    requires a < b && c > 0.0
    ensures a * c < b * c
  {
  }

  /**
    A window whose evidence is positive, repeated often enough, drives any
    running total to Slash: the test is decided after finitely many windows.
   */
  lemma EventuallySlash(llr: real, upper: real, lower: real, b: BatchStats, baseline: real, ln: Log)
    returns (n: nat)
    requires Admissible(b, baseline) && Evidence(b, baseline, ln) > 0.0
    ensures AllAdmissible(Repeat(b, n), baseline)
    ensures Decide(llr + TotalEvidence(Repeat(b, n), baseline, ln), upper, lower) == Slash
  {
    var e := Evidence(b, baseline, ln);
    n := if upper <= llr then 0 else StepsToCover(upper - llr, e);
    RepeatedEvidence(b, n, baseline, ln);
  }

  /**
    A window whose evidence is negative, repeated often enough, drives any
    running total to Trust. When `lower >= upper`, any total below `upper`
    is already Trust, so the bounds need not be ordered.
   */
  lemma EventuallyTrust(llr: real, upper: real, lower: real, b: BatchStats, baseline: real, ln: Log)
    returns (n: nat)
    requires Admissible(b, baseline) && Evidence(b, baseline, ln) < 0.0
    ensures AllAdmissible(Repeat(b, n), baseline)
    ensures Decide(llr + TotalEvidence(Repeat(b, n), baseline, ln), upper, lower) == Trust
  {
    var e := Evidence(b, baseline, ln);
    var goal := if lower < upper then lower else upper - 1.0;
    n := if llr <= goal then 0 else StepsToCover(llr - goal, -e);
    RepeatedEvidence(b, n, baseline, ln);
  }

  /**
    Two laws of a logarithm: it turns products of positive numbers into
    sums, and it is positive above 1.
   */
  ghost predicate LogLaws(ln: Log)
  {
    (forall x: real, y: real {:trigger ln(x * y)} :: x > 0.0 && y > 0.0 ==> ln(x * y) == ln(x) + ln(y)) &&
    (forall x: real {:trigger ln(x)} :: x > 1.0 ==> ln(x) > 0.0)
  }

  lemma LogMul(ln: Log, x: real, y: real)
    requires LogLaws(ln) && x > 0.0 && y > 0.0
    ensures ln(x * y) == ln(x) + ln(y)
  {
  }

  lemma LogOne(ln: Log)
    requires LogLaws(ln)
    ensures ln(1.0) == 0.0
  {
    LogMul(ln, 1.0, 1.0);
    assert 1.0 * 1.0 == 1.0;
  }

  /** Below 1, a logarithm with these laws is negative. */
  lemma LogBelowOne(ln: Log, x: real)
    requires LogLaws(ln) && 0.0 < x < 1.0
    ensures ln(x) < 0.0
  {
    var y := 1.0 / x;
    assert x * y == 1.0;
    assert y > 1.0;
    LogOne(ln);
    LogMul(ln, x, y);
  }

  function Pow(a: real, n: nat): real
    decreases n
  {
    if n == 0 then 1.0 else a * Pow(a, n - 1)
  }

  lemma {:induction false} PowPositive(a: real, n: nat)
    requires a > 0.0
    ensures Pow(a, n) > 0.0
    decreases n
  {
    if n > 0 {
      PowPositive(a, n - 1);
      MultiplyStrict(0.0, a, Pow(a, n - 1));
    }
  }

  /** The logarithm of a power is the multiple of the logarithm. */
  lemma {:induction false} LogPow(ln: Log, a: real, n: nat)
    requires LogLaws(ln) && a > 0.0
    ensures ln(Pow(a, n)) == n as real * ln(a)
    decreases n
  {
    if n == 0 {
      LogOne(ln);
    } else {
      var p := Pow(a, n - 1);
      assert Pow(a, n) == a * p;
      PowPositive(a, n - 1);
      LogMul(ln, a, p);
      LogPow(ln, a, n - 1);
      OneMoreMultiple(n, ln(a));
    }
  }

  lemma OneMoreMultiple(n: nat, l: real)
    requires n > 0
    ensures n as real * l == l + (n - 1) as real * l
  {
  }

  /** For `alpha = beta = 0.05`, the bounds are `ln 19 > 0 > ln(1/19)`. */
  lemma FivePercentBoundsOrdered(ln: Log)
    requires LogLaws(ln)
    ensures ln((1.0 - 0.05) / 0.05) > 0.0 > ln(0.05 / (1.0 - 0.05))
  {
    assert (1.0 - 0.05) / 0.05 == 19.0;
    LogBelowOne(ln, 0.05 / (1.0 - 0.05));
  }

  /** A peer losing 50 of 100 packets against a 10% baseline adds `50 ln(17/12) > 0`. */
  lemma LossyWindowIncriminates(ln: Log)
    requires LogLaws(ln)
    ensures Admissible(BatchStats(100, 50), 0.1)
    ensures Evidence(BatchStats(100, 50), 0.1, ln) == 50.0 * ln(17.0 / 12.0)
    ensures Evidence(BatchStats(100, 50), 0.1, ln) > 0.0
  {
    var p0, p1 := NullRate(0.1), AltRate(0.1);
    assert p1 / p0 == 1.5 && (1.0 - p1) / (1.0 - p0) == 17.0 / 18.0;
    LogMul(ln, 1.5, 17.0 / 18.0);
    assert 1.5 * (17.0 / 18.0) == 17.0 / 12.0;
    assert ln(1.5) + ln(17.0 / 18.0) > 0.0;
  }

  /** A peer losing 1 of 100 packets against a 10% baseline adds `ln 1.5 + 99 ln(17/18) < 0`. */
  lemma ReliableWindowExonerates(ln: Log)
    requires LogLaws(ln)
    ensures Admissible(BatchStats(100, 99), 0.1)
    ensures Evidence(BatchStats(100, 99), 0.1, ln) == ln(1.5) + 99.0 * ln(17.0 / 18.0)
    ensures Evidence(BatchStats(100, 99), 0.1, ln) < 0.0
  {
    var p0, p1 := NullRate(0.1), AltRate(0.1);
    assert p1 / p0 == 1.5 && (1.0 - p1) / (1.0 - p0) == 17.0 / 18.0;
    var q := 17.0 / 18.0;
    LogBelowOne(ln, q);
    LogPow(ln, q, 8);
    assert Pow(q, 8) == 6975757441.0 / 11019960576.0;
    PowPositive(q, 8);
    LogMul(ln, 1.5, Pow(q, 8));
    LogBelowOne(ln, 1.5 * Pow(q, 8));
    assert ln(1.5) + 8.0 * ln(q) < 0.0;
  }

  /**
    A judge with `alpha = beta = 0.05`, starting at 0, reaches Slash after
    enough half-lost windows and Trust after enough reliable ones, for any
    logarithm with the laws above.
   */
  lemma FivePercentCase(ln: Log) returns (slashAfter: nat, trustAfter: nat)
    requires LogLaws(ln)
    ensures AllAdmissible(Repeat(BatchStats(100, 50), slashAfter), 0.1)
    ensures Decide(TotalEvidence(Repeat(BatchStats(100, 50), slashAfter), 0.1, ln),
                   ln((1.0 - 0.05) / 0.05), ln(0.05 / (1.0 - 0.05))) == Slash
    ensures AllAdmissible(Repeat(BatchStats(100, 99), trustAfter), 0.1)
    ensures Decide(TotalEvidence(Repeat(BatchStats(100, 99), trustAfter), 0.1, ln),
                   ln((1.0 - 0.05) / 0.05), ln(0.05 / (1.0 - 0.05))) == Trust
  {
    var upper, lower := ln((1.0 - 0.05) / 0.05), ln(0.05 / (1.0 - 0.05));
    LossyWindowIncriminates(ln);
    slashAfter := EventuallySlash(0.0, upper, lower, BatchStats(100, 50), 0.1, ln);
    ReliableWindowExonerates(ln);
    trustAfter := EventuallyTrust(0.0, upper, lower, BatchStats(100, 99), 0.1, ln);
  }

  class RelayReputation {
    /** The running log-likelihood ratio. */
    var llr: real
    const upper: real
    const lower: real

    /** `alpha` is the false-slash rate and `beta` the false-trust rate; `ln` is `logf`. */
    constructor (alpha: real, beta: real, ln: Log)
      requires alpha != 0.0 && alpha != 1.0
      ensures llr == 0.0
      ensures upper == ln((1.0 - beta) / alpha)
      ensures lower == ln(beta / (1.0 - alpha))
    {
      llr := 0.0;
      upper := ln((1.0 - beta) / alpha);
      lower := ln(beta / (1.0 - alpha));
    }

    /**
      One evaluation window: an empty window is rejected and changes nothing;
      otherwise the window's ratio is added to the running total and the
      verdict for the new total is returned.
     */
    method Evaluate(batch: BatchStats, baseline: real, ln: Log) returns (r: Result<SlashVerdict>)
      requires Admissible(batch, baseline)
      modifies this`llr
      ensures batch.sent == 0 ==> r == Err(InvalidInput) && llr == old(llr)
      ensures batch.sent != 0 ==> llr == old(llr) + LlrIncrement(batch, baseline, ln)
      ensures batch.sent != 0 ==> r == Ok(Decide(llr, upper, lower))
    {
      if batch.sent == 0 {
        return Err(InvalidInput);
      }
      var p0 := NullRate(baseline);
      var p1 := AltRate(baseline);

      var failures := Failures(batch) as real;
      var successes := batch.received as real;

      llr := llr + (failures * ln(p1 / p0) + successes * ln((1.0 - p1) / (1.0 - p0)));

      if llr >= upper {
        r := Ok(Slash);
      } else if llr <= lower {
        r := Ok(Trust);
      } else {
        r := Ok(Continue);
      }
    }
  }

  /**
    A judge fed a sequence of windows: its total grows by exactly the summed
    evidence of the windows, empty windows are the ones rejected, and every
    accepted window's verdict is the verdict for the total reached so far.
   */
  method EvaluateSeries(judge: RelayReputation, batches: seq<BatchStats>, baseline: real, ln: Log)
    returns (verdicts: seq<Result<SlashVerdict>>)
    requires AllAdmissible(batches, baseline)
    modifies judge
    ensures judge.llr == old(judge.llr) + TotalEvidence(batches, baseline, ln)
    ensures |verdicts| == |batches|
    ensures forall i :: 0 <= i < |batches| ==> (verdicts[i] == Err(InvalidInput) <==> batches[i].sent == 0)
    ensures forall i :: 0 <= i < |batches| && batches[i].sent != 0 ==>
              verdicts[i] == Ok(Decide(old(judge.llr) + TotalEvidence(batches[..i + 1], baseline, ln),
                                       judge.upper, judge.lower))
  {
    verdicts := [];
    var i := 0;
    while i < |batches|
      invariant 0 <= i <= |batches|
      invariant AllAdmissible(batches[..i], baseline)
      invariant judge.llr == old(judge.llr) + TotalEvidence(batches[..i], baseline, ln)
      invariant |verdicts| == i
      invariant forall k :: 0 <= k < i ==> (verdicts[k] == Err(InvalidInput) <==> batches[k].sent == 0)
      invariant forall k :: 0 <= k < i && batches[k].sent != 0 ==>
                  AllAdmissible(batches[..k + 1], baseline) &&
                  verdicts[k] == Ok(Decide(old(judge.llr) + TotalEvidence(batches[..k + 1], baseline, ln),
                                           judge.upper, judge.lower))
    {
      assert batches[..i + 1] == batches[..i] + [batches[i]];
      TotalEvidenceSnoc(batches[..i], batches[i], baseline, ln);
      var v := judge.Evaluate(batches[i], baseline, ln);
      verdicts := verdicts + [v];
      i := i + 1;
    }
    assert batches[..|batches|] == batches;
  }
}
