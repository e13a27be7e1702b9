/**
  Route Weight Controller: a PID controller whose integral-term damping is
  perturbed by a jitter drawn from a seeded pseudo-random generator, so that
  the weight it produces for a route does not follow an exact response curve.

  `f32` is modelled as `real`. The ChaCha8 generator is modelled by the stream
  of 32-bit words it produces for its seed: draw number k is `rng(k)`.
 */
module Router {
  import opened Errors
  import opened Libm

  /** The words `next_u32` returns, in order: the k-th draw is `stream(k)`. */
  type RandomStream = nat -> bv32

  datatype Gains = Gains(kp: real, ki: real, kd: real)

  /** The state an update changes: integral term, last error, and how many words were drawn. */
  datatype ControllerState = ControllerState(integral: real, prevError: real, draws: nat)

  /** The state after one update and what the update returned. */
  datatype Step = Step(next: ControllerState, output: Result<real>)

  /** The arguments of one call to `update`. */
  datatype Call = Call(target: real, current: real, dt: real)

  const BaseDamping: real := 1.0

  /** The state of a freshly constructed controller. */
  const Initial: ControllerState := ControllerState(0.0, 0.0, 0)

  /** `fmaxf(lo, fminf(hi, v))`: v pulled into [lo, hi]. */
  function Clamp(lo: real, hi: real, v: real): (r: real)
    requires lo <= hi
    ensures lo <= r <= hi
    ensures lo <= v <= hi ==> r == v
    ensures v < lo ==> r == lo
    ensures v > hi ==> r == hi
  {
    FMax(lo, FMin(hi, v))
  }

  /** The jitter for one random word: a whole number of hundredths in [-0.1, 0.09]. */
  function Jitter(word: bv32): (j: real)
    ensures -0.1 <= j <= 0.09
  {
    ((word as int) % 20) as real / 100.0 - 0.1
  }

  /** The damping divisor `base * (1 + jitter)` for one random word; with base 1 it is never zero. */
  function Damping(base: real, word: bv32): (d: real)
    ensures base == BaseDamping ==> 0.9 <= d <= 1.09
  {
    base * (1.0 + Jitter(word))
  }

  /**
    The controller output before it is clamped to [0, 1]. The damping divides
    only the integral term: when that term vanishes (`ki == 0` or a zero
    integral), the jitter has no effect.
   */
  function RawOutput(g: Gains, error: real, integral: real, derivative: real, damping: real): (u: real)
    requires damping != 0.0
    ensures g.ki == 0.0 || integral == 0.0 ==> u == g.kp * error + g.kd * derivative
  {
    g.kp * error + (g.ki * integral) / damping + g.kd * derivative
  }

  /**
    One call of `update` on state `s`: a non-positive `dt` is rejected and
    changes nothing; otherwise the integral is accumulated and clamped, the
    derivative is taken against the previous error, exactly one word is drawn,
    and the output is clamped to [0, 1].
   */
  function UpdateStep(g: Gains, rng: RandomStream, s: ControllerState,
                      target: real, current: real, dt: real): (st: Step)
    ensures dt <= 0.0 ==> st == Step(s, Err(InvalidInput))
    ensures dt > 0.0 ==> st.output.Ok? && 0.0 <= st.output.value <= 1.0
    ensures dt > 0.0 ==> -10.0 <= st.next.integral <= 10.0
    ensures dt > 0.0 ==> st.next.integral == Clamp(-10.0, 10.0, s.integral + (target - current) * dt)
    ensures dt > 0.0 && -10.0 <= s.integral + (target - current) * dt <= 10.0 ==>
              st.next.integral == s.integral + (target - current) * dt
    ensures dt > 0.0 ==> st.next.prevError == target - current
    ensures dt > 0.0 ==> st.next.draws == s.draws + 1
    ensures dt > 0.0 ==>
              st.output.value == Clamp(0.0, 1.0, RawOutput(g, target - current, st.next.integral,
                                                          (target - current - s.prevError) / dt,
                                                          Damping(BaseDamping, rng(s.draws))))
  {
    if dt <= 0.0 then Step(s, Err(InvalidInput))
    else
      var error := target - current;
      var integral := Clamp(-10.0, 10.0, s.integral + (target - current) * dt);
      var derivative := (error - s.prevError) / dt;
      var damping := Damping(BaseDamping, rng(s.draws));
      Step(ControllerState(integral, error, s.draws + 1),
           Ok(Clamp(0.0, 1.0, RawOutput(g, error, integral, derivative, damping))))
  }

  /** An accepted call's step, given its integral, derivative and damping. */
  lemma UpdateStepAccepted(g: Gains, rng: RandomStream, s: ControllerState, target: real, current: real, dt: real,
                           error: real, integral: real, derivative: real, damping: real)
    requires dt > 0.0 && error == target - current
    requires integral == FMax(-10.0, FMin(10.0, s.integral + error * dt))
    requires derivative == (error - s.prevError) / dt
    requires damping == Damping(BaseDamping, rng(s.draws))
    ensures UpdateStep(g, rng, s, target, current, dt)
              == Step(ControllerState(integral, error, s.draws + 1),
                      Ok(FMax(0.0, FMin(1.0, RawOutput(g, error, integral, derivative, damping)))))
  {
  }

  /** The state after a sequence of calls, starting from `s`. */
  function Replay(g: Gains, rng: RandomStream, s: ControllerState, calls: seq<Call>): ControllerState
    decreases |calls|
  {
    if |calls| == 0 then s
    else
      var c := calls[|calls| - 1];
      UpdateStep(g, rng, Replay(g, rng, s, calls[..|calls| - 1]), c.target, c.current, c.dt).next
  }

  /** The results of a sequence of calls, starting from `s`. */
  function Outputs(g: Gains, rng: RandomStream, s: ControllerState, calls: seq<Call>): (out: seq<Result<real>>)
    ensures |out| == |calls|
    decreases |calls|
  {
    if |calls| == 0 then []
    else
      var c := calls[|calls| - 1];
      Outputs(g, rng, s, calls[..|calls| - 1])
        + [UpdateStep(g, rng, Replay(g, rng, s, calls[..|calls| - 1]), c.target, c.current, c.dt).output]
  }

  /** How many of the calls pass the `dt` guard. */
  function CountAccepted(calls: seq<Call>): (n: nat)
    ensures n <= |calls|
    decreases |calls|
  {
    if |calls| == 0 then 0
    else CountAccepted(calls[..|calls| - 1]) + (if calls[|calls| - 1].dt > 0.0 then 1 else 0)
  }

  /** Whatever the calls, the integral never leaves [-10, 10] once it starts inside. */
  lemma {:induction false} ReplayKeepsIntegralBounded(g: Gains, rng: RandomStream, s: ControllerState, calls: seq<Call>)
    requires -10.0 <= s.integral <= 10.0
    ensures -10.0 <= Replay(g, rng, s, calls).integral <= 10.0
    decreases |calls|
  {
    if |calls| > 0 {
      ReplayKeepsIntegralBounded(g, rng, s, calls[..|calls| - 1]);
    }
  }

  /** Exactly one word is drawn per accepted call, and none per rejected call. */
  lemma {:induction false} ReplayCountsDraws(g: Gains, rng: RandomStream, s: ControllerState, calls: seq<Call>)
    ensures Replay(g, rng, s, calls).draws == s.draws + CountAccepted(calls)
    decreases |calls|
  {
    if |calls| > 0 {
      ReplayCountsDraws(g, rng, s, calls[..|calls| - 1]);
    }
  }

  /**
    The i-th result is `Err(InvalidInput)` exactly when the i-th call has a
    non-positive `dt`, and otherwise a weight in [0, 1].
   */
  lemma {:induction false} OutputsAreWeights(g: Gains, rng: RandomStream, s: ControllerState, calls: seq<Call>, i: nat)
    requires i < |calls|
    ensures Outputs(g, rng, s, calls)[i] == Err(InvalidInput) <==> calls[i].dt <= 0.0
    ensures Outputs(g, rng, s, calls)[i].Ok? ==> 0.0 <= Outputs(g, rng, s, calls)[i].value <= 1.0
    decreases |calls|
  {
    if i < |calls| - 1 {
      OutputsAreWeights(g, rng, s, calls[..|calls| - 1], i);
      assert calls[..|calls| - 1][i] == calls[i];
    }
  }

  class RouteWeightController {
    const kp: real
    const ki: real
    const kd: real
    var integral: real
    var prevError: real
    /** The generator's output, fixed by the seed at construction. */
    const rng: RandomStream
    /** The number of words drawn from `rng` so far: the generator's position. */
    var draws: nat
    const baseDamping: real := BaseDamping

    /** `chacha(seed)` is the stream ChaCha8 produces when seeded with `seed`. */
    constructor (kp: real, ki: real, kd: real, seed: bv64, chacha: bv64 -> RandomStream)
      ensures this.kp == kp && this.ki == ki && this.kd == kd
      ensures integral == 0.0 && prevError == 0.0 && draws == 0
      ensures rng == chacha(seed)
      ensures baseDamping == 1.0
    {
      this.kp, this.ki, this.kd := kp, ki, kd;
      integral, prevError := 0.0, 0.0;
      rng := chacha(seed);
      draws := 0;
    }

    function State(): ControllerState
      reads this
    {
      ControllerState(integral, prevError, draws)
    }

    method Update(target: real, current: real, dt: real) returns (r: Result<real>)
      modifies this
      ensures Step(State(), r) == UpdateStep(Gains(kp, ki, kd), rng, old(State()), target, current, dt)
      ensures dt <= 0.0 ==> r == Err(InvalidInput) && unchanged(this)
      ensures dt > 0.0 ==> r.Ok? && 0.0 <= r.value <= 1.0
      ensures dt > 0.0 ==> -10.0 <= integral <= 10.0 && prevError == target - current
      ensures dt > 0.0 ==> draws == old(draws) + 1
    {
      if dt <= 0.0 {
        return Err(InvalidInput);
      }
      ghost var s0 := State();
      var error := target - current;
      integral := FMax(-10.0, FMin(10.0, integral + error * dt));
      var derivative := (error - prevError) / dt;
      prevError := error;

      var word := rng(draws);
      draws := draws + 1;
      var damping := Damping(baseDamping, word);

      var output := RawOutput(Gains(kp, ki, kd), error, integral, derivative, damping);
      r := Ok(FMax(0.0, FMin(1.0, output)));
      UpdateStepAccepted(Gains(kp, ki, kd), rng, s0, target, current, dt, error, integral, derivative, damping);
    }
  }

  /**
    Two controllers built from the same gains and seed and driven by the same
    calls return the same results, and those results are the ones `Outputs`
    specifies.
   */
  method DriveTwins(kp: real, ki: real, kd: real, seed: bv64, chacha: bv64 -> RandomStream, calls: seq<Call>)
    returns (out1: seq<Result<real>>, out2: seq<Result<real>>)
    ensures out1 == out2
    ensures out1 == Outputs(Gains(kp, ki, kd), chacha(seed), Initial, calls)
  {
    var c1 := new RouteWeightController(kp, ki, kd, seed, chacha);
    var c2 := new RouteWeightController(kp, ki, kd, seed, chacha);
    ghost var g := Gains(kp, ki, kd);
    out1, out2 := [], [];
    var i := 0;
    while i < |calls|
      invariant 0 <= i <= |calls|
      invariant c1.kp == kp && c1.ki == ki && c1.kd == kd && c1.rng == chacha(seed)
      invariant c2.kp == kp && c2.ki == ki && c2.kd == kd && c2.rng == chacha(seed)
      invariant c1.State() == Replay(g, chacha(seed), Initial, calls[..i])
      invariant c2.State() == Replay(g, chacha(seed), Initial, calls[..i])
      invariant out1 == Outputs(g, chacha(seed), Initial, calls[..i])
      invariant out2 == Outputs(g, chacha(seed), Initial, calls[..i])
    {
      assert calls[..i + 1][..i] == calls[..i];
      var r1 := c1.Update(calls[i].target, calls[i].current, calls[i].dt);
      var r2 := c2.Update(calls[i].target, calls[i].current, calls[i].dt);
      out1, out2 := out1 + [r1], out2 + [r2];
      i := i + 1;
    }
    assert calls[..|calls|] == calls;
  }
}
