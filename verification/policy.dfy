/** Transmission-rate policies: a policy maps (time, baseline beta) to the
    effective beta at that time. The provided one is a one-time step
    intervention that cuts beta by a fixed fraction from a given day on. */
module Policy {
  import opened SeirTypes

  /** A pure policy function: (time, baseline beta) -> effective beta. */
  type BetaPolicy = (real, real) -> real

  /** A reduction fraction is admissible when it lies in [0, 1]. */
  predicate ValidFraction(fraction: real) {
    0.0 <= fraction <= 1.0
  }

  /** The rate the step intervention returns at `time` for baseline `base`:
      `base` before the intervention day, `base * (1 - fraction)` from it on. */
  function InterventionRate(interventionDay: real, fraction: real, time: real, base: real): (rate: real)
    ensures time < interventionDay ==> rate == base
    ensures time >= interventionDay ==> rate + fraction * base == base
    ensures ValidFraction(fraction) && base >= 0.0 ==> 0.0 <= rate <= base
  {
    if time >= interventionDay then base * (1.0 - fraction) else base
  }

  /** Builds the step-intervention policy, rejecting a fraction outside
      [0, 1] before any policy exists. */
  function PiecewiseBetaWithIntervention(interventionDay: real, fraction: real): (res: Result<BetaPolicy>)
    ensures res.Failure? <==> !ValidFraction(fraction)
    ensures res.Failure? ==> res.error == ReductionOutOfRange
    ensures res.Ok? ==> forall time: real, base: real ::
      res.value(time, base) == InterventionRate(interventionDay, fraction, time, base)
  {
    if !ValidFraction(fraction) then Failure(ReductionOutOfRange)
    else Ok((time: real, base: real) => InterventionRate(interventionDay, fraction, time, base))
  }

  /** The beta the integrator uses at `time`: the parameter itself when no
      policy is given, otherwise the policy's value clamped below at 0. */
  function GetBeta(beta: real, policy: Option<BetaPolicy>, time: real): (b: real)
    ensures policy.None? ==> b == beta
    ensures policy.Some? ==> b >= 0.0
    ensures policy.Some? && policy.value(time, beta) >= 0.0 ==> b == policy.value(time, beta)
    ensures policy.Some? && policy.value(time, beta) < 0.0 ==> b == 0.0
  {
    match policy
    case None => beta
    case Some(f) => if f(time, beta) > 0.0 then f(time, beta) else 0.0
  }

  /** The intervention never raises the rate again once it has cut it: for a
      non-negative baseline the rate is non-increasing in time. */
  lemma InterventionNonIncreasing(interventionDay: real, fraction: real, base: real, t1: real, t2: real)
    requires ValidFraction(fraction) && base >= 0.0
    requires t1 <= t2
    ensures InterventionRate(interventionDay, fraction, t2, base)
         <= InterventionRate(interventionDay, fraction, t1, base)
  {
    if t1 >= interventionDay {
      assert t2 >= interventionDay;
    } else if t2 >= interventionDay {
      assert InterventionRate(interventionDay, fraction, t2, base) == base * (1.0 - fraction);
      assert fraction * base >= 0.0;
    }
  }

  /** A policy built by `PiecewiseBetaWithIntervention` returns a non-negative
      rate for a non-negative baseline, so the integrator's clamp leaves it
      unchanged. */
  lemma InterventionPolicyNeedsNoClamp(interventionDay: real, fraction: real, beta: real, time: real)
    requires beta >= 0.0
    requires PiecewiseBetaWithIntervention(interventionDay, fraction).Ok?
    ensures GetBeta(beta, Some(PiecewiseBetaWithIntervention(interventionDay, fraction).value), time)
         == InterventionRate(interventionDay, fraction, time, beta)
  {
    var f := PiecewiseBetaWithIntervention(interventionDay, fraction).value;
    assert f(time, beta) == InterventionRate(interventionDay, fraction, time, beta);
  }

  /** The boundary example: day 30, fraction 0.4, beta 0.3 gives 0.3 at
      t = 29.75 and 0.18 at t = 30 and later. */
  lemma InterventionBoundaryExample(time: real)
    requires time >= 30.0
    ensures PiecewiseBetaWithIntervention(30.0, 0.4).Ok?
    ensures PiecewiseBetaWithIntervention(30.0, 0.4).value(29.75, 0.3) == 0.3
    ensures PiecewiseBetaWithIntervention(30.0, 0.4).value(time, 0.3) == 0.18
  {
    var f := PiecewiseBetaWithIntervention(30.0, 0.4).value;
    assert f(29.75, 0.3) == InterventionRate(30.0, 0.4, 29.75, 0.3);
    assert f(time, 0.3) == InterventionRate(30.0, 0.4, time, 0.3);
  }
}
