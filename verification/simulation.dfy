/** The integrator: validates its inputs, derives the initial state, lays out
    the time grid and runs the Euler step from each grid point to the next,
    recording the whole trajectory. */
module Simulation {
  import opened SeirTypes
  import opened Policy
  import opened Grid
  import opened Euler

  /** The state at t = 0: the given E, I, R seeds, and S the rest of the
      population. */
  function InitialState(p: SeirParameters, exposed0: real, infected0: real, recovered0: real): (x: Compartments)
    ensures Total(x) == p.population
    ensures x.e == exposed0 && x.i == infected0 && x.r == recovered0
  {
    Compartments(p.population - exposed0 - infected0 - recovered0, exposed0, infected0, recovered0)
  }

  /** Each recorded state is the guarded Euler step of the one before it,
      taken with the effective beta at the earlier grid time. */
  predicate FollowsEuler(p: SeirParameters, policy: Option<BetaPolicy>, dt: real, tr: Trajectory)
    requires tr.HasLength(|tr.t|)
  {
    forall k :: 0 <= k < |tr.t| - 1 ==>
      Conserved(p.population, tr.At(k)) &&
      tr.At(k + 1) == Step(p, GetBeta(p.beta, policy, tr.t[k]), dt, tr.At(k))
  }

  /** The trajectory with one more grid point appended; earlier entries are
      untouched. */
  function Extend(tr: Trajectory, time: real, x: Compartments): (ext: Trajectory)
    requires tr.HasLength(|tr.t|)
    ensures ext.HasLength(|tr.t| + 1)
    ensures ext.t[|tr.t|] == time && ext.At(|tr.t|) == x
    ensures forall j :: 0 <= j < |tr.t| ==> ext.t[j] == tr.t[j] && ext.At(j) == tr.At(j)
  {
    Trajectory(tr.t + [time], tr.S + [x.s], tr.E + [x.e], tr.I + [x.i], tr.R + [x.r])
  }

  /** Appending the guarded step of the last state keeps a trajectory
      following the Euler recurrence. */
  lemma FollowsEulerExtend(p: SeirParameters, policy: Option<BetaPolicy>, dt: real, tr: Trajectory,
                           time: real, x: Compartments)
    requires tr.HasLength(|tr.t|) && |tr.t| >= 1
    requires FollowsEuler(p, policy, dt, tr)
    requires Conserved(p.population, tr.At(|tr.t| - 1))
    requires x == Step(p, GetBeta(p.beta, policy, tr.t[|tr.t| - 1]), dt, tr.At(|tr.t| - 1))
    ensures FollowsEuler(p, policy, dt, Extend(tr, time, x))
  {
    var ext := Extend(tr, time, x);
    forall k | 0 <= k < |ext.t| - 1
      ensures Conserved(p.population, ext.At(k))
      ensures ext.At(k + 1) == Step(p, GetBeta(p.beta, policy, ext.t[k]), dt, ext.At(k))
    {
      assert ext.At(k) == tr.At(k) && ext.t[k] == tr.t[k];
      if k < |tr.t| - 1 {
        assert ext.At(k + 1) == tr.At(k + 1);
      } else {
        assert ext.At(k + 1) == x;
      }
    }
  }

  /** Runs the simulation. Fails, with no trajectory, when dt <= 0, when
      days <= 0 (checked in that order) or when the seeds exceed the
      population. Otherwise returns ceil(days/dt) + 1 grid points k*dt with
      the initial state at index 0, each later state obtained by one guarded
      Euler step; every state after the first is non-negative, and with a
      positive population every state sums to it exactly. */
  method SimulateSeir(p: SeirParameters, exposed0: real, infected0: real, recovered0: real,
                      days: real, dt: real := 0.25, policy: Option<BetaPolicy> := None)
    returns (res: Result<Trajectory>)
    ensures dt <= 0.0 ==> res == Failure(DtNotPositive)
    ensures dt > 0.0 && days <= 0.0 ==> res == Failure(DaysNotPositive)
    ensures dt > 0.0 && days > 0.0 && InitialState(p, exposed0, infected0, recovered0).s < 0.0
            ==> res == Failure(InitialExceedsPopulation)
    ensures res.Ok? <==> dt > 0.0 && days > 0.0 && InitialState(p, exposed0, infected0, recovered0).s >= 0.0
    ensures res.Ok? ==> res.value.HasLength(NumSteps(days, dt))
    ensures res.Ok? ==> res.value.At(0) == InitialState(p, exposed0, infected0, recovered0)
    ensures res.Ok? ==> forall k :: 0 <= k < |res.value.t| ==> res.value.t[k] == TimeAt(dt, k)
    ensures res.Ok? ==> forall k :: 0 <= k < |res.value.t| ==> Conserved(p.population, res.value.At(k))
    ensures res.Ok? ==> forall k :: 1 <= k < |res.value.t| ==> NonNeg(res.value.At(k))
    ensures res.Ok? ==> FollowsEuler(p, policy, dt, res.value)
  {
    if dt <= 0.0 {
      return Failure(DtNotPositive);
    }
    if days <= 0.0 {
      return Failure(DaysNotPositive);
    }
    var x0 := InitialState(p, exposed0, infected0, recovered0);
    if x0.s < 0.0 {
      return Failure(InitialExceedsPopulation);
    }
    var n := NumSteps(days, dt);
    var tr := Trajectory([TimeAt(dt, 0)], [x0.s], [x0.e], [x0.i], [x0.r]);
    var x := x0;
    var k := 0;
    while k < n - 1
      invariant 0 <= k < n
      invariant tr.HasLength(k + 1)
      invariant tr.At(0) == x0
      invariant tr.At(k) == x
      invariant forall j :: 0 <= j <= k ==> tr.t[j] == TimeAt(dt, j)
      invariant forall j :: 0 <= j <= k ==> Conserved(p.population, tr.At(j))
      invariant forall j :: 1 <= j <= k ==> NonNeg(tr.At(j))
      invariant FollowsEuler(p, policy, dt, tr)
    {
      var beta := GetBeta(p.beta, policy, tr.t[k]);
      x := Step(p, beta, dt, x);
      FollowsEulerExtend(p, policy, dt, tr, TimeAt(dt, k + 1), x);
      tr := Extend(tr, TimeAt(dt, k + 1), x);
      k := k + 1;
    }
    return Ok(tr);
  }

  /** With beta = 0, no policy and small steps, a trajectory started from a
      non-negative conserved state keeps S exactly at its initial value. */
  lemma {:induction false} ZeroTransmissionKeepsSusceptible(p: SeirParameters, dt: real, tr: Trajectory, k: nat)
    requires tr.HasLength(|tr.t|) && k < |tr.t|
    requires FollowsEuler(p, None, dt, tr)
    requires p.beta == 0.0 && SmallStep(p, 0.0, dt)
    requires NonNeg(tr.At(0)) && Total(tr.At(0)) == p.population
    ensures tr.S[k] == tr.S[0]
    ensures NonNeg(tr.At(k)) && Total(tr.At(k)) == p.population
  {
    if k > 0 {
      ZeroTransmissionKeepsSusceptible(p, dt, tr, k - 1);
      var prev := tr.At(k - 1);
      assert GetBeta(p.beta, None, tr.t[k - 1]) == 0.0;
      assert tr.At(k) == Step(p, 0.0, dt, prev);
      ZeroTransmission(p, dt, prev);
    }
  }
}
