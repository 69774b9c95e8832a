# SEIR forward-Euler integrator — Dafny model

This project models the deterministic SEIR (Susceptible–Exposed–Infectious–Recovered)
integrator of `seir/model.py` and proves properties of it. It covers:

- `simulate_seir`, which does three things in order:
  - It validates `dt` and `days`, derives the initial susceptible count and rejects seeds that exceed the population.
  - It lays out the grid of `ceil(days/dt) + 1` points `k*dt`.
  - It runs one forward-Euler step per grid interval. Each step is followed by two guardrails: negatives are clamped to 0, and the four compartments are rescaled to the population.
- `piecewise_beta_with_intervention`, which builds a policy that cuts the transmission rate β by a fixed fraction from a given day onward.

Every quantity is an exact Dafny `real`. The original works on IEEE doubles, where conservation holds only to a tolerance. Under exact arithmetic it is a theorem: the raw step keeps the sum, clamping can only raise it, so the rescale factor is well defined and lies in (0, 1].

Modules, one per concern:

- `SeirTypes` (`types.dfy`) holds the shared data:
  - the parameter record;
  - the compartment state;
  - the trajectory: five index-aligned series `t, S, E, I, R`;
  - `Option`, and `Result` with one error constructor per `ValueError` the original raises.
- `Policy` (`policy.dfy`): a policy is a pure function value `(real, real) -> real` mapping (time, baseline β) to the effective β. This module holds the step intervention and the `get_beta` rule.
- `Grid` (`grid.dfy`): `ceil` written as `-((-x).Floor)`, the grid length and the grid points.
- `Euler` (`euler.dfy`): the flows, the raw update, both guardrails and the full step, with lemmas on each.
- `Simulation` (`simulation.dfy`): the initial state and the `SimulateSeir` method. As in the original signature, `dt` defaults to 0.25 and the policy to none. The method fills the five series in a loop whose invariants carry grid spacing, conservation, non-negativity and the step recurrence.

`Euler.Step` is applied only to a state whose compartments already sum to the population when the population is positive. The loop in `simulate_seir` always keeps this fact. The step needs it because the original divides by the post-clamp total. That total is nonzero exactly because of this fact (`Euler.ScaleInUnitInterval`).

The source checks no parameter other than `dt`, `days` and the derived susceptible count. So the model allows negative rates, a zero or negative population, and negative seeds, as the source does. For that reason, non-negativity is promised only for indices 1 and later: index 0 holds the seeds exactly as given.

## Model

| member | source | states |
|---|---|---|
| Policy.InterventionRate | seir/model.py:119-122 | before the intervention day the rate is the baseline; from that day on it is the baseline reduced by `fraction * base`; for a valid fraction and non-negative baseline it lies in [0, base] |
| Policy.PiecewiseBetaWithIntervention | seir/model.py:108-124 | fails with `ReductionOutOfRange` exactly when the fraction is outside [0, 1]; otherwise returns a function that agrees with the intervention rate at every (time, base) |
| Policy.GetBeta | seir/model.py:61-64 | with no policy the effective β is `params.beta` unchanged (even if negative); with a policy it is the policy's value when that is non-negative and 0 otherwise, so never negative |
| Policy.InterventionNonIncreasing | seir/model.py:119-122 | for a non-negative baseline the intervention rate never rises over time (a permanent one-time cut) |
| Policy.InterventionPolicyNeedsNoClamp | seir/model.py:61-64 | for a non-negative baseline, the clamp in `get_beta` leaves the intervention policy's value unchanged |
| Policy.InterventionBoundaryExample | seir/model.py:119-122 | day 30 and fraction 0.4 are accepted; with β = 0.3 the rate is 0.3 at t = 29.75 and 0.18 at every t >= 30 |
| Grid.Ceil | seir/model.py:48 | the result c is the least integer with x <= c, i.e. c - 1 < x <= c |
| Grid.NumSteps | seir/model.py:48 | for positive days and dt the grid has at least 2 points, and the count n satisfies n - 2 < days/dt <= n - 1 |
| Grid.GridCoversDays | seir/model.py:48-49 | the last grid point reaches `days` and the one before it does not, so the grid overshoots by less than one step |
| Grid.GridShape | seir/model.py:49 | the grid starts at 0, is strictly increasing and has constant spacing dt |
| Grid.DefaultRunGrid | seir/model.py:48 | 160 days at dt = 0.25 give 641 grid points |
| Euler.InvPopulation | seir/model.py:66 | a nonzero population gets its exact reciprocal; a zero population gets 0 |
| Euler.ComputeFlows | seir/model.py:72-74 | new infections times N equal β·S·I for nonzero N, and are 0 when N is 0; the incubation flow is σ·E and the recovery flow γ·I |
| Euler.Derivatives | seir/model.py:76-79 | dS + dE + dI + dR = 0; dS is non-positive exactly when infections are non-negative, dR non-negative exactly when recovery is |
| Euler.Advance | seir/model.py:81-84 | advancing by dt along a derivative whose components sum to zero leaves S + E + I + R unchanged |
| Euler.RawStep | seir/model.py:81-84 | the raw Euler update leaves S + E + I + R unchanged |
| Euler.ClampNonneg | seir/model.py:87-88 | a negative value becomes exactly 0 and a non-negative one is kept; so the result is non-negative and at least the input |
| Euler.Clamp | seir/model.py:87-94 | each negative compartment becomes exactly 0 and every other compartment is kept; so all four are non-negative, the total can only rise, and it stays the same exactly when nothing was negative |
| Euler.Renormalise | seir/model.py:96-103 | for a positive population the result sums to the population and each compartment is scaled by the same factor population/total; otherwise, or when the total already matches, nothing changes; the result stays non-negative |
| Euler.RescaledToPopulation | seir/model.py:98-103 | multiplying a non-negative state with a positive total by population/total gives a non-negative state that sums to the population, each compartment in the same proportion as before |
| Euler.Step | seir/model.py:69-103 | from a state that sums to a positive population (or any state when the population is not positive), the guarded step yields a non-negative state that again sums to the population |
| Euler.GuardrailsIdleWhenRawNonNeg | seir/model.py:86-103 | when the raw update has no negative value, neither clamping nor rescaling changes it |
| Euler.ScaleInUnitInterval | seir/model.py:96-99 | from a state summing to a positive population, the post-clamp total is at least the population, so the rescale factor lies in (0, 1] |
| Euler.RescaleOnlyAfterClamp | seir/model.py:96-97 | from a conserved state, the total differs from the population (so rescaling happens) exactly when the raw update produced a negative value |
| Euler.SmallStepRawNonNeg | seir/model.py:81-84 | with non-negative rates, a non-negative conserved state and dt·β, dt·σ, dt·γ <= 1, the raw update produces no negative value |
| Euler.SmallStepNeedsNoGuardrails | seir/model.py:86-103 | under the same small-step condition the guarded step equals the raw Euler update |
| Euler.ZeroTransmission | seir/model.py:72-84 | with β = 0 and small steps, one step keeps S exactly, never raises E and never lowers R |
| Simulation.InitialState | seir/model.py:44 | index 0 holds the given E, I, R seeds and a susceptible count that makes the sum equal to the population |
| Simulation.Extend | seir/model.py:81-84 | the sequence form of the writes `S[k + 1] = …` (and E, I, R, with the grid time): one more point is appended and every earlier entry is unchanged |
| Simulation.SimulateSeir | seir/model.py:17-105 | fails with `DtNotPositive` if dt <= 0, else `DaysNotPositive` if days <= 0, else `InitialExceedsPopulation` if S0 < 0, and succeeds otherwise. On success: all five series have `ceil(days/dt)+1` entries; t[k] = k·dt; index 0 is the initial state; each later state is the guarded step of the previous one with the effective β at t[k]; every state after index 0 is non-negative; with a positive population every state sums to it |
| Simulation.ZeroTransmissionKeepsSusceptible | seir/model.py:68-84 | along any trajectory with β = 0, no policy, small steps and a non-negative conserved start, S stays at its initial value and every state stays non-negative and conserved |

## Left out

- Command-line parsing, directory creation and CSV export in `main.py` are I/O plumbing. Its one rule is that a policy is built only when both intervention flags are given; that is left to the caller, which passes `None` or `Some(policy)`.
- Plot rendering in `seir/plotting.py` does no computation on the data.
- The scripted run in `examples/run_example.py` only writes files and prints statistics.
- The `random_seed` argument only seeds a global generator, and no random draw follows; the model has no such parameter.
- IEEE-754 rounding is not modelled: all arithmetic is exact over the reals. In the original, the `total != population` comparison is true on almost every step because of rounding, and conservation holds only to a tolerance. Here the comparison is exact.
- `numpy.linspace` is modelled as exact `k*dt`; the `int(...)` conversion of the step count is exact because `ceil` already yields an integer.
- Arrays are modelled as immutable sequences. The method builds them by appending one point per step instead of writing into preallocated zero arrays.
- Division by a zero post-clamp total cannot occur for a state that satisfies conservation. `Euler.Step` therefore requires conservation of its input instead of modelling a failure that no run can reach.
- Determinism follows from every operation being a pure function of its inputs; it is not stated as a separate lemma.
- Epidemic-curve shape claims (a single peak, the final susceptible floor) are qualitative numerics, not promises of the code, and are not modelled.
