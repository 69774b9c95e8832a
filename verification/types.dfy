/** Shared data model of the SEIR integrator: parameters, compartment state,
    the trajectory it returns, and the failure-carrying wrappers used in place
    of the exceptions the original raises.

    Every quantity is an exact `real`; the original works on IEEE doubles. */
module SeirTypes {

  /** An optional value; `None` stands for an absent transmission policy. */
  datatype Option<+T> = None | Some(value: T)

  /** The single error class of the core (a `ValueError` in the original),
      split by the condition that raised it. */
  datatype InvalidParameter =
    | DtNotPositive
    | DaysNotPositive
    | InitialExceedsPopulation
    | ReductionOutOfRange

  /** Either a value or the validation failure that prevented computing it. */
  datatype Result<+T> = Ok(value: T) | Failure(error: InvalidParameter)

  /** Model parameters. None of them is validated by the integrator: rates and
      population may be any real. */
  datatype SeirParameters = SeirParameters(population: real, beta: real, sigma: real, gamma: real)

  /** The four compartment counts at one grid point. */
  datatype Compartments = Compartments(s: real, e: real, i: real, r: real)

  /** S + E + I + R. */
  function Total(x: Compartments): real {
    x.s + x.e + x.i + x.r
  }

  /** Every compartment is non-negative. */
  predicate NonNeg(x: Compartments) {
    x.s >= 0.0 && x.e >= 0.0 && x.i >= 0.0 && x.r >= 0.0
  }

  /** The guardrails' conservation invariant: when the population is positive,
      the compartments add up to it exactly. */
  predicate Conserved(population: real, x: Compartments) {
    population > 0.0 ==> Total(x) == population
  }

  /** The result of one simulation: the time grid and the four compartment
      series, index-aligned. */
  datatype Trajectory = Trajectory(t: seq<real>, S: seq<real>, E: seq<real>, I: seq<real>, R: seq<real>)
  {
    /** All five series have `n` entries. */
    predicate HasLength(n: nat) {
      |t| == n && |S| == n && |E| == n && |I| == n && |R| == n
    }

    /** The compartments recorded at index `k`. */
    function At(k: nat): Compartments
      requires k < |S| && k < |E| && k < |I| && k < |R|
    {
      Compartments(S[k], E[k], I[k], R[k])
    }
  }
}
