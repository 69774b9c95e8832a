/** One forward-Euler step of the SEIR equations followed by the two numerical
    guardrails: clamp negatives to zero, then rescale to the population. */
module Euler {
  import opened SeirTypes

  /** The reciprocal of the population, or 0 for an empty population. */
  function InvPopulation(population: real): (inv: real)
    ensures population != 0.0 ==> inv * population == 1.0
    ensures population == 0.0 ==> inv == 0.0
  {
    if population != 0.0 then 1.0 / population else 0.0
  }

  /** The three flows between compartments during one step. */
  datatype Flows = Flows(infection: real, incubation: real, recovery: real)

  /** Flows at state `x` under effective transmission rate `beta`: new
      infections beta*S*I/N (none when N is 0), incubation sigma*E, and
      recovery gamma*I. */
  function ComputeFlows(p: SeirParameters, beta: real, x: Compartments): (f: Flows)
    ensures p.population != 0.0 ==> f.infection * p.population == beta * x.s * x.i
    ensures p.population == 0.0 ==> f.infection == 0.0
    ensures f.incubation == p.sigma * x.e && f.recovery == p.gamma * x.i
  {
    var inv := InvPopulation(p.population);
    assert beta * x.s * x.i * inv * p.population == beta * x.s * x.i * (inv * p.population);
    Flows(beta * x.s * x.i * inv, p.sigma * x.e, p.gamma * x.i)
  }

  /** The time derivatives (dS, dE, dI, dR) implied by the flows; every flow
      leaves one compartment and enters the next, so they cancel. */
  function Derivatives(f: Flows): (d: Compartments)
    ensures Total(d) == 0.0
    ensures d.s <= 0.0 <==> f.infection >= 0.0
    ensures d.r >= 0.0 <==> f.recovery >= 0.0
  {
    Compartments(-f.infection, f.infection - f.incubation, f.incubation - f.recovery, f.recovery)
  }

  /** The state advanced by `dt` along the derivative `d`: `x + dt * d`.
      A derivative that sums to zero leaves the total unchanged. */
  function Advance(x: Compartments, dt: real, d: Compartments): (y: Compartments)
    ensures Total(d) == 0.0 ==> Total(y) == Total(x)
  {
    assert dt * d.s + dt * d.e + dt * d.i + dt * d.r == dt * Total(d);
    Compartments(x.s + dt * d.s, x.e + dt * d.e, x.i + dt * d.i, x.r + dt * d.r)
  }

  /** The raw Euler update before any guardrail. Because the derivatives
      cancel, it leaves the total unchanged. */
  function RawStep(p: SeirParameters, beta: real, dt: real, x: Compartments): (y: Compartments)
    ensures Total(y) == Total(x)
  {
    Advance(x, dt, Derivatives(ComputeFlows(p, beta, x)))
  }

  /** A value raised to 0 if it is negative. */
  function ClampNonneg(v: real): (c: real)
    ensures c >= 0.0 && c >= v
    ensures v >= 0.0 <==> c == v
    ensures v < 0.0 ==> c == 0.0
  {
    if v < 0.0 then 0.0 else v
  }

  /** Guardrail 1: each compartment independently clamped to be non-negative.
      Clamping can only raise the total, and leaves it unchanged exactly when
      nothing was negative. */
  function Clamp(x: Compartments): (y: Compartments)
    ensures NonNeg(y)
    ensures y.s >= x.s && y.e >= x.e && y.i >= x.i && y.r >= x.r
    ensures Total(y) >= Total(x)
    ensures Total(y) == Total(x) <==> NonNeg(x)
    ensures NonNeg(x) <==> y == x
    ensures (x.s < 0.0 ==> y.s == 0.0) && (x.s >= 0.0 ==> y.s == x.s)
    ensures (x.e < 0.0 ==> y.e == 0.0) && (x.e >= 0.0 ==> y.e == x.e)
    ensures (x.i < 0.0 ==> y.i == 0.0) && (x.i >= 0.0 ==> y.i == x.i)
    ensures (x.r < 0.0 ==> y.r == 0.0) && (x.r >= 0.0 ==> y.r == x.r)
  {
    Compartments(ClampNonneg(x.s), ClampNonneg(x.e), ClampNonneg(x.i), ClampNonneg(x.r))
  }

  /** Guardrail 2: when the population is positive and the total differs
      from it, every compartment is multiplied by population / total. */
  function Renormalise(population: real, x: Compartments): (y: Compartments)
    requires NonNeg(x)
    requires population > 0.0 ==> Total(x) > 0.0
    ensures NonNeg(y)
    ensures population > 0.0 ==> Total(y) == population
    ensures population <= 0.0 || Total(x) == population ==> y == x
    ensures population > 0.0 ==>
      y.s * Total(x) == x.s * population && y.e * Total(x) == x.e * population &&
      y.i * Total(x) == x.i * population && y.r * Total(x) == x.r * population
  {
    var total := Total(x);
    if total != population && population > 0.0 then
      RescaledToPopulation(population, x);
      Scaled(x, population / total)
    else
      x
  }

  /** Every compartment multiplied by the same factor. */
  function Scaled(x: Compartments, scale: real): Compartments {
    Compartments(x.s * scale, x.e * scale, x.i * scale, x.r * scale)
  }

  /** Multiplying a non-negative state with a positive total by
      population / total gives a non-negative state summing to the population,
      each compartment in proportion population : total to the original. */
  lemma RescaledToPopulation(population: real, x: Compartments)
    requires NonNeg(x) && population > 0.0 && Total(x) > 0.0
    ensures NonNeg(Scaled(x, population / Total(x)))
    ensures Total(Scaled(x, population / Total(x))) == population
    ensures var y := Scaled(x, population / Total(x));
      y.s * Total(x) == x.s * population && y.e * Total(x) == x.e * population &&
      y.i * Total(x) == x.i * population && y.r * Total(x) == x.r * population
  {
    var total := Total(x);
    var scale := population / total;
    ScaleFactor(population, total);
    ScaleSum(x.s, x.e, x.i, x.r, scale);
    ScaleComponent(x.s, scale, total, population);
    ScaleComponent(x.e, scale, total, population);
    ScaleComponent(x.i, scale, total, population);
    ScaleComponent(x.r, scale, total, population);
  }

  /** The rescale factor a / b of two positive reals is positive and turns b
      back into a. */
  lemma ScaleFactor(a: real, b: real)
    requires a > 0.0 && b > 0.0
    ensures a / b > 0.0 && (a / b) * b == a
  {
  }

  /** Scaling every compartment scales their sum by the same factor. */
  lemma ScaleSum(s: real, e: real, i: real, r: real, scale: real)
    ensures s * scale + e * scale + i * scale + r * scale == (s + e + i + r) * scale
  {
  }

  /** One compartment scaled by population / total: it stays non-negative and
      is in proportion population : total to the original. */
  lemma ScaleComponent(v: real, scale: real, total: real, population: real)
    requires v >= 0.0 && scale > 0.0 && scale * total == population
    ensures v * scale >= 0.0
    ensures (v * scale) * total == v * population
  {
    assert (v * scale) * total == v * (scale * total);
  }

  /** One full step: Euler update, clamp, renormalise. It is applied only to
      states that satisfy the conservation invariant, which it preserves,
      and every state it produces is non-negative. */
  function Step(p: SeirParameters, beta: real, dt: real, x: Compartments): (y: Compartments)
    requires Conserved(p.population, x)
    ensures NonNeg(y)
    ensures Conserved(p.population, y)
  {
    var clamped := Clamp(RawStep(p, beta, dt, x));
    Renormalise(p.population, clamped)
  }

  /** When the raw update produced no negative value, the guardrails change
      nothing: the step is the plain Euler update. */
  lemma GuardrailsIdleWhenRawNonNeg(p: SeirParameters, beta: real, dt: real, x: Compartments)
    requires Conserved(p.population, x)
    requires NonNeg(RawStep(p, beta, dt, x))
    ensures Step(p, beta, dt, x) == RawStep(p, beta, dt, x)
  {
    var raw := RawStep(p, beta, dt, x);
    assert Clamp(raw) == raw;
  }

  /** The rescale factor is well defined and lies in (0, 1]: the raw step keeps
      the total at the population and clamping can only raise it. */
  lemma ScaleInUnitInterval(p: SeirParameters, beta: real, dt: real, x: Compartments)
    requires p.population > 0.0 && Total(x) == p.population
    ensures Total(Clamp(RawStep(p, beta, dt, x))) >= p.population
    ensures 0.0 < p.population / Total(Clamp(RawStep(p, beta, dt, x))) <= 1.0
  {
    var raw := RawStep(p, beta, dt, x);
    var clamped := Clamp(raw);
    QuotientInUnitInterval(p.population, Total(clamped));
  }

  /** a / b lies in (0, 1] when 0 < a <= b. */
  lemma QuotientInUnitInterval(a: real, b: real)
    requires 0.0 < a <= b
    ensures 0.0 < a / b <= 1.0
  {
    assert (a / b) * b == a;
  }

  /** Rescaling happens exactly when the clamp changed something. */
  lemma RescaleOnlyAfterClamp(p: SeirParameters, beta: real, dt: real, x: Compartments)
    requires p.population > 0.0 && Total(x) == p.population
    ensures Total(Clamp(RawStep(p, beta, dt, x))) != p.population
        <==> !NonNeg(RawStep(p, beta, dt, x))
  {
  }

  /** Small-step condition: with non-negative rates and a non-negative
      conserved state, steps with dt*beta, dt*sigma, dt*gamma at most 1
      never produce a negative value, so the guardrails are inactive. */
  predicate SmallStep(p: SeirParameters, beta: real, dt: real) {
    p.population > 0.0 && dt > 0.0 &&
    beta >= 0.0 && p.sigma >= 0.0 && p.gamma >= 0.0 &&
    dt * beta <= 1.0 && dt * p.sigma <= 1.0 && dt * p.gamma <= 1.0
  }

  /** Under the small-step condition both guardrails are inactive. */
  lemma SmallStepNeedsNoGuardrails(p: SeirParameters, beta: real, dt: real, x: Compartments)
    requires SmallStep(p, beta, dt)
    requires NonNeg(x) && Total(x) == p.population
    ensures NonNeg(RawStep(p, beta, dt, x))
    ensures Step(p, beta, dt, x) == RawStep(p, beta, dt, x)
  {
    SmallStepRawNonNeg(p, beta, dt, x);
    GuardrailsIdleWhenRawNonNeg(p, beta, dt, x);
  }

  /** Under the small-step condition the raw update is non-negative; one
      compartment at a time below. */
  lemma SmallStepRawNonNeg(p: SeirParameters, beta: real, dt: real, x: Compartments)
    requires SmallStep(p, beta, dt)
    requires NonNeg(x) && Total(x) == p.population
    ensures NonNeg(RawStep(p, beta, dt, x))
  {
    SmallStepKeepsS(p, beta, dt, x);
    SmallStepKeepsE(p, beta, dt, x);
    SmallStepKeepsI(p, beta, dt, x);
    SmallStepKeepsR(p, beta, dt, x);
  }

  lemma SmallStepKeepsS(p: SeirParameters, beta: real, dt: real, x: Compartments)
    requires SmallStep(p, beta, dt)
    requires NonNeg(x) && Total(x) == p.population
    ensures RawStep(p, beta, dt, x).s >= 0.0
  {
    var f := ComputeFlows(p, beta, x);
    SmallStepInfection(p, beta, dt, x);
    AdvanceByFlows(x, dt, f);
  }

  lemma SmallStepKeepsE(p: SeirParameters, beta: real, dt: real, x: Compartments)
    requires SmallStep(p, beta, dt)
    requires NonNeg(x) && Total(x) == p.population
    ensures RawStep(p, beta, dt, x).e >= 0.0
  {
    var f := ComputeFlows(p, beta, x);
    SmallStepInfection(p, beta, dt, x);
    OutflowBounded(p.sigma, dt, x.e, f.incubation);
    ExposedStaysNonNeg(x, dt, f);
  }

  /** E stays non-negative when the step's inflow is non-negative and its
      outflow at most E. */
  lemma ExposedStaysNonNeg(x: Compartments, dt: real, f: Flows)
    requires 0.0 <= dt * f.infection && dt * f.incubation <= x.e
    ensures Advance(x, dt, Derivatives(f)).e >= 0.0
  {
    AdvanceE(x, dt, f);
  }

  lemma SmallStepKeepsI(p: SeirParameters, beta: real, dt: real, x: Compartments)
    requires SmallStep(p, beta, dt)
    requires NonNeg(x) && Total(x) == p.population
    ensures RawStep(p, beta, dt, x).i >= 0.0
  {
    var f := ComputeFlows(p, beta, x);
    OutflowBounded(p.sigma, dt, x.e, f.incubation);
    OutflowBounded(p.gamma, dt, x.i, f.recovery);
    AdvanceByFlows(x, dt, f);
  }

  lemma SmallStepKeepsR(p: SeirParameters, beta: real, dt: real, x: Compartments)
    requires SmallStep(p, beta, dt)
    requires NonNeg(x) && Total(x) == p.population
    ensures RawStep(p, beta, dt, x).r >= 0.0
  {
    var f := ComputeFlows(p, beta, x);
    OutflowBounded(p.gamma, dt, x.i, f.recovery);
    AdvanceByFlows(x, dt, f);
  }

  /** Under the small-step condition the infections of one step take at most
      the whole of S. */
  lemma SmallStepInfection(p: SeirParameters, beta: real, dt: real, x: Compartments)
    requires SmallStep(p, beta, dt)
    requires NonNeg(x) && Total(x) == p.population
    ensures 0.0 <= dt * ComputeFlows(p, beta, x).infection <= x.s
  {
    InfectionBounded(p.population, x.s, x.i, beta, dt, ComputeFlows(p, beta, x).infection);
  }

  /** The Euler update along the flow derivatives, written as transfers: S
      loses dt*infection to E, E loses dt*incubation to I, I loses
      dt*recovery to R. */
  lemma AdvanceByFlows(x: Compartments, dt: real, f: Flows)
    ensures Advance(x, dt, Derivatives(f)).s == x.s - dt * f.infection
    ensures Advance(x, dt, Derivatives(f)).e == x.e + dt * f.infection - dt * f.incubation
    ensures Advance(x, dt, Derivatives(f)).i == x.i + dt * f.incubation - dt * f.recovery
    ensures Advance(x, dt, Derivatives(f)).r == x.r + dt * f.recovery
  {
    AdvanceS(x, dt, f);
    AdvanceE(x, dt, f);
    AdvanceI(x, dt, f);
  }

  lemma AdvanceS(x: Compartments, dt: real, f: Flows)
    ensures Advance(x, dt, Derivatives(f)).s == x.s - dt * f.infection
  {
    Distribute(dt, Derivatives(f).s, 0.0, f.infection);
  }

  lemma AdvanceE(x: Compartments, dt: real, f: Flows)
    ensures Advance(x, dt, Derivatives(f)).e == x.e + dt * f.infection - dt * f.incubation
  {
    Distribute(dt, Derivatives(f).e, f.infection, f.incubation);
  }

  lemma AdvanceI(x: Compartments, dt: real, f: Flows)
    ensures Advance(x, dt, Derivatives(f)).i == x.i + dt * f.incubation - dt * f.recovery
  {
    Distribute(dt, Derivatives(f).i, f.incubation, f.recovery);
  }

  /** Multiplication distributes over a difference. */
  lemma Distribute(c: real, v: real, a: real, b: real)
    requires v == a - b
    ensures c * v == c * a - c * b
  {
  }

  /** In a conserved state with I <= N, the new infections of one small step
      are non-negative and do not exceed S. */
  lemma InfectionBounded(n: real, s: real, i: real, beta: real, dt: real, infection: real)
    requires n > 0.0 && s >= 0.0 && 0.0 <= i <= n
    requires beta >= 0.0 && dt > 0.0 && dt * beta <= 1.0
    requires infection * n == beta * s * i
    ensures 0.0 <= dt * infection <= s
  {
    var u := dt * infection;
    assert u * n == (dt * beta) * (s * i);
    ScaleDown(dt * beta, s * i);
    assert u * n <= s * i;
    assert s * i <= s * n;
    assert u * n <= s * n;
    CancelPositive(u, s, n);
    assert 0.0 <= (dt * beta) * (s * i);
    CancelPositive(0.0, u, n);
  }

  /** c * v <= v for a factor c in [0, 1] and v >= 0. */
  lemma ScaleDown(c: real, v: real)
    requires 0.0 <= c <= 1.0 && v >= 0.0
    ensures 0.0 <= c * v <= v
  {
    assert v - c * v == (1.0 - c) * v;
  }

  /** Cancelling a positive factor preserves <=. */
  lemma CancelPositive(u: real, s: real, n: real)
    requires n > 0.0 && u * n <= s * n
    ensures u <= s
  {
    assert (s - u) * n == s * n - u * n;
  }

  /** An outflow rate*v over one step of length dt with dt*rate <= 1 removes
      at most v. */
  lemma OutflowBounded(rate: real, dt: real, v: real, flow: real)
    requires rate >= 0.0 && dt > 0.0 && dt * rate <= 1.0 && v >= 0.0
    requires flow == rate * v
    ensures 0.0 <= dt * flow <= v
  {
    assert dt * flow == (dt * rate) * v;
  }

  /** With no transmission and small steps, S stays exactly constant, E can
      only shrink and R can only grow. */
  lemma ZeroTransmission(p: SeirParameters, dt: real, x: Compartments)
    requires SmallStep(p, 0.0, dt)
    requires NonNeg(x) && Total(x) == p.population
    ensures Step(p, 0.0, dt, x).s == x.s
    ensures Step(p, 0.0, dt, x).e <= x.e
    ensures Step(p, 0.0, dt, x).r >= x.r
  {
    SmallStepNeedsNoGuardrails(p, 0.0, dt, x);
    var f := ComputeFlows(p, 0.0, x);
    Distribute(dt, f.infection, 0.0, 0.0);
    OutflowBounded(p.sigma, dt, x.e, f.incubation);
    OutflowBounded(p.gamma, dt, x.i, f.recovery);
    AdvanceByFlows(x, dt, f);
  }
}
