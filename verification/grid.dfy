/** The fixed time grid: `ceil(days / dt) + 1` points spaced `dt` apart from 0. */
module Grid {

  /** The ceiling of a real, written through `Floor`. */
  function Ceil(x: real): (c: int)
    ensures c as real - 1.0 < x <= c as real
  {
    -((-x).Floor)
  }

  /** Number of grid points. The last point may overshoot `days` by less than
      one step; the grid is not truncated. */
  function NumSteps(days: real, dt: real): (n: nat)
    requires dt > 0.0 && days > 0.0
    ensures n >= 2
    ensures (n - 2) as real < days / dt <= (n - 1) as real
  {
    PositiveQuotient(days, dt);
    Ceil(days / dt) + 1
  }

  /** The quotient of two positive reals is positive and times the divisor
      gives back the dividend. */
  lemma PositiveQuotient(a: real, b: real)
    requires a > 0.0 && b > 0.0
    ensures a / b > 0.0 && (a / b) * b == a
  {
  }

  /** Scaling the ceiling bounds c - 1 < q <= c by a positive dt. */
  lemma CeilScaled(q: real, dt: real, c: real)
    requires dt > 0.0 && c - 1.0 < q <= c
    ensures (c - 1.0) * dt < q * dt <= c * dt
  {
    assert (c - q) * dt >= 0.0;
    assert (q - (c - 1.0)) * dt > 0.0;
  }

  /** The k-th grid point. */
  function TimeAt(dt: real, k: nat): real {
    k as real * dt
  }

  /** The last grid point reaches `days` and the one before it does not: the
      grid overshoots `days` by less than one step. */
  lemma GridCoversDays(days: real, dt: real)
    requires dt > 0.0 && days > 0.0
    ensures TimeAt(dt, NumSteps(days, dt) - 2) < days <= TimeAt(dt, NumSteps(days, dt) - 1)
  {
    var n := NumSteps(days, dt);
    var c := (n - 1) as real;
    PositiveQuotient(days, dt);
    CeilScaled(days / dt, dt, c);
    assert TimeAt(dt, n - 1) == c * dt;
    assert TimeAt(dt, n - 2) == (c - 1.0) * dt;
  }

  /** The grid starts at 0, is strictly increasing and evenly spaced. */
  lemma GridShape(dt: real, j: nat, k: nat)
    requires dt > 0.0
    requires j < k
    ensures TimeAt(dt, 0) == 0.0
    ensures TimeAt(dt, j) < TimeAt(dt, k)
    ensures TimeAt(dt, k) - TimeAt(dt, j) == (k - j) as real * dt
  {
    assert (k - j) as real * dt > 0.0;
  }

  /** The default run (160 days at dt = 0.25) has 641 grid points. */
  lemma DefaultRunGrid()
    ensures NumSteps(160.0, 0.25) == 641
  {
    assert 160.0 / 0.25 == 640.0;
    assert Ceil(640.0) == 640;
  }
}
