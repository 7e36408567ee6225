/** The closed-form PD cooperation curve of `pd_curve`: over an evenly spaced
    grid of per-edge costs `lam`, the cooperating fraction is 1 while the
    degree threshold `2*lam` is below `m` and `(m / (2*lam))^2` from there on,
    clipped to [0, 1]. The plot itself is not modelled. */
module PdCurve {
  import opened Basics

  /** `np.linspace(lo, hi, n)`: `n` evenly spaced points, the last one set to
      `hi` exactly when there are at least two. */
  function Linspace(lo: real, hi: real, n: nat): (xs: seq<real>)
    ensures |xs| == n
    ensures n >= 1 ==> xs[0] == lo
    ensures n >= 2 ==> xs[n - 1] == hi
    ensures n >= 2 ==> forall i :: 0 <= i < n - 1 ==> xs[i + 1] - xs[i] == (hi - lo) / (n - 1) as real
  {
    var step := if n >= 2 then (hi - lo) / (n - 1) as real else 0.0;
    var xs := seq(n, i requires 0 <= i < n => if n >= 2 && i == n - 1 then hi else lo + i as real * step);
    if n >= 2 then
      LinspaceEnd(lo, hi, n);
      xs
    else
      xs
  }

  lemma LinspaceEnd(lo: real, hi: real, n: nat)
    requires n >= 2
    ensures lo + (n - 1) as real * ((hi - lo) / (n - 1) as real) == hi
  {
    var d := (n - 1) as real;
    assert d * ((hi - lo) / d) == hi - lo;
  }

  /** One point of the curve: `np.where(2*lam < m, 1.0, (m/(2*lam))**2)`
      followed by `np.clip(.., 0.0, 1.0)`. For a positive `m` the clip never
      changes the value: the fraction is 1 below the threshold and
      `(m/(2*lam))^2` at or above it, and always in [0, 1]. */
  function PdFraction(m: real, lam: real): (r: real)
    requires m > 0.0
    ensures 0.0 <= r <= 1.0
    ensures 2.0 * lam < m ==> r == 1.0
    ensures 2.0 * lam >= m ==> r == (m / (2.0 * lam)) * (m / (2.0 * lam))
  {
    var threshold := 2.0 * lam;
    if threshold < m then Clip(1.0, 0.0, 1.0)
    else
      SquareOfRatioAtMostOne(m, threshold);
      Clip(Square(m / threshold), 0.0, 1.0)
  }

  function Square(x: real): real
  {
    x * x
  }

  lemma SquareOfRatioAtMostOne(m: real, t: real)
    requires 0.0 < m <= t
    ensures 0.0 < m / t <= 1.0
    ensures 0.0 < Square(m / t) <= 1.0
  {
    var x := m / t;
    assert x * t == m;
    assert x <= 1.0;
    assert x * x <= x;
  }

  /** Cooperation never rises with the per-edge cost. */
  lemma PdFractionNonIncreasing(m: real, lam1: real, lam2: real)
    requires m > 0.0 && lam1 <= lam2
    ensures PdFraction(m, lam2) <= PdFraction(m, lam1)
  {
    var t1, t2 := 2.0 * lam1, 2.0 * lam2;
    if t1 >= m {
      RatioShrinks(m, t1, t2);
      SquareMonotone(m / t2, m / t1);
      assert PdFraction(m, lam1) == Square(m / t1);
      assert PdFraction(m, lam2) == Square(m / t2);
    } else {
      assert PdFraction(m, lam1) == 1.0;
    }
  }

  lemma SquareMonotone(x: real, y: real)
    requires 0.0 <= x <= y
    ensures Square(x) <= Square(y)
  {
    assert x * x <= x * y;
    assert x * y <= y * y;
  }

  lemma RatioShrinks(m: real, t1: real, t2: real)
    requires 0.0 < m <= t1 <= t2
    ensures 0.0 < m / t2 <= m / t1
  {
    var x1, x2 := m / t1, m / t2;
    assert x1 * t1 == m && x2 * t2 == m;
    assert x2 * t1 <= x2 * t2;
  }

  /** The fractions plotted by `pd_curve(m, lam_max, npts)`: one per grid point,
      each in [0, 1], and non-increasing along the grid when `lam_max >= 0`. */
  function PdCurveFractions(m: real, lamMax: real, npts: nat): (fs: seq<real>)
    requires m > 0.0
    ensures |fs| == npts
    ensures forall i :: 0 <= i < npts ==> 0.0 <= fs[i] <= 1.0
    ensures forall i :: 0 <= i < npts ==> fs[i] == PdFraction(m, Linspace(0.0, lamMax, npts)[i])
  {
    var lam := Linspace(0.0, lamMax, npts);
    seq(npts, i requires 0 <= i < npts => PdFraction(m, lam[i]))
  }

  /** The curve never rises along the grid. With `lam_max >= 0` the grid
      rises and the fraction falls with the cost; with `lam_max < 0` every grid
      cost is at most 0, below the threshold, so every point is 1. */
  lemma PdCurveNonIncreasing(m: real, lamMax: real, npts: nat, i: nat, j: nat)
    requires m > 0.0 && i <= j < npts
    ensures PdCurveFractions(m, lamMax, npts)[j] <= PdCurveFractions(m, lamMax, npts)[i]
  {
    var lam := Linspace(0.0, lamMax, npts);
    if lamMax < 0.0 {
      LinspaceNonPositive(lamMax, npts, i);
      LinspaceNonPositive(lamMax, npts, j);
    } else if i < j {
      LinspaceRises(lamMax, npts, i, j);
      PdFractionNonIncreasing(m, lam[i], lam[j]);
    }
  }

  lemma LinspaceNonPositive(hi: real, n: nat, i: nat)
    requires hi < 0.0 && i < n
    ensures Linspace(0.0, hi, n)[i] <= 0.0
  {
    var xs := Linspace(0.0, hi, n);
    if n >= 2 && i < n - 1 {
      var step := (hi - 0.0) / (n - 1) as real;
      assert step < 0.0;
      ProductNonnegative(i as real, -step);
      assert xs[i] == i as real * step;
    }
  }

  lemma LinspaceRises(hi: real, n: nat, i: nat, j: nat)
    requires hi >= 0.0 && i < j < n
    ensures Linspace(0.0, hi, n)[i] <= Linspace(0.0, hi, n)[j]
  {
    var step := (hi - 0.0) / (n - 1) as real;
    assert step >= 0.0;
    var xs := Linspace(0.0, hi, n);
    assert xs[i] == i as real * step;
    if j == n - 1 {
      ProductNonnegative((n - 1) as real - i as real, step);
      LinspaceEnd(0.0, hi, n);
    } else {
      assert xs[j] == j as real * step;
      ProductNonnegative(j as real - i as real, step);
    }
  }
}
