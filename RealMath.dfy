/** Small arithmetic helpers shared by the layout and scroll modules: the
    `Math.max` / `Math.min` of the component on exact reals and integers, and
    the facts about floor division the boundary indices rely on. */
module RealMath {

  function Max(a: real, b: real): real { if a >= b then a else b }

  function Min(a: real, b: real): real { if a <= b then a else b }

  function MaxInt(a: int, b: int): int { if a >= b then a else b }

  function MinInt(a: int, b: int): int { if a <= b then a else b }

  /** `Math.floor(x / d)` for a positive divisor brackets `x` between two
      consecutive multiples of `d`. */
  lemma FloorDivBrackets(x: real, d: real)
    requires d > 0.0
    ensures ((x / d).Floor as real) * d <= x < ((x / d).Floor as real + 1.0) * d
  {
    var q := x / d;
    var f := q.Floor as real;
    assert q * d == x;
    assert f <= q < f + 1.0;
    MulLess(f, q, d);
    MulLess(q, f + 1.0, d);
    assert f * d <= q * d;
    assert f * d <= x;
    assert x < (f + 1.0) * d;
  }

  /** Multiplying by a positive factor keeps the order. */
  lemma MulLess(a: real, b: real, d: real)
    requires d > 0.0
    ensures a <= b ==> a * d <= b * d
    ensures a < b ==> a * d < b * d
  {
    assert (b - a) * d == b * d - a * d;
  }

  /** Multiplying a tab index by a positive width is monotone. */
  lemma MulMonotone(i: int, j: int, d: real)
    requires i <= j && d > 0.0
    ensures (i as real) * d <= (j as real) * d
  {
    assert ((j - i) as real) * d >= 0.0;
  }

  /** The next tab starts one tab width further right. */
  lemma MulSucc(i: int, d: real)
    ensures (i + 1) as real * d == (i as real) * d + d
  {
  }
}
