/**
 Inner products of series, shared by the correlation and the regression slope: the Cauchy-Schwarz inequality
 with its case of equality, and the line of least squares.
 */
module Vectors {
  import opened Prelude

  function Dot(u: seq<real>, v: seq<real>): real
    requires |u| == |v|
  {
    var n := |u| - 1;
    if n < 0 then 0.0 else Dot(u[..n], v[..n]) + u[n] * v[n]
  }

  function Centred(s: seq<real>): (c: seq<real>)
    requires s != []
    ensures |c| == |s|
  {
    seq(|s|, i requires 0 <= i < |s| => s[i] - Mean(s))
  }

  lemma CentredAt(s: seq<real>, i: nat)
    requires i < |s|
    ensures Centred(s)[i] == s[i] - Mean(s)
  {
  }

  lemma {:induction false} CentredSum(s: seq<real>, c: seq<real>, m: real)
    requires |c| == |s| && forall i | 0 <= i < |s| :: c[i] == s[i] - m
    ensures Sum(c) == Sum(s) - |s| as real * m
  {
    var n := |s| - 1;
    if n >= 0 {
      CentredSum(s[..n], c[..n], m);
      assert |s| as real == n as real + 1.0;
      assert |s| as real * m == n as real * m + m;
    }
  }

  lemma CentredSumsToZero(s: seq<real>)
    requires s != []
    ensures Sum(Centred(s)) == 0.0
  {
    CentredSum(s, Centred(s), Mean(s));
  }

  function Gap(x: real, y: real, b: real, c: real): real { y - b * x - c }

  /** What is left of `v` after subtracting the line `b * u + c`. */
  function Residual(u: seq<real>, v: seq<real>, b: real, c: real): (r: seq<real>)
    requires |u| == |v|
  {
    seq(|u|, i requires 0 <= i < |u| => Gap(u[i], v[i], b, c))
  }

  lemma DotStep(u: seq<real>, v: seq<real>, n: nat)
    requires |u| == |v| == n + 1
    ensures Dot(u, v) == Dot(u[..n], v[..n]) + u[n] * v[n]
  {
  }

  lemma DotEmpty(u: seq<real>, v: seq<real>)
    requires |u| == |v| == 0
    ensures Dot(u, v) == 0.0
  {
  }

  lemma {:induction false} DotSymmetric(u: seq<real>, v: seq<real>)
    requires |u| == |v|
    ensures Dot(u, v) == Dot(v, u)
  {
    var n := |u| - 1;
    if n >= 0 {
      DotSymmetric(u[..n], v[..n]);
    }
  }

  lemma {:induction false} SquaresNonNegative(u: seq<real>)
    ensures Dot(u, u) >= 0.0
  {
    var n := |u| - 1;
    if n >= 0 {
      SquaresNonNegative(u[..n]);
      assert u[n] * u[n] >= 0.0;
    }
  }

  lemma SquareSign(x: real)
    ensures x * x >= 0.0
    ensures x * x == 0.0 ==> x == 0.0
  {
    if x != 0.0 {
      assert x * x / x == x;
    }
  }

  lemma {:induction false} ZeroSquares(u: seq<real>)
    requires Dot(u, u) == 0.0
    ensures forall i | 0 <= i < |u| :: u[i] == 0.0
  {
    var n := |u| - 1;
    if n >= 0 {
      SquaresNonNegative(u[..n]);
      SquareSign(u[n]);
      ZeroSquares(u[..n]);
      forall i | 0 <= i < n ensures u[i] == 0.0 {
        assert u[i] == u[..n][i];
      }
    }
  }

  /** The expanded sum of squared residuals, from the six sums it depends on. */
  function Expanded(vv: real, uv: real, uu: real, v: real, u: real, n: real, b: real, c: real): real {
    vv - 2.0 * (b * uv) + b * b * uu + n * (c * c) - 2.0 * (c * v) + 2.0 * (b * (c * u))
  }

  lemma ExpandedStep(
      vv: real, uv: real, uu: real, v: real, u: real, n: real, b: real, c: real, x: real, y: real,
      vv1: real, uv1: real, uu1: real, v1: real, u1: real, n1: real, e: real)
    requires e == Gap(x, y, b, c) && v1 == v + y && u1 == u + x && n1 == n + 1.0
    requires vv1 == vv + y * y && uv1 == uv + x * y && uu1 == uu + x * x
    ensures Expanded(vv1, uv1, uu1, v1, u1, n1, b, c)
         == Expanded(vv, uv, uu, v, u, n, b, c) + e * e
  {
  }

  lemma ExpandedZero(b: real, c: real)
    ensures Expanded(0.0, 0.0, 0.0, 0.0, 0.0, 0.0, b, c) == 0.0
  {
  }

  lemma {:induction false} ResidualSquares(u: seq<real>, v: seq<real>, b: real, c: real)
    requires |u| == |v|
    ensures Dot(Residual(u, v, b, c), Residual(u, v, b, c))
         == Expanded(Dot(v, v), Dot(u, v), Dot(u, u), Sum(v), Sum(u), |u| as real, b, c)
  {
    hide Expanded, Gap, Dot;
    var n := |u| - 1;
    var r := Residual(u, v, b, c);
    if n < 0 {
      DotEmpty(u, v);
      DotEmpty(u, u);
      DotEmpty(v, v);
      DotEmpty(r, r);
      ExpandedZero(b, c);
    } else {
      ResidualSquares(u[..n], v[..n], b, c);
      assert r[..n] == Residual(u[..n], v[..n], b, c);
      DotStep(r, r, n);
      DotStep(u, v, n);
      DotStep(u, u, n);
      DotStep(v, v, n);
      ExpandedStep(Dot(v[..n], v[..n]), Dot(u[..n], v[..n]), Dot(u[..n], u[..n]), Sum(v[..n]), Sum(u[..n]),
                   n as real, b, c, u[n], v[n],
                   Dot(v, v), Dot(u, v), Dot(u, u), Sum(v), Sum(u), |u| as real, r[n]);
    }
  }

  /** The squared residuals of `v` against `b * u`, as a quadratic in `b`. */
  predicate NonNegativeAt(vv: real, uv: real, uu: real, b: real) { vv - 2.0 * (b * uv) + b * b * uu >= 0.0 }

  lemma ResidualsNonNegative(u: seq<real>, v: seq<real>, b: real)
    requires |u| == |v|
    ensures NonNegativeAt(Dot(v, v), Dot(u, v), Dot(u, u), b)
  {
    hide Dot;
    ResidualSquares(u, v, b, 0.0);
    SquaresNonNegative(Residual(u, v, b, 0.0));
  }

  lemma DegenerateCase(vv: real, uv: real)
    requires uv != 0.0
    ensures !NonNegativeAt(vv, uv, 0.0, (vv + 1.0) / (2.0 * uv))
  {
    var b := (vv + 1.0) / (2.0 * uv);
    assert b * (2.0 * uv) == vv + 1.0;
  }

  /** A quadratic that is never negative has no two roots. */
  lemma Discriminant(vv: real, uv: real, uu: real)
    requires uu >= 0.0 && forall b: real :: NonNegativeAt(vv, uv, uu, b)
    ensures uv * uv <= uu * vv
  {
    if uu > 0.0 {
      var b := uv / uu;
      assert NonNegativeAt(vv, uv, uu, b);
      DiscriminantAt(vv, uv, uu, b);
    } else if uv != 0.0 {
      DegenerateCase(vv, uv);
      assert false;
    }
  }

  lemma DiscriminantAt(vv: real, uv: real, uu: real, b: real)
    requires uu > 0.0 && b * uu == uv && NonNegativeAt(vv, uv, uu, b)
    ensures uv * uv <= uu * vv
    ensures vv - 2.0 * (b * uv) + b * b * uu == vv - b * uv
  {
    assert b * b * uu == b * uv;
    assert vv - b * uv >= 0.0;
    assert uu * (vv - b * uv) >= 0.0;
    assert uu * (b * uv) == uv * uv;
  }

  /** The inequality behind every correlation. */
  lemma CauchySchwarz(u: seq<real>, v: seq<real>)
    requires |u| == |v|
    ensures Dot(u, v) * Dot(u, v) <= Dot(u, u) * Dot(v, v)
    ensures Dot(u, u) >= 0.0 && Dot(v, v) >= 0.0
  {
    hide Dot, NonNegativeAt;
    SquaresNonNegative(u);
    SquaresNonNegative(v);
    forall b: real
      ensures NonNegativeAt(Dot(v, v), Dot(u, v), Dot(u, u), b)
    {
      ResidualsNonNegative(u, v, b);
    }
    Discriminant(Dot(v, v), Dot(u, v), Dot(u, u));
  }

  lemma SquareGap(uv: real, uu: real, b: real, d: real, square: real)
    requires b * uu == uv && square == (d - b) * (d - b)
    ensures d * d * uu - 2.0 * (d * uv) == b * b * uu - 2.0 * (b * uv) + square * uu
  {
  }

  lemma ExpandedLeast(vv: real, uv: real, uu: real, n: real, b: real, d: real, c: real)
    requires uu > 0.0 && n >= 0.0 && b * uu == uv
    ensures Expanded(vv, uv, uu, 0.0, 0.0, n, b, 0.0) <= Expanded(vv, uv, uu, 0.0, 0.0, n, d, c)
    ensures d != b ==> Expanded(vv, uv, uu, 0.0, 0.0, n, b, 0.0) < Expanded(vv, uv, uu, 0.0, 0.0, n, d, c)
  {
    var square := (d - b) * (d - b);
    SquareGap(uv, uu, b, d, square);
    assert Expanded(vv, uv, uu, 0.0, 0.0, n, d, c)
        == Expanded(vv, uv, uu, 0.0, 0.0, n, b, 0.0) + square * uu + n * (c * c);
    hide Expanded;
    SquareSign(d - b);
    SquareSign(c);
    ProductSign(square, uu);
    ProductSign(n, c * c);
  }

  /** For centred series no other line leaves smaller squared residuals than the one through the
      origin with slope `b`, and every other slope leaves larger ones. */
  lemma LeastSquares(u: seq<real>, v: seq<real>, b: real, d: real, c: real)
    requires |u| == |v| && Sum(u) == 0.0 && Sum(v) == 0.0
    requires Dot(u, u) > 0.0 && b * Dot(u, u) == Dot(u, v)
    ensures Dot(Residual(u, v, b, 0.0), Residual(u, v, b, 0.0)) <= Dot(Residual(u, v, d, c), Residual(u, v, d, c))
    ensures d != b ==>
              Dot(Residual(u, v, b, 0.0), Residual(u, v, b, 0.0)) < Dot(Residual(u, v, d, c), Residual(u, v, d, c))
  {
    hide Dot, Expanded;
    ResidualSquares(u, v, b, 0.0);
    ResidualSquares(u, v, d, c);
    ExpandedLeast(Dot(v, v), Dot(u, v), Dot(u, u), |u| as real, b, d, c);
  }

  lemma ExpandedVanishes(vv: real, uv: real, uu: real, v: real, u: real, n: real, b: real)
    requires uu > 0.0 && b * uu == uv && uv * uv == uu * vv
    ensures Expanded(vv, uv, uu, v, u, n, b, 0.0) == 0.0
  {
    assert vv == b * uv;
    assert b * b * uu == b * uv;
  }

  lemma VanishingExpanded(vv: real, uv: real, uu: real, v: real, u: real, n: real, b: real)
    requires uu > 0.0 && uv * uv <= uu * vv && Expanded(vv, uv, uu, v, u, n, b, 0.0) == 0.0
    ensures uv * uv == uu * vv
  {
    assert vv - 2.0 * (b * uv) + b * b * uu == 0.0;
    var g := uv - b * uu;
    SquareSign(g);
    assert uu * (vv - 2.0 * (b * uv) + b * b * uu) == uu * vv - uv * uv + g * g;
  }

  /** `v` is the multiple `b` of `u`. */
  ghost predicate Proportional(u: seq<real>, v: seq<real>, b: real)
    requires |u| == |v|
  {
    forall i | 0 <= i < |u| :: Gap(u[i], v[i], b, 0.0) == 0.0
  }

  /** Cauchy-Schwarz is tight exactly for proportional series. */
  lemma TightIffProportional(u: seq<real>, v: seq<real>)
    requires |u| == |v| && Dot(u, u) > 0.0
    ensures Dot(u, v) * Dot(u, v) == Dot(u, u) * Dot(v, v) ==> Proportional(u, v, Dot(u, v) / Dot(u, u))
    ensures forall b: real | Proportional(u, v, b) :: Dot(u, v) * Dot(u, v) == Dot(u, u) * Dot(v, v)
  {
    hide Dot, Expanded, Gap;
    if Dot(u, v) * Dot(u, v) == Dot(u, u) * Dot(v, v) {
      TightProportional(u, v, Dot(u, v) / Dot(u, u));
    }
    forall b: real | Proportional(u, v, b)
      ensures Dot(u, v) * Dot(u, v) == Dot(u, u) * Dot(v, v)
    {
      ProportionalTight(u, v, b);
    }
  }

  lemma TightProportional(u: seq<real>, v: seq<real>, b: real)
    requires |u| == |v| && Dot(u, u) > 0.0 && b * Dot(u, u) == Dot(u, v)
    requires Dot(u, v) * Dot(u, v) == Dot(u, u) * Dot(v, v)
    ensures Proportional(u, v, b)
  {
    hide Dot, Expanded, Gap;
    ResidualSquares(u, v, b, 0.0);
    ExpandedVanishes(Dot(v, v), Dot(u, v), Dot(u, u), Sum(v), Sum(u), |u| as real, b);
    ZeroSquares(Residual(u, v, b, 0.0));
    forall i | 0 <= i < |u| ensures Gap(u[i], v[i], b, 0.0) == 0.0 {
      assert Residual(u, v, b, 0.0)[i] == 0.0;
    }
  }

  lemma ProportionalTight(u: seq<real>, v: seq<real>, b: real)
    requires |u| == |v| && Dot(u, u) > 0.0 && Proportional(u, v, b)
    ensures Dot(u, v) * Dot(u, v) == Dot(u, u) * Dot(v, v)
  {
    hide Dot, Expanded, Gap;
    ZeroDot(Residual(u, v, b, 0.0), Residual(u, v, b, 0.0));
    ResidualSquares(u, v, b, 0.0);
    CauchySchwarz(u, v);
    VanishingExpanded(Dot(v, v), Dot(u, v), Dot(u, u), Sum(v), Sum(u), |u| as real, b);
  }

  lemma {:induction false} ZeroDot(u: seq<real>, v: seq<real>)
    requires |u| == |v| && forall i | 0 <= i < |v| :: v[i] == 0.0
    ensures Dot(u, v) == 0.0
  {
    var n := |u| - 1;
    if n >= 0 {
      ZeroDot(u[..n], v[..n]);
    }
  }
}
