/**
 The backtester's correlation over the last `n` entries of two series.  Its sums are inner products
 of the centred series, so that what is known of inner products bounds the coefficient.
 */
module Pearson {
  import opened Prelude
  import opened Vectors

  const MIN_SAMPLES := 5

  ghost function Ratio(xy: real, xx: real, yy: real, sqrt: real -> real): real {
    var d := sqrt(xx * yy);
    if d == 0.0 then 0.0 else xy / d
  }

  /** The textbook coefficient of two series of one length; nothing is clamped. */
  ghost function Coefficient(xs: seq<real>, ys: seq<real>, sqrt: real -> real): real
    requires |xs| == |ys| > 0
  {
    var cx, cy := Centred(xs), Centred(ys);
    Ratio(Dot(cx, cy), Dot(cx, cx), Dot(cy, cy), sqrt)
  }

  function Window(x: seq<real>, y: seq<real>, n: nat): nat {
    var shorter := if |x| <= |y| then |x| else |y|;
    if shorter <= n then shorter else n
  }

  /** What the router reports: zero for too few samples, else the coefficient of the last ones. */
  ghost function Correlation(x: seq<real>, y: seq<real>, n: nat, sqrt: real -> real): real {
    var len := Window(x, y, n);
    if len < MIN_SAMPLES then 0.0 else Coefficient(LastN(x, len), LastN(y, len), sqrt)
  }

  lemma QuotientOrder(x: real, d: real)
    requires d > 0.0
    ensures x / d > 1.0 <==> x > d
    ensures x / d < 1.0 <==> x < d
    ensures x / d > -1.0 <==> x > -d
    ensures x / d < -1.0 <==> x < -d
  {
    var q := x / d;
    assert q * d == x;
    ProductOrder(q, 1.0, d);
    ProductOrder(q, -1.0, d);
  }

  lemma RootOf(a: real, b: real, sqrt: real -> real) returns (d: real)
    requires IsSqrt(sqrt) && a >= 0.0 && b >= 0.0
    ensures d == sqrt(a * b) && d >= 0.0 && Square(d) == a * b
    ensures a > 0.0 && b > 0.0 ==> d > 0.0
  {
    ProductSign(a, b);
    d := sqrt(a * b);
  }

  lemma RatioInRange(xy: real, xx: real, yy: real, sqrt: real -> real)
    requires IsSqrt(sqrt) && xx >= 0.0 && yy >= 0.0 && Square(xy) <= xx * yy
    ensures -1.0 <= Ratio(xy, xx, yy, sqrt) <= 1.0
  {
    var d := RootOf(xx, yy, sqrt);
    hide Square, IsSqrt;
    if d > 0.0 {
      SquareOrder(xy, d);
      QuotientOrder(xy, d);
    }
  }

  lemma RatioIsUnit(xy: real, xx: real, yy: real, sqrt: real -> real)
    requires IsSqrt(sqrt) && xx > 0.0 && yy > 0.0
    ensures Abs(Ratio(xy, xx, yy, sqrt)) == 1.0 <==> Square(xy) == xx * yy
  {
    var d := RootOf(xx, yy, sqrt);
    hide Square, IsSqrt;
    assert d > 0.0;
    SquareOrder(xy, d);
    QuotientOrder(xy, d);
  }

  lemma CoefficientInRange(xs: seq<real>, ys: seq<real>, sqrt: real -> real)
    requires IsSqrt(sqrt) && |xs| == |ys| > 0
    ensures -1.0 <= Coefficient(xs, ys, sqrt) <= 1.0
  {
    hide Dot, IsSqrt, Centred, Ratio;
    var cx, cy := Centred(xs), Centred(ys);
    CauchySchwarz(cx, cy);
    RatioInRange(Dot(cx, cy), Dot(cx, cx), Dot(cy, cy), sqrt);
  }

  lemma RatioSymmetric(xy: real, xx: real, yy: real, sqrt: real -> real)
    ensures Ratio(xy, xx, yy, sqrt) == Ratio(xy, yy, xx, sqrt)
  {
    assert xx * yy == yy * xx;
  }

  /** Swapping the two series changes nothing. */
  lemma CorrelationSymmetric(x: seq<real>, y: seq<real>, n: nat, sqrt: real -> real)
    ensures Correlation(x, y, n, sqrt) == Correlation(y, x, n, sqrt)
  {
    hide Dot, Ratio;
    var len := Window(x, y, n);
    if len >= MIN_SAMPLES {
      var cx, cy := Centred(LastN(x, len)), Centred(LastN(y, len));
      DotSymmetric(cx, cy);
      RatioSymmetric(Dot(cx, cy), Dot(cx, cx), Dot(cy, cy), sqrt);
    }
  }

  /** A coefficient of plus or minus one means exactly that the second series moves in
      proportion to the first. */
  lemma UnitIffProportional(xs: seq<real>, ys: seq<real>, sqrt: real -> real)
    requires IsSqrt(sqrt) && |xs| == |ys| > 0
    requires Dot(Centred(xs), Centred(xs)) > 0.0 && Dot(Centred(ys), Centred(ys)) > 0.0
    ensures Abs(Coefficient(xs, ys, sqrt)) == 1.0 <==> exists b: real :: Proportional(Centred(xs), Centred(ys), b)
  {
    hide Dot, Proportional, Centred, IsSqrt, Ratio;
    var cx, cy := Centred(xs), Centred(ys);
    RatioIsUnit(Dot(cx, cy), Dot(cx, cx), Dot(cy, cy), sqrt);
    TightIffProportional(cx, cy);
  }

  /** The loop itself: the three sums of products of the centred series. */
  method Products(xs: seq<real>, ys: seq<real>) returns (xy: real, xx: real, yy: real)
    requires |xs| == |ys| > 0
    ensures xy == Dot(Centred(xs), Centred(ys))
    ensures xx == Dot(Centred(xs), Centred(xs)) && yy == Dot(Centred(ys), Centred(ys))
  {
    hide Dot, Centred, Mean;
    var mx, my := Mean(xs), Mean(ys);
    xy, xx, yy := 0.0, 0.0, 0.0;
    ghost var cx, cy := Centred(xs), Centred(ys);
    DotsEmpty(cx, cy);
    for i := 0 to |xs|
      invariant xy == Dot(cx[..i], cy[..i]) && xx == Dot(cx[..i], cx[..i]) && yy == Dot(cy[..i], cy[..i])
    {
      CentredAt(xs, i);
      CentredAt(ys, i);
      var dx, dy := xs[i] - mx, ys[i] - my;
      DotsStep(cx, cy, i);
      xy, xx, yy := xy + dx * dy, xx + dx * dx, yy + dy * dy;
    }
    assert cx[..|xs|] == cx && cy[..|xs|] == cy;
  }

  /** The router's coefficient. Its clamp to [-1, 1] never changes the quotient. */
  method PearsonCorr(x: seq<real>, y: seq<real>, n: nat, sqrt: real -> real) returns (r: real)
    requires IsSqrt(sqrt)
    ensures r == Correlation(x, y, n, sqrt)
    ensures -1.0 <= r <= 1.0
    ensures |x| < 5 || |y| < 5 || n < 5 ==> r == 0.0
    ensures |x| >= 5 && |y| >= 5 && n >= 5 ==>
              var len := Window(x, y, n); r == Coefficient(LastN(x, len), LastN(y, len), sqrt)
  {
    hide Dot, IsSqrt, Ratio, Centred;
    var len := Window(x, y, n);
    if len < MIN_SAMPLES {
      return 0.0;
    }
    var xs, ys := LastN(x, len), LastN(y, len);
    var xy, xx, yy := Products(xs, ys);
    CoefficientInRange(xs, ys, sqrt);
    r := ClampedRatio(xy, xx, yy, sqrt);
  }

  /** The last two lines of the loop's function, where the clamp sits. */
  method ClampedRatio(xy: real, xx: real, yy: real, sqrt: real -> real) returns (r: real)
    ensures -1.0 <= Ratio(xy, xx, yy, sqrt) <= 1.0 ==> r == Ratio(xy, xx, yy, sqrt)
    ensures -1.0 <= r <= 1.0
  {
    var d := sqrt(xx * yy);
    r := if d == 0.0 then 0.0 else Clamp(xy / d);
  }

  function Clamp(a: real): real { Max(-1.0, Min(1.0, a)) }

  lemma DotsEmpty(u: seq<real>, v: seq<real>)
    requires |u| == |v|
    ensures Dot(u[..0], v[..0]) == Dot(u[..0], u[..0]) == Dot(v[..0], v[..0]) == 0.0
  {
  }

  lemma DotsStep(u: seq<real>, v: seq<real>, i: nat)
    requires |u| == |v| && i < |u|
    ensures Dot(u[..i + 1], v[..i + 1]) == Dot(u[..i], v[..i]) + u[i] * v[i]
    ensures Dot(u[..i + 1], u[..i + 1]) == Dot(u[..i], u[..i]) + u[i] * u[i]
    ensures Dot(v[..i + 1], v[..i + 1]) == Dot(v[..i], v[..i]) + v[i] * v[i]
  {
    assert u[..i + 1][..i] == u[..i] && v[..i + 1][..i] == v[..i];
  }

  /** Only the last entries count: what came before them changes nothing, on either side. */
  lemma OlderEntriesIgnored(older: seq<real>, x: seq<real>, y: seq<real>, n: nat, sqrt: real -> real)
    ensures |x| >= |y| || |x| >= n ==> Correlation(older + x, y, n, sqrt) == Correlation(x, y, n, sqrt)
    ensures |y| >= |x| || |y| >= n ==> Correlation(x, older + y, n, sqrt) == Correlation(x, y, n, sqrt)
  {
    hide Coefficient;
    var len := Window(x, y, n);
    if |x| >= len { LastOfLonger(older, x, len); }
    if |y| >= len { LastOfLonger(older, y, len); }
  }

  lemma LastOfLonger(older: seq<real>, s: seq<real>, n: nat)
    requires n <= |s|
    ensures LastN(older + s, n) == LastN(s, n)
  {
  }
}
