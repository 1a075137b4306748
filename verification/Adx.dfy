/** The average directional index with Wilder smoothing, its slope and its peak. */
module Adx {
  import opened Prelude
  import Rsi
  import opened Vectors

  datatype Candle = Candle(high: real, low: real, close: real) {
    predicate Ok() { low <= close <= high }
  }

  /** One candle's contribution, or the smoothed sums of them. */
  datatype Moves = Moves(tr: real, pdm: real, ndm: real) {
    /** Directional movement never exceeds the range. */
    predicate Bounded() { 0.0 <= pdm && 0.0 <= ndm && pdm + ndm <= tr }
    predicate NonNegative() { 0.0 <= tr && 0.0 <= pdm && 0.0 <= ndm }
    function Swapped(): Moves { Moves(tr, ndm, pdm) }
  }

  const HISTORY_WINDOW := 6

  function MovesOf(c: Candle, prev: Candle): Moves {
    var up, down := c.high - prev.high, prev.low - c.low;
    Moves(Max(c.high - c.low, Max(Abs(c.high - prev.close), Abs(c.low - prev.close))),
          if up > down then Max(up, 0.0) else 0.0,
          if down > up then Max(down, 0.0) else 0.0)
  }

  /** A plain sum for the first `period` samples, Wilder smoothing after. */
  function Smooth(s: real, x: real, samples: nat, period: nat): real
    requires period >= 1
  {
    if samples <= period then s + x else s - s / period as real + x
  }

  /** The smoothed sums after a series of candles. */
  function Sums(c: seq<Candle>, period: nat): Moves
    requires period >= 1
  {
    var n := |c| - 1;
    if n < 1 then Moves(0.0, 0.0, 0.0)
    else
      var s, m := Sums(c[..n], period), MovesOf(c[n], c[n - 1]);
      Moves(Smooth(s.tr, m.tr, n, period), Smooth(s.pdm, m.pdm, n, period), Smooth(s.ndm, m.ndm, n, period))
  }

  function Di(dm: real, tr: real): real { if tr > 0.0 then dm / tr * 100.0 else 0.0 }

  function DxFrom(pdi: real, ndi: real): real {
    if pdi + ndi > 0.0 then Abs(pdi - ndi) / (pdi + ndi) * 100.0 else 0.0
  }

  function Dx(s: Moves): real { DxFrom(Di(s.pdm, s.tr), Di(s.ndm, s.tr)) }

  /** One DX for every candle from the one that completes the first sum. */
  function DxSeries(c: seq<Candle>, period: nat): (d: seq<real>)
    requires period >= 1
    ensures |d| == if |c| <= period then 0 else |c| - period
  {
    if |c| <= period then [] else DxSeries(c[..|c| - 1], period) + [Dx(Sums(c, period))]
  }

  /** The ADX after a series: the mean of the last `period` DX values. */
  function AdxOf(c: seq<Candle>, period: nat): real
    requires period >= 1
  {
    if |c| <= period then 0.0 else Mean(LastN(DxSeries(c, period), period))
  }

  function AdxSeries(c: seq<Candle>, period: nat): (a: seq<real>)
    requires period >= 1
    ensures |a| == if |c| <= period then 0 else |c| - period
    ensures |c| > period ==> a[|a| - 1] == AdxOf(c, period)
  {
    if |c| <= period then [] else AdxSeries(c[..|c| - 1], period) + [AdxOf(c, period)]
  }

  // The smoothed sums are averages

  function RangeOf(m: Moves): real { m.tr }

  function UpOf(m: Moves): real { m.pdm }

  function DownOf(m: Moves): real { m.ndm }

  function Column(c: seq<Candle>, field: Moves -> real): (s: seq<real>)
    ensures |s| == if c == [] then 0 else |c| - 1
  {
    if c == [] then [] else seq(|c| - 1, i requires 0 <= i < |c| - 1 => field(MovesOf(c[i + 1], c[i])))
  }

  /** One of the three accumulators over its own series of moves. */
  function Smoothed(xs: seq<real>, period: nat): real
    requires period >= 1
  {
    var n := |xs| - 1;
    if n < 0 then 0.0 else Smooth(Smoothed(xs[..n], period), xs[n], n + 1, period)
  }

  ghost predicate IsColumn(field: Moves -> real) { field == RangeOf || field == UpOf || field == DownOf }

  lemma {:induction false} SumsByColumn(c: seq<Candle>, field: Moves -> real, period: nat)
    requires period >= 1 && IsColumn(field)
    ensures field(Sums(c, period)) == Smoothed(Column(c, field), period)
  {
    hide Smooth, MovesOf, Column;
    var n := |c| - 1;
    if n >= 1 {
      SumsByColumn(c[..n], field, period);
      ColumnNext(c, field);
    }
  }

  lemma ColumnNext(c: seq<Candle>, field: Moves -> real)
    requires |c| >= 2
    ensures var n := |c| - 1;
            Column(c, field)[..n - 1] == Column(c[..n], field) && Column(c, field)[n - 1] == field(MovesOf(c[n], c[n - 1]))
  {
  }

  lemma {:induction false} SmoothedSum(xs: seq<real>, period: nat)
    requires period >= 1 && |xs| <= period
    ensures Smoothed(xs, period) == Sum(xs)
  {
    if xs != [] {
      SmoothedSum(xs[..|xs| - 1], period);
    }
  }

  /** Each accumulator is the period times the Wilder average that the strength index uses, so a
      quotient of two of them is the quotient of two averages. */
  lemma {:induction false} SmoothedIsWilder(xs: seq<real>, period: nat)
    requires |xs| >= period >= 1
    ensures Smoothed(xs, period) == Times(period, Rsi.Wilder(xs, period))
  {
    hide Smooth, Rsi.WilderStep, Times, Rsi.Average;
    var n := |xs| - 1;
    if n + 1 == period {
      SmoothedSum(xs, period);
      AverageTimes(xs, period);
    } else {
      SmoothedIsWilder(xs[..n], period);
      SmoothIsStep(Rsi.Wilder(xs[..n], period), xs[n], n + 1, period);
    }
  }

  lemma AverageTimes(xs: seq<real>, period: nat)
    requires period >= 1
    ensures Times(period, Rsi.Average(xs, period)) == Sum(xs)
  {
    var p := period as real;
    assert Sum(xs) / p * p == Sum(xs);
  }

  function Times(period: nat, avg: real): real { period as real * avg }

  lemma SmoothIsStep(avg: real, x: real, samples: nat, period: nat)
    requires samples > period >= 1
    ensures Smooth(Times(period, avg), x, samples, period) == Times(period, Rsi.WilderStep(avg, x, period))
  {
    var p := period as real;
    assert (period - 1) as real == p - 1.0;
    QuotientUnique(p * avg, p, avg);
    assert p * ((avg * (p - 1.0) + x) / p) == avg * (p - 1.0) + x;
    assert avg * (p - 1.0) == p * avg - avg;
  }

  /** The directional indicators in terms of averages. */
  lemma SumsAreAverages(c: seq<Candle>, period: nat)
    requires |c| > period >= 1
    ensures Sums(c, period).tr == Times(period, Rsi.Wilder(Column(c, RangeOf), period))
    ensures Sums(c, period).pdm == Times(period, Rsi.Wilder(Column(c, UpOf), period))
    ensures Sums(c, period).ndm == Times(period, Rsi.Wilder(Column(c, DownOf), period))
  {
    hide Smoothed, Rsi.Wilder, Times, Column, Sums;
    SumsByColumn(c, RangeOf, period);
    SumsByColumn(c, UpOf, period);
    SumsByColumn(c, DownOf, period);
    SmoothedIsWilder(Column(c, RangeOf), period);
    SmoothedIsWilder(Column(c, UpOf), period);
    SmoothedIsWilder(Column(c, DownOf), period);
  }

  // Bounds

  function Kept(s: real, period: nat): real
    requires period >= 1
  {
    s - s / period as real
  }

  lemma KeptSign(s: real, period: nat)
    requires period >= 1 && s >= 0.0
    ensures Kept(s, period) >= 0.0
  {
    var q, p := s / period as real, period as real;
    assert q * p == s;
    ProductOrder(q, 0.0, p);
    ProductSign(q, p - 1.0);
    assert q * (p - 1.0) == q * p - q;
  }

  lemma KeptAdds(a: real, b: real, period: nat)
    requires period >= 1
    ensures Kept(a, period) + Kept(b, period) == Kept(a + b, period)
  {
    assert a / period as real + b / period as real == (a + b) / period as real;
  }

  lemma SmoothSign(s: real, x: real, samples: nat, period: nat)
    requires period >= 1 && s >= 0.0 && x >= 0.0
    ensures Smooth(s, x, samples, period) >= x
  {
    KeptSign(s, period);
  }

  lemma SmoothAdds(a: real, b: real, x: real, y: real, samples: nat, period: nat)
    requires period >= 1
    ensures Smooth(a, x, samples, period) + Smooth(b, y, samples, period) == Smooth(a + b, x + y, samples, period)
  {
    KeptAdds(a, b, period);
  }

  lemma MovesBounded(c: Candle, prev: Candle)
    ensures MovesOf(c, prev).NonNegative()
    ensures prev.Ok() ==> MovesOf(c, prev).Bounded()
  {
  }

  /** For every series of candles none of the three sums goes below zero. */
  lemma {:induction false} SumsNonNegative(c: seq<Candle>, period: nat)
    requires period >= 1
    ensures Sums(c, period).NonNegative()
  {
    hide Smooth;
    var n := |c| - 1;
    if n >= 1 {
      SumsNonNegative(c[..n], period);
      var s, m := Sums(c[..n], period), MovesOf(c[n], c[n - 1]);
      MovesBounded(c[n], c[n - 1]);
      SmoothSign(s.tr, m.tr, n, period);
      SmoothSign(s.pdm, m.pdm, n, period);
      SmoothSign(s.ndm, m.ndm, n, period);
    }
  }

  /** For candles that close between low and high, smoothing keeps directional movement within
      the true range. */
  lemma {:induction false} SumsBounded(c: seq<Candle>, period: nat)
    requires period >= 1 && forall i | 0 <= i < |c| :: c[i].Ok()
    ensures Sums(c, period).Bounded()
  {
    hide Smooth, MovesOf;
    var n := |c| - 1;
    if n >= 1 {
      SumsBounded(c[..n], period);
      var s, m := Sums(c[..n], period), MovesOf(c[n], c[n - 1]);
      MovesBounded(c[n], c[n - 1]);
      SmoothSign(s.pdm, m.pdm, n, period);
      SmoothSign(s.ndm, m.ndm, n, period);
      SmoothSign(s.tr - s.pdm - s.ndm, m.tr - m.pdm - m.ndm, n, period);
      SmoothAdds(s.pdm, s.ndm, m.pdm, m.ndm, n, period);
      SmoothAdds(s.pdm + s.ndm, s.tr - s.pdm - s.ndm, m.pdm + m.ndm, m.tr - m.pdm - m.ndm, n, period);
    }
  }

  lemma DiSum(s: Moves)
    requires s.Bounded()
    ensures 0.0 <= Di(s.pdm, s.tr) && 0.0 <= Di(s.ndm, s.tr)
    ensures Di(s.pdm, s.tr) + Di(s.ndm, s.tr) <= 100.0
  {
    if s.tr > 0.0 {
      QuotientRange(s.pdm, s.tr, 0.0, 1.0);
      QuotientRange(s.ndm, s.tr, 0.0, 1.0);
      QuotientRange(s.pdm + s.ndm, s.tr, 0.0, 1.0);
      QuotientUnique(s.pdm + s.ndm, s.tr, s.pdm / s.tr + s.ndm / s.tr);
    }
  }

  lemma DiSign(dm: real, tr: real)
    requires dm >= 0.0
    ensures Di(dm, tr) >= 0.0
  {
    if tr > 0.0 {
      assert dm / tr * tr == dm;
      ProductOrder(dm / tr, 0.0, tr);
    }
  }

  lemma DxFromRange(pdi: real, ndi: real)
    requires pdi >= 0.0 && ndi >= 0.0
    ensures 0.0 <= DxFrom(pdi, ndi) <= 100.0
  {
    var d := pdi + ndi;
    if d > 0.0 {
      QuotientRange(Abs(pdi - ndi), d, 0.0, 1.0);
    }
  }

  lemma {:induction false} SumRange(s: seq<real>, lo: real, hi: real)
    requires forall i | 0 <= i < |s| :: lo <= s[i] <= hi
    ensures lo * |s| as real <= Sum(s) <= hi * |s| as real
  {
    var n := |s| - 1;
    if n >= 0 {
      SumRange(s[..n], lo, hi);
      assert |s| as real == n as real + 1.0;
      assert lo * |s| as real == lo * n as real + lo && hi * |s| as real == hi * n as real + hi;
    }
  }

  lemma MeanRange(s: seq<real>, lo: real, hi: real)
    requires s != [] && forall i | 0 <= i < |s| :: lo <= s[i] <= hi
    ensures lo <= Mean(s) <= hi
  {
    SumRange(s, lo, hi);
    QuotientRange(Sum(s), |s| as real, lo, hi);
  }

  lemma {:induction false} DxSeriesRange(c: seq<Candle>, period: nat)
    requires period >= 1
    ensures forall i | 0 <= i < |DxSeries(c, period)| :: 0.0 <= DxSeries(c, period)[i] <= 100.0
  {
    hide Sums, DxFrom, Di;
    if |c| > period {
      DxSeriesRange(c[..|c| - 1], period);
      SumsNonNegative(c, period);
      var s := Sums(c, period);
      DiSign(s.pdm, s.tr);
      DiSign(s.ndm, s.tr);
      DxFromRange(Di(s.pdm, s.tr), Di(s.ndm, s.tr));
    }
  }

  /** Every ADX lies in [0, 100], whatever the candles. */
  lemma AdxRange(c: seq<Candle>, period: nat)
    requires period >= 1
    ensures 0.0 <= AdxOf(c, period) <= 100.0
  {
    hide Sums, Dx, Mean;
    if |c| > period {
      DxSeriesRange(c, period);
      MeanRange(LastN(DxSeries(c, period), period), 0.0, 100.0);
    }
  }

  // Direction

  /** The same market upside down. */
  function Mirror(c: Candle): Candle { Candle(-c.low, -c.high, -c.close) }

  function MirrorAll(c: seq<Candle>): seq<Candle> { seq(|c|, i requires 0 <= i < |c| => Mirror(c[i])) }

  lemma MovesMirrored(c: Candle, prev: Candle)
    ensures MovesOf(Mirror(c), Mirror(prev)) == MovesOf(c, prev).Swapped()
  {
  }

  /** Turning the market upside down exchanges the two directions and nothing else. */
  lemma {:induction false} SumsMirrored(c: seq<Candle>, period: nat)
    requires period >= 1
    ensures Sums(MirrorAll(c), period) == Sums(c, period).Swapped()
  {
    hide Smooth, MovesOf;
    var n := |c| - 1;
    if n >= 1 {
      SumsMirrored(c[..n], period);
      assert MirrorAll(c)[..n] == MirrorAll(c[..n]);
      MovesMirrored(c[n], c[n - 1]);
    }
  }

  lemma {:induction false} DxSeriesMirrored(c: seq<Candle>, period: nat)
    requires period >= 1
    ensures DxSeries(MirrorAll(c), period) == DxSeries(c, period)
  {
    hide Sums, Di, DxFrom;
    if |c| > period {
      DxSeriesMirrored(c[..|c| - 1], period);
      assert MirrorAll(c)[..|c| - 1] == MirrorAll(c[..|c| - 1]);
      SumsMirrored(c, period);
      var s := Sums(c, period);
      DxSymmetric(Di(s.pdm, s.tr), Di(s.ndm, s.tr));
    }
  }

  lemma DxSymmetric(a: real, b: real)
    ensures DxFrom(a, b) == DxFrom(b, a)
  {
    assert a + b == b + a && Abs(a - b) == Abs(b - a);
  }

  /** So the ADX measures strength, not direction. */
  lemma AdxMirrored(c: seq<Candle>, period: nat)
    requires period >= 1
    ensures AdxOf(MirrorAll(c), period) == AdxOf(c, period)
  {
    DxSeriesMirrored(c, period);
  }

  /** Every candle tops the one before and none undercuts it. */
  ghost predicate Rising(c: seq<Candle>) {
    forall i | 1 <= i < |c| :: c[i].high > c[i - 1].high && c[i].low >= c[i - 1].low
  }

  /** In a pure up-trend all movement is upwards. */
  lemma {:induction false} RisingSums(c: seq<Candle>, period: nat)
    requires period >= 1 && Rising(c) && |c| >= 2 && forall i | 0 <= i < |c| :: c[i].Ok()
    ensures Sums(c, period).ndm == 0.0 < Sums(c, period).pdm
    ensures Dx(Sums(c, period)) == 100.0
  {
    hide Smooth;
    var n := |c| - 1;
    RisingStep(c[..n], period);
    var s, m := Sums(c[..n], period), MovesOf(c[n], c[n - 1]);
    SumsNonNegative(c[..n], period);
    SmoothSign(s.pdm, m.pdm, n, period);
    SmoothZero(n, period);
    SumsBounded(c, period);
    OneSided(Sums(c, period));
  }

  lemma {:induction false} RisingDx(c: seq<Candle>, period: nat)
    requires period >= 1 && Rising(c) && forall i | 0 <= i < |c| :: c[i].Ok()
    ensures forall i | 0 <= i < |DxSeries(c, period)| :: DxSeries(c, period)[i] == 100.0
  {
    hide Sums, Dx;
    if |c| > period {
      RisingDx(c[..|c| - 1], period);
      RisingSums(c, period);
    }
  }

  /** ... and the ADX is at its ceiling. */
  lemma RisingAdx(c: seq<Candle>, period: nat)
    requires period >= 1 && Rising(c) && |c| > period && forall i | 0 <= i < |c| :: c[i].Ok()
    ensures AdxOf(c, period) == 100.0
  {
    hide Mean;
    RisingDx(c, period);
    MeanRange(LastN(DxSeries(c, period), period), 100.0, 100.0);
  }

  lemma {:induction false} RisingStep(c: seq<Candle>, period: nat)
    requires period >= 1 && Rising(c)
    ensures Sums(c, period).ndm == 0.0
  {
    hide Smooth;
    var n := |c| - 1;
    if n >= 1 {
      RisingStep(c[..n], period);
      SmoothZero(n, period);
    }
  }

  lemma SmoothZero(samples: nat, period: nat)
    requires period >= 1
    ensures Smooth(0.0, 0.0, samples, period) == 0.0
  {
  }

  lemma OneSided(s: Moves)
    requires s.Bounded() && s.ndm == 0.0 < s.pdm
    ensures Dx(s) == 100.0
  {
    var p := s.pdm / s.tr;
    assert p * s.tr == s.pdm;
    ProductOrder(p, 0.0, s.tr);
    QuotientUnique(0.0, s.tr, 0.0);
    var pdi := Di(s.pdm, s.tr);
    QuotientUnique(pdi, pdi, 1.0);
  }

  // The slope of the recent ADX values

  function Indices(n: nat): (xs: seq<real>)
    ensures |xs| == n
  {
    seq(n, i => i as real)
  }

  /** The regression slope over the candle index; zero for fewer than three values. */
  function SlopeOf(ys: seq<real>): real {
    if |ys| < 3 then 0.0
    else
      var cx := Centred(Indices(|ys|));
      var den := Dot(cx, cx);
      if den > 0.0 then Dot(cx, Centred(ys)) / den else 0.0
  }

  /** Where the regression line meets index zero. */
  function Intercept(ys: seq<real>): real
    requires ys != []
  {
    Mean(ys) - SlopeOf(ys) * Mean(Indices(|ys|))
  }

  lemma SpreadPositive(n: nat)
    requires n >= 2
    ensures Dot(Centred(Indices(n)), Centred(Indices(n))) > 0.0
  {
    hide Dot, Mean;
    var cx := Centred(Indices(n));
    assert cx[1] - cx[0] == 1.0;
    SquaresNonNegative(cx);
    if Dot(cx, cx) == 0.0 {
      ZeroSquares(cx);
      assert false;
    }
  }

  /** No straight line fits the recent values better than the one with this slope through their
      centre, and every other slope fits worse; the guard on the denominator never fires. */
  lemma SlopeIsLeastSquares(ys: seq<real>, d: real, a: real)
    requires |ys| >= 3
    ensures var xs, b := Indices(|ys|), SlopeOf(ys);
            var best, other := Residual(xs, ys, b, Intercept(ys)), Residual(xs, ys, d, a);
            Dot(best, best) <= Dot(other, other) && (d != b ==> Dot(best, best) < Dot(other, other))
  {
    hide Dot, Mean, Gap;
    var xs, b := Indices(|ys|), SlopeOf(ys);
    var cx, cy := Centred(xs), Centred(ys);
    SpreadPositive(|ys|);
    CentredSumsToZero(xs);
    CentredSumsToZero(ys);
    ShiftedResidual(xs, ys, b, Intercept(ys), 0.0);
    var c := a - Mean(ys) + d * Mean(xs);
    ShiftedResidual(xs, ys, d, a, c);
    LeastSquares(cx, cy, b, d, c);
  }

  lemma ShiftedResidual(xs: seq<real>, ys: seq<real>, b: real, a: real, c: real)
    requires |xs| == |ys| > 0 && c == a - Mean(ys) + b * Mean(xs)
    ensures Residual(xs, ys, b, a) == Residual(Centred(xs), Centred(ys), b, c)
  {
    hide Mean;
    forall i | 0 <= i < |xs|
      ensures Gap(xs[i], ys[i], b, a) == Gap(Centred(xs)[i], Centred(ys)[i], b, c)
    {
      ShiftedGap(xs[i], ys[i], b, a, Mean(xs), Mean(ys), c);
    }
  }

  lemma ShiftedGap(x: real, y: real, b: real, a: real, mx: real, my: real, c: real)
    requires c == a - my + b * mx
    ensures Gap(x, y, b, a) == Gap(x - mx, y - my, b, c)
  {
  }

  function Highest(s: seq<real>): (m: real)
    requires s != []
    ensures m in s && forall i | 0 <= i < |s| :: s[i] <= m
  {
    var n := |s| - 1;
    if n == 0 then s[0] else
      var m := Highest(s[..n]);
      assert m in s[..n];
      if s[n] > m then s[n] else m
  }

  /** The highest of the last six ADX values; zero before there is one. */
  function PeakOf(c: seq<Candle>, period: nat): real
    requires period >= 1
  {
    var recent := LastN(AdxSeries(c, period), HISTORY_WINDOW);
    if recent != [] then Highest(recent) else AdxOf(c, period)
  }

  // A market that only rises

  lemma {:induction false} RisingAdxSeries(c: seq<Candle>, period: nat)
    requires period >= 1 && Rising(c) && forall i | 0 <= i < |c| :: c[i].Ok()
    ensures forall i | 0 <= i < |AdxSeries(c, period)| :: AdxSeries(c, period)[i] == 100.0
  {
    hide AdxOf;
    if |c| > period {
      RisingAdxSeries(c[..|c| - 1], period);
      RisingAdx(c, period);
    }
  }

  lemma {:induction false} AdxSeriesMirrored(c: seq<Candle>, period: nat)
    requires period >= 1
    ensures AdxSeries(MirrorAll(c), period) == AdxSeries(c, period)
  {
    hide AdxOf;
    if |c| > period {
      AdxSeriesMirrored(c[..|c| - 1], period);
      assert MirrorAll(c)[..|c| - 1] == MirrorAll(c[..|c| - 1]);
      AdxMirrored(c, period);
    }
  }

  /** A flat series has no slope. */
  lemma FlatSlope(ys: seq<real>, y: real)
    requires forall i | 0 <= i < |ys| :: ys[i] == y
    ensures SlopeOf(ys) == 0.0
  {
    hide Dot, Mean;
    if |ys| >= 3 {
      MeanRange(ys, y, y);
      var cx := Centred(Indices(|ys|));
      ZeroDot(cx, Centred(ys));
      SpreadPositive(|ys|);
      QuotientUnique(0.0, Dot(cx, cx), 0.0);
    }
  }

  /** The strongest trend there is, without a change. */
  ghost predicate FullTrend(c: seq<Candle>, period: nat)
    requires period >= 1
  {
    AdxOf(c, period) == PeakOf(c, period) == 100.0 && SlopeOf(LastN(AdxSeries(c, period), HISTORY_WINDOW)) == 0.0
  }

  lemma RisingTrend(c: seq<Candle>, period: nat)
    requires period >= 1 && Rising(c) && |c| > period && forall i | 0 <= i < |c| :: c[i].Ok()
    ensures FullTrend(c, period) && FullTrend(MirrorAll(c), period)
  {
    hide AdxOf, SlopeOf;
    RisingAdx(c, period);
    AdxMirrored(c, period);
    RisingAdxSeries(c, period);
    AdxSeriesMirrored(c, period);
    FlatSlope(LastN(AdxSeries(c, period), HISTORY_WINDOW), 100.0);
  }

  // The engine

  class ADXEngine {
    const period: nat
    var prev: Option<Candle>
    var sums: Moves
    var dxValues: seq<real>
    var adxHistory: seq<real>
    var adx: real
    var samples: nat
    ghost var fed: seq<Candle>

    ghost predicate Valid()
      reads this
    {
      && period >= 1
      && prev == (if fed == [] then None else Some(fed[|fed| - 1]))
      && samples == (if fed == [] then 0 else |fed| - 1)
      && sums == Sums(fed, period)
      && dxValues == LastN(DxSeries(fed, period), period)
      && adxHistory == LastN(AdxSeries(fed, period), HISTORY_WINDOW)
      && adx == AdxOf(fed, period)
    }

    constructor (period: nat)
      requires period >= 1
      ensures Valid() && fed == [] && this.period == period
    {
      this.period := period;
      prev, sums, dxValues, adxHistory, adx, samples := None, Moves(0.0, 0.0, 0.0), [], [], 0.0, 0;
      fed := [];
    }

    method Next(candle: Candle) returns (r: Option<real>)
      requires Valid()
      modifies this
      ensures Valid() && fed == old(fed) + [candle]
      ensures r == if |fed| <= period then None else Some(AdxOf(fed, period))
      ensures r.Some? ==> 0.0 <= r.value <= 100.0 && r.value <= Peak()
    {
      hide MovesOf, Smooth, Dx, LastN, Mean;
      ghost var was := fed;
      fed := was + [candle];
      assert fed[..|was|] == was;
      if prev.None? {
        prev := Some(candle);
        return None;
      }
      var m := MovesOf(candle, prev.value);
      samples := samples + 1;
      sums := Moves(Smooth(sums.tr, m.tr, samples, period), Smooth(sums.pdm, m.pdm, samples, period),
                    Smooth(sums.ndm, m.ndm, samples, period));
      prev := Some(candle);
      if samples < period {
        return None;
      }
      LastNPush(DxSeries(was, period), Dx(sums), period);
      dxValues := Push(dxValues, Dx(sums), period);
      adx := Mean(dxValues);
      LastNPush(AdxSeries(was, period), adx, HISTORY_WINDOW);
      adxHistory := Push(adxHistory, adx, HISTORY_WINDOW);
      AdxRange(fed, period);
      r := Some(adx);
    }

    /** The slope of the recent values. */
    function Slope(): (s: real)
      requires Valid()
      reads this
      ensures s == SlopeOf(LastN(AdxSeries(fed, period), 6))
    {
      SlopeOf(adxHistory)
    }

    /** The highest of the recent values, which include the current one. */
    function Peak(): (p: real)
      requires Valid()
      reads this
      ensures p >= adx
      ensures p == PeakOf(fed, period)
      ensures var recent := LastN(AdxSeries(fed, period), 6);
              recent != [] ==> p in recent && forall i | 0 <= i < |recent| :: recent[i] <= p
    {
      if adxHistory != [] then Highest(adxHistory) else adx
    }
  }

  /** Append and, past the capacity, drop the oldest. */
  function Push<T>(s: seq<T>, x: T, n: nat): seq<T> {
    var t := s + [x];
    if |t| > n then t[1..] else t
  }

  lemma LastNPush<T>(s: seq<T>, x: T, n: nat)
    requires n >= 1
    ensures Push(LastN(s, n), x, n) == LastN(s + [x], n)
    ensures LastN(s + [x], n) != [] && LastN(s + [x], n)[|LastN(s + [x], n)| - 1] == x
  {
  }

  // What one candle contributes

  /** The true range spans the candle and the close before it. */
  lemma TrueRangeSpans(c: Candle, prev: Candle)
    requires c.low <= c.high
    ensures MovesOf(c, prev).tr == Max(c.high, prev.close) - Min(c.low, prev.close)
  {
  }

  /** Only the larger of the moves out of the previous candle counts, whole, and none of two equal ones; a
      candle within the previous one counts for nothing. */
  lemma OneDirection(c: Candle, prev: Candle)
    ensures var m, up, down := MovesOf(c, prev), c.high - prev.high, prev.low - c.low;
            && m.pdm >= 0.0 && m.ndm >= 0.0 && (m.pdm == 0.0 || m.ndm == 0.0)
            && (m.pdm > 0.0 <==> up > 0.0 && up > down) && (m.pdm > 0.0 ==> m.pdm == up)
            && (m.ndm > 0.0 <==> down > 0.0 && down > up) && (m.ndm > 0.0 ==> m.ndm == down)
  {
  }

  /** The ranges cancel: DX is the difference of the two directional sums in percent of their total. */
  lemma DxOfSums(s: Moves)
    requires s.NonNegative() && s.tr > 0.0 && s.pdm + s.ndm > 0.0
    ensures Dx(s) == 100.0 * Abs(s.pdm - s.ndm) / (s.pdm + s.ndm)
  {
    hide DxFrom, Abs;
    var p, n := s.pdm / s.tr, s.ndm / s.tr;
    QuotientTimes(s.pdm, s.tr);
    QuotientTimes(s.ndm, s.tr);
    DxShares(s.pdm, s.ndm, s.tr, p, n);
    assert Dx(s) == DxFrom(p * 100.0, n * 100.0);
  }

  lemma DxShares(a: real, b: real, t: real, p: real, n: real)
    requires t > 0.0 && a >= 0.0 && b >= 0.0 && a + b > 0.0 && p * t == a && n * t == b
    ensures DxFrom(p * 100.0, n * 100.0) == 100.0 * Abs(a - b) / (a + b)
  {
    assert (p + n) * t == a + b && (p - n) * t == a - b;
    ProductOrder(p + n, 0.0, t);
    ProductOrder(p, n, t);
    var total := p * 100.0 + n * 100.0;
    var q := Abs(p * 100.0 - n * 100.0) / total;
    assert q * total == Abs(p * 100.0 - n * 100.0) == 100.0 * Abs(p - n);
    assert Abs(p - n) * t == Abs(a - b);
    assert q * (100.0 * (a + b)) == q * total * t;
    QuotientUnique(100.0 * Abs(a - b), a + b, q * 100.0);
  }

  /** Each new DX takes the place of the one `period` before it in the mean that is the ADX. */
  lemma AdxStep(c: seq<Candle>, period: nat)
    requires period >= 1 && |c| > 2 * period
    ensures var d, before := DxSeries(c, period), c[..|c| - 1];
            period as real * AdxOf(c, period)
            == period as real * AdxOf(before, period) + Dx(Sums(c, period)) - d[|d| - 1 - period]
  {
    hide Dx, Sums, Mean;
    var before := c[..|c| - 1];
    var was := DxSeries(before, period);
    assert DxSeries(c, period) == was + [Dx(Sums(c, period))];
    MeanSlides(was, Dx(Sums(c, period)), period);
  }

  lemma MeanSlides(d: seq<real>, x: real, n: nat)
    requires 1 <= n <= |d|
    ensures Times(n, Mean(LastN(d + [x], n))) == Times(n, Mean(LastN(d, n))) + x - d[|d| - n]
  {
    var w := LastN(d, n);
    var rest := w[1..];
    assert LastN(d + [x], n) == rest + [x] && w == [w[0]] + rest;
    hide LastN, Times, Mean;
    SumConcat([w[0]], rest);
    SumAppend(rest, x);
    SumAppend([], w[0]);
    assert [] + [w[0]] == [w[0]];
    MeanTimes(rest + [x]);
    MeanTimes(w);
  }

  lemma MeanTimes(s: seq<real>)
    requires s != []
    ensures Times(|s|, Mean(s)) == Sum(s)
  {
    hide Sum;
    QuotientTimes(Sum(s), |s| as real);
  }
}
