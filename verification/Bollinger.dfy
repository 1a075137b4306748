/**
 The O(1) sliding mean and variance over a ring buffer, and the Bollinger bands built on it.
 Arithmetic is over the reals; the square root is a parameter.
 */
module Bollinger {
  import opened Prelude

  // ---------------------------------------------------------------------------------------
  // The simple definitions
  // ---------------------------------------------------------------------------------------

  /** The sum of squared deviations from `m`. */
  function Deviation(w: seq<real>, m: real): (d: real)
    ensures d >= 0.0
  {
    if w == [] then 0.0
    else
      var x := w[|w| - 1] - m;
      Deviation(w[..|w| - 1], m) + x * x
  }

  function SumSquares(w: seq<real>): real {
    if w == [] then 0.0 else SumSquares(w[..|w| - 1]) + w[|w| - 1] * w[|w| - 1]
  }

  /** The same from the second moment, the sum and the size. */
  function Expansion(q: real, s: real, n: real, m: real): real { q - 2.0 * m * s + n * m * m }

  lemma ExpansionNext(q: real, s: real, n: real, m: real, x: real)
    ensures Expansion(q + Square(x), s + x, n + 1.0, m) == Expansion(q, s, n, m) + Square(x - m)
  {
  }

  ghost predicate Expanded(w: seq<real>, m: real) {
    Deviation(w, m) == Expansion(SumSquares(w), Sum(w), |w| as real, m)
  }

  lemma LastTerms(w: seq<real>, m: real)
    requires w != []
    ensures var v, x := w[..|w| - 1], w[|w| - 1];
            && Deviation(w, m) == Deviation(v, m) + Square(x - m)
            && SumSquares(w) == SumSquares(v) + Square(x)
            && Sum(w) == Sum(v) + x
            && |w| as real == |v| as real + 1.0
  {
  }

  lemma ExpandedNext(w: seq<real>, m: real)
    requires w != [] && Expanded(w[..|w| - 1], m)
    ensures Expanded(w, m)
  {
    hide Deviation, SumSquares, Sum, Expansion, Square;
    LastTerms(w, m);
    var v := w[..|w| - 1];
    ExpansionNext(SumSquares(v), Sum(v), |v| as real, m, w[|w| - 1]);
  }

  lemma {:induction false} DeviationExpanded(w: seq<real>, m: real)
    ensures Expanded(w, m)
  {
    if w != [] {
      DeviationExpanded(w[..|w| - 1], m);
      ExpandedNext(w, m);
    }
  }

  lemma SumSquaresAppend(s: seq<real>, x: real)
    ensures SumSquares(s + [x]) == SumSquares(s) + x * x
  {
    assert (s + [x])[..|s|] == s;
  }

  lemma {:induction false} SumSquaresHead(x: real, s: seq<real>)
    ensures SumSquares([x] + s) == x * x + SumSquares(s)
  {
    if s == [] {
      assert [x] + s == [x] && [x][..0] == [];
    } else {
      var n := |s| - 1;
      SumSquaresHead(x, s[..n]);
      assert ([x] + s)[..|s|] == [x] + s[..n];
    }
  }

  function Excess(w: seq<real>, m: real): real {
    if w == [] then 0.0 else Excess(w[..|w| - 1], m) + (w[|w| - 1] - m)
  }

  /** The deviations from the mean cancel out. */
  ghost predicate IsMean(m: real, w: seq<real>) { Excess(w, m) == 0.0 }

  lemma {:induction false} ExcessIs(w: seq<real>, m: real)
    ensures Excess(w, m) == Sum(w) - |w| as real * m
  {
    if w == [] {
      assert |w| as real * m == 0.0;
    } else {
      var n := |w| - 1;
      ExcessIs(w[..n], m);
      assert |w| as real * m == (n as real) * m + m;
    }
  }

  lemma MeanUnique(m: real, w: seq<real>)
    requires IsMean(m, w)
    ensures w != [] ==> m == Mean(w)
  {
    ExcessIs(w, m);
    if w != [] {
      var n := |w| as real;
      assert n * m / n == m;
    }
  }

  lemma AtMeanAlgebra(d: real, q: real, s: real, n: real, m: real)
    requires n * m == s && d == q - 2.0 * m * s + n * m * m
    ensures d == q - n * m * m
  {
    assert m * s == n * m * m;
  }

  /** Around the mean the deviation is the second moment minus n times the mean squared. */
  lemma DeviationAtMean(w: seq<real>, m: real)
    requires IsMean(m, w)
    ensures Deviation(w, m) == SumSquares(w) - |w| as real * m * m
  {
    ExcessIs(w, m);
    DeviationExpanded(w, m);
    AtMeanAlgebra(Deviation(w, m), SumSquares(w), Sum(w), |w| as real, m);
  }

  // ---------------------------------------------------------------------------------------
  // The two incremental steps
  // ---------------------------------------------------------------------------------------

  /** The size, mean, sum, deviation and second moment of a window. */
  datatype Moments = Moments(n: real, m: real, s: real, d: real, q: real) {
    ghost predicate Agree() { n * m == s && d == q - n * m * m }
  }

  ghost function MomentsOf(w: seq<real>, m: real): Moments {
    Moments(|w| as real, m, Sum(w), Deviation(w, m), SumSquares(w))
  }

  lemma MomentsAgree(w: seq<real>, m: real)
    requires IsMean(m, w)
    ensures MomentsOf(w, m).Agree()
  {
    ExcessIs(w, m);
    DeviationAtMean(w, m);
  }

  lemma WarmUpAlgebra(a: Moments, b: Moments, m: real, m': real, v: real, delta: real)
    requires a.Agree() && b.Agree() && a.m == m && b.m == m' && delta == v - m
    requires b.n == a.n + 1.0 && b.s == a.s + v && b.q == a.q + v * v
    ensures b.d == a.d + delta * (v - m')
  {
    var n, n' := a.n, b.n;
    assert (n' * m') * m' == (n * m + v) * m';
    assert (n' * m') * m == (n * m + v) * m;
  }

  lemma SlideAlgebra(a: Moments, b: Moments, m: real, m': real, v: real, e: real)
    requires a.Agree() && b.Agree() && a.m == m && b.m == m'
    requires b.n == a.n && b.s == a.s + (v - e) && b.q == a.q + v * v - e * e
    ensures b.d == a.d + (v - e) * (v - m' + e - m)
  {
    var n := a.n;
    assert (n * m') * m' == (n * m + (v - e)) * m';
    assert (n * m') * m == (n * m + (v - e)) * m;
  }

  lemma NudgedMean(n: real, m: real, s: real, a: real, m': real)
    requires n != 0.0 && n * m == s && m' == m + a / n
    ensures n * m' == s + a
  {
    assert n * (a / n) == a;
  }

  /** Welford's step: one more value, nothing evicted. */
  lemma WarmUpMean(w: seq<real>, m: real, v: real, delta: real, n: real, m': real)
    requires IsMean(m, w) && delta == v - m && n == |w| as real + 1.0 && m' == m + delta / n
    ensures IsMean(m', w + [v])
  {
    SumAppend(w, v);
    ExcessIs(w, m);
    ExcessIs(w + [v], m');
    assert n * m == Sum(w) + m;
    NudgedMean(n, m, Sum(w) + m, delta, m');
  }

  lemma WarmUpDeviation(w: seq<real>, m: real, v: real, delta: real, m': real)
    requires IsMean(m, w) && IsMean(m', w + [v]) && delta == v - m
    ensures Deviation(w + [v], m') == Deviation(w, m) + delta * (v - m')
  {
    SumAppend(w, v);
    SumSquaresAppend(w, v);
    MomentsAgree(w, m);
    MomentsAgree(w + [v], m');
    WarmUpAlgebra(MomentsOf(w, m), MomentsOf(w + [v], m'), m, m', v, delta);
  }

  /** The sliding step: the oldest value leaves as the new one enters. */
  lemma SlideSums(w: seq<real>, e: real, v: real)
    requires w != [] && e == w[0]
    ensures Sum(w[1..] + [v]) == Sum(w) + (v - e)
    ensures SumSquares(w[1..] + [v]) == SumSquares(w) + v * v - e * e
  {
    var rest := w[1..];
    assert w == [e] + rest;
    SumConcat([e], rest);
    assert Sum([e]) == e by { SumAppend([], e); assert [] + [e] == [e]; }
    SumAppend(rest, v);
    SumSquaresHead(e, rest);
    SumSquaresAppend(rest, v);
  }

  lemma SlideMean(w: seq<real>, m: real, m': real, e: real, v: real)
    requires w != [] && e == w[0] && IsMean(m, w) && m' == m + (v - e) / |w| as real
    ensures IsMean(m', w[1..] + [v])
  {
    SlideSums(w, e, v);
    ExcessIs(w, m);
    ExcessIs(w[1..] + [v], m');
    NudgedMean(|w| as real, m, Sum(w), v - e, m');
  }

  lemma SlideDeviation(w: seq<real>, m: real, m': real, e: real, v: real)
    requires w != [] && e == w[0] && IsMean(m, w) && IsMean(m', w[1..] + [v])
    ensures Deviation(w[1..] + [v], m') == Deviation(w, m) + (v - e) * (v - m' + e - m)
  {
    var w' := w[1..] + [v];
    SlideSums(w, e, v);
    MomentsAgree(w, m);
    MomentsAgree(w', m');
    SlideAlgebra(MomentsOf(w, m), MomentsOf(w', m'), m, m', v, e);
  }

  // ---------------------------------------------------------------------------------------
  // SlidingVariance
  // ---------------------------------------------------------------------------------------

  function SampleVariance(w: seq<real>): real {
    if |w| < 2 then 0.0 else Deviation(w, Mean(w)) / (|w| - 1) as real
  }

  lemma SampleVarianceSign(w: seq<real>)
    ensures SampleVariance(w) >= 0.0
  {
    if |w| >= 2 { QuotientSign(Deviation(w, Mean(w)), (|w| - 1) as real); }
  }

  lemma QuotientSign(d: real, n: real)
    requires d >= 0.0 && n > 0.0
    ensures d / n >= 0.0
  {
  }

  /** The squared differences of all pairs of values. */
  function PairSum(w: seq<real>): real {
    if w == [] then 0.0 else PairSum(w[..|w| - 1]) + Deviation(w[..|w| - 1], w[|w| - 1])
  }

  function Spread(q: real, s: real, n: real): real { n * q - Square(s) }

  lemma SpreadNext(q: real, s: real, n: real, x: real)
    ensures Spread(q + Square(x), s + x, n + 1.0) == Spread(q, s, n) + Expansion(q, s, n, x)
  {
  }

  lemma {:induction false} PairSumIs(w: seq<real>)
    ensures PairSum(w) == Spread(SumSquares(w), Sum(w), |w| as real)
  {
    if w != [] {
      hide Expansion, Spread, Deviation, SumSquares, Sum, Square;
      var v, x := w[..|w| - 1], w[|w| - 1];
      PairSumIs(v);
      LastTerms(w, x);
      DeviationExpanded(v, x);
      SpreadNext(SumSquares(v), Sum(v), |v| as real, x);
    } else {
      assert Square(0.0) == 0.0;
    }
  }

  /** The sample variance is half the mean squared difference of two different values, so it depends neither
      on a reference point nor on the order. */
  lemma VarianceOfPairs(w: seq<real>)
    requires |w| >= 2
    ensures (|w| - 1) as real * SampleVariance(w) == PairSum(w) / |w| as real
  {
    hide *;
    SampleTimes(w);
    DeviationOfPairs(w);
  }

  lemma SampleTimes(w: seq<real>)
    requires |w| >= 2
    ensures (|w| - 1) as real * SampleVariance(w) == Deviation(w, Mean(w))
  {
    hide Deviation, Mean;
    QuotientTimes(Deviation(w, Mean(w)), (|w| - 1) as real);
  }

  lemma DeviationOfPairs(w: seq<real>)
    requires w != []
    ensures Deviation(w, Mean(w)) == PairSum(w) / |w| as real
  {
    hide Moments.Agree, Spread, Deviation, SumSquares, Sum, Mean, PairSum, IsMean;
    ExcessAtMean(w);
    MomentsAgree(w, Mean(w));
    SpreadAtMean(MomentsOf(w, Mean(w)));
    PairSumIs(w);
    QuotientUnique(PairSum(w), |w| as real, Deviation(w, Mean(w)));
  }

  lemma SpreadAtMean(a: Moments)
    requires a.Agree()
    ensures a.n * a.d == Spread(a.q, a.s, a.n)
  {
    assert a.n * (a.n * a.m * a.m) == (a.n * a.m) * (a.n * a.m);
  }

  lemma ExcessAtMean(w: seq<real>)
    requires w != []
    ensures IsMean(Mean(w), w)
  {
    QuotientTimes(Sum(w), |w| as real);
    ExcessIs(w, Mean(w));
  }

  method WarmUp(ghost w: seq<real>, mean: real, m2: real, count: nat, value: real)
    returns (mean': real, m2': real)
    requires count == |w| + 1 && IsMean(mean, w) && m2 == Deviation(w, mean)
    ensures IsMean(mean', w + [value]) && m2' == Deviation(w + [value], mean')
  {
    var delta := value - mean;
    mean' := mean + delta / count as real;
    WarmUpMean(w, mean, value, delta, count as real, mean');
    m2' := m2 + delta * (value - mean');
    WarmUpDeviation(w, mean, value, delta, mean');
  }

  method Slide(ghost w: seq<real>, mean: real, m2: real, period: nat, evicted: real, value: real)
    returns (mean': real, m2': real, ghost clamped: bool)
    requires period == |w| >= 1 && evicted == w[0] && IsMean(mean, w) && m2 == Deviation(w, mean)
    ensures IsMean(mean', w[1..] + [value]) && m2' == Deviation(w[1..] + [value], mean')
    ensures !clamped
  {
    mean' := mean + (value - evicted) / period as real;
    m2' := m2 + (value - evicted) * (value - mean' + evicted - mean);
    SlideMean(w, mean, mean', evicted, value);
    SlideDeviation(w, mean, mean', evicted, value);
    clamped := m2' < 0.0;
    m2' := if m2' < 0.0 then 0.0 else m2';
  }

  class SlidingVariance {
    const period: nat
    const buf: array<real>
    var head: nat
    var count: nat
    var mean: real
    var m2: real
    ghost var window: seq<real>   // the values the ring buffer holds, oldest first

    ghost predicate Valid()
      reads this, buf
    {
      && buf.Length == period >= 1
      && count <= period && head < period
      && (count < period ==> head == count)
      && window == (if count < period then buf[..count] else buf[head..] + buf[..head])
      && IsMean(mean, window)
      && m2 == Deviation(window, mean)
    }

    constructor (period: nat)
      requires period >= 1
      ensures Valid() && fresh(buf) && this.period == period && window == []
    {
      this.period := period;
      buf := new real[period](_ => 0.0);
      head, count, mean, m2, window := 0, 0, 0.0, 0.0, [];
    }

    /** After the push the buffer holds the last `period` values, with their exact mean and sum
        of squared deviations; the guard against a negative sum never fires. */
    method Push(value: real) returns (ghost clamped: bool)
      requires Valid()
      modifies this, buf
      ensures Valid() && window == LastN(old(window) + [value], period)
      ensures !clamped
    {
      hide LastN, IsMean, Deviation, NextSlot;
      clamped := false;
      ghost var w, h := window, head;
      LastOfPushed(w, value, period);
      NextSlotIs(h, period);
      var evicted := buf[head];
      buf[head] := value;
      head := NextSlot(head, period);
      if count < period {
        count := count + 1;
        mean, m2 := WarmUp(w, mean, m2, count, value);
        window := w + [value];
        Appended(w, buf[..], h, head, value);
      } else {
        mean, m2, clamped := Slide(w, mean, m2, period, evicted, value);
        window := w[1..] + [value];
        Rotated(w, buf[..], h, head, value);
      }
    }

    function Variance(): (v: real)
      requires Valid()
      reads this, buf
      ensures v == SampleVariance(window)
    {
      MeanUnique(mean, window);
      if count < 2 then 0.0 else m2 / (count - 1) as real
    }

    predicate Ready()
      reads this
    {
      count >= period
    }
  }

  lemma LastOfPushed(w: seq<real>, v: real, n: nat)
    requires |w| <= n && 1 <= n
    ensures LastN(w + [v], n) == if |w| < n then w + [v] else w[1..] + [v]
  {
  }

  function NextSlot(h: nat, n: nat): nat
    requires h < n
  {
    (h + 1) % n
  }

  lemma NextSlotIs(h: nat, n: nat)
    requires h < n
    ensures NextSlot(h, n) == if h + 1 < n then h + 1 else 0
  {
  }

  /** Filling the next slot of a ring that is not yet full appends to the window. */
  lemma Appended(w: seq<real>, b: seq<real>, h: nat, head: nat, v: real)
    requires h < |b| && head == if h + 1 < |b| then h + 1 else 0
    requires b[h] == v && b[..h] == w
    ensures (if h + 1 < |b| then b[..h + 1] else b[head..] + b[..head]) == w + [v]
  {
    assert b[..h + 1] == w + [v];
  }

  /** Overwriting the oldest slot of a full ring and moving the head rotates the window. */
  lemma Rotated(w: seq<real>, b: seq<real>, h: nat, head: nat, v: real)
    requires h < |b| == |w| && head == if h + 1 < |b| then h + 1 else 0
    requires b[h] == v && w[1..] == b[h + 1..] + b[..h]
    ensures b[head..] + b[..head] == w[1..] + [v]
  {
    if h + 1 < |b| {
      assert b[..h + 1] == b[..h] + [v];
    } else {
      assert b == b[..h] + [v];
    }
  }

  /** Pushing one value after another keeps exactly the last `n` of all of them. */
  lemma LastNStep(h: seq<real>, v: real, n: nat)
    requires n >= 1
    ensures LastN(LastN(h, n) + [v], n) == LastN(h + [v], n)
  {
  }

  lemma LastNAll(h: seq<real>, n: nat)
    requires |h| <= n
    ensures LastN(h, n) == h
  {
  }

  method PushAll(stats: SlidingVariance, values: seq<real>)
    requires stats.Valid() && stats.window == []
    modifies stats, stats.buf
    ensures stats.Valid() && stats.window == LastN(values, stats.period)
  {
    hide LastN, SampleVariance, Deviation;
    ghost var pushed: seq<real> := [];
    LastNAll(pushed, stats.period);
    for i := 0 to |values|
      invariant pushed == values[..i]
      invariant stats.Valid() && stats.window == LastN(pushed, stats.period)
    {
      LastNStep(pushed, values[i], stats.period);
      pushed := pushed + [values[i]];
      var _ := stats.Push(values[i]);
    }
    assert values[..|values|] == values;
  }

  // ---------------------------------------------------------------------------------------
  // The bands
  // ---------------------------------------------------------------------------------------

  datatype Bands = Bands(upper: real, middle: real, lower: real, bandwidth: real, percentB: real, squeeze: bool)

  /** What the bands of a window promise: the mean in the middle, `multiplier` sample standard
      deviations on each side, and a percentB that places the price between them. */
  ghost predicate BandsOf(b: Bands, w: seq<real>, multiplier: real, price: real)
    requires |w| >= 1
  {
    && b.middle == Mean(w)
    && b.upper - b.middle == b.middle - b.lower
    && Square(b.upper - b.middle) == ScaledVariance(multiplier, w)
    && (multiplier >= 0.0 ==> b.lower <= b.middle <= b.upper)
    && (if b.upper == b.lower then b.percentB == 50.0
        else b.lower + b.percentB / 100.0 * (b.upper - b.lower) == price)
    && (if b.middle <= 0.0 then b.bandwidth == 0.0 else b.bandwidth / 100.0 * b.middle == b.upper - b.lower)
    && b.squeeze == (b.bandwidth < 4.0)
  }

  /** The square of `k` standard deviations. */
  function ScaledVariance(k: real, w: seq<real>): real { Square(k) * SampleVariance(w) }

  method HalfWidth(ghost w: seq<real>, variance: real, k: real, sqrt: real -> real) returns (half: real)
    requires IsSqrt(sqrt) && variance == SampleVariance(w)
    ensures Square(half) == ScaledVariance(k, w)
    ensures k >= 0.0 ==> half >= 0.0
  {
    SampleVarianceSign(w);
    var stddev := sqrt(variance);
    half := k * stddev;
    assert (k * stddev) * (k * stddev) == (k * k) * (stddev * stddev);
  }

  method Percent(a: real, b: real) returns (q: real)
    requires b != 0.0
    ensures q / 100.0 * b == a
  {
    q := a / b * 100.0;
    assert a / b * b == a;
    assert q / 100.0 == a / b;
  }

  method ComputeBands(ghost w: seq<real>, price: real, middle: real, variance: real, multiplier: real, sqrt: real -> real)
    returns (r: Option<Bands>)
    requires |w| >= 1 && IsSqrt(sqrt)
    requires middle == Mean(w) && variance == SampleVariance(w)
    ensures r.Some? && BandsOf(r.value, w, multiplier, price)
  {
    var half := HalfWidth(w, variance, multiplier, sqrt);
    var upper := middle + half;
    var lower := middle - half;
    var bandwidth, percentB := 0.0, 50.0;
    if middle > 0.0 { bandwidth := Percent(upper - lower, middle); }
    if upper != lower { percentB := Percent(price - lower, upper - lower); }
    r := Some(Bands(upper, middle, lower, bandwidth, percentB, bandwidth < 4.0));
    assert upper - middle == half;
  }

  class BollingerEngine {
    const stats: SlidingVariance
    const multiplier: real

    ghost predicate Valid()
      reads this, stats, stats.buf
    {
      stats.Valid()
    }

    constructor (period: nat, multiplier: real)
      requires period >= 1
      ensures Valid() && fresh(stats) && fresh(stats.buf)
      ensures stats.period == period && this.multiplier == multiplier && stats.window == []
    {
      stats := new SlidingVariance(period);
      this.multiplier := multiplier;
    }

    method Next(price: real, sqrt: real -> real) returns (r: Option<Bands>)
      requires Valid() && IsSqrt(sqrt)
      modifies stats, stats.buf
      ensures Valid() && stats.window == LastN(old(stats.window) + [price], stats.period)
      ensures r == None ==> |stats.window| < stats.period
      ensures r.Some? ==> |stats.window| == stats.period
      ensures r.Some? ==> BandsOf(r.value, stats.window, multiplier, price)
    {
      hide BandsOf, LastN, SampleVariance, Deviation, IsSqrt;
      var _ := stats.Push(price);
      if !stats.Ready() {
        return None;
      }
      MeanUnique(stats.mean, stats.window);
      r := ComputeBands(stats.window, price, stats.mean, stats.Variance(), multiplier, sqrt);
    }
  }
}
