/**
 The exponential moving average, streamed one price at a time and in batch.  The recursion over the
 whole series is the definition that both are compared with; the weighted sum is its closed form.
 */
module Ema {
  import opened Prelude
  import opened Vectors

  function Blend(price: real, prev: real, k: real): real { price * k + prev * (1.0 - k) }

  function Smoothing(period: nat): real { 2.0 / (period + 1) as real }

  /** The average after the whole series, from its newest value backwards. */
  function EmaOf(s: seq<real>, k: real): real
    requires s != []
  {
    var n := |s| - 1;
    if n == 0 then s[0] else Blend(s[n], EmaOf(s[..n], k), k)
  }

  lemma SmoothingRange(period: nat)
    requires period >= 1
    ensures 0.0 < Smoothing(period) <= 1.0
  {
  }

  lemma BlendWithin(price: real, prev: real, k: real, lo: real, hi: real)
    requires 0.0 <= k <= 1.0 && lo <= price <= hi && lo <= prev <= hi
    ensures lo <= Blend(price, prev, k) <= hi
  {
    assert (price - lo) * k >= 0.0 && (prev - lo) * (1.0 - k) >= 0.0;
    assert (hi - price) * k >= 0.0 && (hi - prev) * (1.0 - k) >= 0.0;
  }

  /** The average never leaves the range of the prices. */
  lemma {:induction false} EmaWithinPrices(s: seq<real>, period: nat, lo: real, hi: real)
    requires s != [] && period >= 1 && forall i | 0 <= i < |s| :: lo <= s[i] <= hi
    ensures lo <= EmaOf(s, Smoothing(period)) <= hi
  {
    var n := |s| - 1;
    if n > 0 {
      EmaWithinPrices(s[..n], period, lo, hi);
      SmoothingRange(period);
      BlendWithin(s[n], EmaOf(s[..n], Smoothing(period)), Smoothing(period), lo, hi);
    }
  }

  function Power(x: real, n: nat): real { if n == 0 then 1.0 else x * Power(x, n - 1) }

  /** How much each of `n` prices counts: geometrically less the older it is, the first one keeping
      all the weight it was given at the start. */
  function Weights(n: nat, k: real): (w: seq<real>)
    ensures |w| == n
  {
    seq(n, i requires 0 <= i < n => WeightAt(n, i, k))
  }

  function WeightAt(n: nat, i: nat, k: real): real
    requires i < n
  {
    if i == 0 then Power(1.0 - k, n - 1) else k * Power(1.0 - k, n - 1 - i)
  }

  lemma WeightsNext(n: nat, k: real, i: nat)
    requires i < n
    ensures WeightAt(n + 1, i, k) == (1.0 - k) * WeightAt(n, i, k)
    ensures WeightAt(n + 1, n, k) == k
  {
    if i > 0 {
      var f, w := 1.0 - k, Power(1.0 - k, n - 1 - i);
      assert Power(f, n - i) == f * w;
      assert k * (f * w) == f * (k * w);
    }
  }

  lemma {:induction false} DotScaled(u: seq<real>, scaled: seq<real>, v: seq<real>, f: real)
    requires |u| == |scaled| == |v| && forall i | 0 <= i < |u| :: scaled[i] == f * u[i]
    ensures Dot(scaled, v) == f * Dot(u, v)
  {
    var n := |u| - 1;
    if n >= 0 {
      DotScaled(u[..n], scaled[..n], v[..n], f);
      ScaledTerm(Dot(u[..n], v[..n]), u[n], v[n], f);
    } else {
      ZeroTimes(f);
    }
  }

  lemma ScaledTerm(d: real, x: real, y: real, f: real)
    ensures f * d + (f * x) * y == f * (d + x * y)
  {
  }

  lemma ZeroTimes(f: real)
    ensures f * 0.0 == 0.0
  {
  }

  function Times(x: real, y: real): real { x * y }

  ghost predicate IsScaled(u: seq<real>, scaled: seq<real>, f: real) {
    |u| == |scaled| && forall i | 0 <= i < |u| :: scaled[i] == f * u[i]
  }

  /** One more price scales all weights so far by `1 - k` and gives `k` to the newest. */
  lemma WeightsStep(n: nat, k: real)
    requires n >= 1
    ensures IsScaled(Weights(n, k), Weights(n + 1, k)[..n], 1.0 - k)
    ensures Weights(n + 1, k)[n] == k
  {
    hide WeightAt;
    forall i | 0 <= i < n ensures Weights(n + 1, k)[..n][i] == (1.0 - k) * Weights(n, k)[i] { WeightsNext(n, k, i); }
    WeightsNext(n, k, 0);
  }

  lemma DotScaledTimes(u: seq<real>, scaled: seq<real>, v: seq<real>, f: real)
    requires |u| == |v| && IsScaled(u, scaled, f)
    ensures Dot(scaled, v) == Times(f, Dot(u, v))
  {
    DotScaled(u, scaled, v, f);
  }

  lemma DotStepTimes(u: seq<real>, v: seq<real>, n: nat)
    requires |u| == |v| == n + 1
    ensures Dot(u, v) == Dot(u[..n], v[..n]) + Times(u[n], v[n])
  {
    DotStep(u, v, n);
  }

  lemma WeightedNext(s: seq<real>, k: real, prev: real)
    requires |s| >= 2 && prev == Dot(Weights(|s| - 1, k), s[..|s| - 1])
    ensures Blend(s[|s| - 1], prev, k) == Dot(Weights(|s|, k), s)
  {
    hide WeightAt, Weights, Dot, Blend, Times, IsScaled;
    var n := |s| - 1;
    var w := Weights(n + 1, k);
    WeightsStep(n, k);
    assert |w[..n]| == n;
    DotScaledTimes(Weights(n, k), w[..n], s[..n], 1.0 - k);
    DotStepTimes(w, s, n);
    LastTerm(s[n], prev, k);
  }

  /** The average is the weighted sum of all prices. */
  lemma {:induction false} EmaIsWeighted(s: seq<real>, k: real)
    requires s != []
    ensures EmaOf(s, k) == Dot(Weights(|s|, k), s)
  {
    hide WeightAt, Dot, Blend;
    if |s| == 1 {
      FirstWeight(k);
      DotOne(Weights(1, k), s);
    } else {
      EmaIsWeighted(s[..|s| - 1], k);
      WeightedNext(s, k, EmaOf(s[..|s| - 1], k));
    }
  }

  lemma FirstWeight(k: real)
    ensures WeightAt(1, 0, k) == 1.0
  {
  }

  lemma DotOne(w: seq<real>, s: seq<real>)
    requires |w| == |s| == 1 && w[0] == 1.0
    ensures Dot(w, s) == s[0]
  {
    DotStep(w, s, 0);
    DotEmpty(w[..0], s[..0]);
  }

  lemma LastTerm(price: real, prev: real, k: real)
    ensures Blend(price, prev, k) == Times(1.0 - k, prev) + Times(k, price)
  {
  }

  class EMAEngine {
    const period: nat
    const k: real
    var prev: Option<real>
    var samplesProcessed: nat
    ghost var fed: seq<real>

    ghost predicate Valid()
      reads this
    {
      && k == Smoothing(period)
      && samplesProcessed == |fed|
      && prev == if fed == [] then None else Some(EmaOf(fed, k))
    }

    constructor (period: nat)
      requires period >= 1
      ensures Valid() && fed == [] && this.period == period
    {
      this.period := period;
      k := Smoothing(period);
      prev, samplesProcessed, fed := None, 0, [];
    }

    method Next(price: real) returns (v: real)
      requires Valid()
      modifies this
      ensures Valid() && fed == old(fed) + [price] && prev == Some(v)
    {
      if prev.None? {
        prev := Some(price);
      } else {
        prev := Some(Blend(price, prev.value, k));
      }
      assert (fed + [price])[..|fed|] == fed;
      samplesProcessed := samplesProcessed + 1;
      fed := fed + [price];
      v := prev.value;
    }

    predicate Ready()
      reads this
    {
      samplesProcessed >= period
    }
  }

  /** Entry `i` of both batch forms is the streaming average after the first `i + 1` prices. */
  ghost predicate EmaSeries(out: seq<real>, values: seq<real>, period: nat) {
    |out| == |values| && forall i | 0 <= i < |out| :: out[i] == EmaOf(values[..i + 1], Smoothing(period))
  }

  method Compute(prices: seq<real>, period: nat) returns (out: seq<real>)
    requires period >= 1
    ensures EmaSeries(out, prices, period)
  {
    var engine := new EMAEngine(period);
    out := [];
    for i := 0 to |prices|
      invariant engine.Valid() && fresh(engine) && engine.period == period && engine.fed == prices[..i]
      invariant |out| == i
      invariant forall j | 0 <= j < i :: out[j] == EmaOf(prices[..j + 1], Smoothing(period))
    {
      assert prices[..i + 1] == prices[..i] + [prices[i]];
      var v := engine.Next(prices[i]);
      out := out + [v];
    }
  }

  /** The backtester's own loop. */
  method CalcEMA(values: seq<real>, period: nat) returns (out: seq<real>)
    requires period >= 1
    ensures EmaSeries(out, values, period)
  {
    if |values| == 0 {
      return [];
    }
    var k := Smoothing(period);
    out := [values[0]];
    for i := 1 to |values|
      invariant |out| == i
      invariant forall j | 0 <= j < i :: out[j] == EmaOf(values[..j + 1], k)
    {
      assert values[..i + 1][..i] == values[..i];
      out := out + [Blend(values[i], out[i - 1], k)];
    }
  }

  /** The standard factor: an average over `period` prices and a plain mean of as many have prices of the same
      age on average, half of `period - 1`. */
  lemma SmoothingAge(period: nat)
    requires period >= 1
    ensures (1.0 - Smoothing(period)) / Smoothing(period) == (period - 1) as real / 2.0
  {
    var n, k := period as real, Smoothing(period);
    assert k * (n + 1.0) == 2.0;
    SmoothingRange(period);
    assert (n - 1.0) / 2.0 * k == 1.0 - k;
    QuotientUnique(1.0 - k, k, (n - 1.0) / 2.0);
  }

  ghost predicate Climbing(v: seq<real>) { forall i, j | 0 <= i < j < |v| :: v[i] < v[j] }

  /** While every price beats all before it, the faster of two averages is ahead and both are behind the price. */
  lemma {:induction false} RisingAverages(v: seq<real>, fast: nat, slow: nat)
    requires 1 <= fast < slow && v != [] && Climbing(v)
    ensures var f, s := EmaOf(v, Smoothing(fast)), EmaOf(v, Smoothing(slow));
            if |v| == 1 then s == f == v[0] else s < f <= v[|v| - 1]
  {
    var n := |v| - 1;
    hide Blend, Smoothing;
    EmaWithinPrices(v, fast, v[0], v[n]);
    if n > 0 {
      RisingAverages(v[..n], fast, slow);
      EmaWithinPrices(v[..n], fast, v[0], v[n - 1]);
      FasterIsCloser(fast, slow);
      BlendsApart(v[n], EmaOf(v[..n], Smoothing(fast)), EmaOf(v[..n], Smoothing(slow)), Smoothing(fast), Smoothing(slow));
    }
  }

  lemma FasterIsCloser(fast: nat, slow: nat)
    requires 1 <= fast < slow
    ensures 0.0 < Smoothing(slow) < Smoothing(fast) <= 1.0
  {
    SmoothingRange(fast);
    SmoothingRange(slow);
    var f, s := (fast + 1) as real, (slow + 1) as real;
    QuotientTimes(2.0, f);
    QuotientTimes(2.0, s);
    ProductOrder(f, s, Smoothing(slow));
    ProductOrder(Smoothing(slow), Smoothing(fast), f);
  }

  lemma BlendsApart(x: real, f: real, s: real, kf: real, ks: real)
    requires x > f >= s && 0.0 < ks < kf <= 1.0
    ensures Blend(x, f, kf) > Blend(x, s, ks)
  {
    hide Blend, Times;
    BlendDifference(x, f, s, kf, ks);
    TimesSign(x - f, kf - ks);
    TimesSign(f - s, 1.0 - ks);
  }

  lemma BlendDifference(x: real, f: real, s: real, kf: real, ks: real)
    ensures Blend(x, f, kf) - Blend(x, s, ks) == Times(x - f, kf - ks) + Times(f - s, 1.0 - ks)
  {
  }

  lemma TimesSign(x: real, y: real)
    requires x >= 0.0 && y >= 0.0
    ensures Times(x, y) >= 0.0
    ensures x > 0.0 && y > 0.0 ==> Times(x, y) > 0.0
  {
    ProductSign(x, y);
  }

  /** Prices upside down have the average upside down. */
  lemma {:induction false} EmaMirrored(v: seq<real>, w: seq<real>, k: real)
    requires |v| == |w| > 0 && forall i | 0 <= i < |v| :: w[i] == -v[i]
    ensures EmaOf(w, k) == -EmaOf(v, k)
  {
    var n := |v| - 1;
    if n > 0 {
      hide Blend;
      EmaMirrored(v[..n], w[..n], k);
      BlendMirrored(v[n], EmaOf(v[..n], k), k);
    }
  }

  lemma BlendMirrored(x: real, e: real, k: real)
    ensures Blend(-x, -e, k) == -Blend(x, e, k)
  {
  }
}
