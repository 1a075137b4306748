/** Wilder's relative strength index, streamed and in batch, without display rounding. */
module Rsi {
  import opened Prelude
  import Ema

  function Gain(change: real): real { Max(0.0, change) }

  function Gains(v: seq<real>): (g: seq<real>)
    ensures |g| == if v == [] then 0 else |v| - 1
    ensures NonNegative(g)
  {
    if v == [] then [] else seq(|v| - 1, i requires 0 <= i < |v| - 1 => Gain(v[i + 1] - v[i]))
  }

  function Losses(v: seq<real>): (l: seq<real>)
    ensures |l| == if v == [] then 0 else |v| - 1
    ensures NonNegative(l)
  {
    if v == [] then [] else seq(|v| - 1, i requires 0 <= i < |v| - 1 => Gain(v[i] - v[i + 1]))
  }

  ghost predicate NonNegative(moves: seq<real>) { forall i | 0 <= i < |moves| :: moves[i] >= 0.0 }

  function WilderStep(avg: real, x: real, period: nat): real
    requires period >= 1
  {
    (avg * (period - 1) as real + x) / period as real
  }

  function Average(moves: seq<real>, period: nat): real
    requires period >= 1
  {
    Sum(moves) / period as real
  }

  /** A plain average of the first `period` moves, then Wilder's smoothing. */
  function Wilder(moves: seq<real>, period: nat): real
    requires |moves| >= period >= 1
  {
    var n := |moves| - 1;
    if n + 1 == period then Average(moves, period) else WilderStep(Wilder(moves[..n], period), moves[n], period)
  }

  function Index(avgGain: real, avgLoss: real): real
    requires 0.0 <= avgGain && 0.0 <= avgLoss
  {
    if avgLoss == 0.0 then 100.0
    else
      RatioSign(avgGain, avgLoss);
      100.0 - 100.0 / (1.0 + avgGain / avgLoss)
  }

  lemma RatioSign(a: real, b: real)
    requires 0.0 <= a && 0.0 < b
    ensures a / b >= 0.0
  {
  }

  lemma WilderStepSign(avg: real, x: real, period: nat)
    requires 0.0 <= avg && 0.0 <= x && period >= 1
    ensures WilderStep(avg, x, period) >= 0.0
  {
    assert avg * (period - 1) as real >= 0.0;
    RatioSign(avg * (period - 1) as real + x, period as real);
  }

  lemma {:induction false} SumSign(s: seq<real>)
    requires NonNegative(s)
    ensures Sum(s) >= 0.0
  {
    if s != [] { SumSign(s[..|s| - 1]); }
  }

  lemma {:induction false} WilderSign(moves: seq<real>, period: nat)
    requires |moves| >= period >= 1 && NonNegative(moves)
    ensures Wilder(moves, period) >= 0.0
  {
    var n := |moves| - 1;
    if n + 1 == period {
      SumSign(moves);
      RatioSign(Sum(moves), period as real);
    } else {
      WilderSign(moves[..n], period);
      WilderStepSign(Wilder(moves[..n], period), moves[n], period);
    }
  }

  /** The index after a series long enough to have one. */
  function RsiOf(v: seq<real>, period: nat): real
    requires |v| > period >= 1
  {
    WilderSign(Gains(v), period);
    WilderSign(Losses(v), period);
    Index(Wilder(Gains(v), period), Wilder(Losses(v), period))
  }

  lemma IndexRange(g: real, l: real)
    requires 0.0 <= g && 0.0 <= l
    ensures 0.0 <= Index(g, l) <= 100.0
  {
    if l != 0.0 {
      RatioSign(g, l);
      Shrinks(1.0 + g / l);
    }
  }

  lemma Shrinks(d: real)
    requires d >= 1.0
    ensures 0.0 <= 100.0 / d <= 100.0
  {
    assert 100.0 / d * d == 100.0;
  }

  lemma RsiRange(v: seq<real>, period: nat)
    requires |v| > period >= 1
    ensures 0.0 <= RsiOf(v, period) <= 100.0
  {
    WilderSign(Gains(v), period);
    WilderSign(Losses(v), period);
    IndexRange(Wilder(Gains(v), period), Wilder(Losses(v), period));
  }

  lemma MovesOfPrefix(v: seq<real>, n: nat)
    requires 1 <= n <= |v|
    ensures Gains(v[..n]) == Gains(v)[..n - 1] && Losses(v[..n]) == Losses(v)[..n - 1]
  {
  }

  lemma MovesNext(v: seq<real>, price: real)
    requires v != []
    ensures Gains(v + [price]) == Gains(v) + [Gain(price - v[|v| - 1])]
    ensures Losses(v + [price]) == Losses(v) + [Gain(v[|v| - 1] - price)]
  {
    var w, n := v + [price], |v| - 1;
    assert w[..|v|] == v;
    MovesOfPrefix(w, |v|);
    assert Gains(w) == Gains(w)[..n] + [Gains(w)[n]];
    assert Losses(w) == Losses(w)[..n] + [Losses(w)[n]];
  }

  lemma WilderNext(moves: seq<real>, x: real, period: nat)
    requires |moves| >= period >= 1
    ensures Wilder(moves + [x], period) == WilderStep(Wilder(moves, period), x, period)
  {
    assert (moves + [x])[..|moves|] == moves;
  }

  /** Wilder's smoothing is the exponential average with factor one over the period, started from
      the plain average of the first `period` moves. */
  lemma {:induction false} WilderIsEma(moves: seq<real>, period: nat)
    requires |moves| >= period >= 1
    ensures Wilder(moves, period) ==
            Ema.EmaOf([Average(moves[..period], period)] + moves[period..], 1.0 / period as real)
  {
    hide Ema.Blend, WilderStep, Average;
    var n := |moves| - 1;
    var series := [Average(moves[..period], period)] + moves[period..];
    if n + 1 == period {
      assert moves[..period] == moves;
    } else {
      WilderIsEma(moves[..n], period);
      assert moves[..n][..period] == moves[..period];
      assert series[..|series| - 1] == [Average(moves[..period], period)] + moves[..n][period..];
      WilderStepIsBlend(Wilder(moves[..n], period), moves[n], period);
    }
  }

  lemma WilderStepIsBlend(avg: real, x: real, period: nat)
    requires period >= 1
    ensures WilderStep(avg, x, period) == Ema.Blend(x, avg, 1.0 / period as real)
  {
    var p := period as real;
    assert (period - 1) as real == p - 1.0;
    var k := 1.0 / p;
    assert k * p == 1.0;
    assert (x * k + avg * (1.0 - k)) * p == x * (k * p) + avg * (p - k * p);
    QuotientUnique(avg * (p - 1.0) + x, p, x * k + avg * (1.0 - k));
  }

  function Negated(v: seq<real>): (n: seq<real>)
    ensures |n| == |v|
  {
    seq(|v|, i requires 0 <= i < |v| => -v[i])
  }

  /** Turning a series upside down turns its index upside down; without any movement both are 100. */
  lemma RsiMirrored(v: seq<real>, period: nat)
    requires |v| > period >= 1
    ensures RsiOf(v, period) + RsiOf(Negated(v), period) ==
            if Wilder(Gains(v), period) == 0.0 == Wilder(Losses(v), period) then 200.0 else 100.0
  {
    assert Gains(Negated(v)) == Losses(v) && Losses(Negated(v)) == Gains(v);
    WilderSign(Gains(v), period);
    WilderSign(Losses(v), period);
    IndexMirrored(Wilder(Gains(v), period), Wilder(Losses(v), period));
  }

  lemma IndexMirrored(g: real, l: real)
    requires 0.0 <= g && 0.0 <= l
    ensures Index(g, l) + Index(l, g) == if g == 0.0 == l then 200.0 else 100.0
  {
    if g > 0.0 && l > 0.0 {
      var t := g + l;
      Share(g, l, t);
      Share(l, g, t);
    }
  }

  lemma Share(g: real, l: real, t: real)
    requires g > 0.0 && l > 0.0 && t == g + l
    ensures 100.0 / (1.0 + g / l) == 100.0 * l / t
  {
    var d := 1.0 + g / l;
    assert g / l * l == g;
    assert d * l == t;
    RatioSign(g, l);
    assert (100.0 * l / t) * t == 100.0 * l;
    assert 100.0 * l / t * d * l == 100.0 * l / t * t;
    QuotientUnique(100.0, d, 100.0 * l / t);
  }

  // ---------------------------------------------------------------------------------------
  // Streaming
  // ---------------------------------------------------------------------------------------

  method Seed(moves: seq<real>, period: nat) returns (avg: real)
    requires |moves| == period >= 1
    ensures avg == Wilder(moves, period)
  {
    avg := Average(moves, period);
  }

  method Smooth(ghost moves: seq<real>, avg: real, x: real, period: nat) returns (next: real)
    requires |moves| >= period >= 1 && avg == Wilder(moves, period)
    ensures next == Wilder(moves + [x], period)
  {
    WilderNext(moves, x, period);
    next := WilderStep(avg, x, period);
  }

  /** The index is that of the two averages, which are never negative. */
  lemma IndexOfAverages(v: seq<real>, period: nat)
    requires |v| > period >= 1
    ensures Wilder(Gains(v), period) >= 0.0 && Wilder(Losses(v), period) >= 0.0
    ensures RsiOf(v, period) == Index(Wilder(Gains(v), period), Wilder(Losses(v), period))
  {
    WilderSign(Gains(v), period);
    WilderSign(Losses(v), period);
  }

  class RSIEngine {
    const period: nat
    var prev: Option<real>
    var avgGain: real
    var avgLoss: real
    var seedGains: seq<real>
    var seedLosses: seq<real>
    var initialized: bool
    ghost var fed: seq<real>

    ghost predicate Valid()
      reads this
    {
      && period >= 2
      && prev == (if fed == [] then None else Some(fed[|fed| - 1]))
      && initialized == (|fed| > period)
      && (|fed| <= period ==> seedGains == Gains(fed) && seedLosses == Losses(fed))
      && (|fed| > period ==> avgGain == Wilder(Gains(fed), period) && avgLoss == Wilder(Losses(fed), period))
    }

    constructor (period: nat)
      requires period >= 2
      ensures Valid() && fed == [] && this.period == period
    {
      this.period := period;
      prev, avgGain, avgLoss, seedGains, seedLosses := None, 0.0, 0.0, [], [];
      initialized, fed := false, [];
    }

    method Next(price: real) returns (r: Option<real>)
      requires Valid()
      modifies this
      ensures Valid() && fed == old(fed) + [price]
      ensures r == if |fed| <= period then None else Some(RsiOf(fed, period))
    {
      hide Wilder, RsiOf, Gains, Losses, WilderStep, Average, Index;
      ghost var was := fed;
      fed := fed + [price];
      if prev.None? {
        prev := Some(price);
        return None;
      }
      MovesNext(was, price);
      var change := price - prev.value;
      prev := Some(price);
      var gain := Gain(change);
      var loss := Gain(-change);
      if !initialized {
        seedGains := seedGains + [gain];
        seedLosses := seedLosses + [loss];
        if |seedGains| < period {
          return None;
        }
        avgGain := Seed(seedGains, period);
        avgLoss := Seed(seedLosses, period);
        initialized := true;
      } else {
        avgGain := Smooth(Gains(was), avgGain, gain, period);
        avgLoss := Smooth(Losses(was), avgLoss, loss, period);
      }
      IndexOfAverages(fed, period);
      r := Some(Index(avgGain, avgLoss));
    }
  }

  // ---------------------------------------------------------------------------------------
  // Batch
  // ---------------------------------------------------------------------------------------

  const NEUTRAL: real := 50.0

  /** The backtester's loop.  Its entry `k` is the index after candle `k + 1`, one candle later
      than a reader of `rsi[k]` at candle `k` would expect, and it has one entry too few. */
  method CalcRSI(values: seq<real>, period: nat) returns (rsi: seq<real>)
    requires period >= 1
    ensures |values| <= period ==> rsi == seq(|values|, _ => 50.0)
    ensures |values| > period ==> |rsi| == |values| - 1
    ensures forall k | 0 <= k < |rsi| && k < period :: rsi[k] == 50.0
    ensures forall k | period <= k < |rsi| :: k + 2 <= |values| && rsi[k] == RsiOf(values[..k + 2], period)
  {
    hide Wilder, RsiOf, Gains, Losses, WilderStep, Average, Index;
    if |values| < period + 1 {
      return seq(|values|, _ => NEUTRAL);
    }
    rsi := seq(period, _ => NEUTRAL);
    var gains, losses := Gains(values), Losses(values);
    var ag := Seed(gains[..period], period);
    var al := Seed(losses[..period], period);
    for i := period to |gains|
      invariant |rsi| == i
      invariant ag == Wilder(gains[..i], period) && al == Wilder(losses[..i], period)
      invariant forall k | 0 <= k < period :: rsi[k] == NEUTRAL
      invariant forall k | period <= k < i :: rsi[k] == RsiOf(values[..k + 2], period)
    {
      assert gains[..i + 1] == gains[..i] + [gains[i]] && losses[..i + 1] == losses[..i] + [losses[i]];
      ag := Smooth(gains[..i], ag, gains[i], period);
      al := Smooth(losses[..i], al, losses[i], period);
      MovesOfPrefix(values, i + 2);
      IndexOfAverages(values[..i + 2], period);
      rsi := rsi + [Index(ag, al)];
    }
  }

  /** Two indices are equal exactly if both stand without losses, or gains and losses are in the same
      proportion. */
  lemma IndexEqualIff(g: real, l: real, g': real, l': real)
    requires 0.0 <= g && 0.0 <= l && 0.0 <= g' && 0.0 <= l'
    ensures Index(g, l) == Index(g', l') <==> if l == 0.0 || l' == 0.0 then l == l' else g * l' == g' * l
  {
    if l > 0.0 { BelowHundred(g, l); }
    if l' > 0.0 { BelowHundred(g', l'); }
    if l > 0.0 && l' > 0.0 {
      RatioSign(g, l);
      RatioSign(g', l');
      SameReciprocal(1.0 + g / l, 1.0 + g' / l');
      SameRatio(g, l, g', l');
    }
  }

  lemma BelowHundred(g: real, l: real)
    requires 0.0 <= g && 0.0 < l
    ensures Index(g, l) < 100.0
  {
    RatioSign(g, l);
    var d := 1.0 + g / l;
    assert 100.0 / d * d == 100.0;
  }

  lemma SameReciprocal(d: real, d': real)
    requires d >= 1.0 && d' >= 1.0
    ensures 100.0 / d == 100.0 / d' <==> d == d'
  {
    assert 100.0 / d * d == 100.0 && 100.0 / d' * d' == 100.0;
  }

  lemma SameRatio(g: real, l: real, g': real, l': real)
    requires l > 0.0 && l' > 0.0
    ensures g / l == g' / l' <==> g * l' == g' * l
  {
    var q, q' := g / l, g' / l';
    assert q * l == g && q' * l' == g';
    assert g * l' == q * (l * l') && g' * l == q' * (l * l');
    ProductSign(l, l');
    ProductOrder(q, q', l * l');
  }

  lemma StepTimesPeriod(avg: real, x: real, period: nat)
    requires period >= 1
    ensures WilderStep(avg, x, period) * period as real == avg * (period - 1) as real + x
  {
  }

  /** A step of both averages keeps their proportion exactly if the move has it. */
  lemma SameProportion(g: real, l: real, gain: real, loss: real, period: nat)
    requires period >= 1
    ensures g * WilderStep(l, loss, period) == WilderStep(g, gain, period) * l <==> g * loss == l * gain
  {
    var p, l', g' := period as real, WilderStep(l, loss, period), WilderStep(g, gain, period);
    StepTimesPeriod(l, loss, period);
    StepTimesPeriod(g, gain, period);
    var q := (period - 1) as real;
    assert (g * l') * p == g * (l' * p) && (g' * l) * p == (g' * p) * l;
    assert g * (l * q + loss) - (g * q + gain) * l == g * loss - l * gain;
    assert (g * l' - g' * l) * p == g * loss - l * gain;
  }

  /** The average of losses is zero after the step exactly if the move is no loss and, unless the period
      is one, none came before. */
  lemma LossGone(l: real, loss: real, period: nat)
    requires period >= 1 && l >= 0.0 && loss >= 0.0
    ensures WilderStep(l, loss, period) == 0.0 <==> loss == 0.0 && (l == 0.0 || period == 1)
  {
    var q := (period - 1) as real;
    StepTimesPeriod(l, loss, period);
    if period > 1 && l > 0.0 { ProductSign(l, q); }
    assert period == 1 || l == 0.0 ==> l * q == 0.0;
  }

  /** The index after one more candle, from the averages before it and its own move. */
  lemma NextIndex(v: seq<real>, price: real, period: nat)
    requires |v| > period >= 1
    ensures var g, l, last := Wilder(Gains(v), period), Wilder(Losses(v), period), v[|v| - 1];
            && g >= 0.0 && l >= 0.0
            && WilderStep(g, Gain(price - last), period) >= 0.0 && WilderStep(l, Gain(last - price), period) >= 0.0
            && RsiOf(v + [price], period)
               == Index(WilderStep(g, Gain(price - last), period), WilderStep(l, Gain(last - price), period))
  {
    hide Wilder, Index, WilderStep;
    var last := v[|v| - 1];
    MovesNext(v, price);
    WilderNext(Gains(v), Gain(price - last), period);
    WilderNext(Losses(v), Gain(last - price), period);
    WilderSign(Gains(v), period);
    WilderSign(Losses(v), period);
    WilderSign(Gains(v + [price]), period);
    WilderSign(Losses(v + [price]), period);
  }

  /** One more candle leaves the index as it is exactly if it moves by the proportion of the averages so
      far, or, while these show no loss, if it does not fall. */
  lemma UnchangedIff(v: seq<real>, price: real, period: nat)
    requires |v| > period >= 1
    ensures var g, l, last := Wilder(Gains(v), period), Wilder(Losses(v), period), v[|v| - 1];
            RsiOf(v + [price], period) == RsiOf(v, period) <==>
              if l == 0.0 then price >= last
              else g * Gain(last - price) == l * Gain(price - last) && (period == 1 ==> price < last)
  {
    hide Wilder, Index, WilderStep, Gains, Losses;
    var g, l, last := Wilder(Gains(v), period), Wilder(Losses(v), period), v[|v| - 1];
    var gain, loss := Gain(price - last), Gain(last - price);
    NextIndex(v, price, period);
    IndexEqualIff(g, l, WilderStep(g, gain, period), WilderStep(l, loss, period));
    SameProportion(g, l, gain, loss, period);
    LossGone(l, loss, period);
  }

  /** Entry `k` of the backtester is the index at candle `k`, which a reader expects there, exactly if
      candle `k + 1` leaves that index as it is. */
  lemma LookAheadIff(values: seq<real>, period: nat, k: nat, entry: real)
    requires 1 <= period <= k && k + 2 <= |values| && entry == RsiOf(values[..k + 2], period)
    ensures var v, price := values[..k + 1], values[k + 1];
            var g, l, last := Wilder(Gains(v), period), Wilder(Losses(v), period), values[k];
            entry == RsiOf(v, period) <==>
              if l == 0.0 then price >= last
              else g * Gain(last - price) == l * Gain(price - last) && (period == 1 ==> price < last)
  {
    hide Wilder, RsiOf, Gains, Losses;
    assert values[..k + 2] == values[..k + 1] + [values[k + 1]];
    UnchangedIff(values[..k + 1], values[k + 1], period);
  }

  /** So no entry can be known before the next candle: after every series, a rise and a fall lead to
      different ones. */
  lemma LookAhead(v: seq<real>, period: nat, move: real)
    requires |v| > period >= 1 && move > 0.0
    ensures RsiOf(v + [v[|v| - 1] + move], period) != RsiOf(v + [v[|v| - 1] - move], period)
  {
    hide Wilder, Index, WilderStep, Gains, Losses, RsiOf;
    var g, l, last := Wilder(Gains(v), period), Wilder(Losses(v), period), v[|v| - 1];
    NextIndex(v, last + move, period);
    NextIndex(v, last - move, period);
    IndexEqualIff(WilderStep(g, move, period), WilderStep(l, 0.0, period),
                  WilderStep(g, 0.0, period), WilderStep(l, move, period));
    LossGone(l, move, period);
    Crossed(g, l, move, period);
  }

  lemma Crossed(g: real, l: real, move: real, period: nat)
    requires period >= 1 && g >= 0.0 && l >= 0.0 && move > 0.0
    ensures WilderStep(g, move, period) * WilderStep(l, move, period) != WilderStep(g, 0.0, period) * WilderStep(l, 0.0, period)
  {
    var a, b, up, right := WilderStep(g, 0.0, period), WilderStep(l, 0.0, period),
                           WilderStep(g, move, period), WilderStep(l, move, period);
    var step := move / period as real;
    assert up == a + step && right == b + step;
    WilderStepSign(g, 0.0, period);
    WilderStepSign(l, 0.0, period);
    RatioSign(move, period as real);
    assert step * period as real == move;
    Larger(a, b, step);
  }

  lemma Larger(a: real, b: real, step: real)
    requires a >= 0.0 && b >= 0.0 && step > 0.0
    ensures (a + step) * (b + step) > a * b
  {
    ProductSign(a, step);
    ProductSign(b, step);
    ProductSign(step, step);
    assert (a + step) * (b + step) == a * b + a * step + b * step + step * step;
  }

  /** The index is the share of gains in all movement, in percent. */
  lemma IndexIsShare(g: real, l: real)
    requires 0.0 <= g && 0.0 <= l && g + l > 0.0
    ensures Index(g, l) * (g + l) == 100.0 * g
  {
    if l > 0.0 {
      var q := g / l;
      assert q * l == g;
      RatioSign(g, l);
      var d := 1.0 + q;
      var part := 100.0 / d;
      assert part * d == 100.0;
      assert d * l == g + l;
      assert part * (g + l) == part * d * l;
    }
  }

  lemma RsiIsShare(v: seq<real>, period: nat)
    requires |v| > period >= 1 && Wilder(Gains(v), period) + Wilder(Losses(v), period) > 0.0
    ensures RsiOf(v, period) * (Wilder(Gains(v), period) + Wilder(Losses(v), period)) == 100.0 * Wilder(Gains(v), period)
  {
    hide Wilder, Index, Gains, Losses;
    IndexOfAverages(v, period);
    IndexIsShare(Wilder(Gains(v), period), Wilder(Losses(v), period));
  }
}
