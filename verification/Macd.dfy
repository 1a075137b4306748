/**
 Moving average convergence/divergence: three streaming averages against batch ones.  The engine
 queues its lines while the slow average warms up and then feeds them to the signal in their order.
 */
module Macd {
  import opened Prelude
  import opened Ema

  datatype Bias = Bullish | Bearish | Neutral
  datatype Crossover = BullishCross | BearishCross | NoCross
  datatype MACDResult = MACDResult(
    macd: real, signal: real, histogram: real, previousHistogram: real, bias: Bias, crossover: Crossover)

  datatype Periods = Periods(fast: nat, slow: nat, signal: nat) {
    predicate Ok() { fast >= 1 && slow >= 1 && signal >= 1 }
  }

  /** The MACD line after a series. */
  function Line(v: seq<real>, p: Periods): real
    requires v != []
  {
    EmaOf(v, Smoothing(p.fast)) - EmaOf(v, Smoothing(p.slow))
  }

  /** The MACD lines from the moment the slow average is ready. */
  function Lines(v: seq<real>, p: Periods): (ls: seq<real>)
    requires p.Ok()
    ensures |ls| == if |v| < p.slow then 0 else |v| - p.slow + 1
    ensures forall i | 0 <= i < |ls| :: ls[i] == Line(v[..i + p.slow], p)
  {
    if |v| < p.slow then []
    else
      assert forall i | p.slow <= i < |v| :: v[..|v| - 1][..i] == v[..i];
      assert v[..|v|] == v;
      Lines(v[..|v| - 1], p) + [Line(v, p)]
  }

  /** The histogram after a series, once enough lines exist to seed the signal. */
  function Histogram(v: seq<real>, p: Periods): real
    requires p.Ok() && |v| + 1 >= p.slow + p.signal
  {
    Line(v, p) - EmaOf(Lines(v, p), Smoothing(p.signal))
  }

  function CrossoverOf(prev: Option<real>, histogram: real): Crossover {
    if prev.Some? && prev.value <= 0.0 && histogram > 0.0 then BullishCross
    else if prev.Some? && prev.value >= 0.0 && histogram < 0.0 then BearishCross
    else NoCross
  }

  function PreviousHistogram(v: seq<real>, p: Periods): Option<real>
    requires p.Ok() && v != []
  {
    var before := v[..|v| - 1];
    if |Lines(before, p)| >= p.signal then Some(Histogram(before, p)) else None
  }

  lemma LinesNext(v: seq<real>, price: real, p: Periods)
    requires p.Ok()
    ensures |v| + 1 < p.slow ==> Lines(v + [price], p) == []
    ensures |v| + 1 >= p.slow ==> Lines(v + [price], p) == Lines(v, p) + [Line(v + [price], p)]
    ensures PreviousHistogram(v + [price], p) == if |Lines(v, p)| >= p.signal then Some(Histogram(v, p)) else None
  {
    assert (v + [price])[..|v|] == v;
  }

  class MACDEngine {
    const periods: Periods
    const fastEMA: EMAEngine
    const slowEMA: EMAEngine
    const signalEMA: EMAEngine
    var prevHistogram: Option<real>
    var macdValues: seq<real>
    var initialized: bool
    ghost var fed: seq<real>

    ghost predicate Valid()
      reads this, fastEMA, slowEMA, signalEMA
    {
      && periods.Ok()
      && fastEMA != slowEMA && fastEMA != signalEMA && slowEMA != signalEMA
      && fastEMA.Valid() && slowEMA.Valid() && signalEMA.Valid()
      && fastEMA.period == periods.fast && slowEMA.period == periods.slow && signalEMA.period == periods.signal
      && fastEMA.fed == fed && slowEMA.fed == fed
      && initialized == (|Lines(fed, periods)| >= periods.signal)
      && (if initialized then signalEMA.fed == Lines(fed, periods)
          else signalEMA.fed == [] && macdValues == Lines(fed, periods))
      && prevHistogram == (if initialized then Some(Histogram(fed, periods)) else None)
    }

    constructor (periods: Periods)
      requires periods.Ok()
      ensures Valid() && fed == [] && this.periods == periods
      ensures fresh(fastEMA) && fresh(slowEMA) && fresh(signalEMA)
    {
      this.periods := periods;
      fastEMA := new EMAEngine(periods.fast);
      slowEMA := new EMAEngine(periods.slow);
      signalEMA := new EMAEngine(periods.signal);
      prevHistogram, macdValues, initialized, fed := None, [], false, [];
    }

    /** Feeds the queued lines to the fresh signal average, in order. */
    method WarmUp()
      requires signalEMA.Valid() && signalEMA.fed == []
      modifies signalEMA
      ensures signalEMA.Valid() && signalEMA.fed == macdValues
    {
      for i := 0 to |macdValues|
        invariant signalEMA.Valid() && signalEMA.fed == macdValues[..i]
      {
        var _ := signalEMA.Next(macdValues[i]);
      }
    }

    /** After warm-up the signal is the average of every MACD line since the slow average became
        ready, although the first `signal` of them were queued up and fed in one go. */
    method Next(price: real) returns (r: Option<MACDResult>)
      requires Valid()
      modifies this, fastEMA, slowEMA, signalEMA
      ensures Valid() && fed == old(fed) + [price]
      ensures |Lines(fed, periods)| >= periods.signal ==> r.Some?
      ensures |Lines(fed, periods)| < periods.signal ==> r == None
      ensures r.Some? ==>
                && r.value.macd == Line(fed, periods)
                && r.value.signal == EmaOf(Lines(fed, periods), Smoothing(periods.signal))
                && r.value.histogram == Histogram(fed, periods) == r.value.macd - r.value.signal
                && r.value.previousHistogram == PreviousHistogram(fed, periods).GetOr(0.0)
      ensures r.Some? ==> var before := PreviousHistogram(fed, periods);
                && (r.value.crossover == BullishCross <==> before.Some? && before.value <= 0.0 < r.value.histogram)
                && (r.value.crossover == BearishCross <==> before.Some? && before.value >= 0.0 > r.value.histogram)
      ensures r.Some? ==>
                && (r.value.bias == Bullish <==> r.value.macd > r.value.signal)
                && (r.value.bias == Bearish <==> r.value.macd < r.value.signal)
    {
      hide EmaOf, Lines, PreviousHistogram;
      ghost var was := fed;
      LinesNext(was, price, periods);
      var fast := fastEMA.Next(price);
      var slow := slowEMA.Next(price);
      fed := fed + [price];
      if !slowEMA.Ready() {
        return None;
      }
      var macdLine := fast - slow;
      if !initialized {
        macdValues := macdValues + [macdLine];
        if |macdValues| < periods.signal {
          return None;
        }
        WarmUp();
        initialized := true;
      } else {
        var _ := signalEMA.Next(macdLine);
      }
      var signalLine := signalEMA.prev.value;
      var histogram := macdLine - signalLine;
      var crossover := CrossoverOf(prevHistogram, histogram);
      var prevHisto := prevHistogram.GetOr(0.0);
      prevHistogram := Some(histogram);
      var bias := if macdLine > signalLine then Bullish else if macdLine < signalLine then Bearish else Neutral;
      r := Some(MACDResult(macdLine, signalLine, histogram, prevHisto, bias, crossover));
    }
  }

  /** The backtester's batch form: its lines are the streamed ones, but its signal averages the
      lines from the first candle on, not from the moment the slow average is ready. */
  method CalcMACD(values: seq<real>) returns (macd: seq<real>, sig: seq<real>, hist: seq<real>)
    ensures |macd| == |sig| == |hist| == |values|
    ensures forall i | 0 <= i < |values| :: macd[i] == Line(values[..i + 1], Periods(12, 26, 9))
    ensures EmaSeries(sig, macd, 9)
    ensures forall i | 0 <= i < |values| :: hist[i] == macd[i] - sig[i]
  {
    var ema12 := CalcEMA(values, 12);
    var ema26 := CalcEMA(values, 26);
    macd := seq(|values|, i requires 0 <= i < |values| => ema12[i] - ema26[i]);
    sig := CalcEMA(macd, 9);
    hist := seq(|values|, i requires 0 <= i < |values| => macd[i] - sig[i]);
  }

  /** The line points the way of the market: above zero wherever every price so far beat all before it. */
  lemma RisingLine(v: seq<real>, p: Periods)
    requires p.Ok() && p.fast < p.slow && v != [] && Climbing(v)
    ensures if |v| == 1 then Line(v, p) == 0.0 else Line(v, p) > 0.0
  {
    RisingAverages(v, p.fast, p.slow);
  }
}
