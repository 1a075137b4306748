/** The market-regime classifier and its panic cooldown. */
module Regime {
  import opened Prelude
  import opened Ema
  import opened Adx

  datatype Regime =
    | BullishTrend | BearishTrend | Ranging | Compression | Expansion | RiskOff | HighVolatility
    | LowVolatility | NewsDriven | TrendExhaustion | Accumulation | Distribution | Panic | Recovery

  datatype Phase = PhaseAccumulation | PhaseDistribution | OtherPhase

  /** What the caller adds to a candle; the Bollinger inputs are left out because both branches
      that look at them give the same label. */
  datatype Context = Context(
    atrNormalized: Option<real>, atrExpanding: bool, atrPercentile: Option<real>, recentNewsEvent: bool, phase: Phase)
  {
    predicate VolatilityShock() { atrNormalized.Some? && atrNormalized.value > 1.5 && atrExpanding }
  }

  /** What the engine reads off its indicators. */
  datatype Reading = Reading(adx: real, slope: real, peak: real, ema50AboveEma200: bool, priceAboveEma200: bool)

  const PANIC_RECOVERY_WINDOW := 40
  const REGIME_HISTORY_CAP := 200
  const ADX_PERIOD := 14
  const SLOW := 200

  function Classify(r: Reading, c: Context, cooldown: nat): Regime {
    if c.recentNewsEvent then NewsDriven
    else if r.adx >= 35.0 && r.slope <= -1.0 && c.VolatilityShock() then Panic
    else if cooldown > 0 && r.slope > 0.0 && r.adx < 45.0 then Recovery
    else if r.adx > 40.0 && !r.ema50AboveEma200 && !r.priceAboveEma200 then RiskOff
    else if c.VolatilityShock() && c.atrPercentile.GetOr(75.0) >= 75.0 then HighVolatility
    else if r.adx > 25.0 && r.slope <= -0.4 && r.peak - r.adx >= 4.0 then TrendExhaustion
    else if r.adx < 15.0 then
      if c.phase == PhaseAccumulation then Accumulation
      else if c.phase == PhaseDistribution then Distribution
      else if c.atrNormalized.Some? && c.atrNormalized.value < 0.3 then LowVolatility
      else Compression
    else if r.adx > 25.0 && r.ema50AboveEma200 && r.priceAboveEma200 then BullishTrend
    else if r.adx > 25.0 && !r.ema50AboveEma200 && !r.priceAboveEma200 then BearishTrend
    else if r.adx > 30.0 then Expansion
    else Ranging
  }

  /** The cooldown after a sequence of labels. */
  function CooldownAfter(labels: seq<Regime>): (n: nat)
    ensures n <= PANIC_RECOVERY_WINDOW
  {
    var n := |labels| - 1;
    if n < 0 then 0
    else if labels[n] == Panic then PANIC_RECOVERY_WINDOW
    else if CooldownAfter(labels[..n]) > 0 then CooldownAfter(labels[..n]) - 1
    else 0
  }

  function Closes(candles: seq<Candle>): (s: seq<real>)
    ensures |s| == |candles|
  {
    seq(|candles|, i requires 0 <= i < |candles| => candles[i].close)
  }

  function ReadingOf(candles: seq<Candle>): Reading
    requires candles != []
  {
    var fast, slow := EmaOf(Closes(candles), Smoothing(50)), EmaOf(Closes(candles), Smoothing(SLOW));
    Reading(AdxOf(candles, ADX_PERIOD), SlopeOf(LastN(AdxSeries(candles, ADX_PERIOD), HISTORY_WINDOW)),
            PeakOf(candles, ADX_PERIOD), fast > slow, candles[|candles| - 1].close > slow)
  }

  /** The labels of a whole run: none before the slow average is ready, one per candle after. */
  function Labels(candles: seq<Candle>, contexts: seq<Context>): (l: seq<Regime>)
    requires |candles| == |contexts|
    ensures |l| == if |candles| < SLOW then 0 else |candles| - SLOW + 1
  {
    var n := |candles| - 1;
    if |candles| < SLOW then []
    else
      var before := Labels(candles[..n], contexts[..n]);
      before + [Classify(ReadingOf(candles), contexts[n], CooldownAfter(before))]
  }

  ghost predicate PanicWithin(labels: seq<Regime>, window: nat) {
    exists j :: 0 <= j < |labels| && j >= |labels| - window && labels[j] == Panic
  }

  /** The counter runs exactly as long as a panic label is at most 40 labels old. */
  lemma {:induction false} CooldownMeans(labels: seq<Regime>, window: nat)
    requires window <= PANIC_RECOVERY_WINDOW
    ensures PanicWithin(labels, window) <==> CooldownAfter(labels) > PANIC_RECOVERY_WINDOW - window
  {
    var n := |labels| - 1;
    if n >= 0 && window > 0 {
      if labels[n] == Panic {
        assert PanicWithin(labels, window);
      } else {
        CooldownMeans(labels[..n], window - 1);
      }
    }
  }

  /** Label `k` of a run was decided on the candles up to number `k + 199` and the labels before. */
  lemma {:induction false} LabelAt(candles: seq<Candle>, contexts: seq<Context>, k: nat)
    requires |candles| == |contexts| && k + SLOW <= |candles|
    ensures var n := k + SLOW;
            Labels(candles, contexts)[k] ==
            Classify(ReadingOf(candles[..n]), contexts[n - 1], CooldownAfter(Labels(candles, contexts)[..k]))
  {
    hide ReadingOf, Classify, CooldownAfter;
    var n := |candles| - 1;
    var before := Labels(candles[..n], contexts[..n]);
    if k < |before| {
      LabelAt(candles[..n], contexts[..n], k);
      assert candles[..n][..k + SLOW] == candles[..k + SLOW];
      assert Labels(candles, contexts)[..k] == before[..k];
    } else {
      assert candles[..k + SLOW] == candles;
      assert Labels(candles, contexts)[..k] == before;
    }
  }

  /** In every run: a candle is labelled a recovery exactly when no news event overrides it, the
      ADX is re-basing below 45, and one of the 40 labels before it was a panic. */
  lemma RecoveryIff(candles: seq<Candle>, contexts: seq<Context>, k: nat)
    requires |candles| == |contexts| && k + SLOW <= |candles|
    ensures var labels, r := Labels(candles, contexts), ReadingOf(candles[..k + SLOW]);
            labels[k] == Recovery <==> (
              && !contexts[k + SLOW - 1].recentNewsEvent && r.slope > 0.0 && r.adx < 45.0
              && PanicWithin(labels[..k], 40))
  {
    hide ReadingOf, CooldownAfter, PanicWithin;
    LabelAt(candles, contexts, k);
    CooldownMeans(Labels(candles, contexts)[..k], PANIC_RECOVERY_WINDOW);
  }

  /** What each label says of a candle, taken by itself. */
  ghost predicate Fits(l: Regime, r: Reading, c: Context, panicRecently: bool) {
    var atr := c.atrNormalized;
    var shock := atr.Some? && atr.value > 1.5 && c.atrExpanding;
    match l
    case NewsDriven => c.recentNewsEvent
    case Panic => shock && r.adx >= 35.0 && r.slope <= -1.0
    case Recovery => panicRecently && r.adx < 45.0 && r.slope > 0.0
    case RiskOff => r.adx > 40.0 && !r.ema50AboveEma200 && !r.priceAboveEma200
    case HighVolatility => shock && (c.atrPercentile.Some? ==> c.atrPercentile.value >= 75.0)
    case TrendExhaustion => r.adx > 25.0 && r.slope <= -0.4 && r.adx + 4.0 <= r.peak
    case Accumulation => r.adx < 15.0 && c.phase.PhaseAccumulation?
    case Distribution => r.adx < 15.0 && c.phase.PhaseDistribution?
    case LowVolatility => r.adx < 15.0 && atr.Some? && atr.value < 0.3
    case Compression => r.adx < 15.0
    case BullishTrend => r.adx > 25.0 && r.ema50AboveEma200 && r.priceAboveEma200
    case BearishTrend => r.adx > 25.0 && !r.ema50AboveEma200 && !r.priceAboveEma200
    case Expansion => r.adx > 30.0
    case Ranging => true
  }

  /** The order of priority, the most specific label first. */
  function Rank(l: Regime): nat {
    match l
    case NewsDriven => 0
    case Panic => 1
    case Recovery => 2
    case RiskOff => 3
    case HighVolatility => 4
    case TrendExhaustion => 5
    case Accumulation => 6
    case Distribution => 7
    case LowVolatility => 8
    case Compression => 9
    case BullishTrend => 10
    case BearishTrend => 11
    case Expansion => 12
    case Ranging => 13
  }

  /** In every run a candle has a label exactly when the label fits it, with the panics of the 40 labels
      before, and none of higher priority does. */
  lemma LabelIff(candles: seq<Candle>, contexts: seq<Context>, k: nat, l: Regime)
    requires |candles| == |contexts| && k + SLOW <= |candles|
    ensures var labels, r, c := Labels(candles, contexts), ReadingOf(candles[..k + SLOW]), contexts[k + SLOW - 1];
            var recent := PanicWithin(labels[..k], 40);
            labels[k] == l <==>
              Fits(l, r, c, recent) && forall better | Rank(better) < Rank(l) :: !Fits(better, r, c, recent)
  {
    hide ReadingOf, CooldownAfter, PanicWithin, Labels;
    LabelAt(candles, contexts, k);
    var before := Labels(candles, contexts)[..k];
    CooldownMeans(before, PANIC_RECOVERY_WINDOW);
    BestFit(ReadingOf(candles[..k + SLOW]), contexts[k + SLOW - 1], CooldownAfter(before));
  }

  lemma BestFit(r: Reading, c: Context, cooldown: nat)
    ensures var l := Classify(r, c, cooldown);
            Fits(l, r, c, cooldown > 0) && forall better | Rank(better) < Rank(l) :: !Fits(better, r, c, cooldown > 0)
  {
  }

  /** In particular: a panic is a sharp turn of a strong trend under a volatility shock, with no news event. */
  lemma PanicIff(candles: seq<Candle>, contexts: seq<Context>, k: nat)
    requires |candles| == |contexts| && k + SLOW <= |candles|
    ensures var r, c := ReadingOf(candles[..k + SLOW]), contexts[k + SLOW - 1];
            Labels(candles, contexts)[k] == Panic <==> (
              && !c.recentNewsEvent && r.adx >= 35.0 && r.slope <= -1.0
              && c.atrNormalized.Some? && c.atrNormalized.value > 1.5 && c.atrExpanding)
  {
    hide ReadingOf, CooldownAfter, Labels;
    LabelAt(candles, contexts, k);
  }

  /** A market in which every candle and every close tops all before it. */
  ghost predicate PureUpTrend(candles: seq<Candle>) {
    Rising(candles) && Climbing(Closes(candles)) && forall i | 0 <= i < |candles| :: candles[i].Ok()
  }

  lemma UpTrendAverages(candles: seq<Candle>)
    requires candles != [] && Climbing(Closes(candles))
    ensures var v, n := Closes(candles), |candles| - 1;
            var fast, slow := EmaOf(v, Smoothing(50)), EmaOf(v, Smoothing(SLOW));
            var w := Closes(MirrorAll(candles));
            && EmaOf(w, Smoothing(50)) == -fast && EmaOf(w, Smoothing(SLOW)) == -slow
            && (n > 0 ==> slow < fast <= candles[n].close)
  {
    hide Smoothing, EmaOf;
    var v, w := Closes(candles), Closes(MirrorAll(candles));
    RisingAverages(v, 50, SLOW);
    EmaMirrored(v, w, Smoothing(50));
    EmaMirrored(v, w, Smoothing(SLOW));
  }

  lemma UpTrendReading(candles: seq<Candle>)
    requires |candles| >= SLOW && PureUpTrend(candles)
    ensures ReadingOf(candles) == Reading(100.0, 0.0, 100.0, true, true)
    ensures ReadingOf(MirrorAll(candles)) == Reading(100.0, 0.0, 100.0, false, false)
  {
    hide PureUpTrend, Smoothing, EmaOf, AdxOf, SlopeOf, AdxSeries, PeakOf, LastN, Closes;
    UpTrendStrength(candles);
    UpTrendAverages(candles);
    var n := |candles| - 1;
    assert MirrorAll(candles)[n].close == -candles[n].close;
  }

  lemma UpTrendStrength(candles: seq<Candle>)
    requires |candles| >= SLOW && PureUpTrend(candles)
    ensures FullTrend(candles, ADX_PERIOD) && FullTrend(MirrorAll(candles), ADX_PERIOD)
    ensures Climbing(Closes(candles))
  {
    hide FullTrend, MirrorAll, Rising, Climbing;
    RisingTrend(candles, ADX_PERIOD);
  }

  /** In a pure up-trend every candle is labelled a bullish trend, in its mirror image risk-off; only news and,
      on the way up, a volatility shock say otherwise. */
  lemma TrendLabels(candles: seq<Candle>, contexts: seq<Context>, k: nat)
    requires |candles| == |contexts| && k + SLOW <= |candles| && PureUpTrend(candles[..k + SLOW])
    ensures var c := contexts[k + SLOW - 1];
            && (Labels(candles, contexts)[k] ==
                  if c.recentNewsEvent then NewsDriven
                  else if c.VolatilityShock() && c.atrPercentile.GetOr(75.0) >= 75.0 then HighVolatility
                  else BullishTrend)
            && (Labels(MirrorAll(candles), contexts)[k] == if c.recentNewsEvent then NewsDriven else RiskOff)
  {
    hide ReadingOf, CooldownAfter, Labels, PureUpTrend;
    LabelAt(candles, contexts, k);
    LabelAt(MirrorAll(candles), contexts, k);
    UpTrendReading(candles[..k + SLOW]);
    assert MirrorAll(candles)[..k + SLOW] == MirrorAll(candles[..k + SLOW]);
  }

  class RegimeEngine {
    const ema50: EMAEngine
    const ema200: EMAEngine
    const adx: ADXEngine
    var regimeHistory: seq<Regime>
    var panicCooldown: nat
    ghost var fed: seq<Candle>
    ghost var contexts: seq<Context>

    ghost predicate Tracking()
      reads this, ema50, ema200, adx
    {
      && ema50 != ema200
      && ema50.Valid() && ema200.Valid() && adx.Valid()
      && ema50.period == 50 && ema200.period == SLOW && adx.period == ADX_PERIOD
      && ema50.fed == ema200.fed == Closes(fed) && adx.fed == fed
    }

    ghost predicate Valid()
      reads this, ema50, ema200, adx
    {
      && Tracking()
      && |contexts| == |fed|
      && panicCooldown == CooldownAfter(Labels(fed, contexts))
      && regimeHistory == LastN(Labels(fed, contexts), REGIME_HISTORY_CAP)
    }

    constructor ()
      ensures Valid() && fed == [] && contexts == []
      ensures fresh(ema50) && fresh(ema200) && fresh(adx)
      ensures ema50.period == 50 && ema200.period == 200 && adx.period == 14
    {
      ema50 := new EMAEngine(50);
      ema200 := new EMAEngine(SLOW);
      adx := new ADXEngine(ADX_PERIOD);
      regimeHistory, panicCooldown, fed, contexts := [], 0, [], [];
    }

    /** Feeds the three indicators and reads them once the slow average is ready. */
    method Read(candle: Candle) returns (r: Option<Reading>)
      requires Tracking()
      modifies this`fed, ema50, ema200, adx
      ensures Tracking() && fed == old(fed) + [candle]
      ensures r == if |fed| < SLOW then None else Some(ReadingOf(fed))
    {
      hide EmaOf, SlopeOf, PeakOf, AdxOf, AdxSeries, LastN;
      assert Closes(fed + [candle]) == Closes(fed) + [candle.close];
      var fast := ema50.Next(candle.close);
      var slow := ema200.Next(candle.close);
      var adxVal := adx.Next(candle);
      fed := fed + [candle];
      if !ema50.Ready() || !ema200.Ready() {
        return None;
      }
      r := Some(Reading(adxVal.GetOr(adx.adx), adx.Slope(), adx.Peak(), fast > slow, candle.close > slow));
    }

    method Next(candle: Candle, context: Context) returns (r: Option<Regime>)
      requires Valid()
      modifies this, ema50, ema200, adx
      ensures Valid() && fed == old(fed) + [candle] && contexts == old(contexts) + [context]
      ensures |fed| < 200 ==> r == None
      ensures |fed| >= 200 ==> r == Some(Labels(fed, contexts)[|fed| - 200])
      ensures regimeHistory == LastN(Labels(fed, contexts), 200)
    {
      hide Classify, CooldownAfter, ReadingOf, LastN, Closes, ADXEngine.Valid, EMAEngine.Valid;
      ghost var before := Labels(fed, contexts);
      assert (fed + [candle])[..|fed|] == fed && (contexts + [context])[..|fed|] == contexts;
      var reading := Read(candle);
      contexts := contexts + [context];
      if reading.None? {
        return None;
      }
      var regime := Classify(reading.value, context, panicCooldown);
      LastNPush(before, regime, REGIME_HISTORY_CAP);
      CooldownPushed(before, regime);
      regimeHistory := Push(regimeHistory, regime, REGIME_HISTORY_CAP);
      panicCooldown := if regime == Panic then PANIC_RECOVERY_WINDOW
                       else if panicCooldown > 0 then panicCooldown - 1 else panicCooldown;
      r := Some(regime);
    }
  }

  lemma CooldownPushed(labels: seq<Regime>, next: Regime)
    ensures CooldownAfter(labels + [next]) ==
            if next == Panic then PANIC_RECOVERY_WINDOW
            else if CooldownAfter(labels) > 0 then CooldownAfter(labels) - 1 else 0
  {
    assert (labels + [next])[..|labels|] == labels;
  }
}
