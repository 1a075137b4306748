/**
 The two one-pass drawdown loops against their all-pairs definitions: the backtester's, in currency
 and from an equity of zero, and the portfolio's, in percent of the running peak.
 */
module Drawdown {
  import opened Prelude

  /** The equity after the first `k` trades, starting from zero. */
  function Equity(pnls: seq<real>, k: nat): real
    requires k <= |pnls|
  {
    Sum(pnls[..k])
  }

  ghost predicate FallsAtMost(pnls: seq<real>, k: nat, d: real)
    requires k <= |pnls|
  {
    forall i, j | 0 <= i <= j <= k :: Equity(pnls, i) - Equity(pnls, j) <= d
  }

  ghost predicate SomeFall(pnls: seq<real>, k: nat, d: real)
    requires k <= |pnls|
  {
    exists i, j | 0 <= i <= j <= k :: Equity(pnls, i) - Equity(pnls, j) == d
  }

  ghost predicate IsPeak(pnls: seq<real>, k: nat, p: real)
    requires k <= |pnls|
  {
    && (forall i | 0 <= i <= k :: Equity(pnls, i) <= p)
    && (exists i :: 0 <= i <= k && Equity(pnls, i) == p)
  }

  /** `d` is the largest fall from an earlier (or the same) equity to a later one. */
  ghost predicate IsMaxDrawdown(pnls: seq<real>, d: real) {
    FallsAtMost(pnls, |pnls|, d) && SomeFall(pnls, |pnls|, d)
  }

  lemma PeakNext(pnls: seq<real>, k: nat, p: real)
    requires k < |pnls| && IsPeak(pnls, k, p)
    ensures IsPeak(pnls, k + 1, Max(p, Equity(pnls, k + 1)))
  {
    hide Equity;
  }

  lemma FallNext(pnls: seq<real>, k: nat, p: real, d: real)
    requires k < |pnls| && IsPeak(pnls, k + 1, p) && FallsAtMost(pnls, k, d) && SomeFall(pnls, k, d)
    ensures FallsAtMost(pnls, k + 1, Max(d, p - Equity(pnls, k + 1)))
    ensures SomeFall(pnls, k + 1, Max(d, p - Equity(pnls, k + 1)))
  {
    hide Equity;
  }

  lemma EquityNext(pnls: seq<real>, k: nat)
    requires k < |pnls|
    ensures Equity(pnls, k + 1) == Equity(pnls, k) + pnls[k]
  {
    assert pnls[..k + 1][..k] == pnls[..k];
  }

  /** The backtester's loop over the trades' profits. */
  method BacktestDrawdown(pnls: seq<real>) returns (maxDD: real)
    ensures IsMaxDrawdown(pnls, maxDD)
    ensures maxDD >= 0.0
  {
    hide IsPeak, FallsAtMost, SomeFall;
    var peak, equity := 0.0, 0.0;
    maxDD := 0.0;
    NothingYet(pnls);
    for k := 0 to |pnls|
      invariant equity == Equity(pnls, k) && IsPeak(pnls, k, peak)
      invariant FallsAtMost(pnls, k, maxDD) && SomeFall(pnls, k, maxDD)
      invariant maxDD >= 0.0
    {
      EquityNext(pnls, k);
      PeakNext(pnls, k, peak);
      equity := equity + pnls[k];
      if equity > peak {
        peak := equity;
      }
      FallNext(pnls, k, peak, maxDD);
      if peak - equity > maxDD {
        maxDD := peak - equity;
      }
    }
  }

  lemma NothingYet(pnls: seq<real>)
    ensures Equity(pnls, 0) == 0.0 && IsPeak(pnls, 0, 0.0) && FallsAtMost(pnls, 0, 0.0) && SomeFall(pnls, 0, 0.0)
  {
    assert Equity(pnls, 0) - Equity(pnls, 0) == 0.0;
  }

  /** The highest equity among the first `j + 1`. */
  function Peak(e: seq<real>, j: nat): real
    requires j < |e|
  {
    if j == 0 then e[0] else if e[j] > Peak(e, j - 1) then e[j] else Peak(e, j - 1)
  }

  lemma {:induction false} PeakIsHighest(e: seq<real>, j: nat)
    requires j < |e|
    ensures forall i | 0 <= i <= j :: e[i] <= Peak(e, j)
    ensures exists i :: 0 <= i <= j && e[i] == Peak(e, j)
  {
    if j == 0 {
      assert e[0] == Peak(e, 0);
    } else {
      PeakIsHighest(e, j - 1);
      assert e[j] > Peak(e, j - 1) ==> e[j] == Peak(e, j);
    }
  }

  /** The fall from `high` to `low`, in percent of a positive `high`. */
  function Percent(high: real, low: real): real {
    if high > 0.0 then (high - low) / high * 100.0 else 0.0
  }

  /** How far equity `j` lies below the peak so far, in percent. */
  function Fall(e: seq<real>, j: nat): real
    requires j < |e|
  {
    Percent(Peak(e, j), e[j])
  }

  lemma PercentMonotone(high: real, higher: real, low: real)
    requires 0.0 < high <= higher && 0.0 <= low <= high
    ensures 0.0 <= Percent(high, low) <= Percent(higher, low)
  {
    var a, b := low / high, low / higher;
    assert a * high == low && b * higher == low;
    QuotientUnique(high - low, high, 1.0 - a);
    QuotientUnique(higher - low, higher, 1.0 - b);
    ProductOrder(a, 1.0, high);
    RatioFalls(a, b, high, higher);
  }

  lemma RatioFalls(a: real, b: real, high: real, higher: real)
    requires 0.0 < high <= higher && a * high == b * higher >= 0.0
    ensures b <= a
  {
    ProductOrder(b, 0.0, higher);
    ProductOrder(a, b, high);
    ProductSign(if b >= 0.0 then b else 0.0, higher - high);
    assert b >= 0.0 ==> b * (higher - high) == b * higher - b * high;
  }

  /** Among the first `k` points: the largest fall in percent, and the currency amount of the first
      point that reaches it. */
  ghost predicate WorstFall(e: seq<real>, k: nat, pct: real, usd: real)
    requires k <= |e|
  {
    && pct >= 0.0
    && (forall j | 0 <= j < k :: Fall(e, j) <= pct)
    && (if pct == 0.0 then usd == 0.0
        else exists j | 0 <= j < k :: FirstWorst(e, j, pct) && usd == Peak(e, j) - e[j])
  }

  ghost predicate FirstWorst(e: seq<real>, j: nat, pct: real)
    requires j < |e|
  {
    Fall(e, j) == pct && forall i | 0 <= i < j :: Fall(e, i) < pct
  }

  lemma WorstFallNext(e: seq<real>, k: nat, pct: real, usd: real)
    requires k < |e| && WorstFall(e, k, pct, usd)
    ensures Fall(e, k) <= pct ==> WorstFall(e, k + 1, pct, usd)
    ensures Fall(e, k) > pct ==> WorstFall(e, k + 1, Fall(e, k), Peak(e, k) - e[k])
  {
    hide Fall, Peak;
    if Fall(e, k) > pct {
      assert FirstWorst(e, k, Fall(e, k));
    }
  }

  lemma NoFallYet(e: seq<real>)
    ensures WorstFall(e, 0, 0.0, 0.0)
  {
  }

  method ComputeMaxDrawdown(equities: seq<real>) returns (pct: real, usd: real)
    ensures |equities| < 2 ==> pct == usd == 0.0
    ensures |equities| >= 2 ==> WorstFall(equities, |equities|, pct, usd)
  {
    hide Percent, WorstFall;
    pct, usd := 0.0, 0.0;
    if |equities| < 2 {
      return;
    }
    var peak := equities[0];
    NoFallYet(equities);
    for k := 0 to |equities|
      invariant peak == Peak(equities, if k == 0 then 0 else k - 1)
      invariant WorstFall(equities, k, pct, usd)
    {
      WorstFallNext(equities, k, pct, usd);
      var eq := equities[k];
      if eq > peak {
        peak := eq;
      }
      var ddPct := Percent(peak, eq);
      if ddPct > pct {
        pct, usd := ddPct, peak - eq;
      }
    }
  }

  /** All positive values up to point `j` are the same. */
  ghost predicate OneHigh(e: seq<real>, j: nat)
    requires j < |e|
  {
    forall i | 0 <= i <= j && e[i] > 0.0 :: e[i] == Peak(e, j)
  }

  /** No pair that ends at `j` falls further, in percent, than the running peak does. */
  ghost predicate WorstFromPeak(e: seq<real>, j: nat)
    requires j < |e|
  {
    forall i | 0 <= i <= j :: Percent(e[i], e[j]) <= Fall(e, j)
  }

  /** The running peak is the worst start for a fall to `j` if and only if that stays at zero or above, or
      starts from the only positive value there was. */
  lemma WorstFromPeakIff(e: seq<real>, j: nat)
    requires j < |e|
    ensures WorstFromPeak(e, j) <==> e[j] >= 0.0 || OneHigh(e, j)
  {
    hide Peak, Percent;
    PeakIsHighest(e, j);
    var p := Peak(e, j);
    forall i | 0 <= i <= j
      ensures Percent(e[i], e[j]) <= Fall(e, j) <==> e[j] >= 0.0 || e[i] <= 0.0 || e[i] == p
    {
      NoPositiveStart(e[i], e[j]);
      NoPositiveStart(p, e[j]);
      if e[j] < 0.0 < p { BelowZero(p, e[j]); }
      if e[i] > 0.0 {
        if e[j] >= 0.0 {
          PairBelow(e, i, j);
        } else if e[i] < p {
          LowerStartIsWorse(e[i], p, e[j]);
        }
      } else if e[j] >= 0.0 && p > 0.0 {
        var k :| 0 <= k <= j && e[k] == p;
        PairBelow(e, k, j);
      }
    }
  }

  lemma NoPositiveStart(high: real, low: real)
    ensures high <= 0.0 ==> Percent(high, low) == 0.0
  {
  }

  lemma BelowZero(high: real, low: real)
    requires low < 0.0 < high
    ensures Percent(high, low) > 0.0
  {
    var q := (high - low) / high;
    assert q * high == high - low;
    ProductOrder(q, 0.0, high);
  }

  lemma LowerStartIsWorse(high: real, higher: real, low: real)
    requires 0.0 < high < higher && low < 0.0
    ensures Percent(high, low) > Percent(higher, low)
  {
    var a, b := low / high, low / higher;
    assert a * high == low && b * higher == low;
    QuotientUnique(high - low, high, 1.0 - a);
    QuotientUnique(higher - low, higher, 1.0 - b);
    ProductOrder(b, 0.0, higher);
    SteeperRatio(a, b, high, higher);
  }

  lemma SteeperRatio(a: real, b: real, high: real, higher: real)
    requires 0.0 < high < higher && a * high == b * higher && b < 0.0
    ensures a < b
  {
    var c := -b;
    ProductSign(c, higher - high);
    assert c * (higher - high) == c * higher - c * high;
    assert c * high == -(b * high) && c * higher == -(b * higher);
    ProductOrder(a, b, high);
  }

  /** If each point of the curve is at zero or above, or falls from the only positive value before it, the
      running peak finds the worst of all pairs. */
  lemma AllPairs(e: seq<real>, pct: real, usd: real)
    requires |e| >= 2 && WorstFall(e, |e|, pct, usd)
    requires forall j | 0 <= j < |e| :: e[j] >= 0.0 || OneHigh(e, j)
    ensures forall i, j | 0 <= i <= j < |e| :: Percent(e[i], e[j]) <= pct
    ensures exists i, j | 0 <= i <= j < |e| :: Percent(e[i], e[j]) == pct
  {
    hide Peak, Percent, OneHigh;
    forall i, j | 0 <= i <= j < |e|
      ensures Percent(e[i], e[j]) <= pct
    {
      WorstFromPeakIff(e, j);
      assert Percent(e[i], e[j]) <= Fall(e, j);
    }
    NoFallAtStart(e);
    var j :| 0 <= j < |e| && Fall(e, j) == pct;
    PeakIsHighest(e, j);
    var i :| 0 <= i <= j && e[i] == Peak(e, j);
    assert Percent(e[i], e[j]) == pct;
  }

  lemma NoFallAtStart(e: seq<real>)
    requires e != []
    ensures Fall(e, 0) == 0.0
  {
  }

  lemma PairBelow(e: seq<real>, i: nat, j: nat)
    requires i <= j < |e| && e[i] > 0.0 && e[j] >= 0.0
    ensures Percent(e[i], e[j]) <= Fall(e, j)
    ensures 0.0 <= Fall(e, j)
  {
    var p := Peak(e, j);
    PeakIsHighest(e, j);
    PercentMonotone(p, p, e[j]);
    if e[j] <= e[i] {
      PercentMonotone(e[i], p, e[j]);
    } else {
      hide Peak;
      RiseIsNegative(e[i], e[j]);
    }
  }

  lemma RiseIsNegative(high: real, low: real)
    requires 0.0 < high < low
    ensures Percent(high, low) <= 0.0
  {
    var q := (high - low) / high;
    assert q * high == high - low;
    ProductOrder(q, 0.0, high);
  }

  lemma PeakOfTwo(e: seq<real>)
    requires |e| >= 2
    ensures Peak(e, 0) == e[0] && Peak(e, 1) == Max(e[0], e[1])
  {
  }

  /** A curve that rises from one positive value to another and then falls below zero: the fall from the
      first is worse than the reported one. */
  lemma NegativeCurve(low: real, high: real, debt: real)
    requires 0.0 < low < high && debt > 0.0
    ensures WorstFall([low, high, -debt], 3, Percent(high, -debt), high + debt)
    ensures Percent(low, -debt) > Percent(high, -debt)
  {
    var e := [low, high, -debt];
    PeakOfTwo(e);
    LowerStartIsWorse(low, high, -debt);
    BelowZero(high, -debt);
    hide Percent;
    assert Peak(e, 2) == high;
    NoChange(low);
    NoChange(high);
    assert FirstWorst(e, 2, Percent(high, -debt));
  }

  lemma NoChange(x: real)
    ensures Percent(x, x) == 0.0
  {
  }

  /** While the peak stays what it was at the start, the reported amount is the largest fall. */
  lemma UsdOnOnePeak(e: seq<real>, pct: real, usd: real)
    requires |e| >= 2 && WorstFall(e, |e|, pct, usd) && e[0] > 0.0
    requires forall j | 0 <= j < |e| :: e[j] <= e[0]
    ensures forall i, j | 0 <= i <= j < |e| :: e[i] - e[j] <= usd
  {
    hide Percent;
    forall j | 0 <= j < |e| ensures Peak(e, j) == e[0] && e[0] - e[j] <= usd {
      FlatPeak(e, j);
      if pct == 0.0 {
        PercentOrder(e[0], e[j], e[0]);
        NoChange(e[0]);
        assert Fall(e, j) <= 0.0;
      } else {
        var k :| 0 <= k < |e| && FirstWorst(e, k, pct) && usd == Peak(e, k) - e[k];
        FlatPeak(e, k);
        PercentOrder(e[0], e[j], e[k]);
        assert Fall(e, j) <= pct;
      }
    }
  }

  lemma {:induction false} FlatPeak(e: seq<real>, j: nat)
    requires j < |e| && forall i | 0 <= i < |e| :: e[i] <= e[0]
    ensures Peak(e, j) == e[0]
  {
    if j > 0 { FlatPeak(e, j - 1); }
  }

  lemma PercentOrder(high: real, low: real, other: real)
    requires high > 0.0
    ensures Percent(high, low) <= Percent(high, other) <==> other <= low
  {
    var a, b := (high - low) / high, (high - other) / high;
    assert a * high == high - low && b * high == high - other;
    ProductOrder(a, b, high);
  }

  /** A later, higher peak: a fall that is smaller in percent but larger in currency is not reported. */
  lemma UsdIsNotTheLargestFall(first: real, fall: real, second: real, larger: real)
    requires 0.0 < fall <= first < second && fall < larger <= second
    requires Percent(second, second - larger) < Percent(first, first - fall)
    ensures WorstFall([first, first - fall, second, second - larger], 4, Percent(first, first - fall), fall)
  {
    hide Percent;
    var e := [first, first - fall, second, second - larger];
    PeakOfTwo(e);
    assert Peak(e, 2) == second && Peak(e, 3) == second;
    NoChange(first);
    NoChange(second);
    PercentOrder(first, first - fall, first);
    assert FirstWorst(e, 1, Percent(first, first - fall));
  }

  /** Taking the percentage off the high leaves the low. */
  lemma PercentOff(high: real, low: real)
    requires high > 0.0
    ensures high - Percent(high, low) / 100.0 * high == low
  {
    var q := (high - low) / high;
    assert q * high == high - low;
    assert Percent(high, low) / 100.0 == q;
  }
}
