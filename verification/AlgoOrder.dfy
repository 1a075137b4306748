/** Algorithmic orders. */
module AlgoOrder {
  // One order cut into children, any of which may fail, cancellable at every point where the slicer
  // waits.

  import opened Prelude

  // ---------------------------------------------------------------------------------------
  // Volume weights
  // ---------------------------------------------------------------------------------------

  datatype Profile = Uniform | UShaped | MorningHeavy | AfternoonHeavy

  /** The exponential is a parameter; only its sign matters. */
  ghost predicate Positive(exp: real -> real) { forall x: real :: exp(x) > 0.0 }

  function Weight(profile: Profile, t: real, exp: real -> real): real {
    match profile
    case Uniform => 1.0
    case UShaped => 1.0 + 2.0 * Square(1.0 - 2.0 * t)
    case MorningHeavy => exp(-2.0 * t) + 0.3
    case AfternoonHeavy => exp(-2.0 * (1.0 - t)) + 0.3
  }

  /** Equally spaced points of the day. With one slice the quotient is no number, which only the uniform
      profile can do without. */
  function TimeOf(i: nat, slices: nat): real
    requires i < slices
  {
    if slices == 1 then 0.0 else i as real / (slices - 1) as real
  }

  predicate HasWeights(slices: nat, profile: Profile) { slices >= 2 || (slices == 1 && profile.Uniform?) }

  function RawWeights(slices: nat, profile: Profile, exp: real -> real): (w: seq<real>)
    requires HasWeights(slices, profile)
    ensures |w| == slices
  {
    seq(slices, i requires 0 <= i < slices => Weight(profile, TimeOf(i, slices), exp))
  }

  function Share(x: real, total: real): real
    requires total != 0.0
  {
    x / total
  }

  /** Each entry as a fraction of `total`. */
  function Shares(w: seq<real>, total: real): (s: seq<real>)
    requires total != 0.0
    ensures |s| == |w|
  {
    seq(|w|, i requires 0 <= i < |w| => Share(w[i], total))
  }

  function Part(x: real, total: real): real { total * x }

  /** The quantities that fractions of `total` stand for. */
  function Parts(w: seq<real>, total: real): (s: seq<real>)
    ensures |s| == |w|
  {
    seq(|w|, i requires 0 <= i < |w| => Part(w[i], total))
  }

  function Reverse(s: seq<real>): (r: seq<real>)
    ensures |r| == |s|
  {
    seq(|s|, i requires 0 <= i < |s| => s[|s| - 1 - i])
  }

  lemma ShareAdds(x: real, y: real, total: real)
    requires total != 0.0
    ensures Share(x, total) + Share(y, total) == Share(x + y, total) && Share(0.0, total) == 0.0
  {
  }

  lemma {:induction false} SumShares(w: seq<real>, total: real)
    requires total != 0.0
    ensures Sum(Shares(w, total)) == Share(Sum(w), total)
  {
    hide Share;
    var n := |w| - 1;
    if n >= 0 {
      SumShares(w[..n], total);
      assert Shares(w, total)[..n] == Shares(w[..n], total);
      ShareAdds(Sum(w[..n]), w[n], total);
    } else {
      ShareAdds(0.0, 0.0, total);
    }
  }

  lemma PartAdds(x: real, y: real, total: real)
    ensures Part(x, total) + Part(y, total) == Part(x + y, total) && Part(0.0, total) == 0.0 && Part(1.0, total) == total
  {
  }

  lemma {:induction false} SumParts(w: seq<real>, total: real)
    ensures Sum(Parts(w, total)) == Part(Sum(w), total)
  {
    hide Part;
    var n := |w| - 1;
    if n >= 0 {
      SumParts(w[..n], total);
      assert Parts(w, total)[..n] == Parts(w[..n], total);
      PartAdds(Sum(w[..n]), w[n], total);
    } else {
      PartAdds(0.0, 0.0, total);
    }
  }

  lemma {:induction false} SumReversed(s: seq<real>)
    ensures Sum(Reverse(s)) == Sum(s)
  {
    if s != [] {
      var n := |s| - 1;
      SumReversed(s[..n]);
      assert Reverse(s) == [s[n]] + Reverse(s[..n]);
      SumConcat([s[n]], Reverse(s[..n]));
      assert [s[n]][..0] == [];
    }
  }

  lemma {:induction false} SumPositive(s: seq<real>)
    requires forall i | 0 <= i < |s| :: s[i] > 0.0
    ensures Sum(s) >= 0.0 && (s != [] ==> Sum(s) > 0.0)
  {
    if s != [] {
      SumPositive(s[..|s| - 1]);
    }
  }

  lemma WeightPositive(profile: Profile, t: real, exp: real -> real)
    requires Positive(exp)
    ensures Weight(profile, t, exp) > 0.0
  {
    SquareSign(1.0 - 2.0 * t);
  }

  lemma SquareSign(x: real)
    ensures Square(x) >= 0.0
  {
  }

  /** The morning curve is the afternoon curve run backwards, and the other two are symmetric. */
  lemma WeightsMirror(slices: nat, exp: real -> real)
    requires slices >= 2
    ensures Reverse(RawWeights(slices, MorningHeavy, exp)) == RawWeights(slices, AfternoonHeavy, exp)
    ensures Reverse(RawWeights(slices, UShaped, exp)) == RawWeights(slices, UShaped, exp)
  {
    hide Square;
    forall i | 0 <= i < slices
      ensures RawWeights(slices, MorningHeavy, exp)[slices - 1 - i] == RawWeights(slices, AfternoonHeavy, exp)[i]
      ensures RawWeights(slices, UShaped, exp)[slices - 1 - i] == RawWeights(slices, UShaped, exp)[i]
    {
      var t := i as real / (slices - 1) as real;
      MirrorTime(i, slices);
      assert (slices - 1 - i) as real / (slices - 1) as real == 1.0 - t;
      SquareNegated(1.0 - 2.0 * t);
      assert 1.0 - 2.0 * (1.0 - t) == -(1.0 - 2.0 * t);
    }
  }

  lemma SquareNegated(x: real)
    ensures Square(-x) == Square(x)
  {
  }

  lemma MirrorTime(i: nat, slices: nat)
    requires i < slices && slices >= 2
    ensures (slices - 1 - i) as real / (slices - 1) as real == 1.0 - i as real / (slices - 1) as real
  {
    var n := (slices - 1) as real;
    var t := i as real / n;
    assert t * n == i as real;
    QuotientUnique((slices - 1 - i) as real, n, 1.0 - t);
  }

  /** The normalised weights are positive shares that add up to one. */
  method GetVolumeWeights(slices: nat, profile: Profile, exp: real -> real) returns (weights: seq<real>)
    requires Positive(exp) && HasWeights(slices, profile)
    ensures |weights| == slices && Sum(weights) == 1.0
    ensures forall i | 0 <= i < slices :: weights[i] > 0.0
    ensures var raw := RawWeights(slices, profile, exp); Sum(raw) > 0.0 && weights == Shares(raw, Sum(raw))
  {
    hide Weight, Share;
    var raw: seq<real> := [];
    for i := 0 to slices
      invariant |raw| == i && forall j | 0 <= j < i :: raw[j] == RawWeights(slices, profile, exp)[j] > 0.0
    {
      WeightPositive(profile, TimeOf(i, slices), exp);
      raw := raw + [Weight(profile, TimeOf(i, slices), exp)];
    }
    assert raw == RawWeights(slices, profile, exp);
    SumPositive(raw);
    var total := Sum(raw);
    weights := Shares(raw, total);
    SumShares(raw, total);
    ShareSign(total, total);
    forall i | 0 <= i < slices ensures weights[i] > 0.0 {
      ShareSign(raw[i], total);
    }
  }

  lemma ShareSign(x: real, total: real)
    requires x > 0.0 && total > 0.0
    ensures Share(x, total) > 0.0 && Share(total, total) == 1.0
  {
  }

  /** So a morning-heavy order, run backwards, is the afternoon-heavy one. */
  lemma SharesMirror(slices: nat, exp: real -> real)
    requires slices >= 2 && Sum(RawWeights(slices, MorningHeavy, exp)) != 0.0
    ensures var morning, afternoon := RawWeights(slices, MorningHeavy, exp), RawWeights(slices, AfternoonHeavy, exp);
            Sum(morning) == Sum(afternoon)
            && Reverse(Shares(morning, Sum(morning))) == Shares(afternoon, Sum(morning))
  {
    WeightsMirror(slices, exp);
    var morning := RawWeights(slices, MorningHeavy, exp);
    SumReversed(morning);
    hide Share, RawWeights;
    assert Reverse(Shares(morning, Sum(morning))) == Shares(Reverse(morning), Sum(morning));
  }

  ghost predicate Increasing(exp: real -> real) { forall x: real, y: real | x < y :: exp(x) < exp(y) }

  /** The shapes the profiles are named after. Of two slices the morning curve gives more to the earlier, the
      afternoon curve to the later and the U-shape to the one nearer to its end of the day. */
  lemma ShareShapes(slices: nat, exp: real -> real, total: real, i: nat, j: nat)
    requires i < j < slices && Increasing(exp) && total > 0.0
    ensures var s := Shares(RawWeights(slices, MorningHeavy, exp), total); s[i] > s[j]
    ensures var s := Shares(RawWeights(slices, AfternoonHeavy, exp), total); s[i] < s[j]
    ensures var s := Shares(RawWeights(slices, UShaped, exp), total);
            (2 * j < slices ==> s[i] > s[j]) && (2 * i >= slices - 1 ==> s[i] < s[j])
    ensures var s := Shares(RawWeights(slices, Uniform, exp), total); s[i] == s[j]
  {
    var t, u := TimeOf(i, slices), TimeOf(j, slices);
    TimeOrder(i, j, slices);
    hide Share, TimeOf, Weight, Square;
    WeightShapes(t, u, exp);
    ShareOrder(Weight(MorningHeavy, u, exp), Weight(MorningHeavy, t, exp), total);
    ShareOrder(Weight(AfternoonHeavy, t, exp), Weight(AfternoonHeavy, u, exp), total);
    ShareOrder(Weight(UShaped, t, exp), Weight(UShaped, u, exp), total);
    ShareOrder(Weight(UShaped, u, exp), Weight(UShaped, t, exp), total);
  }

  lemma ShareOrder(x: real, y: real, total: real)
    requires total > 0.0
    ensures x < y ==> Share(x, total) < Share(y, total)
  {
    QuotientTimes(x, total);
    QuotientTimes(y, total);
  }

  lemma TimeOrder(i: nat, j: nat, slices: nat)
    requires i < j < slices
    ensures 0.0 <= TimeOf(i, slices) < TimeOf(j, slices) <= 1.0
    ensures 2 * j < slices ==> 2.0 * TimeOf(j, slices) <= 1.0
    ensures 2 * i >= slices - 1 ==> 2.0 * TimeOf(i, slices) >= 1.0
  {
    var n := (slices - 1) as real;
    QuotientRange(j as real, n, 0.0, 1.0);
    ShareOrder(i as real, j as real, n);
    QuotientRange(i as real, n, 0.0, 1.0);
    if 2 * j < slices {
      QuotientRange(j as real, n, 0.0, 0.5);
    }
    if 2 * i >= slices - 1 {
      QuotientRange(i as real, n, 0.5, 1.0);
    }
  }

  lemma WeightShapes(t: real, u: real, exp: real -> real)
    requires 0.0 <= t < u <= 1.0 && Increasing(exp)
    ensures Weight(MorningHeavy, t, exp) > Weight(MorningHeavy, u, exp)
    ensures Weight(AfternoonHeavy, t, exp) < Weight(AfternoonHeavy, u, exp)
    ensures 2.0 * u <= 1.0 ==> Weight(UShaped, t, exp) > Weight(UShaped, u, exp)
    ensures 2.0 * t >= 1.0 ==> Weight(UShaped, t, exp) < Weight(UShaped, u, exp)
  {
    var x, y := 1.0 - 2.0 * t, 1.0 - 2.0 * u;
    if y >= 0.0 {
      SquareOrder(y, x);
    } else if x <= 0.0 {
      SquareOrder(x, -y);
      SquareNegated(y);
    }
  }

  /** The first and the last slice of a U-shape weigh three times what a slice at midday would. */
  lemma UShapeEnds(slices: nat, exp: real -> real)
    requires slices >= 2
    ensures var w := RawWeights(slices, UShaped, exp); w[0] == w[slices - 1] == 3.0 * Weight(UShaped, 0.5, exp)
  {
    QuotientUnique((slices - 1) as real, (slices - 1) as real, 1.0);
    QuotientUnique(0.0, (slices - 1) as real, 0.0);
  }

  // ---------------------------------------------------------------------------------------
  // The order and its children
  // ---------------------------------------------------------------------------------------

  datatype ChildStatus = Pending | Filled | Cancelled
  datatype Child = Child(quantity: real, fillPrice: real, status: ChildStatus)
  datatype Status = Running | Completed | Stopped | Failed

  /** How the order pipeline answers a child; every rejection, odd status or exception is a failure. */
  datatype Outcome = Fills(price: real) | Fails

  /** One round of a slicer: does the user cancel while it sleeps before the child, or while the
      child is in flight, and what becomes of the child. */
  datatype Round = Round(asleep: bool, inFlight: bool, outcome: Outcome)

  function FilledQuantity(children: seq<Child>): real {
    if children == [] then 0.0
    else
      var c := children[|children| - 1];
      FilledQuantity(children[..|children| - 1]) + if c.status == Filled then c.quantity else 0.0
  }

  function Notional(children: seq<Child>): real {
    if children == [] then 0.0
    else
      var c := children[|children| - 1];
      Notional(children[..|children| - 1]) + if c.status == Filled then Product(c.fillPrice, c.quantity) else 0.0
  }

  function FilledCount(children: seq<Child>): nat {
    if children == [] then 0
    else FilledCount(children[..|children| - 1]) + if children[|children| - 1].status == Filled then 1 else 0
  }

  function Product(x: real, y: real): real { x * y }

  /** The running average after a fill of `qty` at `price`. */
  function NextAverage(avg: real, prev: real, price: real, qty: real): real
    requires prev >= 0.0 && qty > 0.0
  {
    if prev == 0.0 then price else (avg * prev + price * qty) / (prev + qty)
  }

  lemma AverageStep(avg: real, prev: real, price: real, qty: real)
    requires prev >= 0.0 && qty > 0.0
    ensures Product(NextAverage(avg, prev, price, qty), prev + qty) == Product(avg, prev) + Product(price, qty)
  {
    if prev == 0.0 {
      ZeroFactor(avg, prev);
    } else {
      assert NextAverage(avg, prev, price, qty) * (prev + qty) == avg * prev + price * qty;
    }
  }

  lemma ZeroFactor(x: real, y: real)
    requires y == 0.0
    ensures x * y == 0.0
  {
  }

  ghost predicate AllSettled(children: seq<Child>) {
    forall i | 0 <= i < |children| :: children[i].quantity > 0.0 && children[i].status != Pending
  }

  /** What one more child adds to the sums. */
  lemma ChildAdded(children: seq<Child>, c: Child)
    ensures FilledQuantity(children + [c]) == FilledQuantity(children) + if c.status == Filled then c.quantity else 0.0
    ensures Notional(children + [c]) ==
            Notional(children) + if c.status == Filled then Product(c.fillPrice, c.quantity) else 0.0
    ensures FilledCount(children + [c]) == FilledCount(children) + if c.status == Filled then 1 else 0
    ensures AllSettled(children) && c.quantity > 0.0 && c.status != Pending ==> AllSettled(children + [c])
  {
    assert (children + [c])[..|children|] == children;
  }

  class AlgoEntry {
    const total: real
    var filled: real
    var remaining: real
    var avgFillPrice: real
    var status: Status
    var children: seq<Child>
    var allSlicesSent: bool
    var cancelRequested: bool
    var active: bool   // still in the service's table

    /** Every child is settled, what was filled and what is left make up the whole, and the average
        price times the filled quantity is the money spent. */
    ghost predicate Valid()
      reads this
    {
      && filled == FilledQuantity(children)
      && Product(avgFillPrice, filled) == Notional(children)
      && filled + remaining == total
      && filled >= 0.0
      && AllSettled(children)
      && (cancelRequested <==> status == Stopped)
      && (status == Completed ==> filled > 0.0)
      && (status == Failed ==> filled == 0.0)
      && (active <==> status == Running || status == Stopped)
      && (allSlicesSent ==> status != Running)
    }

    constructor (total: real)
      ensures Valid() && this.total == total && status == Running && children == [] && filled == 0.0
    {
      this.total := total;
      filled, remaining, avgFillPrice, status := 0.0, total, 0.0, Running;
      children, allSlicesSent, cancelRequested, active := [], false, false, true;
      new;
      ZeroFactor(avgFillPrice, filled);
    }

    /** A cancelled order keeps its fills and never becomes completed or failed; an order that is
        over cannot be cancelled. */
    method Cancel() returns (ok: bool)
      requires Valid()
      modifies this`status, this`cancelRequested
      ensures Valid() && ok == old(active) && active == old(active)
      ensures ok ==> status == Stopped
      ensures !ok ==> status == old(status)
    {
      if !active {
        return false;
      }
      cancelRequested := true;
      status := Stopped;
      return true;
    }

    method MaybeComplete()
      requires filled >= 0.0
      modifies this`status, this`active
      ensures if old(status) == Running && allSlicesSent && (forall i | 0 <= i < |children| :: children[i].status != Pending)
              then status == (if filled > 0.0 then Completed else Failed) && !active
              else status == old(status) && active == old(active)
    {
      if status != Running || !allSlicesSent {
        return;
      }
      if exists i | 0 <= i < |children| :: children[i].status == Pending {
        return;
      }
      status := if filled > 0.0 then Completed else Failed;
      active := false;
    }

    method FinishSlicing()
      requires Valid()
      modifies this`status, this`active, this`allSlicesSent
      ensures Valid() && allSlicesSent
      ensures status == if old(status) != Running then old(status) else if filled > 0.0 then Completed else Failed
    {
      allSlicesSent := true;
      MaybeComplete();
    }

    /** Settles the child in flight, the last one sent, with its fill price. */
    method RecordChildFill(price: real)
      requires children != [] && children[|children| - 1].status == Pending
      requires 0.0 < children[|children| - 1].quantity <= remaining
      requires filled >= 0.0 && filled + remaining == total
      requires filled == FilledQuantity(children) && Product(avgFillPrice, filled) == Notional(children)
      modifies this`filled, this`remaining, this`avgFillPrice, this`children
      ensures children == old(children[..|children| - 1])
                          + [old(children[|children| - 1]).(fillPrice := price, status := Filled)]
      ensures filled == old(filled + children[|children| - 1].quantity) && filled + remaining == total
      ensures filled == FilledQuantity(children) && Product(avgFillPrice, filled) == Notional(children)
    {
      hide FilledQuantity, Notional, NextAverage, Product;
      ghost var settled, pending := children[..|children| - 1], children[|children| - 1];
      assert children == settled + [pending];
      ChildAdded(settled, pending);
      var i := |children| - 1;
      var qty := children[i].quantity;
      children := children[i := children[i].(fillPrice := price, status := Filled)];
      assert children == settled + [pending.(fillPrice := price, status := Filled)];
      ChildAdded(settled, pending.(fillPrice := price, status := Filled));
      var prevFilled := filled;
      filled := filled + qty;
      remaining := Max(0.0, total - filled);
      AverageStep(avgFillPrice, prevFilled, price, qty);
      avgFillPrice := NextAverage(avgFillPrice, prevFilled, price, qty);
    }

    /** Settles the child in flight as failed; the quantities stay as they are. */
    method RecordChildFailure()
      requires children != [] && children[|children| - 1].status == Pending
      requires filled == FilledQuantity(children) && Product(avgFillPrice, filled) == Notional(children)
      modifies this`children
      ensures children == old(children[..|children| - 1]) + [old(children[|children| - 1]).(status := Cancelled)]
      ensures filled == FilledQuantity(children) && Product(avgFillPrice, filled) == Notional(children)
    {
      hide FilledQuantity, Notional, Product;
      ghost var settled, pending := children[..|children| - 1], children[|children| - 1];
      assert children == settled + [pending];
      ChildAdded(settled, pending);
      children := children[|children| - 1 := children[|children| - 1].(status := Cancelled)];
      assert children == settled + [pending.(status := Cancelled)];
      ChildAdded(settled, pending.(status := Cancelled));
    }

    /** One child from sending to settlement; the user may cancel while it is in flight. */
    method ExecuteChild(qty: real, inFlight: bool, outcome: Outcome)
      requires Valid() && active && !allSlicesSent && qty <= remaining
      modifies this
      ensures Valid() && active && !allSlicesSent
      ensures qty <= 0.0 ==> children == old(children) && cancelRequested == old(cancelRequested)
      ensures qty > 0.0 ==> children == old(children) + [Settled(qty, outcome)]
      ensures qty > 0.0 ==> cancelRequested == (old(cancelRequested) || inFlight)
      ensures filled == old(filled) + if qty > 0.0 && outcome.Fills? then qty else 0.0
    {
      hide FilledQuantity, Notional, AllSettled, Product;
      if qty <= 0.0 {
        return;
      }
      ghost var before := children;
      ChildAdded(before, Child(qty, 0.0, Pending));
      ChildAdded(before, Settled(qty, outcome));
      children := children + [Child(qty, 0.0, Pending)];
      assert children[..|children| - 1] == before;
      if inFlight {
        cancelRequested, status := true, Stopped;
      }
      match outcome
      case Fills(price) =>
        RecordChildFill(price);
      case Fails =>
        RecordChildFailure();
    }
  }

  function Settled(qty: real, outcome: Outcome): Child {
    match outcome
    case Fills(price) => Child(qty, price, Filled)
    case Fails => Child(qty, 0.0, Cancelled)
  }

  // ---------------------------------------------------------------------------------------
  // The slicers
  // ---------------------------------------------------------------------------------------

  ghost predicate IsPlan(plan: seq<real>, total: real) {
    plan != [] && Sum(plan) == total && forall i | 0 <= i < |plan| :: plan[i] > 0.0
  }

  /** What the first children of a sliced order look like: one per round, in order, each of the
      planned quantity, settled as the pipeline answered. Failures before the last round change
      no child but the last, which takes all that is left. */
  ghost predicate FollowsPlan(children: seq<Child>, plan: seq<real>, rounds: seq<Round>, total: real)
    requires |plan| == |rounds|
  {
    var n := |children| - 1;
    n < 0 || (
      && n < |plan|
      && children[n] == Settled(if n < |plan| - 1 then plan[n] else total - FilledQuantity(children[..n]),
                                rounds[n].outcome)
      && FollowsPlan(children[..n], plan, rounds, total))
  }

  ghost predicate CancelledIn(rounds: seq<Round>) {
    exists r :: r in rounds && (r.asleep || r.inFlight)
  }

  lemma {:induction false} PlanPrefix(plan: seq<real>, i: nat)
    requires i < |plan| && forall j | 0 <= j < |plan| :: plan[j] > 0.0
    ensures Sum(plan[..i]) + plan[i] == Sum(plan[..i + 1]) <= Sum(plan)
    ensures Sum(plan[..i]) < Sum(plan)
  {
    assert plan[..i + 1][..i] == plan[..i];
    assert plan == plan[..i + 1] + plan[i + 1..];
    SumConcat(plan[..i + 1], plan[i + 1..]);
    SumPositive(plan[i + 1..]);
  }

  lemma PlanFollowed(
      before: seq<Child>, after: seq<Child>, plan: seq<real>, rounds: seq<Round>, total: real, qty: real)
    requires |before| < |plan| == |rounds| && FollowsPlan(before, plan, rounds, total)
    requires qty == if |before| < |plan| - 1 then plan[|before|] else total - FilledQuantity(before)
    requires after == before + [Settled(qty, rounds[|before|].outcome)]
    ensures FollowsPlan(after, plan, rounds, total)
  {
    hide FilledQuantity, Settled;
    assert after[..|before|] == before;
  }

  /** What the time-sliced and the volume-sliced runner promise. */
  ghost predicate Sliced(entry: AlgoEntry, plan: seq<real>, rounds: seq<Round>)
    requires |plan| == |rounds|
    reads entry
  {
    && entry.Valid() && entry.status != Running
    && (entry.cancelRequested ==> CancelledIn(rounds))
    && (IsPlan(plan, entry.total) ==>
          && FollowsPlan(entry.children, plan, rounds, entry.total)
          && (!entry.cancelRequested ==> |entry.children| == |plan|)
          && (|entry.children| == |plan| && rounds[|plan| - 1].outcome.Fills? ==> entry.filled == entry.total))
    && (entry.total <= 0.0 ==> entry.children == [])
  }

  ghost predicate Fresh(entry: AlgoEntry)
    reads entry
  {
    entry.Valid() && entry.status == Running && entry.children == [] && entry.filled == 0.0 && !entry.allSlicesSent
  }

  /** One round of a sliced run: the quantity is the planned one except for the last slice. */
  method RunSlice(entry: AlgoEntry, plan: seq<real>, rounds: seq<Round>, i: nat)
    requires i < |plan| == |rounds|
    requires entry.Valid() && entry.active && !entry.allSlicesSent && !entry.cancelRequested
    modifies entry
    ensures entry.Valid() && entry.active && !entry.allSlicesSent
    ensures entry.cancelRequested ==> CancelledIn(rounds)
    ensures old(entry.remaining) <= 0.0 ==> entry.children == old(entry.children) && entry.filled == old(entry.filled)
    ensures IsPlan(plan, entry.total) && old(entry.filled) <= Sum(plan[..i]) && |old(entry.children)| == i
            && FollowsPlan(old(entry.children), plan, rounds, entry.total) ==>
              && |entry.children| == i + 1 && FollowsPlan(entry.children, plan, rounds, entry.total)
              && (i < |plan| - 1 ==> entry.filled <= Sum(plan[..i + 1]))
              && (i == |plan| - 1 && rounds[i].outcome.Fills? ==> entry.filled == entry.total)
  {
    hide FilledQuantity, Notional, Product, Sum, CancelledIn, FollowsPlan;
    var round := rounds[i];
    if round.inFlight {
      CancelSeen(rounds, i);
    }
    var qty := if i == |plan| - 1 then entry.remaining else Min(plan[i], entry.remaining);
    ghost var before := entry.children;
    if IsPlan(plan, entry.total) {
      PlanPrefix(plan, i);
    }
    entry.ExecuteChild(qty, round.inFlight, round.outcome);
    if IsPlan(plan, entry.total) && old(entry.filled) <= Sum(plan[..i]) && |before| == i
       && FollowsPlan(before, plan, rounds, entry.total) {
      PlanFollowed(before, entry.children, plan, rounds, entry.total, qty);
    }
  }

  /** The loop the two runners share; they differ in the plan. */
  method RunSlices(entry: AlgoEntry, plan: seq<real>, rounds: seq<Round>)
    requires Fresh(entry) && |plan| == |rounds|
    modifies entry
    ensures Sliced(entry, plan, rounds)
  {
    hide FilledQuantity, Notional, Product, Sum, CancelledIn, FollowsPlan;
    ghost var planned := IsPlan(plan, entry.total);
    PlanStart(plan, rounds, entry.total);
    for i := 0 to |plan|
      invariant entry.Valid() && entry.active && !entry.allSlicesSent
      invariant entry.cancelRequested ==> CancelledIn(rounds)
      invariant entry.total <= 0.0 ==> entry.children == [] && entry.filled == 0.0
      invariant planned ==> |entry.children| == i && FollowsPlan(entry.children, plan, rounds, entry.total)
      invariant planned && i < |plan| ==> entry.filled <= Sum(plan[..i])
      invariant planned && i == |plan| && rounds[i - 1].outcome.Fills? ==> entry.filled == entry.total
    {
      if entry.cancelRequested {
        return;
      }
      if i > 0 && rounds[i].asleep {
        var _ := entry.Cancel();
        CancelSeen(rounds, i);
      }
      if entry.cancelRequested {
        return;
      }
      RunSlice(entry, plan, rounds, i);
    }
    entry.FinishSlicing();
  }

  lemma PlanStart(plan: seq<real>, rounds: seq<Round>, total: real)
    requires |plan| == |rounds|
    ensures FollowsPlan([], plan, rounds, total) && Sum(plan[..0]) == 0.0
  {
  }

  lemma CancelSeen(rounds: seq<Round>, i: nat)
    requires i < |rounds| && (rounds[i].asleep || rounds[i].inFlight)
    ensures CancelledIn(rounds)
  {
    assert rounds[i] in rounds;
  }

  function EqualSlices(total: real, slices: nat): (s: seq<real>)
    ensures |s| == slices
  {
    seq(slices, i requires 0 <= i < slices => total / slices as real)
  }

  lemma {:induction false} SumConstant(s: seq<real>, x: real)
    requires forall i | 0 <= i < |s| :: s[i] == x
    ensures Sum(s) == x * |s| as real
  {
    var n := |s| - 1;
    if n >= 0 {
      SumConstant(s[..n], x);
      assert |s| as real == n as real + 1.0;
      assert x * |s| as real == x * n as real + x;
    }
  }

  /** Time slicing: equal children, the last taking the rest. */
  method RunTwap(entry: AlgoEntry, slices: nat, rounds: seq<Round>)
    requires Fresh(entry) && slices == |rounds|
    modifies entry
    ensures Sliced(entry, EqualSlices(entry.total, slices), rounds)
    ensures entry.total > 0.0 && slices > 0 ==> IsPlan(EqualSlices(entry.total, slices), entry.total)
  {
    var sliceQty := if slices == 0 then 0.0 else entry.total / slices as real;
    var plan := seq(slices, _ => sliceQty);
    SumConstant(plan, sliceQty);
    assert plan == EqualSlices(entry.total, slices);
    if slices > 0 {
      ShareSigns(entry.total, slices as real);
    }
    RunSlices(entry, plan, rounds);
  }

  lemma ShareSigns(x: real, n: real)
    requires n > 0.0
    ensures x / n * n == x
    ensures x > 0.0 ==> x / n > 0.0
  {
  }

  /** Volume slicing: shares of the day's volume curve. One slice alone takes everything, so its
      weight, a division by zero for the curved profiles, is never looked at. */
  method RunVwap(entry: AlgoEntry, slices: nat, profile: Profile, exp: real -> real, rounds: seq<Round>)
    requires Positive(exp) && Fresh(entry) && slices == |rounds|
    modifies entry
    ensures slices <= 1 ==> Sliced(entry, EqualSlices(entry.total, slices), rounds)
    ensures slices >= 2 ==>
              var raw := RawWeights(slices, profile, exp);
              && Sum(raw) > 0.0
              && Sliced(entry, Parts(Shares(raw, Sum(raw)), entry.total), rounds)
              && (entry.total > 0.0 ==> IsPlan(Parts(Shares(raw, Sum(raw)), entry.total), entry.total))
  {
    if slices <= 1 {
      var plan := seq(slices, _ => entry.total);
      AtMostOneSlice(entry.total, slices);
      RunSlices(entry, plan, rounds);
    } else {
      hide Share, Part, RawWeights, Sum;
      var weights := GetVolumeWeights(slices, profile, exp);
      var plan := Parts(weights, entry.total);
      SumParts(weights, entry.total);
      PartAdds(0.0, 0.0, entry.total);
      if entry.total > 0.0 {
        forall i | 0 <= i < slices ensures plan[i] > 0.0 {
          PartSign(weights[i], entry.total);
        }
      }
      RunSlices(entry, plan, rounds);
    }
  }

  lemma AtMostOneSlice(total: real, slices: nat)
    requires slices <= 1
    ensures seq(slices, _ => total) == EqualSlices(total, slices)
  {
    if slices == 1 {
      assert total / 1.0 == total;
    }
  }

  lemma PartSign(x: real, total: real)
    requires x > 0.0 && total > 0.0
    ensures Part(x, total) > 0.0
  {
    ProductSign(total, x);
  }

  // ---------------------------------------------------------------------------------------
  // Iceberg and bracket
  // ---------------------------------------------------------------------------------------

  /** Every child shows the visible quantity or what is left, whatever failed before it. */
  ghost predicate Icebergs(children: seq<Child>, visible: real, total: real, rounds: seq<Round>) {
    var n := |children| - 1;
    n < 0 || (
      && n < |rounds|
      && children[n] == Settled(Min(visible, total - FilledQuantity(children[..n])), rounds[n].outcome)
      && Icebergs(children[..n], visible, total, rounds))
  }

  /** After `k` fills of a visible quantity: `k` whole ones, or the total in exactly the least
      number of pieces that can hold it. */
  ghost predicate Filling(k: nat, filled: real, visible: real, total: real) {
    if filled < total then filled == k as real * visible
    else filled == total && (k as real - 1.0) * visible < total <= k as real * visible
  }

  lemma FillingNext(k: nat, filled: real, visible: real, total: real, qty: real)
    requires Filling(k, filled, visible, total) && filled < total && qty == Min(visible, total - filled)
    ensures Filling(k + 1, filled + qty, visible, total)
  {
    assert (k + 1) as real == k as real + 1.0;
    assert (k + 1) as real * visible == k as real * visible + visible;
  }

  lemma IcebergsNext(
      before: seq<Child>, after: seq<Child>, visible: real, total: real, rounds: seq<Round>, qty: real)
    requires Icebergs(before, visible, total, rounds) && |before| < |rounds|
    requires qty == Min(visible, total - FilledQuantity(before))
    requires after == before + [Settled(qty, rounds[|before|].outcome)]
    ensures Icebergs(after, visible, total, rounds)
  {
    hide FilledQuantity, Settled, Min;
    assert after[..|before|] == before;
  }

  /** The iceberg loop over as many rounds as are given; `waiting` when they run out before it ends:
      a child that keeps failing is sent again without limit, and a visible quantity of zero or less
      never sends any. */
  method RunIceberg(entry: AlgoEntry, visible: real, rounds: seq<Round>) returns (waiting: bool)
    requires Fresh(entry)
    modifies entry
    ensures entry.Valid()
    ensures Icebergs(entry.children, visible, entry.total, rounds)
    ensures waiting ==> entry.status == Running && entry.filled < entry.total
    ensures waiting && visible > 0.0 ==> |entry.children| == |rounds|
    ensures entry.cancelRequested ==> CancelledIn(rounds)
    ensures !waiting && !entry.cancelRequested ==>
              entry.status == if entry.total > 0.0 then Completed else Failed
    ensures !waiting && !entry.cancelRequested && entry.total > 0.0 ==> entry.filled == entry.total
    ensures entry.total > 0.0 && visible > 0.0 ==>
              Filling(FilledCount(entry.children), entry.filled, visible, entry.total)
    ensures entry.total > 0.0 && visible <= 0.0 ==> entry.children == [] && (waiting || entry.cancelRequested)
  {
    hide FilledQuantity, Notional, Product, CancelledIn, Icebergs, Filling, FilledCount;
    var i := 0;
    IcebergStart(visible, entry.total, rounds);
    while !entry.cancelRequested && entry.remaining > 0.0
      invariant entry.Valid() && entry.active && !entry.allSlicesSent && i <= |rounds|
      invariant if visible > 0.0 then i == |entry.children| else entry.children == [] && entry.filled == 0.0
      invariant Icebergs(entry.children, visible, entry.total, rounds)
      invariant entry.filled == 0.0 || entry.filled <= entry.total
      invariant entry.total > 0.0 && visible > 0.0 ==>
                  Filling(FilledCount(entry.children), entry.filled, visible, entry.total)
      invariant entry.cancelRequested ==> CancelledIn(rounds)
      decreases |rounds| - i
    {
      if i == |rounds| {
        return true;
      }
      var qty := Min(visible, entry.remaining);
      ghost var before := entry.children;
      if visible > 0.0 {
        FillingNext(FilledCount(before), entry.filled, visible, entry.total, qty);
      }
      entry.ExecuteChild(qty, rounds[i].inFlight, rounds[i].outcome);
      if visible > 0.0 {
        IcebergsNext(before, entry.children, visible, entry.total, rounds, qty);
        ChildAdded(before, Settled(qty, rounds[i].outcome));
      }
      if rounds[i].inFlight {
        CancelSeen(rounds, i);
      }
      i := i + 1;
      if entry.cancelRequested || entry.remaining <= 0.0 {
        break;
      }
      if i < |rounds| && rounds[i].asleep {
        var _ := entry.Cancel();
        CancelSeen(rounds, i);
      }
    }
    entry.FinishSlicing();
    waiting := false;
  }

  lemma IcebergStart(visible: real, total: real, rounds: seq<Round>)
    ensures Icebergs([], visible, total, rounds)
    ensures total > 0.0 && visible > 0.0 ==> Filling(FilledCount([]), 0.0, visible, total)
  {
  }

  lemma {:induction false} AllFilled(children: seq<Child>, visible: real, total: real, rounds: seq<Round>)
    requires Icebergs(children, visible, total, rounds) && forall r | r in rounds :: r.outcome.Fills?
    ensures FilledCount(children) == |children|
  {
    hide FilledQuantity, Min;
    if children != [] {
      assert rounds[|children| - 1] in rounds;
      AllFilled(children[..|children| - 1], visible, total, rounds);
    }
  }

  /** When every child fills, a finished iceberg has sent the total divided by the visible quantity,
      rounded up, and it never needs more rounds than that. */
  lemma IcebergCeiling(children: seq<Child>, filled: real, visible: real, total: real, rounds: seq<Round>)
    requires total > 0.0 && visible > 0.0 && Icebergs(children, visible, total, rounds)
    requires Filling(FilledCount(children), filled, visible, total)
    requires forall r | r in rounds :: r.outcome.Fills?
    ensures filled == total ==> (|children| as real - 1.0) * visible < total <= |children| as real * visible
    ensures filled < total ==> |children| as real * visible < total
  {
    hide FilledQuantity, Icebergs, FilledCount;
    AllFilled(children, visible, total, rounds);
  }

  /** A bracket is one child of the whole quantity. */
  method RunBracket(entry: AlgoEntry, inFlight: bool, outcome: Outcome)
    requires Fresh(entry)
    modifies entry
    ensures entry.Valid()
    ensures entry.children == if entry.total > 0.0 then [Settled(entry.total, outcome)] else []
    ensures entry.filled == if entry.total > 0.0 && outcome.Fills? then entry.total else 0.0
    ensures entry.status == if entry.total > 0.0 && inFlight then Stopped
                            else if entry.filled > 0.0 then Completed else Failed
  {
    hide FilledQuantity, Notional, Product;
    if !entry.cancelRequested {
      entry.ExecuteChild(entry.total, inFlight, outcome);
    }
    entry.FinishSlicing();
  }
}
