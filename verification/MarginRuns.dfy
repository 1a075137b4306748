/** A client's locked margin. */
module MarginRuns {
  // Locked margin under every interleaving of orders, executions, releases and repairs.  Each event is
  // one transaction or one change of the order book, so that anything may happen between the
  // transactions of one execution.

  import opened Prelude
  import opened MarginEngine

  datatype Event =
    | Receive(order: nat, quantity: real)
    | SetAside(order: nat, estimate: real, pnl: real)     // lock an estimate, if margin allows
    | Rest(h: nat)                                        // the order goes on the book with its estimate
    | Take(i: nat)                                        // triggered, cancelled or expired
    | Transact(hand: Option<nat>, req: Request, w: World)    // the fill transaction
    | TryRelease(h: nat, attempt: Attempt)
    | Abandon(h: nat)                                     // attempts used up, an error, or a crash
    | Mark(order: nat, status: OrderStatus)
    | Repair                                              // the reconciliation of wallet and positions

  predicate Enabled(b: Books, e: Event) {
    match e
    case Receive(order, quantity) => order !in b.db.orders && quantity > 0.0
    case SetAside(order, estimate, _) => order in b.db.orders && estimate >= 0.0
    case Rest(h) => h < |b.held| && b.held[h].stage.Reserved? && b.held[h].tries == 0
    case Take(i) => i < |b.resting|
    case Transact(hand, req, w) =>
      && req.Ok(w.leg) && req.order in b.db.orders
      && (hand.None? ==> req.preLocked.None?)
      && (hand.Some? ==>
            && hand.value < |b.held| && b.held[hand.value].stage.Reserved? && b.held[hand.value].tries == 0
            && req.order == b.held[hand.value].order && req.preLocked == Some(b.held[hand.value].amount))
    case TryRelease(h, _) => h < |b.held| && b.held[h].tries < MAX_ATTEMPTS
    case Abandon(h) => h < |b.held|
    case Mark(_, status) => !status.Filled?
    case Repair => true
  }

  function Without<T>(s: seq<T>, i: nat): (r: seq<T>)
    requires i < |s|
    ensures |r| == |s| - 1
  {
    s[..i] + s[i + 1..]
  }

  /** What a committed partial fill leaves for its caller to give back, unless it is a cent or less. */
  function Unfilled(b: Books, req: Request, leg: FillResult): Books
    requires req.Ok(leg)
  {
    var unused := req.Margin(leg) - req.EffectiveMargin(leg);
    if !req.IsPartial(leg) then b
    else if unused > RESIDUE then b.(held := b.held + [Claim(req.order, unused, Unused, 0)])
    else b.(residues := b.residues + [unused])
  }

  function Transacted(b: Books, req: Request, w: World): Books
    requires req.Ok(w.leg) && req.order in b.db.orders
  {
    match FillTx(b.db, req, w)
    case Thrown(_) => b.(stuck := if req.preLocked.Some? then b.stuck + [Estimate(req)] else b.stuck)
    case Insufficient(db) => b.(db := db)
    case Committed(db) => Unfilled(b.(db := db), req, w.leg)
  }

  function Tried(b: Books, h: nat, attempt: Attempt): Books
    requires h < |b.held|
  {
    var c := b.held[h];
    match attempt
    case Done => b.(db := Release(b.db, c.order, c.amount), held := Without(b.held, h))
    case LostAck =>
      b.(db := Release(b.db, c.order, c.amount), held := b.held[h := c.(stage := GivenBack, tries := c.tries + 1)])
    case Failed => b.(held := b.held[h := c.(tries := c.tries + 1)])
  }

  /** What is locked beyond the margin of open positions. */
  function Orphan(b: Books): real { b.db.locked - Margins(b.db.positions) }

  /** The repair knows positions only: whatever else is locked goes, estimates of resting orders too. */
  function Repaired(b: Books): Books {
    if Orphan(b) <= RESIDUE then b
    else
      var entry := LedgerEntry(MarginRelease, Orphan(b), 0);
      b.(db := b.db.(locked := b.db.locked - Orphan(b), ledger := b.db.ledger + [entry]), residues := [], stuck := [])
  }

  function Apply(b: Books, e: Event): Books
    requires Enabled(b, e)
  {
    match e
    case Receive(order, quantity) => b.(db := Placed(b.db, order, quantity))
    case SetAside(order, estimate, pnl) =>
      if CanLock(b.db, estimate, pnl) then
        b.(db := Lock(b.db, order, estimate), held := b.held + [Claim(order, estimate, Reserved, 0)])
      else b
    case Rest(h) => b.(resting := b.resting + [b.held[h]], held := Without(b.held, h))
    case Take(i) => b.(held := b.held + [b.resting[i]], resting := Without(b.resting, i))
    case Transact(hand, req, w) =>
      Transacted(if hand.Some? then b.(held := Without(b.held, hand.value)) else b, req, w)
    case TryRelease(h, attempt) => Tried(b, h, attempt)
    case Abandon(h) =>
      var c := b.held[h];
      b.(held := Without(b.held, h), stuck := if c.stage.GivenBack? then b.stuck else b.stuck + [c.amount])
    case Mark(order, status) => b.(db := WithStatus(b.db, order, status))
    case Repair => Repaired(b)
  }

  ghost predicate Legal(b: Books, events: seq<Event>)
    decreases |events|
  {
    events == [] || (Enabled(b, events[0]) && Legal(Apply(b, events[0]), events[1..]))
  }

  ghost function Exec(b: Books, events: seq<Event>): Books
    requires Legal(b, events)
    decreases |events|
  {
    if events == [] then b else Exec(Apply(b, events[0]), events[1..])
  }

  // ---------------------------------------------------------------------------------------
  // Ledger and records
  // ---------------------------------------------------------------------------------------

  ghost predicate Sound(b: Books, since: Db) { Recorded(b.db) && Explained(b.db, since) }

  lemma RepairExplained(b: Books, since: Db)
    requires Explained(b.db, since)
    ensures Explained(Repaired(b).db, since)
  {
    hide Amounts, Margins;
    EntryAdded(b.db.ledger, LedgerEntry(MarginRelease, Orphan(b), 0));
  }

  lemma StepSound(b: Books, e: Event, since: Db)
    requires Enabled(b, e) && Sound(b, since)
    ensures Sound(Apply(b, e), since)
  {
    hide Recorded, Explained, FillTx, Lock, Release, CanLock, WithStatus, Placed, Orphan;
    match e {
      case Receive(order, quantity) => PlacedKeeps(b.db, order, quantity, since);
      case SetAside(order, estimate, pnl) =>
        LockExplained(b.db, order, estimate, since);
        LockFrame(b.db, order, estimate);
        WalletOnly(b.db, Lock(b.db, order, estimate));
      case Rest(_) =>
      case Take(_) =>
      case Transact(_, req, w) => FillTxSound(b.db, req, w, since);
      case TryRelease(h, attempt) =>
        var c := b.held[h];
        ReleaseExplained(b.db, c.order, c.amount, since);
        ReleaseFrame(b.db, c.order, c.amount);
        WalletOnly(b.db, Release(b.db, c.order, c.amount));
      case Abandon(_) =>
      case Mark(order, status) => StatusKeeps(b.db, order, status, since);
      case Repair =>
        RepairExplained(b, since);
        WalletOnly(b.db, Repaired(b).db);
    }
  }

  lemma LockFrame(db: Db, order: nat, required: real)
    ensures Lock(db, order, required).(locked := db.locked, ledger := db.ledger) == db
    ensures Lock(db, order, required).locked == db.locked + required
  {
  }

  lemma ReleaseFrame(db: Db, order: nat, amount: real)
    ensures Release(db, order, amount).(locked := db.locked, ledger := db.ledger) == db
    ensures Release(db, order, amount).locked == LockedWithout(db, amount)
  {
  }

  /** In every run the ledger explains the wallet and the records agree with each other. */
  lemma {:induction false} RunSound(b: Books, events: seq<Event>, since: Db)
    requires Legal(b, events) && Sound(b, since)
    ensures Sound(Exec(b, events), since)
    decreases |events|
  {
    hide Sound, Apply;
    if events != [] {
      StepSound(b, events[0], since);
      RunSound(Apply(b, events[0]), events[1..], since);
    }
  }

  // ---------------------------------------------------------------------------------------
  // What should be locked
  // ---------------------------------------------------------------------------------------

  function Claimed(cs: seq<Claim>): real {
    if cs == [] then 0.0 else Claimed(cs[..|cs| - 1]) + cs[|cs| - 1].Due()
  }

  /** The margin of positions, the estimates outstanding, on the book or in hand, and the residues. */
  function Needed(b: Books): real {
    Margins(b.db.positions) + Claimed(b.resting) + Claimed(b.held) + Sum(b.residues)
  }

  ghost predicate NonNegative(s: seq<real>) { forall i | 0 <= i < |s| :: s[i] >= 0.0 }

  ghost predicate AmountsOk(cs: seq<Claim>) { forall i | 0 <= i < |cs| :: cs[i].amount >= 0.0 }

  /** No amount is negative and no residue is more than a cent. */
  ghost predicate Proper(b: Books) {
    && b.db.locked >= 0.0
    && (forall i | 0 <= i < |b.db.positions| :: b.db.positions[i].marginUsed >= 0.0)
    && AmountsOk(b.resting) && AmountsOk(b.held)
    && NonNegative(b.residues) && NonNegative(b.stuck)
    && (forall i | 0 <= i < |b.residues| :: b.residues[i] <= 0.01)
  }

  /** Locked margin is exactly what is needed. */
  ghost predicate Exact(b: Books) { Proper(b) && b.db.locked == Needed(b) }

  /** Locked margin is at most what is needed and what is stuck, and at most `over` less. */
  ghost predicate Bounded(b: Books, over: real) {
    && Proper(b) && over >= 0.0
    && Needed(b) + Sum(b.stuck) - over <= b.db.locked <= Needed(b) + Sum(b.stuck)
  }

  lemma {:induction false} ClaimedSign(cs: seq<Claim>)
    requires AmountsOk(cs)
    ensures Claimed(cs) >= 0.0
  {
    if cs != [] { ClaimedSign(cs[..|cs| - 1]); }
  }

  lemma {:induction false} MarginsSign(positions: seq<Position>)
    requires forall i | 0 <= i < |positions| :: positions[i].marginUsed >= 0.0
    ensures Margins(positions) >= 0.0
  {
    if positions != [] { MarginsSign(positions[..|positions| - 1]); }
  }

  lemma {:induction false} SumSign(s: seq<real>)
    requires NonNegative(s)
    ensures Sum(s) >= 0.0
  {
    if s != [] { SumSign(s[..|s| - 1]); }
  }

  lemma Signs(b: Books)
    requires Proper(b)
    ensures Margins(b.db.positions) >= 0.0 && Claimed(b.resting) >= 0.0 && Claimed(b.held) >= 0.0
    ensures Sum(b.residues) >= 0.0 && Sum(b.stuck) >= 0.0
  {
    MarginsSign(b.db.positions);
    ClaimedSign(b.resting);
    ClaimedSign(b.held);
    SumSign(b.residues);
    SumSign(b.stuck);
  }

  lemma ClaimedAdd(cs: seq<Claim>, c: Claim)
    ensures Claimed(cs + [c]) == Claimed(cs) + c.Due()
  {
    assert (cs + [c])[..|cs|] == cs;
  }

  lemma {:induction false} ClaimedWithout(cs: seq<Claim>, i: nat)
    requires i < |cs|
    ensures Claimed(Without(cs, i)) == Claimed(cs) - cs[i].Due()
  {
    var n := |cs| - 1;
    if i == n {
      assert Without(cs, i) == cs[..n];
    } else {
      ClaimedWithout(cs[..n], i);
      assert Without(cs, i) == Without(cs[..n], i) + [cs[n]];
      ClaimedAdd(Without(cs[..n], i), cs[n]);
    }
  }

  lemma ClaimedUpdate(cs: seq<Claim>, i: nat, c: Claim)
    requires i < |cs|
    ensures Claimed(cs[i := c]) == Claimed(cs) - cs[i].Due() + c.Due()
  {
    hide Claimed;
    ClaimedWithout(cs, i);
    ClaimedWithout(cs[i := c], i);
    assert Without(cs[i := c], i) == Without(cs, i);
  }

  lemma WithoutOk(cs: seq<Claim>, i: nat)
    requires AmountsOk(cs) && i < |cs|
    ensures AmountsOk(Without(cs, i))
  {
  }

  // ---------------------------------------------------------------------------------------
  // Steps
  // ---------------------------------------------------------------------------------------

  /** How much an event may take away from margin that is needed: a release that repeats one which
      took effect, and a repair while amounts are set aside. */
  function Overdraw(b: Books, e: Event): real
    requires Enabled(b, e)
  {
    match e
    case TryRelease(h, attempt) =>
      if b.held[h].stage.GivenBack? && !attempt.Failed? then Max(0.0, Min(b.db.locked, b.held[h].amount)) else 0.0
    case Repair => if Orphan(b) > RESIDUE then Max(0.0, Claimed(b.resting) + Claimed(b.held)) else 0.0
    case _ => 0.0
  }

  /** The events that leave the books exact: everything but a throw or a walk-away with an amount in
      hand, a repeated release, and a repair while amounts are set aside. */
  predicate Harmless(b: Books, e: Event)
    requires Enabled(b, e)
  {
    match e
    case TryRelease(h, attempt) =>
      b.held[h].stage.GivenBack? && !attempt.Failed? ==> b.held[h].amount == 0.0 || b.db.locked == 0.0
    case Abandon(h) => b.held[h].Due() == 0.0
    case Transact(_, req, w) => Throws(b.db, req, w) ==> Estimate(req) == 0.0
    case Repair => Orphan(b) <= RESIDUE || Claimed(b.resting) + Claimed(b.held) == 0.0
    case _ => true
  }

  /** What an event does to the drift between locked margin and what it should be. */
  ghost predicate StepOk(b: Books, e: Event, over: real)
    requires Enabled(b, e)
  {
    && (Bounded(b, over) ==> Bounded(Apply(b, e), over + Overdraw(b, e)))
    && (Exact(b) ==> (Exact(Apply(b, e)) <==> Harmless(b, e)))
  }

  /** An amount moves between book and hand, or into both lock and hand. */
  lemma MovedOk(b: Books, e: Event, over: real)
    requires Enabled(b, e) && Proper(b) && (e.SetAside? || e.Rest? || e.Take? || e.Receive? || e.Mark?)
    ensures StepOk(b, e, over)
  {
    hide CanLock, Lock, Claimed, Margins, Sum, Without;
    match e {
      case SetAside(order, estimate, pnl) =>
        LockFrame(b.db, order, estimate);
        ClaimedAdd(b.held, Claim(order, estimate, Reserved, 0));
      case Rest(h) =>
        ClaimedAdd(b.resting, b.held[h]);
        ClaimedWithout(b.held, h);
        WithoutOk(b.held, h);
      case Take(i) =>
        ClaimedAdd(b.held, b.resting[i]);
        ClaimedWithout(b.resting, i);
        WithoutOk(b.resting, i);
      case _ =>
    }
  }

  lemma TriedOk(b: Books, h: nat, attempt: Attempt, over: real)
    requires Enabled(b, TryRelease(h, attempt)) && Proper(b)
    ensures StepOk(b, TryRelease(h, attempt), over)
  {
    hide Release, Claimed, Margins, Sum, Without;
    var c := b.held[h];
    ReleaseFrame(b.db, c.order, c.amount);
    ClaimedWithout(b.held, h);
    WithoutOk(b.held, h);
    Signs(b);
    Signs(b.(held := Without(b.held, h)));
    ClaimedUpdate(b.held, h, c.(tries := c.tries + 1));
    ClaimedUpdate(b.held, h, c.(stage := GivenBack, tries := c.tries + 1));
  }

  lemma AbandonOk(b: Books, h: nat, over: real)
    requires Enabled(b, Abandon(h)) && Proper(b)
    ensures StepOk(b, Abandon(h), over)
  {
    hide Claimed, Margins, Sum, Without;
    ClaimedWithout(b.held, h);
    WithoutOk(b.held, h);
    SumAppend(b.stuck, b.held[h].amount);
  }

  lemma RepairOk(b: Books, over: real)
    requires Proper(b)
    ensures StepOk(b, Repair, over)
  {
    hide Claimed, Margins;
    Signs(b);
  }

  /** The fill transaction, seen from the books without the estimate it was given. */
  lemma TransactedOk(b: Books, e: Event, over: real)
    requires e.Transact? && Enabled(b, e) && Proper(b)
    ensures StepOk(b, e, over)
  {
    hide Claimed, Margins, Sum, Without, FillTx, Throws, Stopped, Affordable;
    var req, w := e.req, e.w;
    var rest := if e.hand.Some? then b.(held := Without(b.held, e.hand.value)) else b;
    if e.hand.Some? {
      ClaimedWithout(b.held, e.hand.value);
      WithoutOk(b.held, e.hand.value);
    }
    Signs(b);
    Signs(rest);
    ThrownIff(b.db, req, w);
    SumAppend(b.stuck, Estimate(req));
    if !Throws(b.db, req, w) {
      TransactMoney(rest, req, w);
    }
  }

  /** In money: the estimate goes, as far as it is locked, and the margin of the position and what the
      partial fill left come. */
  lemma TransactMoney(b: Books, req: Request, w: World)
    requires req.Ok(w.leg) && req.order in b.db.orders && Proper(b) && !FillTx(b.db, req, w).Thrown?
    ensures var t := Transacted(b, req, w);
            && Proper(t) && t.stuck == b.stuck && t.resting == b.resting
            && t.db.locked - LockedWithout(b.db, Estimate(req)) == Needed(t) - Needed(b)
  {
    hide Claimed, Margins, Sum, CanLock, InnerThrow, Release;
    ReleaseFrame(b.db, req.order, Estimate(req));
    EffectiveRange(req, w.leg);
    var margin, used := req.Margin(w.leg), req.EffectiveMargin(w.leg);
    PositionAdded(b.db.positions, Position(req.order, w.leg.filled, w.leg.price, used));
    ClaimedAdd(b.held, Claim(req.order, margin - used, Unused, 0));
    SumAppend(b.residues, margin - used);
  }

  lemma StepHolds(b: Books, e: Event, over: real)
    requires Enabled(b, e) && Proper(b)
    ensures StepOk(b, e, over)
  {
    hide StepOk;
    match e {
      case Transact(_, _, _) => TransactedOk(b, e, over);
      case TryRelease(h, attempt) => TriedOk(b, h, attempt, over);
      case Abandon(h) => AbandonOk(b, h, over);
      case Repair => RepairOk(b, over);
      case _ => MovedOk(b, e, over);
    }
  }

  /** Each step keeps the bound, with what it may overdraw. */
  lemma StepBounded(b: Books, e: Event, over: real)
    requires Enabled(b, e) && Bounded(b, over)
    ensures Bounded(Apply(b, e), over + Overdraw(b, e))
  {
    hide Apply, Overdraw, Harmless, Needed;
    StepHolds(b, e, over);
  }

  /** From exact books an event leads to exact books if and only if it is harmless. */
  lemma StepExactIff(b: Books, e: Event)
    requires Enabled(b, e) && Exact(b)
    ensures Exact(Apply(b, e)) <==> Harmless(b, e)
  {
    hide Apply, Overdraw, Harmless, Needed;
    StepHolds(b, e, 0.0);
  }

  // ---------------------------------------------------------------------------------------
  // Whole runs
  // ---------------------------------------------------------------------------------------

  ghost function Overdrawn(b: Books, events: seq<Event>): real
    requires Legal(b, events)
    decreases |events|
  {
    if events == [] then 0.0 else Overdraw(b, events[0]) + Overdrawn(Apply(b, events[0]), events[1..])
  }

  /** In every run, whatever throws, repeats or dies: locked margin is at most what positions, estimates
      and residues need plus what is stuck, and falls short of it by no more than the repeated releases
      and the repairs took. */
  lemma {:induction false} RunBounded(b: Books, events: seq<Event>, over: real)
    requires Legal(b, events) && Bounded(b, over)
    ensures Bounded(Exec(b, events), over + Overdrawn(b, events))
    decreases |events|
  {
    hide Bounded, Apply, Overdraw;
    if events != [] {
      StepBounded(b, events[0], over);
      RunBounded(Apply(b, events[0]), events[1..], over + Overdraw(b, events[0]));
    }
  }

  ghost predicate ExactThroughout(b: Books, events: seq<Event>)
    requires Legal(b, events)
    decreases |events|
  {
    Exact(b) && (events == [] || ExactThroughout(Apply(b, events[0]), events[1..]))
  }

  ghost predicate AllHarmless(b: Books, events: seq<Event>)
    requires Legal(b, events)
    decreases |events|
  {
    events == [] || (Harmless(b, events[0]) && AllHarmless(Apply(b, events[0]), events[1..]))
  }

  /** Locked margin is positions, outstanding estimates and residues at every moment of a run if and
      only if every event of it is harmless. */
  lemma {:induction false} RunExactIff(b: Books, events: seq<Event>)
    requires Legal(b, events) && Exact(b)
    ensures ExactThroughout(b, events) <==> AllHarmless(b, events)
    decreases |events|
  {
    hide Exact, Apply, Harmless;
    if events != [] {
      StepExactIff(b, events[0]);
      if Harmless(b, events[0]) {
        RunExactIff(Apply(b, events[0]), events[1..]);
      }
    }
  }

  // ---------------------------------------------------------------------------------------
  // An execution that nothing interrupts
  // ---------------------------------------------------------------------------------------

  /** An amount in hand has left the locked margin exactly once. */
  predicate ReturnedOnce(locked: real, amount: real, attempts: seq<Attempt>) {
    amount == 0.0 || Commits(attempts) == 1 || (Commits(attempts) >= 2 && locked == amount)
  }

  /** The executions that leave the books exact, told from the guards and the release attempts. */
  predicate Clean(db: Db, req: Request, w: World, attempts: seq<Attempt>)
    requires req.Ok(w.leg)
  {
    if EarlyReject(req, w).Some? then ReturnedOnce(db.locked, Estimate(req), attempts)
    else if Throws(db, req, w) then Estimate(req) == 0.0
    else Affordable(db, req, w) && LeavesUnused(req, w.leg) ==> Commits(attempts) == 1
  }

  predicate LeavesUnused(req: Request, leg: FillResult)
    requires req.Ok(leg)
  {
    req.IsPartial(leg) && req.Margin(leg) - req.EffectiveMargin(leg) > RESIDUE
  }

  lemma ReturnedOnceIff(db: Db, order: nat, amount: real, attempts: seq<Attempt>)
    requires 0.0 <= amount <= db.locked
    ensures Retried(db, order, amount, attempts).locked == db.locked - amount
       <==> ReturnedOnce(db.locked, amount, attempts)
    ensures Retried(db, order, amount, attempts).(locked := db.locked, ledger := db.ledger) == db
    ensures Retried(db, order, amount, attempts).locked >= 0.0
  {
    hide Explained;
    OnlyWallet(db, order, amount, attempts);
    RetriedDrains(db, order, amount, attempts);
    DrainedBound(db.locked, amount, Commits(attempts));
    if amount > 0.0 {
      ReleasedOnceIff(db, order, amount, attempts);
    } else {
      NothingDrained(db.locked, Commits(attempts));
    }
  }

  lemma {:induction false} NothingDrained(locked: real, n: nat)
    requires locked >= 0.0
    ensures Drained(locked, 0.0, n) == locked
    decreases n
  {
    if n > 0 { NothingDrained(locked, n - 1); }
  }

  lemma {:induction false} HasMargin(positions: seq<Position>, i: nat)
    requires i < |positions| && positions[i].marginUsed > 0.0
    requires forall i | 0 <= i < |positions| :: positions[i].marginUsed >= 0.0
    ensures Margins(positions) > 0.0
  {
    var n := |positions| - 1;
    MarginsSign(positions[..n]);
    if i < n { HasMargin(positions[..n], i); }
  }

  /** After a partial fill the books are exact if and only if the unused margin was released once, or
      was a cent or less. */
  lemma TrimmedExactIff(b: Books, req: Request, leg: FillResult, attempts: seq<Attempt>)
    requires req.Ok(leg) && Proper(b) && Margins(b.db.positions) > 0.0
    requires b.db.locked == Needed(b) + req.Margin(leg) - req.EffectiveMargin(leg)
    ensures Exact(Trimmed(b, req, leg, attempts)) <==> LeavesUnused(req, leg) ==> Commits(attempts) == 1
  {
    hide Retried, Claimed, Margins, Sum;
    var unused := req.Margin(leg) - req.EffectiveMargin(leg);
    EffectiveRange(req, leg);
    Signs(b);
    SumAppend(b.residues, unused);
    if req.IsPartial(leg) {
      ReturnedOnceIff(b.db, req.order, unused, attempts);
    }
  }

  lemma UsedIsPositive(req: Request, leg: FillResult)
    requires req.Ok(leg)
    ensures req.EffectiveMargin(leg) > 0.0
  {
    ProductSign(req.quantity, leg.price);
    Positive(req.quantity * leg.price, req.leverage);
    Positive(leg.filled, req.quantity);
    ProductSign(leg.filled / req.quantity, req.Margin(leg));
  }

  lemma Positive(x: real, d: real)
    requires x > 0.0 && d > 0.0
    ensures x / d > 0.0
  {
  }

  /** An execution that starts with its estimate in hand leaves the books exact if and only if it is
      clean. */
  lemma ExecutedExactIff(b: Books, req: Request, w: World, attempts: seq<Attempt>)
    requires req.Ok(w.leg) && req.order in b.db.orders && Proper(b)
    requires b.db.locked == Needed(b) + Estimate(req)
    ensures Exact(Executed(b, req, w, attempts)) <==> Clean(b.db, req, w, attempts)
  {
    hide Retried, Claimed, Margins, Sum, EarlyReject, FillTx, Trimmed, Affordable, Stopped, WithStatus;
    StatusFrame(b.db, req.order);
    Signs(b);
    if EarlyReject(req, w).Some? {
      ReturnedOnceIff(b.db, req.order, Estimate(req), attempts);
      StatusFrame(Retried(b.db, req.order, Estimate(req), attempts), req.order);
    } else {
      ThrownIff(b.db, req, w);
      CommittedIff(b.db, req, w);
      InsufficientIff(b.db, req, w);
      match FillTx(b.db, req, w)
      case Thrown(_) =>
      case Insufficient(db) => StatusFrame(db, req.order);
      case Committed(db) =>
        CommittedMoney(b, req, w, db);
        TrimmedExactIff(b.(db := db), req, w.leg, attempts);
    }
  }

  lemma StatusFrame(db: Db, order: nat)
    ensures WithStatus(db, order, Rejected).(orders := db.orders) == db
  {
  }

  lemma CommittedMoney(b: Books, req: Request, w: World, db: Db)
    requires req.Ok(w.leg) && req.order in b.db.orders && Proper(b) && FillTx(b.db, req, w) == Committed(db)
    requires b.db.locked == Needed(b) + Estimate(req)
    ensures Proper(b.(db := db)) && Margins(db.positions) > 0.0
    ensures db.locked == Needed(b.(db := db)) + req.Margin(w.leg) - req.EffectiveMargin(w.leg)
  {
    hide Claimed, Margins, Sum, CanLock, InnerThrow, Release;
    Signs(b);
    ReleaseFrame(b.db, req.order, Estimate(req));
    EffectiveRange(req, w.leg);
    UsedIsPositive(req, w.leg);
    PositionAdded(b.db.positions, Position(req.order, w.leg.filled, w.leg.price, req.EffectiveMargin(w.leg)));
  }

  /** An execution takes place with its estimate locked as before and no position opened exactly when it
      is rejected early and no release attempt takes effect, or its transaction throws. */
  lemma StuckIff(b: Books, req: Request, w: World, attempts: seq<Attempt>)
    requires req.Ok(w.leg) && req.order in b.db.orders && 0.0 < Estimate(req) <= b.db.locked
    ensures Executed(b, req, w, attempts).db.locked == b.db.locked
            && Executed(b, req, w, attempts).db.positions == b.db.positions
       <==> if EarlyReject(req, w).Some? then Commits(attempts) == 0 else Throws(b.db, req, w)
  {
    hide Retried, EarlyReject, FillTx, Affordable, Stopped, WithStatus, Trimmed, Explained;
    StatusFrame(b.db, req.order);
    if EarlyReject(req, w).Some? {
      StatusFrame(Retried(b.db, req.order, Estimate(req), attempts), req.order);
      OnlyWallet(b.db, req.order, Estimate(req), attempts);
      RetriedDrains(b.db, req.order, Estimate(req), attempts);
      DrainedBound(b.db.locked, Estimate(req), Commits(attempts));
    } else {
      ThrownIff(b.db, req, w);
      InsufficientIff(b.db, req, w);
      match FillTx(b.db, req, w)
      case Thrown(_) =>
      case Insufficient(db) => StatusFrame(db, req.order);
      case Committed(db) => OneMorePosition(b, req, w, db, attempts);
    }
  }

  lemma OneMorePosition(b: Books, req: Request, w: World, db: Db, attempts: seq<Attempt>)
    requires req.Ok(w.leg) && req.order in b.db.orders && FillTx(b.db, req, w) == Committed(db)
    ensures |Trimmed(b.(db := db), req, w.leg, attempts).db.positions| == |b.db.positions| + 1
  {
    hide Retried, CanLock, InnerThrow, Release, Explained;
    ReleaseFrame(b.db, req.order, Estimate(req));
    OnlyWallet(db, req.order, req.Margin(w.leg) - req.EffectiveMargin(w.leg), attempts);
  }

  ghost predicate RunsTo(b: Books, events: seq<Event>, t: Books) { Legal(b, events) && Exec(b, events) == t }

  lemma RunFrom(b: Books, e: Event, m: Books, events: seq<Event>, t: Books)
    requires Enabled(b, e) && Apply(b, e) == m && RunsTo(m, events, t)
    ensures RunsTo(b, [e] + events, t)
  {
    hide Enabled, Apply;
    assert ([e] + events)[1..] == events;
  }

  lemma RunOne(b: Books, e: Event)
    requires Enabled(b, e)
    ensures RunsTo(b, [e], Apply(b, e))
  {
    hide Enabled, Apply;
    assert [e][1..] == [];
    assert Legal(Apply(b, e), [e][1..]) && Exec(Apply(b, e), [e][1..]) == Apply(b, e);
  }

  function InHand(b: Books, c: Claim): Books { b.(held := b.held + [c]) }

  /** The attempts to give back the amount last taken in hand, and what they come to. */
  lemma {:induction false} AttemptsRun(b: Books, c: Claim, attempts: seq<Attempt>) returns (events: seq<Event>)
    requires |attempts| + c.tries == MAX_ATTEMPTS
    ensures RunsTo(InHand(b, c), events, b.(
                     db := Retried(b.db, c.order, c.amount, attempts),
                     stuck := if c.stage.GivenBack? || Commits(attempts) > 0 then b.stuck else b.stuck + [c.amount]))
    decreases |attempts|
  {
    hide RunsTo, Release;
    var h, start := |b.held|, InHand(b, c);
    assert Without(start.held, h) == b.held;
    if attempts == [] {
      RunOne(start, Abandon(h));
      return [Abandon(h)];
    }
    var e, freed := TryRelease(h, attempts[0]), b.(db := Release(b.db, c.order, c.amount));
    match attempts[0] {
      case Done =>
        RunOne(start, e);
        events := [e];
      case LostAck =>
        var again := c.(stage := GivenBack, tries := c.tries + 1);
        var rest := AttemptsRun(freed, again, attempts[1..]);
        assert Apply(start, e) == InHand(freed, again);
        RunFrom(start, e, InHand(freed, again), rest, b.(db := Retried(b.db, c.order, c.amount, attempts)));
        events := [e] + rest;
      case Failed =>
        var again := c.(tries := c.tries + 1);
        var rest := AttemptsRun(b, again, attempts[1..]);
        assert Apply(start, e) == InHand(b, again);
        RunFrom(start, e, InHand(b, again), rest, b.(
                  db := Retried(b.db, c.order, c.amount, attempts),
                  stuck := if c.stage.GivenBack? || Commits(attempts) > 0 then b.stuck else b.stuck + [c.amount]));
        events := [e] + rest;
    }
  }

  lemma {:induction false} RunThen(b: Books, events: seq<Event>, m: Books, e: Event)
    requires RunsTo(b, events, m) && Enabled(m, e)
    ensures RunsTo(b, events + [e], Apply(m, e))
    decreases |events|
  {
    hide Enabled, Apply;
    if events == [] {
      RunOne(b, e);
      assert [] + [e] == [e];
    } else {
      RunThen(Apply(b, events[0]), events[1..], m, e);
      assert (events + [e])[1..] == events[1..] + [e];
    }
  }

  /** An execution that nothing interrupts is a run: what holds of all runs holds of it. */
  lemma ExecutedIsRun(b: Books, req: Request, w: World, attempts: seq<Attempt>) returns (events: seq<Event>)
    requires req.Ok(w.leg) && req.order in b.db.orders && |attempts| == MAX_ATTEMPTS
    ensures RunsTo(if req.preLocked.Some? then InHand(b, Claim(req.order, Estimate(req), Reserved, 0)) else b,
                   events, Executed(b, req, w, attempts))
  {
    hide RunsTo, Retried, EarlyReject, FillTx, WithStatus;
    var claim := Claim(req.order, Estimate(req), Reserved, 0);
    var start := if req.preLocked.Some? then InHand(b, claim) else b;
    assert Without(InHand(b, claim).held, |b.held|) == b.held;
    if EarlyReject(req, w).Some? {
      if req.preLocked.None? {
        RunOne(b, Mark(req.order, Rejected));
        return [Mark(req.order, Rejected)];
      }
      var tries := AttemptsRun(b, claim, attempts);
      RunThen(start, tries, b.(db := Retried(b.db, req.order, Estimate(req), attempts),
                               stuck := if Commits(attempts) == 0 then b.stuck + [Estimate(req)] else b.stuck),
              Mark(req.order, Rejected));
      return tries + [Mark(req.order, Rejected)];
    }
    var e := Transact(if req.preLocked.Some? then Some(|b.held|) else None, req, w);
    assert Apply(start, e) == Transacted(b, req, w);
    events := AfterTransaction(b, req, w, attempts);
    RunFrom(start, e, Transacted(b, req, w), events, Executed(b, req, w, attempts));
    events := [e] + events;
  }

  lemma AfterTransaction(b: Books, req: Request, w: World, attempts: seq<Attempt>) returns (events: seq<Event>)
    requires req.Ok(w.leg) && req.order in b.db.orders && |attempts| == MAX_ATTEMPTS && EarlyReject(req, w).None?
    ensures RunsTo(Transacted(b, req, w), events, Executed(b, req, w, attempts))
  {
    hide Retried, FillTx, WithStatus;
    match FillTx(b.db, req, w)
    case Thrown(_) =>
      RunOne(Transacted(b, req, w), Mark(req.order, Rejected));
      events := [Mark(req.order, Rejected)];
    case Insufficient(_) =>
      RunOne(Transacted(b, req, w), Mark(req.order, Rejected));
      events := [Mark(req.order, Rejected)];
    case Committed(db) =>
      if LeavesUnused(req, w.leg) {
        var unused := req.Margin(w.leg) - req.EffectiveMargin(w.leg);
        events := AttemptsRun(b.(db := db), Claim(req.order, unused, Unused, 0), attempts);
      } else {
        events := [];
      }
  }

  // ---------------------------------------------------------------------------------------
  // Each failure happens
  // ---------------------------------------------------------------------------------------

  ghost predicate Reachable(balance: real, b: Books) { exists events :: RunsTo(Opened(balance), events, b) }

  /** A client with a balance and nothing else. */
  function Opened(balance: real): Books { Books(Db(balance, 0.0, [], map[], [], [], []), [], [], [], []) }

  lemma ReachStep(balance: real, b: Books, e: Event)
    requires Reachable(balance, b) && Enabled(b, e)
    ensures Reachable(balance, Apply(b, e))
  {
    hide RunsTo, Enabled, Apply;
    var events :| RunsTo(Opened(balance), events, b);
    RunThen(Opened(balance), events, b, e);
  }

  lemma OpenedReachable(balance: real)
    ensures Reachable(balance, Opened(balance)) && Exact(Opened(balance))
  {
    assert RunsTo(Opened(balance), [], Opened(balance));
  }

  /** An order with its estimate locked rests on the book. */
  lemma Parked(balance: real, b: Books, order: nat, estimate: real) returns (t: Books)
    requires Reachable(balance, b) && order !in b.db.orders && b.held == []
    requires estimate >= 0.0 && b.db.balance > 0.0 && b.db.locked + estimate <= b.db.balance
    ensures Reachable(balance, t) && t.db.locked == b.db.locked + estimate && t.db.balance == b.db.balance
    ensures t.resting == b.resting + [Claim(order, estimate, Reserved, 0)]
    ensures t.held == [] && t.residues == b.residues && t.stuck == b.stuck
    ensures t.db.positions == b.db.positions && t.db.orders.Keys == b.db.orders.Keys + {order}
  {
    hide Reachable;
    ReachStep(balance, b, Receive(order, 1.0));
    t := Apply(b, Receive(order, 1.0));
    ReachStep(balance, t, SetAside(order, estimate, 0.0));
    t := Apply(t, SetAside(order, estimate, 0.0));
    ReachStep(balance, t, Rest(0));
    t := Apply(t, Rest(0));
  }

  lemma TookFirst(balance: real, b: Books) returns (t: Books)
    requires Reachable(balance, b) && b.resting != [] && b.held == []
    ensures Reachable(balance, t) && t == b.(resting := b.resting[1..], held := [b.resting[0]])
  {
    hide Reachable;
    ReachStep(balance, b, Take(0));
    t := Apply(b, Take(0));
  }

  /** The order of one unit whose real margin is its price. */
  function Unit(order: nat, preLocked: Option<real>): Request { Request(order, 1.0, 1.0, false, preLocked) }

  /** A leg at that price, in a world where nothing goes wrong unless it is cancelled in the transaction. */
  function Calm(leg: FillResult, pnl: real, cancelled: bool): World {
    World(false, true, false, false, false, leg, false, pnl, cancelled, true, true, true, Never)
  }

  /** A triggered order is cancelled inside its transaction: its estimate, however large, stays locked
      for nothing. */
  lemma ThrowStrands(estimate: real) returns (b: Books)
    requires estimate > 0.0
    ensures Reachable(estimate, b) && b.db.locked == estimate && b.stuck == [estimate]
    ensures b.db.positions == [] && b.resting == [] && b.held == [] && !Exact(b)
  {
    hide Reachable, Release;
    OpenedReachable(estimate);
    b := Parked(estimate, Opened(estimate), 0, estimate);
    b := TookFirst(estimate, b);
    var req, w := Unit(0, Some(estimate)), Calm(FillResult(estimate, 1.0, 0.0, false, 0.0), 0.0, true);
    ThrownIff(b.db, req, w);
    ReachStep(estimate, b, Transact(Some(0), req, w));
    b := Apply(b, Transact(Some(0), req, w));
  }

  /** The error before the engine is called, the crash, and the fifth failed attempt strand it as well. */
  lemma WalkAwayStrands(estimate: real) returns (b: Books)
    requires estimate > 0.0
    ensures Reachable(estimate, b) && b.db.locked == estimate && b.stuck == [estimate]
    ensures b.db.positions == [] && b.resting == [] && b.held == [] && !Exact(b)
  {
    hide Reachable;
    OpenedReachable(estimate);
    b := Parked(estimate, Opened(estimate), 0, estimate);
    b := TookFirst(estimate, b);
    ReachStep(estimate, b, Abandon(0));
    b := Apply(b, Abandon(0));
  }

  /** Equity is gone when the order triggers: it is not filled, and its estimate is free all the same. */
  lemma ShortfallFrees(estimate: real) returns (b: Books)
    requires estimate > 0.0
    ensures Reachable(estimate, b) && b.db.locked == 0.0 && Exact(b)
    ensures b.db.positions == [] && b.resting == [] && b.held == [] && b.stuck == []
  {
    hide Reachable, Release;
    OpenedReachable(estimate);
    b := Parked(estimate, Opened(estimate), 0, estimate);
    b := TookFirst(estimate, b);
    var req, w := Unit(0, Some(estimate)), Calm(FillResult(estimate, 1.0, 0.0, false, 0.0), -estimate, false);
    InsufficientIff(b.db, req, w);
    ReachStep(estimate, b, Transact(Some(0), req, w));
    b := Apply(b, Transact(Some(0), req, w));
  }

  /** A release whose acknowledgement is lost is repeated and takes the estimate of another resting order
      with it. */
  lemma RepeatTakesAnother(estimate: real) returns (b: Books)
    requires estimate > 0.0
    ensures Reachable(2.0 * estimate, b) && b.db.locked == 0.0 && !Exact(b)
    ensures b.resting == [Claim(1, estimate, Reserved, 0)] && b.held == [] && b.stuck == []
  {
    hide Reachable;
    var balance := 2.0 * estimate;
    OpenedReachable(balance);
    b := Parked(balance, Opened(balance), 0, estimate);
    b := Parked(balance, b, 1, estimate);
    b := TookFirst(balance, b);
    b := TriedStep(balance, b, LostAck);
    b := TriedStep(balance, b, Done);
    ClaimedOne(b.resting[0]);
  }

  lemma TriedStep(balance: real, b: Books, attempt: Attempt) returns (t: Books)
    requires Reachable(balance, b) && |b.held| == 1 && b.held[0].tries < MAX_ATTEMPTS && !attempt.Failed?
    ensures Reachable(balance, t) && t.db.locked == LockedWithout(b.db, b.held[0].amount)
    ensures t.db.positions == b.db.positions && t.resting == b.resting
    ensures t.residues == b.residues && t.stuck == b.stuck
    ensures t.held == if attempt.Done? then [] else [b.held[0].(stage := GivenBack, tries := b.held[0].tries + 1)]
  {
    hide Reachable, Release;
    var c := b.held[0];
    ReleaseFrame(b.db, c.order, c.amount);
    ReachStep(balance, b, TryRelease(0, attempt));
    t := Apply(b, TryRelease(0, attempt));
  }

  lemma ClaimedOne(c: Claim)
    ensures Claimed([c]) == c.Due()
  {
    assert [c][..0] == [];
  }

  /** The same after a partial fill: the second release takes the margin of the position just opened. */
  lemma RepeatTakesPosition(price: real) returns (b: Books)
    requires price >= 1.0
    ensures Reachable(price, b) && b.db.locked == 0.0 && !Exact(b)
    ensures b.db.positions == [Position(0, 0.5, price, 0.5 * price)] && b.resting == [] && b.held == [] && b.stuck == []
  {
    hide Reachable;
    OpenedReachable(price);
    ReachStep(price, Opened(price), Receive(0, 1.0));
    b := Apply(Opened(price), Receive(0, 1.0));
    b := HalfFilled(price, b);
    b := TriedStep(price, b, LostAck);
    b := TriedStep(price, b, Done);
    MarginOfOne(b.db.positions[0]);
  }

  lemma MarginOfOne(p: Position)
    ensures Margins([p]) == p.marginUsed
  {
    assert [p][..0] == [];
  }

  lemma HalfFilled(price: real, b: Books) returns (t: Books)
    requires price >= 1.0 && Reachable(price, b) && b == Apply(Opened(price), Receive(0, 1.0))
    ensures Reachable(price, t) && t.db.locked == price && t.held == [Claim(0, 0.5 * price, Unused, 0)]
    ensures t.db.positions == [Position(0, 0.5, price, 0.5 * price)]
    ensures t.resting == [] && t.residues == [] && t.stuck == []
  {
    hide Reachable;
    var leg := FillResult(price, 0.5, 0.5, true, 0.0);
    var req, w := Unit(0, None), Calm(leg, 0.0, false);
    ReachStep(price, b, Transact(None, req, w));
    t := Apply(b, Transact(None, req, w));
  }

  /** The repair counts positions only, so it frees the estimate of every order that still rests. */
  lemma RepairTakesResting(estimate: real) returns (b: Books)
    requires estimate > RESIDUE
    ensures Reachable(estimate, b) && b.db.locked == 0.0 && !Exact(b)
    ensures b.resting == [Claim(0, estimate, Reserved, 0)] && b.held == [] && b.stuck == []
  {
    hide Reachable;
    OpenedReachable(estimate);
    b := Parked(estimate, Opened(estimate), 0, estimate);
    ReachStep(estimate, b, Repair);
    b := Apply(b, Repair);
    ClaimedOne(b.resting[0]);
  }

  /** What the repair does restore: afterwards at most a cent is locked beyond the positions' margin, and
      nothing is stuck; a shortfall it leaves alone. */
  lemma RepairHeals(b: Books)
    requires Proper(b)
    ensures var t := Apply(b, Repair);
            && Orphan(t) == (if Orphan(b) <= 0.01 then Orphan(b) else 0.0)
            && (Orphan(b) > 0.01 && b.resting == [] && b.held == [] ==> Exact(t) && t.stuck == [])
  {
    hide Margins;
    if b.resting == [] && b.held == [] {
      assert Claimed(b.resting) == 0.0;
    }
    Signs(b);
  }
}
