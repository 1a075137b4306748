/** One client's wallet, ledger, orders, positions and outbox under parked orders and executions. */
module MarginEngine {
  import opened Prelude

  // ---------------------------------------------------------------------------------------
  // The store
  // ---------------------------------------------------------------------------------------

  datatype LedgerKind = MarginLock | MarginRelease | Commission
  datatype LedgerEntry = LedgerEntry(kind: LedgerKind, amount: real, reference: nat)
  datatype Position = Position(order: nat, quantity: real, entryPrice: real, marginUsed: real)
  datatype Fill = Fill(order: nat, position: nat, quantity: real, price: real, fees: real)
  datatype OutboxRow = OutboxRow(order: nat, position: nat, quantity: real, marginUsed: real, full: bool)
  datatype OrderStatus = Received | Accepted | PartiallyFilled | Filled | Rejected | Cancelled
  datatype OrderRow = OrderRow(quantity: real, filled: real, status: OrderStatus)

  datatype Db = Db(
    balance: real, locked: real, ledger: seq<LedgerEntry>, orders: map<nat, OrderRow>,
    positions: seq<Position>, fills: seq<Fill>, outbox: seq<OutboxRow>)

  const RESIDUE := 0.01
  const MAX_ATTEMPTS := 5

  /** Gives margin back, clamped to what is locked; writes nothing when there is nothing to give. */
  function Release(db: Db, order: nat, amount: real): Db {
    var safe := Max(0.0, Min(db.locked, amount));
    if safe == 0.0 then db
    else db.(locked := db.locked - safe, ledger := db.ledger + [LedgerEntry(MarginRelease, safe, order)])
  }

  /** The gate of the lock: positive equity, and enough of it not yet locked. */
  predicate CanLock(db: Db, required: real, pnl: real) {
    db.balance + pnl > 0.0 && db.balance + pnl - db.locked >= required
  }

  function Lock(db: Db, order: nat, required: real): Db {
    db.(locked := db.locked + required, ledger := db.ledger + [LedgerEntry(MarginLock, -required, order)])
  }

  function Charge(db: Db, order: nat, fees: real): Db {
    if fees > 0.0 then db.(balance := db.balance - fees, ledger := db.ledger + [LedgerEntry(Commission, -fees, order)])
    else db
  }

  function WithStatus(db: Db, order: nat, status: OrderStatus): Db {
    if order in db.orders then db.(orders := db.orders[order := db.orders[order].(status := status)]) else db
  }

  /** Position, fill, order progress and outbox row of one filled leg. */
  function Book(db: Db, order: nat, leg: FillResult, margin: real): Db
    requires order in db.orders
  {
    var row, p := db.orders[order], |db.positions|;
    var filled := row.filled + leg.filled;
    var full := filled >= row.quantity;
    db.(positions := db.positions + [Position(order, leg.filled, leg.price, margin)],
        fills := db.fills + [Fill(order, p, leg.filled, leg.price, leg.fees)],
        orders := db.orders[order := OrderRow(row.quantity, filled, if full then Filled else PartiallyFilled)],
        outbox := db.outbox + [OutboxRow(order, p, leg.filled, margin, full)])
  }

  // ---------------------------------------------------------------------------------------
  // One execution
  // ---------------------------------------------------------------------------------------

  datatype FillResult = FillResult(price: real, filled: real, remaining: real, partial: bool, fees: real)

  datatype Request = Request(order: nat, quantity: real, leverage: real, fillOrKill: bool, preLocked: Option<real>) {
    predicate Ok(leg: FillResult) {
      quantity > 0.0 && leverage > 0.0 && leg.price > 0.0 && 0.0 < leg.filled <= quantity
      && (preLocked.Some? ==> preLocked.value >= 0.0)
    }
    function IsPartial(leg: FillResult): bool { leg.partial && leg.remaining > 0.0 }
    function Margin(leg: FillResult): real
      requires Ok(leg)
    {
      quantity * leg.price / leverage
    }
    function EffectiveMargin(leg: FillResult): real
      requires Ok(leg)
    {
      if IsPartial(leg) then leg.filled / quantity * Margin(leg) else Margin(leg)
    }
  }

  datatype Reason =
    | KillSwitch | KycNotApproved | NoLiveMarketData | Requote | LpUnavailable | FokUnfillable | ExecutionTimeout
    | MarginInsufficient | InstrumentHalted | RiskLimit | FeeChargeFailed

  /** Where the store itself fails inside the transaction. */
  datatype Breakage = Never | BeforeLock | BeforeFee | BeforeBooking | BeforeCommit

  /** Everything the execution asks of the world around it. */
  datatype World = World(
    killSwitch: bool, eligible: bool, stale: bool, requoted: bool, lpFails: bool, leg: FillResult,
    cancelledBefore: bool, pnl: real, cancelledInside: bool, exposureOk: bool, clientLimitOk: bool,
    concentrationOk: bool, breaks: Breakage)

  /** The rejections before any money moves, in their order. */
  function EarlyReject(req: Request, w: World): Option<Reason> {
    if w.killSwitch then Some(KillSwitch)
    else if !w.eligible then Some(KycNotApproved)
    else if w.stale then Some(NoLiveMarketData)
    else if w.requoted then Some(Requote)
    else if w.lpFails then Some(LpUnavailable)
    else if req.fillOrKill && req.IsPartial(w.leg) then Some(FokUnfillable)
    else if w.cancelledBefore then Some(ExecutionTimeout)
    else None
  }

  datatype TxResult = Committed(db: Db) | Insufficient(db: Db) | Thrown(reason: Reason)

  /** The checks between the lock and the booking, in their order. */
  function InnerThrow(db: Db, w: World): Option<Reason> {
    if w.cancelledInside then Some(ExecutionTimeout)
    else if !w.exposureOk then Some(InstrumentHalted)
    else if !w.clientLimitOk then Some(RiskLimit)
    else if !w.concentrationOk then Some(RiskLimit)
    else if w.breaks == BeforeFee then Some(LpUnavailable)
    else if w.leg.fees > 0.0 && db.balance < w.leg.fees then Some(FeeChargeFailed)
    else if w.breaks == BeforeBooking || w.breaks == BeforeCommit then Some(LpUnavailable)
    else None
  }

  function Estimate(req: Request): real { req.preLocked.GetOr(0.0) }

  /** What the transaction leaves in the store, if anything. */
  function FillTx(db: Db, req: Request, w: World): TxResult
    requires req.Ok(w.leg) && req.order in db.orders
  {
    var freed := Release(db, req.order, Estimate(req));
    var required := req.Margin(w.leg);
    if w.breaks == BeforeLock then Thrown(LpUnavailable)
    else if !CanLock(freed, required, w.pnl) then Insufficient(freed)
    else if InnerThrow(freed, w).Some? then Thrown(InnerThrow(freed, w).value)
    else Committed(Book(Charge(Lock(freed, req.order, required), req.order, w.leg.fees), req.order, w.leg,
                        req.EffectiveMargin(w.leg)))
  }

  /** How one attempt to release outside a transaction ends. */
  datatype Attempt = Done | LostAck | Failed

  /** Attempts in order until one is acknowledged. */
  function Retried(db: Db, order: nat, amount: real, attempts: seq<Attempt>): Db
    decreases |attempts|
  {
    if attempts == [] then db
    else
      match attempts[0]
      case Done => Release(db, order, amount)
      case LostAck => Retried(Release(db, order, amount), order, amount, attempts[1..])
      case Failed => Retried(db, order, amount, attempts[1..])
  }

  /** How many of the attempts took effect. */
  function Commits(attempts: seq<Attempt>): nat {
    if attempts == [] then 0
    else
      match attempts[0]
      case Done => 1
      case LostAck => 1 + Commits(attempts[1..])
      case Failed => Commits(attempts[1..])
  }

  // ---------------------------------------------------------------------------------------
  // The books: the store, the amounts set aside for orders, and what is locked without an owner
  // ---------------------------------------------------------------------------------------

  /** An amount is set aside for an order that is not filled yet, is what a partial fill left unused, or
      has been given back by an attempt whose acknowledgement was lost. */
  datatype Stage = Reserved | Unused | GivenBack
  datatype Claim = Claim(order: nat, amount: real, stage: Stage, tries: nat) {
    function Due(): real { if stage.GivenBack? then 0.0 else amount }
  }

  /** `resting` are the estimates of resting orders, `held` the amounts some caller has in hand between
      two of its transactions, `residues` the cents of partial fills that are never given back, and
      `stuck` amounts that stay locked although nobody needs them or will give them back. */
  datatype Books = Books(db: Db, resting: seq<Claim>, held: seq<Claim>, residues: seq<real>, stuck: seq<real>)

  function Margins(positions: seq<Position>): real {
    if positions == [] then 0.0 else Margins(positions[..|positions| - 1]) + positions[|positions| - 1].marginUsed
  }

  function Amounts(ledger: seq<LedgerEntry>, commission: bool): real {
    if ledger == [] then 0.0
    else
      var e := ledger[|ledger| - 1];
      Amounts(ledger[..|ledger| - 1], commission) + if e.kind.Commission? == commission then e.amount else 0.0
  }

  function FilledOf(fills: seq<Fill>, order: nat): real {
    if fills == [] then 0.0
    else
      var f := fills[|fills| - 1];
      FilledOf(fills[..|fills| - 1], order) + if f.order == order then f.quantity else 0.0
  }

  /** Each fill has its position and its outbox row, and an order's progress is the sum of its fills. */
  ghost predicate Recorded(db: Db) {
    && |db.positions| == |db.fills| == |db.outbox|
    && (forall i | 0 <= i < |db.fills| ::
          OneLeg(db.fills[i], i, db.positions[i], db.outbox[i]) && db.fills[i].order in db.orders)
    && (forall o | o in db.orders :: db.orders[o].filled == FilledOf(db.fills, o))
    && (forall o | o in db.orders && db.orders[o].status.Filled? :: db.orders[o].filled >= db.orders[o].quantity)
  }

  ghost predicate OneLeg(f: Fill, i: nat, p: Position, row: OutboxRow) {
    && f.position == row.position == i
    && f.order == p.order == row.order
    && f.quantity == p.quantity == row.quantity
    && f.price == p.entryPrice && p.marginUsed == row.marginUsed
  }

  /** The ledger explains the wallet: against any earlier store, locked margin moved by the margin
      entries and the balance by the commissions written since. */
  ghost predicate Explained(db: Db, since: Db) {
    && db.locked + Amounts(db.ledger, false) == since.locked + Amounts(since.ledger, false)
    && db.balance - Amounts(db.ledger, true) == since.balance - Amounts(since.ledger, true)
  }

  lemma EntryAdded(ledger: seq<LedgerEntry>, e: LedgerEntry)
    ensures Amounts(ledger + [e], true) == Amounts(ledger, true) + if e.kind.Commission? then e.amount else 0.0
    ensures Amounts(ledger + [e], false) == Amounts(ledger, false) + if e.kind.Commission? then 0.0 else e.amount
  {
    assert (ledger + [e])[..|ledger|] == ledger;
  }

  lemma PositionAdded(positions: seq<Position>, p: Position)
    ensures Margins(positions + [p]) == Margins(positions) + p.marginUsed
  {
    assert (positions + [p])[..|positions|] == positions;
  }

  lemma FillAdded(fills: seq<Fill>, f: Fill, order: nat)
    ensures FilledOf(fills + [f], order) == FilledOf(fills, order) + if f.order == order then f.quantity else 0.0
  {
    assert (fills + [f])[..|fills|] == fills;
  }

  lemma ReleaseExplained(db: Db, order: nat, amount: real, since: Db)
    requires Explained(db, since)
    ensures Explained(Release(db, order, amount), since)
    ensures Release(db, order, amount).(locked := db.locked, ledger := db.ledger) == db
    ensures 0.0 <= amount <= db.locked ==> Release(db, order, amount).locked == db.locked - amount
  {
    hide Amounts;
    EntryAdded(db.ledger, LedgerEntry(MarginRelease, Max(0.0, Min(db.locked, amount)), order));
  }

  lemma LockExplained(db: Db, order: nat, required: real, since: Db)
    requires Explained(db, since)
    ensures Explained(Lock(db, order, required), since)
  {
    hide Amounts;
    EntryAdded(db.ledger, LedgerEntry(MarginLock, -required, order));
  }

  lemma ChargeExplained(db: Db, order: nat, fees: real, since: Db)
    requires Explained(db, since)
    ensures Explained(Charge(db, order, fees), since)
  {
    hide Amounts;
    EntryAdded(db.ledger, LedgerEntry(Commission, -fees, order));
  }

  lemma BookRecorded(db: Db, order: nat, leg: FillResult, margin: real)
    requires order in db.orders && Recorded(db)
    ensures Recorded(Book(db, order, leg, margin))
  {
    hide FilledOf;
    var f := Fill(order, |db.positions|, leg.filled, leg.price, leg.fees);
    forall o ensures FilledOf(db.fills + [f], o) == FilledOf(db.fills, o) + if order == o then leg.filled else 0.0 {
      FillAdded(db.fills, f, o);
    }
  }

  lemma {:induction false} RetriedExplained(db: Db, order: nat, amount: real, attempts: seq<Attempt>, since: Db)
    requires Explained(db, since)
    ensures Explained(Retried(db, order, amount, attempts), since)
    ensures Retried(db, order, amount, attempts).(locked := db.locked, ledger := db.ledger) == db
    decreases |attempts|
  {
    hide Explained, Release;
    if attempts != [] {
      ReleaseExplained(db, order, amount, since);
      if attempts[0] == LostAck {
        RetriedExplained(Release(db, order, amount), order, amount, attempts[1..], since);
      } else if attempts[0] == Failed {
        RetriedExplained(db, order, amount, attempts[1..], since);
      }
    }
  }

  /** What `n` releases of one amount leave locked. */
  function Drained(locked: real, amount: real, n: nat): real
    decreases n
  {
    if n == 0 then locked else Drained(Max(0.0, locked - amount), amount, n - 1)
  }

  lemma {:induction false} DrainedBound(locked: real, amount: real, n: nat)
    requires locked >= 0.0 && amount >= 0.0
    ensures 0.0 <= Drained(locked, amount, n) <= locked
    ensures amount > 0.0 && locked > 0.0 && n >= 1 ==> Drained(locked, amount, n) < locked
    decreases n
  {
    if n > 0 {
      DrainedBound(Max(0.0, locked - amount), amount, n - 1);
    }
  }

  lemma {:induction false} RetriedDrains(db: Db, order: nat, amount: real, attempts: seq<Attempt>)
    requires amount >= 0.0 && db.locked >= 0.0
    ensures Retried(db, order, amount, attempts).locked == Drained(db.locked, amount, Commits(attempts))
    decreases |attempts|
  {
    if attempts != [] {
      match attempts[0]
      case Done => assert Drained(Max(0.0, db.locked - amount), amount, 0) == Max(0.0, db.locked - amount);
      case LostAck => RetriedDrains(Release(db, order, amount), order, amount, attempts[1..]);
      case Failed => RetriedDrains(db, order, amount, attempts[1..]);
    }
  }

  /** Retrying gives an amount back exactly once if and only if exactly one attempt took effect; the
      clamp makes up for more of them only when nothing else was locked. */
  lemma ReleasedOnceIff(db: Db, order: nat, amount: real, attempts: seq<Attempt>)
    requires 0.0 < amount <= db.locked
    ensures Retried(db, order, amount, attempts).locked == db.locked - amount
       <==> Commits(attempts) == 1 || (Commits(attempts) >= 2 && db.locked == amount)
  {
    var n := Commits(attempts);
    RetriedDrains(db, order, amount, attempts);
    if n >= 1 {
      assert Drained(db.locked, amount, n) == Drained(db.locked - amount, amount, n - 1);
      DrainedBound(db.locked - amount, amount, n - 1);
    }
  }

  // ---------------------------------------------------------------------------------------
  // A whole execution, undisturbed
  // ---------------------------------------------------------------------------------------

  /** The rest of an execution once its resting order, if any, has been taken off the book. */
  function Executed(b: Books, req: Request, w: World, attempts: seq<Attempt>): Books
    requires req.Ok(w.leg) && req.order in b.db.orders
  {
    if EarlyReject(req, w).Some? then
      if req.preLocked.None? then b.(db := WithStatus(b.db, req.order, Rejected))
      else
        b.(db := WithStatus(Retried(b.db, req.order, Estimate(req), attempts), req.order, Rejected),
           stuck := if Commits(attempts) == 0 then b.stuck + [Estimate(req)] else b.stuck)
    else
      match FillTx(b.db, req, w)
      case Thrown(_) =>
        b.(db := WithStatus(b.db, req.order, Rejected),
           stuck := if req.preLocked.Some? then b.stuck + [Estimate(req)] else b.stuck)
      case Insufficient(db) => b.(db := WithStatus(db, req.order, Rejected))
      case Committed(db) => Trimmed(b.(db := db), req, w.leg, attempts)
  }

  /** After a partial fill the unused margin goes back, unless it is a cent or less. */
  function Trimmed(b: Books, req: Request, leg: FillResult, attempts: seq<Attempt>): Books
    requires req.Ok(leg)
  {
    var unused := req.Margin(leg) - req.EffectiveMargin(leg);
    if !req.IsPartial(leg) then b
    else if unused > RESIDUE then
      b.(db := Retried(b.db, req.order, unused, attempts),
         stuck := if Commits(attempts) == 0 then b.stuck + [unused] else b.stuck)
    else b.(residues := b.residues + [unused])
  }

  function Placed(db: Db, order: nat, quantity: real): Db {
    db.(orders := db.orders[order := OrderRow(quantity, 0.0, Received)])
  }

  // ---------------------------------------------------------------------------------------
  // What every transaction keeps
  // ---------------------------------------------------------------------------------------

  lemma StatusKeeps(db: Db, order: nat, status: OrderStatus, since: Db)
    requires status != Filled
    ensures Recorded(db) ==> Recorded(WithStatus(db, order, status))
    ensures Explained(db, since) ==> Explained(WithStatus(db, order, status), since)
  {
    hide FilledOf, Amounts;
  }

  /** Rows that only differ in the wallet and its ledger record the same legs. */
  lemma WalletOnly(db: Db, other: Db)
    requires Recorded(db) && other.(balance := db.balance, locked := db.locked, ledger := db.ledger) == db
    ensures Recorded(other)
  {
    hide FilledOf;
  }

  lemma {:induction false} NoFills(fills: seq<Fill>, order: nat)
    requires forall i | 0 <= i < |fills| :: fills[i].order != order
    ensures FilledOf(fills, order) == 0.0
  {
    if fills != [] {
      NoFills(fills[..|fills| - 1], order);
    }
  }

  lemma PlacedKeeps(db: Db, order: nat, quantity: real, since: Db)
    requires order !in db.orders && Recorded(db) && Explained(db, since)
    ensures Recorded(Placed(db, order, quantity)) && Explained(Placed(db, order, quantity), since)
  {
    hide FilledOf;
    NoFills(db.fills, order);
  }

  /** A throw leaves the store as it was; otherwise the transaction keeps the records and the ledger. */
  lemma FillTxSound(db: Db, req: Request, w: World, since: Db)
    requires req.Ok(w.leg) && req.order in db.orders && Recorded(db) && Explained(db, since)
    ensures match FillTx(db, req, w)
            case Thrown(_) => true
            case Insufficient(after) => Recorded(after) && Explained(after, since)
            case Committed(after) => Recorded(after) && Explained(after, since)
  {
    hide Explained, Recorded, Book, InnerThrow, CanLock;
    var required, freed := req.Margin(w.leg), Release(db, req.order, Estimate(req));
    ReleaseExplained(db, req.order, Estimate(req), since);
    WalletOnly(db, freed);
    var locked := Lock(freed, req.order, required);
    LockExplained(freed, req.order, required, since);
    var charged := Charge(locked, req.order, w.leg.fees);
    ChargeExplained(locked, req.order, w.leg.fees, since);
    WalletOnly(freed, charged);
    BookRecorded(charged, req.order, w.leg, req.EffectiveMargin(w.leg));
    BookExplained(charged, req.order, w.leg, req.EffectiveMargin(w.leg), since);
  }

  lemma BookExplained(db: Db, order: nat, leg: FillResult, margin: real, since: Db)
    requires order in db.orders && Explained(db, since)
    ensures Explained(Book(db, order, leg, margin), since)
  {
    hide Amounts;
  }

  lemma EffectiveRange(req: Request, leg: FillResult)
    requires req.Ok(leg)
    ensures 0.0 <= req.EffectiveMargin(leg) <= req.Margin(leg)
    ensures req.Margin(leg) * req.leverage == req.quantity * leg.price
    ensures req.IsPartial(leg) ==> req.EffectiveMargin(leg) * req.leverage == leg.filled * leg.price
  {
    QuotientTimes(req.quantity * leg.price, req.leverage);
    PartOfMargin(req.quantity, leg.price, req.leverage, leg.filled);
    ProductSign(req.quantity, leg.price);
    QuotientSign(req.quantity * leg.price, req.leverage);
    ShareOf(leg.filled, req.quantity, req.Margin(leg));
  }

  lemma PartOfMargin(quantity: real, price: real, leverage: real, filled: real)
    requires quantity > 0.0 && leverage > 0.0
    ensures filled / quantity * (quantity * price / leverage) * leverage == filled * price
  {
    var part, margin := filled / quantity, quantity * price / leverage;
    assert part * quantity == filled && margin * leverage == quantity * price;
    assert part * margin * leverage == part * (margin * leverage) == part * quantity * price;
  }

  lemma QuotientSign(x: real, d: real)
    requires x >= 0.0 && d > 0.0
    ensures x / d >= 0.0
  {
  }

  lemma ShareOf(part: real, whole: real, amount: real)
    requires 0.0 < part <= whole && amount >= 0.0
    ensures 0.0 <= part / whole * amount <= amount
  {
    QuotientRange(part, whole, 0.0, 1.0);
    var q := part / whole;
    ProductSign(q, amount);
    ProductSign(1.0 - q, amount);
    assert (1.0 - q) * amount == amount - q * amount;
  }

  /** What is locked once an amount has been given back as far as the clamp allows. */
  function LockedWithout(db: Db, amount: real): real { db.locked - Max(0.0, Min(db.locked, amount)) }

  /** Equity covers the real margin once the estimate is free again. */
  predicate Affordable(db: Db, req: Request, w: World)
    requires req.Ok(w.leg)
  {
    var equity := db.balance + w.pnl;
    equity > 0.0 && req.Margin(w.leg) <= equity - LockedWithout(db, Estimate(req))
  }

  /** A cancellation, a limit or the store stops the transaction after the lock. */
  predicate Stopped(w: World) {
    w.cancelledInside || !w.exposureOk || !w.clientLimitOk || !w.concentrationOk || w.breaks != Never
  }

  /** When the transaction throws: the store fails at once, or the margin is there but something stops
      the rest or the balance does not cover the fee. */
  predicate Throws(db: Db, req: Request, w: World)
    requires req.Ok(w.leg)
  {
    w.breaks == BeforeLock || (Affordable(db, req, w) && (Stopped(w) || w.leg.fees > Max(0.0, db.balance)))
  }

  lemma FreedCovers(db: Db, req: Request, w: World)
    requires req.Ok(w.leg)
    ensures Affordable(db, req, w) <==> CanLock(Release(db, req.order, Estimate(req)), req.Margin(w.leg), w.pnl)
    ensures Release(db, req.order, Estimate(req)).(locked := db.locked, ledger := db.ledger) == db
    ensures Release(db, req.order, Estimate(req)).locked == LockedWithout(db, Estimate(req))
  {
  }

  /** A throw, and with it a store left as it was, happens exactly under those guards. */
  lemma ThrownIff(db: Db, req: Request, w: World)
    requires req.Ok(w.leg) && req.order in db.orders
    ensures FillTx(db, req, w).Thrown? <==> Throws(db, req, w)
  {
    hide CanLock, Release, Affordable;
    FreedCovers(db, req, w);
  }

  /** A leg is committed exactly when the store works, there is equity for the real margin once the
      estimate is free, nothing cancels or forbids it, and the balance covers the fee. */
  lemma CommittedIff(db: Db, req: Request, w: World)
    requires req.Ok(w.leg) && req.order in db.orders
    ensures FillTx(db, req, w).Committed?
       <==> Affordable(db, req, w) && !Stopped(w) && w.leg.fees <= Max(0.0, db.balance)
  {
    hide CanLock, Release, Affordable;
    FreedCovers(db, req, w);
  }

  /** The transaction commits without opening a position exactly when the store works and equity falls
      short; what it then commits is that the estimate is no longer locked, and nothing else. */
  lemma InsufficientIff(db: Db, req: Request, w: World)
    requires req.Ok(w.leg) && req.order in db.orders
    ensures var t := FillTx(db, req, w);
            && (!t.Thrown? && t.db.positions == db.positions <==> w.breaks != BeforeLock && !Affordable(db, req, w))
            && (w.breaks != BeforeLock && !Affordable(db, req, w) ==>
                  t.Insufficient? && t.db.(ledger := db.ledger) == db.(locked := LockedWithout(db, Estimate(req))))
  {
    hide CanLock, Release, Affordable;
    FreedCovers(db, req, w);
    var t := FillTx(db, req, w);
    assert t.Committed? ==> |t.db.positions| == |db.positions| + 1;
  }

  /** What a committed leg does, counted in money and rows: the estimate gives way to the real margin,
      the fee leaves the balance with one commission entry, and there is one more position, fill and
      outbox row, all of this leg. */
  lemma CommittedEffect(db: Db, req: Request, w: World)
    requires req.Ok(w.leg) && req.order in db.orders && FillTx(db, req, w).Committed?
    requires Estimate(req) <= db.locked && Recorded(db)
    ensures var after, n := FillTx(db, req, w).db, |db.positions|;
            && after.locked == db.locked - Estimate(req) + req.Margin(w.leg)
            && after.balance == db.balance - Max(0.0, w.leg.fees)
            && Amounts(after.ledger, true) == Amounts(db.ledger, true) - Max(0.0, w.leg.fees)
            && |after.positions| == |after.fills| == |after.outbox| == n + 1
            && after.positions[..n] == db.positions && after.fills[..n] == db.fills && after.outbox[..n] == db.outbox
            && after.positions[n] == Position(req.order, w.leg.filled, w.leg.price, req.EffectiveMargin(w.leg))
            && OneLeg(after.fills[n], n, after.positions[n], after.outbox[n]) && after.fills[n].fees == w.leg.fees
            && req.order in after.orders && after.orders[req.order].filled == db.orders[req.order].filled + w.leg.filled
            && (after.outbox[n].full <==> after.orders[req.order].filled >= db.orders[req.order].quantity)
            && (after.orders[req.order].status == if after.outbox[n].full then Filled else PartiallyFilled)
            && forall o | o in db.orders && o != req.order :: o in after.orders && after.orders[o] == db.orders[o]
  {
    hide CanLock, InnerThrow, Amounts, FilledOf;
    var freed := Release(db, req.order, Estimate(req));
    var locked := Lock(freed, req.order, req.Margin(w.leg));
    var safe := Max(0.0, Min(db.locked, Estimate(req)));
    EntryAdded(db.ledger, LedgerEntry(MarginRelease, safe, req.order));
    EntryAdded(freed.ledger, LedgerEntry(MarginLock, -req.Margin(w.leg), req.order));
    EntryAdded(locked.ledger, LedgerEntry(Commission, -w.leg.fees, req.order));
  }

  // ---------------------------------------------------------------------------------------
  // The engine
  // ---------------------------------------------------------------------------------------

  datatype Outcome = Opened(position: nat, fullyFilled: bool) | Refused(reason: Reason)

  /** The first check that fails, over the whole pipeline. */
  function FirstToFail(db: Db, req: Request, w: World): Option<Reason>
    requires req.Ok(w.leg)
  {
    if w.killSwitch then Some(KillSwitch)
    else if !w.eligible then Some(KycNotApproved)
    else if w.stale then Some(NoLiveMarketData)
    else if w.requoted then Some(Requote)
    else if w.lpFails then Some(LpUnavailable)
    else if req.fillOrKill && w.leg.partial && w.leg.remaining > 0.0 then Some(FokUnfillable)
    else if w.cancelledBefore then Some(ExecutionTimeout)
    else if w.breaks == BeforeLock then Some(LpUnavailable)
    else if !Affordable(db, req, w) then Some(MarginInsufficient)
    else if w.cancelledInside then Some(ExecutionTimeout)
    else if !w.exposureOk then Some(InstrumentHalted)
    else if !w.clientLimitOk || !w.concentrationOk then Some(RiskLimit)
    else if w.breaks == BeforeFee then Some(LpUnavailable)
    else if w.leg.fees > Max(0.0, db.balance) then Some(FeeChargeFailed)
    else if w.breaks != Never then Some(LpUnavailable)
    else None
  }

  /** The early rejections and the transaction together refuse for that reason, and for nothing else. */
  lemma Verdict(db: Db, req: Request, w: World)
    requires req.Ok(w.leg) && req.order in db.orders
    ensures FirstToFail(db, req, w)
         == if EarlyReject(req, w).Some? then EarlyReject(req, w)
            else
              match FillTx(db, req, w)
              case Thrown(reason) => Some(reason)
              case Insufficient(_) => Some(MarginInsufficient)
              case Committed(_) => None
  {
    hide CanLock, Release, Affordable;
    FreedCovers(db, req, w);
  }

  class ExecutionEngine {
    var db: Db
    var resting: seq<Claim>
    ghost var held: seq<Claim>
    ghost var residues: seq<real>
    ghost var stuck: seq<real>

    ghost function View(): Books
      reads this
    {
      Books(db, resting, held, residues, stuck)
    }

    constructor (db: Db)
      ensures View() == Books(db, [], [], [], [])
    {
      this.db, resting, held, residues, stuck := db, [], [], [], [];
    }

    /** One release in a transaction of its own; without `acked` the caller cannot tell whether it
        took effect. */
    method ReleaseMargin(order: nat, amount: real, attempt: Attempt) returns (acked: bool)
      modifies this`db
      ensures acked == attempt.Done?
      ensures db == if attempt.Failed? then old(db) else Release(old(db), order, amount)
    {
      if attempt.Failed? {
        return false;
      }
      var currentLocked := db.locked;
      var safeRelease := Max(0.0, Min(currentLocked, amount));
      if safeRelease != 0.0 {
        db := db.(locked := db.locked - safeRelease,
                  ledger := db.ledger + [LedgerEntry(MarginRelease, safeRelease, order)]);
      }
      acked := attempt.Done?;
    }

    /** Up to five attempts, until one is acknowledged. */
    method ReleaseMarginWithRetry(order: nat, amount: real, attempts: seq<Attempt>)
      requires |attempts| == 5
      modifies this`db
      ensures db == Retried(old(db), order, amount, attempts)
    {
      hide Release;
      var attempt := 1;
      while true
        invariant 1 <= attempt <= MAX_ATTEMPTS
        invariant Retried(old(db), order, amount, attempts) == Retried(db, order, amount, attempts[attempt - 1..])
        decreases MAX_ATTEMPTS - attempt
      {
        ghost var was := db;
        ghost var left := attempts[attempt - 1..];
        var acked := ReleaseMargin(order, amount, attempts[attempt - 1]);
        assert left[0] == attempts[attempt - 1] && left[1..] == attempts[attempt..];
        assert !acked ==> Retried(was, order, amount, left) == Retried(db, order, amount, left[1..]);
        if acked {
          return;
        }
        if attempt >= MAX_ATTEMPTS {
          assert left[1..] == [];
          return;
        }
        attempt := attempt + 1;
      }
    }

    /** Release the estimate, lock the real margin, check again, charge the fee and book the leg: in
        one transaction, whose effects only a commit makes visible. */
    method FillTransaction(req: Request, w: World) returns (r: TxResult)
      requires req.Ok(w.leg) && req.order in db.orders
      modifies this`db
      ensures r == FillTx(old(db), req, w)
      ensures db == if r.Thrown? then old(db) else r.db
    {
      hide CanLock, Book, Release;
      var tx := db;
      if req.preLocked.Some? {
        tx := Release(tx, req.order, req.preLocked.value);
      }
      ReleaseFrame(db, req.order, Estimate(req));
      if w.breaks == BeforeLock {
        return Thrown(LpUnavailable);
      }
      var required := req.Margin(w.leg);
      if !CanLock(tx, required, w.pnl) {
        db := tx;
        return Insufficient(tx);
      }
      tx := tx.(locked := tx.locked + required, ledger := tx.ledger + [LedgerEntry(MarginLock, -required, req.order)]);
      if w.cancelledInside {
        return Thrown(ExecutionTimeout);
      }
      if !w.exposureOk {
        return Thrown(InstrumentHalted);
      }
      if !w.clientLimitOk || !w.concentrationOk {
        return Thrown(RiskLimit);
      }
      if w.breaks == BeforeFee {
        return Thrown(LpUnavailable);
      }
      if w.leg.fees > 0.0 {
        if tx.balance < w.leg.fees {
          return Thrown(FeeChargeFailed);
        }
        tx := tx.(balance := tx.balance - w.leg.fees,
                  ledger := tx.ledger + [LedgerEntry(Commission, -w.leg.fees, req.order)]);
      }
      if w.breaks == BeforeBooking {
        return Thrown(LpUnavailable);
      }
      tx := Book(tx, req.order, w.leg, req.EffectiveMargin(w.leg));
      if w.breaks == BeforeCommit {
        return Thrown(LpUnavailable);
      }
      db := tx;
      r := Committed(tx);
    }

    /** The whole pipeline for an order that is not, or no longer, resting. A rejected order opens
        nothing; an opened one has its position, its fill and its outbox row. */
    method Execute(req: Request, w: World, attempts: seq<Attempt>) returns (r: Outcome)
      requires req.Ok(w.leg) && req.order in db.orders && |attempts| == 5
      modifies this
      ensures View() == Executed(old(View()), req, w, attempts)
      ensures r.Refused? ==> db.positions == old(db.positions) && db.fills == old(db.fills) && db.outbox == old(db.outbox)
      ensures r.Opened? ==>
                && r.position == |old(db.positions)| && |db.positions| == r.position + 1
                && |db.fills| == |old(db.fills)| + 1 && |db.outbox| == |old(db.outbox)| + 1
                && db.positions[r.position] == Position(req.order, w.leg.filled, w.leg.price, req.EffectiveMargin(w.leg))
                && req.order in db.orders && r.fullyFilled == db.orders[req.order].status.Filled?
      ensures r.Opened? <==>
                && !w.killSwitch && w.eligible && !w.stale && !w.requoted && !w.lpFails
                && !(req.fillOrKill && w.leg.partial && w.leg.remaining > 0.0) && !w.cancelledBefore
                && Affordable(old(db), req, w)
                && !w.cancelledInside && w.exposureOk && w.clientLimitOk && w.concentrationOk && w.breaks == Never
                && w.leg.fees <= Max(0.0, old(db.balance))
      ensures r.Refused? ==> FirstToFail(old(db), req, w) == Some(r.reason)
      ensures r.Refused? ==> db.orders == old(db.orders)[req.order := old(db.orders)[req.order].(status := Rejected)]
    {
      hide Release, Retried, CanLock, Lock, Charge, InnerThrow, FillTx;
      Verdict(db, req, w);
      OpensIff(db, req, w);
      hide Affordable, EarlyReject, FirstToFail;
      var early := EarlyReject(req, w);
      if early.Some? {
        if req.preLocked.Some? {
          ghost var was := db;
          ReleaseMarginWithRetry(req.order, req.preLocked.value, attempts);
          OnlyWallet(was, req.order, req.preLocked.value, attempts);
          if Commits(attempts) == 0 {
            stuck := stuck + [req.preLocked.value];
          }
        }
        db := WithStatus(db, req.order, Rejected);
        return Refused(early.value);
      }
      ghost var before := db;
      var outcome := FillTransaction(req, w);
      TxShape(before, req, w);
      match outcome {
        case Thrown(reason) =>
          if req.preLocked.Some? {
            stuck := stuck + [req.preLocked.value];
          }
          db := WithStatus(db, req.order, Rejected);
          return Refused(reason);
        case Insufficient(_) =>
          db := WithStatus(db, req.order, Rejected);
          return Refused(MarginInsufficient);
        case Committed(committed) =>
          if req.IsPartial(w.leg) {
            var unused := req.Margin(w.leg) - req.EffectiveMargin(w.leg);
            if unused > RESIDUE {
              ReleaseMarginWithRetry(req.order, unused, attempts);
              OnlyWallet(committed, req.order, unused, attempts);
              if Commits(attempts) == 0 {
                stuck := stuck + [unused];
              }
            } else {
              residues := residues + [unused];
            }
          }
          r := Opened(|db.positions| - 1, db.orders[req.order].status.Filled?);
      }
    }
  }

  lemma OpensIff(db: Db, req: Request, w: World)
    requires req.Ok(w.leg) && req.order in db.orders
    ensures EarlyReject(req, w).None? && FillTx(db, req, w).Committed? <==>
              && !w.killSwitch && w.eligible && !w.stale && !w.requoted && !w.lpFails
              && !(req.fillOrKill && w.leg.partial && w.leg.remaining > 0.0) && !w.cancelledBefore
              && Affordable(db, req, w)
              && !w.cancelledInside && w.exposureOk && w.clientLimitOk && w.concentrationOk && w.breaks == Never
              && w.leg.fees <= Max(0.0, db.balance)
  {
    hide FillTx, Affordable;
    CommittedIff(db, req, w);
  }

  lemma ReleaseFrame(db: Db, order: nat, amount: real)
    ensures Release(db, order, 0.0) == db && Release(db, order, amount).orders == db.orders
  {
  }

  lemma OnlyWallet(db: Db, order: nat, amount: real, attempts: seq<Attempt>)
    ensures Retried(db, order, amount, attempts).(locked := db.locked, ledger := db.ledger) == db
  {
    assert Explained(db, db);
    RetriedExplained(db, order, amount, attempts, db);
  }

  /** What a transaction does to the tables other than the wallet and its ledger. */
  lemma TxShape(db: Db, req: Request, w: World)
    requires req.Ok(w.leg) && req.order in db.orders
    ensures match FillTx(db, req, w)
            case Thrown(_) => true
            case Insufficient(after) => after.(locked := db.locked, ledger := db.ledger) == db
            case Committed(after) =>
              && after.(balance := db.balance, locked := db.locked, ledger := db.ledger)
                 == Book(db, req.order, w.leg, req.EffectiveMargin(w.leg))
  {
    hide CanLock, InnerThrow;
  }
}
