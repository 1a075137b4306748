/** The transactional outbox and its audit consumer. */
module AuditOutbox {
  // The outbox, the consumer that turns its rows into audit records, and the cleaner that prunes it.

  import opened Prelude

  // ---------------------------------------------------------------------------------------
  // The store
  // ---------------------------------------------------------------------------------------

  /** A position has one fill row and at most one close row; other events need no audit. */
  datatype Kind = FillOf(position: nat) | CloseOf(position: nat) | OtherEvent

  /** Rows are never reused: a row's number is its place in the order of creation. */
  datatype Row = Row(kind: Kind, createdAt: nat, published: bool, audited: bool, notified: bool, retries: nat,
                     pruned: bool)

  datatype TradeStatus = Open | Closed
  datatype Trade = Trade(source: nat, position: nat, status: TradeStatus)
  datatype LogEntry = LogEntry(position: nat)

  /** `commits` lists the rows whose audit transaction committed, in that order. */
  datatype Store = Store(rows: seq<Row>, trades: seq<Trade>, log: seq<LogEntry>, commits: seq<nat>)

  const BATCH_SIZE := 200
  const RETENTION_MS := 7_200_000

  predicate NeedsAudit(k: Kind) { !k.OtherEvent? }

  function HasSource(trades: seq<Trade>, source: nat): bool { exists i | 0 <= i < |trades| :: trades[i].source == source }

  function HasPosition(trades: seq<Trade>, position: nat): bool {
    exists i | 0 <= i < |trades| :: trades[i].position == position
  }

  /** Insert a record unless its source row already has one. */
  function Upsert(trades: seq<Trade>, t: Trade): seq<Trade> {
    if HasSource(trades, t.source) then trades else trades + [t]
  }

  /** Close out every record of a position. */
  function CloseAll(trades: seq<Trade>, position: nat): (r: seq<Trade>)
    ensures |r| == |trades|
  {
    seq(|trades|, i requires 0 <= i < |trades| =>
      if trades[i].position == position then trades[i].(status := Closed) else trades[i])
  }

  function Audited(trades: seq<Trade>, id: nat, kind: Kind): seq<Trade> {
    match kind
    case FillOf(position) => Upsert(trades, Trade(id, position, Open))
    case CloseOf(position) =>
      if HasPosition(trades, position) then CloseAll(trades, position) else Upsert(trades, Trade(id, position, Closed))
    case OtherEvent => trades
  }

  /** The audit transaction of one row: its records and its flag together. */
  function AuditTx(s: Store, id: nat): Store
    requires id < |s.rows|
  {
    var kind := s.rows[id].kind;
    Store(s.rows[id := s.rows[id].(audited := true)], Audited(s.trades, id, kind),
          if kind.CloseOf? then s.log + [LogEntry(kind.position)] else s.log, s.commits + [id])
  }

  function Retried(s: Store, id: nat): Store
    requires id < |s.rows|
  {
    s.(rows := s.rows[id := s.rows[id].(retries := s.rows[id].retries + 1)])
  }

  predicate IsPending(r: Row) { NeedsAudit(r.kind) && !r.audited && !r.pruned }

  /** The rows a poll finds, oldest first. */
  function Pending(rows: seq<Row>): seq<nat> {
    if rows == [] then []
    else Pending(rows[..|rows| - 1]) + if IsPending(rows[|rows| - 1]) then [|rows| - 1] else []
  }

  function Batch(rows: seq<Row>): seq<nat> {
    if |Pending(rows)| <= BATCH_SIZE then Pending(rows) else Pending(rows)[..BATCH_SIZE]
  }

  predicate Prunable(r: Row, now: nat) {
    r.published && r.audited && r.notified && r.createdAt + RETENTION_MS < now
  }

  function Cleaned(s: Store, now: nat): Store {
    s.(rows := seq(|s.rows|, i requires 0 <= i < |s.rows| =>
                 if Prunable(s.rows[i], now) then s.rows[i].(pruned := true) else s.rows[i]))
  }

  // ---------------------------------------------------------------------------------------
  // What the audit records should be, given only the order in which rows were audited
  // ---------------------------------------------------------------------------------------

  function TradesOf(rows: seq<Row>, commits: seq<nat>): seq<Trade>
    requires forall i | 0 <= i < |commits| :: commits[i] < |rows|
  {
    if commits == [] then []
    else
      var n := |commits| - 1;
      Audited(TradesOf(rows, commits[..n]), commits[n], rows[commits[n]].kind)
  }

  function LogOf(rows: seq<Row>, commits: seq<nat>): seq<LogEntry>
    requires forall i | 0 <= i < |commits| :: commits[i] < |rows|
  {
    if commits == [] then []
    else
      var n := |commits| - 1;
      var kind := rows[commits[n]].kind;
      LogOf(rows, commits[..n]) + if kind.CloseOf? then [LogEntry(kind.position)] else []
  }

  ghost predicate Distinct(ids: seq<nat>) { forall i, j | 0 <= i < j < |ids| :: ids[i] != ids[j] }

  /** The flags tell the truth, nothing is audited twice, nothing unaudited is pruned, and the audit
      records are those of the audited rows. */
  ghost predicate Inv(s: Store) {
    && (forall i | 0 <= i < |s.commits| :: s.commits[i] < |s.rows| && NeedsAudit(s.rows[s.commits[i]].kind))
    && Distinct(s.commits)
    && (forall i | 0 <= i < |s.rows| && NeedsAudit(s.rows[i].kind) :: s.rows[i].audited <==> i in s.commits)
    && (forall i | 0 <= i < |s.rows| && s.rows[i].pruned :: s.rows[i].published && s.rows[i].audited && s.rows[i].notified)
    && s.trades == TradesOf(s.rows, s.commits)
    && s.log == LogOf(s.rows, s.commits)
  }

  /** Rows that agree on their kinds give the same records. */
  ghost predicate SameKinds(rows: seq<Row>, others: seq<Row>) {
    |rows| <= |others| && forall i | 0 <= i < |rows| :: rows[i].kind == others[i].kind
  }

  lemma {:induction false} RecordsDependOnKinds(rows: seq<Row>, others: seq<Row>, commits: seq<nat>)
    requires SameKinds(rows, others) && forall i | 0 <= i < |commits| :: commits[i] < |rows|
    ensures TradesOf(rows, commits) == TradesOf(others, commits) && LogOf(rows, commits) == LogOf(others, commits)
  {
    hide Audited;
    if commits != [] {
      RecordsDependOnKinds(rows, others, commits[..|commits| - 1]);
    }
  }

  lemma AuditTxKeepsInv(s: Store, id: nat)
    requires Inv(s) && id < |s.rows| && IsPending(s.rows[id])
    ensures Inv(AuditTx(s, id))
  {
    hide Audited, TradesOf, LogOf;
    var t := AuditTx(s, id);
    assert id !in s.commits;
    assert t.commits[..|s.commits|] == s.commits;
    RecordsDependOnKinds(s.rows, t.rows, s.commits);
    CommitAdded(t.rows, s.commits, id);
  }

  lemma CommitAdded(rows: seq<Row>, commits: seq<nat>, id: nat)
    requires id < |rows| && forall i | 0 <= i < |commits| :: commits[i] < |rows|
    ensures TradesOf(rows, commits + [id]) == Audited(TradesOf(rows, commits), id, rows[id].kind)
    ensures LogOf(rows, commits + [id]) ==
            if rows[id].kind.CloseOf? then LogOf(rows, commits) + [LogEntry(rows[id].kind.position)]
            else LogOf(rows, commits)
  {
    hide Audited;
    assert (commits + [id])[..|commits|] == commits;
  }

  /** Any other change of rows that keeps kinds, audit flags and the pruning rule. */
  lemma RowsChangedKeepsInv(s: Store, rows: seq<Row>)
    requires Inv(s) && SameKinds(s.rows, rows)
    requires forall i | 0 <= i < |s.rows| :: rows[i].audited == s.rows[i].audited
    requires forall i | |s.rows| <= i < |rows| :: NeedsAudit(rows[i].kind) ==> !rows[i].audited
    requires forall i | 0 <= i < |rows| && rows[i].pruned :: rows[i].published && rows[i].audited && rows[i].notified
    ensures Inv(s.(rows := rows))
  {
    hide TradesOf, LogOf;
    RecordsDependOnKinds(s.rows, rows, s.commits);
  }

  lemma {:induction false} PendingRows(rows: seq<Row>)
    ensures forall k | 0 <= k < |Pending(rows)| :: Pending(rows)[k] < |rows| && IsPending(rows[Pending(rows)[k]])
    ensures forall j, k | 0 <= j < k < |Pending(rows)| :: Pending(rows)[j] < Pending(rows)[k]
    ensures forall i | 0 <= i < |rows| && IsPending(rows[i]) :: i in Pending(rows)
  {
    hide IsPending;
    if rows != [] {
      var n := |rows| - 1;
      PendingRows(rows[..n]);
      forall i | 0 <= i < n && IsPending(rows[i])
        ensures i in Pending(rows)
      {
        assert rows[..n][i] == rows[i];
      }
    }
  }

  // ---------------------------------------------------------------------------------------
  // Runs: everything that happens to the store, interleaved in any way, with one consumer at a time
  // ---------------------------------------------------------------------------------------

  /** How the audit of one row ends: acknowledged, committed but reported as failed, rolled back, or
      with the consumer gone before or after its transaction committed. */
  datatype Ending = Acknowledged | LostAck | RolledBack | DiesCommitted | DiesUncommitted

  datatype Event =
    | Fill(position: nat, full: bool, at: nat)
    | Close(position: nat, at: nat)
    | Other(at: nat)
    | Publish(id: nat)
    | Notify(id: nat)
    | Poll
    | Process(ending: Ending)
    | Abort
    | Clean(now: nat)

  /** `batch` is what the consumer still has to do of its last poll. */
  datatype State = State(store: Store, batch: seq<nat>)

  ghost predicate PositionFilled(rows: seq<Row>, position: nat) {
    exists i | 0 <= i < |rows| :: rows[i].kind == FillOf(position)
  }

  ghost predicate PositionClosed(rows: seq<Row>, position: nat) {
    exists i | 0 <= i < |rows| :: rows[i].kind == CloseOf(position)
  }

  /** The clock of the store does not run backwards. */
  ghost predicate Later(rows: seq<Row>, at: nat) { rows == [] || rows[|rows| - 1].createdAt <= at }

  ghost predicate Enabled(s: State, e: Event) {
    match e
    case Fill(position, _, at) => Later(s.store.rows, at) && !PositionFilled(s.store.rows, position)
    case Close(position, at) =>
      Later(s.store.rows, at) && PositionFilled(s.store.rows, position) && !PositionClosed(s.store.rows, position)
    case Other(at) => Later(s.store.rows, at)
    case Publish(id) => id < |s.store.rows|
    case Notify(id) => id < |s.store.rows|
    case Process(_) => s.batch != []
    case _ => true
  }

  function NewRow(kind: Kind, at: nat, notified: bool): Row { Row(kind, at, false, !NeedsAudit(kind), notified, 0, false) }

  function Processed(s: Store, id: nat, ending: Ending): Store
    requires id < |s.rows|
  {
    match ending
    case Acknowledged => AuditTx(s, id)
    case LostAck => Retried(AuditTx(s, id), id)
    case RolledBack => Retried(s, id)
    case DiesCommitted => AuditTx(s, id)
    case DiesUncommitted => s
  }

  function Apply(s: State, e: Event): State
    requires e.Publish? ==> e.id < |s.store.rows|
    requires e.Notify? ==> e.id < |s.store.rows|
    requires e.Process? ==> s.batch != [] && s.batch[0] < |s.store.rows|
  {
    var rows := s.store.rows;
    match e
    case Fill(position, full, at) => s.(store := s.store.(rows := rows + [NewRow(FillOf(position), at, !full)]))
    case Close(position, at) => s.(store := s.store.(rows := rows + [NewRow(CloseOf(position), at, false)]))
    case Other(at) => s.(store := s.store.(rows := rows + [NewRow(OtherEvent, at, true)]))
    case Publish(id) => s.(store := s.store.(rows := rows[id := rows[id].(published := true)]))
    case Notify(id) => s.(store := s.store.(rows := rows[id := rows[id].(notified := true)]))
    case Poll => s.(batch := Batch(rows))
    case Process(ending) =>
      State(Processed(s.store, s.batch[0], ending),
            if ending.DiesCommitted? || ending.DiesUncommitted? then [] else s.batch[1..])
    case Abort => s.(batch := [])
    case Clean(now) => s.(store := Cleaned(s.store, now))
  }

  /** Every row still in the batch is still to be audited. */
  ghost predicate BatchInv(s: State) {
    && (forall k | 0 <= k < |s.batch| :: s.batch[k] < |s.store.rows| && IsPending(s.store.rows[s.batch[k]]))
    && Distinct(s.batch)
  }

  /** A position is filled once, and closed at most once and later. */
  ghost predicate OneOfEach(rows: seq<Row>) {
    && (forall i, j | 0 <= i < j < |rows| :: NeedsAudit(rows[i].kind) ==> rows[i].kind != rows[j].kind)
    && (forall j | 0 <= j < |rows| && rows[j].kind.CloseOf? ::
          exists i :: 0 <= i < j && rows[i].kind == FillOf(rows[j].kind.position))
  }

  ghost predicate Chronological(rows: seq<Row>) {
    forall i, j | 0 <= i < j < |rows| :: rows[i].createdAt <= rows[j].createdAt
  }

  ghost predicate Good(s: State) {
    Inv(s.store) && BatchInv(s) && OneOfEach(s.store.rows) && Chronological(s.store.rows)
  }

  lemma ProcessedKeepsInv(s: Store, id: nat, ending: Ending)
    requires Inv(s) && id < |s.rows| && IsPending(s.rows[id])
    ensures Inv(Processed(s, id, ending))
  {
    hide TradesOf, LogOf, Audited;
    AuditTxKeepsInv(s, id);
    var after := AuditTx(s, id);
    RowsChangedKeepsInv(after, Retried(after, id).rows);
    RowsChangedKeepsInv(s, Retried(s, id).rows);
  }

  lemma ProcessKeeps(s: State, ending: Ending)
    requires Good(s) && s.batch != []
    ensures Good(Apply(s, Process(ending)))
  {
    hide Inv;
    var id, t := s.batch[0], Apply(s, Process(ending));
    ProcessedKeepsInv(s.store, id, ending);
    assert forall i | 0 <= i < |s.store.rows| :: t.store.rows[i].kind == s.store.rows[i].kind;
    assert forall i | 0 <= i < |s.store.rows| && i != id :: t.store.rows[i] == s.store.rows[i];
    SameKindsOneOfEach(s.store.rows, t.store.rows);
  }

  lemma SameKindsOneOfEach(rows: seq<Row>, others: seq<Row>)
    requires |rows| == |others| && SameKinds(rows, others) && OneOfEach(rows)
    ensures OneOfEach(others)
  {
    forall j | 0 <= j < |others| && others[j].kind.CloseOf?
      ensures exists i :: 0 <= i < j && others[i].kind == FillOf(others[j].kind.position)
    {
      var i :| 0 <= i < j && rows[i].kind == FillOf(rows[j].kind.position);
      assert others[i].kind == FillOf(others[j].kind.position);
    }
  }

  lemma PollKeeps(s: State)
    requires Good(s)
    ensures Good(Apply(s, Poll))
  {
    hide Inv, OneOfEach, Pending;
    PendingRows(s.store.rows);
  }

  /** A poll takes the oldest rows that are still to be audited, at most 200 of them. */
  lemma OldestFirst(s: State, id: nat, other: nat)
    requires Good(s) && id in Batch(s.store.rows)
    requires other < |s.store.rows| && IsPending(s.store.rows[other]) && other !in Batch(s.store.rows)
    ensures id < |s.store.rows| && IsPending(s.store.rows[id]) && s.store.rows[id].createdAt <= s.store.rows[other].createdAt
    ensures |Batch(s.store.rows)| == 200
  {
    hide Inv, OneOfEach, Pending, IsPending;
    var rows := s.store.rows;
    PendingRows(rows);
    var i :| 0 <= i < |Batch(rows)| && Batch(rows)[i] == id;
    var j :| 0 <= j < |Pending(rows)| && Pending(rows)[j] == other;
  }

  lemma RowsKeep(s: State, rows: seq<Row>)
    requires Good(s) && SameKinds(s.store.rows, rows) && OneOfEach(rows) && Chronological(rows)
    requires forall i | 0 <= i < |s.store.rows| :: rows[i].audited == s.store.rows[i].audited
    requires forall i | 0 <= i < |s.store.rows| && rows[i].pruned :: s.store.rows[i].pruned || s.store.rows[i].audited
    requires forall i | |s.store.rows| <= i < |rows| :: NeedsAudit(rows[i].kind) ==> !rows[i].audited
    requires forall i | 0 <= i < |rows| && rows[i].pruned :: rows[i].published && rows[i].audited && rows[i].notified
    ensures Good(s.(store := s.store.(rows := rows)))
  {
    hide TradesOf, LogOf, Inv;
    RowsChangedKeepsInv(s.store, rows);
  }

  lemma NewRowKeeps(s: State, row: Row)
    requires Good(s) && row.audited == !NeedsAudit(row.kind) && !row.pruned && Later(s.store.rows, row.createdAt)
    requires NeedsAudit(row.kind) ==> forall i | 0 <= i < |s.store.rows| :: s.store.rows[i].kind != row.kind
    requires row.kind.CloseOf? ==> PositionFilled(s.store.rows, row.kind.position)
    ensures Good(s.(store := s.store.(rows := s.store.rows + [row])))
  {
    hide TradesOf, LogOf;
    RowsKeep(s, s.store.rows + [row]);
  }

  lemma StepKeeps(s: State, e: Event)
    requires Good(s) && Enabled(s, e)
    ensures Good(Apply(s, e))
  {
    hide TradesOf, LogOf, Inv, Pending;
    var rows := s.store.rows;
    match e
    case Fill(position, full, at) => NewRowKeeps(s, NewRow(FillOf(position), at, !full));
    case Close(position, at) => NewRowKeeps(s, NewRow(CloseOf(position), at, false));
    case Other(at) => NewRowKeeps(s, NewRow(OtherEvent, at, true));
    case Publish(id) => FlagKeeps(s, id, rows[id].(published := true));
    case Notify(id) => FlagKeeps(s, id, rows[id].(notified := true));
    case Poll => PollKeeps(s);
    case Process(ending) => ProcessKeeps(s, ending);
    case Abort =>
    case Clean(now) => CleanKeeps(s, now);
  }

  lemma FlagKeeps(s: State, id: nat, row: Row)
    requires Good(s) && id < |s.store.rows|
    requires row == s.store.rows[id].(published := true) || row == s.store.rows[id].(notified := true)
    ensures Good(s.(store := s.store.(rows := s.store.rows[id := row])))
  {
    hide TradesOf, LogOf;
    RowsKeep(s, s.store.rows[id := row]);
  }

  lemma CleanKeeps(s: State, now: nat)
    requires Good(s)
    ensures Good(s.(store := Cleaned(s.store, now)))
  {
    hide TradesOf, LogOf;
    RowsKeep(s, Cleaned(s.store, now).rows);
  }

  ghost predicate Legal(s: State, events: seq<Event>)
    requires Good(s)
    decreases |events|
  {
    events == [] || (Enabled(s, events[0]) && (StepKeeps(s, events[0]); Legal(Apply(s, events[0]), events[1..])))
  }

  ghost function Exec(s: State, events: seq<Event>): (t: State)
    requires Good(s) && Legal(s, events)
    ensures Good(t)
    decreases |events|
  {
    if events == [] then s
    else
      StepKeeps(s, events[0]);
      Exec(Apply(s, events[0]), events[1..])
  }

  function Start(): State { State(Store([], [], [], []), []) }

  // ---------------------------------------------------------------------------------------
  // What every run guarantees
  // ---------------------------------------------------------------------------------------

  lemma CountBySource(rows: seq<Row>, commits: seq<nat>)
    requires Distinct(commits) && forall i | 0 <= i < |commits| :: commits[i] < |rows|
    ensures forall i, j | 0 <= i < j < |TradesOf(rows, commits)| ::
              TradesOf(rows, commits)[i].source != TradesOf(rows, commits)[j].source
    ensures forall i | 0 <= i < |TradesOf(rows, commits)| :: TradesOf(rows, commits)[i].source in commits
  {
    if commits != [] {
      var n := |commits| - 1;
      CountBySource(rows, commits[..n]);
    }
  }

  /** How many records of a position there are. */
  function Records(trades: seq<Trade>, position: nat): nat {
    if trades == [] then 0
    else Records(trades[..|trades| - 1], position) + if trades[|trades| - 1].position == position then 1 else 0
  }

  function Entries(log: seq<LogEntry>, position: nat): nat {
    if log == [] then 0
    else Entries(log[..|log| - 1], position) + if log[|log| - 1].position == position then 1 else 0
  }

  /** In every run: a trade row is flagged audited exactly when its audit transaction committed; no
      row has two audit records; no unaudited row was pruned; and the log holds the closes audited. */
  lemma EveryRun(events: seq<Event>)
    requires Good(Start()) && Legal(Start(), events)
    ensures var s := Exec(Start(), events).store;
            && (forall i | 0 <= i < |s.rows| && NeedsAudit(s.rows[i].kind) :: s.rows[i].audited <==> i in s.commits)
            && (forall i | 0 <= i < |s.rows| && s.rows[i].pruned && NeedsAudit(s.rows[i].kind) :: i in s.commits)
            && (forall i, j | 0 <= i < j < |s.trades| :: s.trades[i].source != s.trades[j].source)
            && (forall i | 0 <= i < |s.rows| && s.rows[i].kind.CloseOf? ::
                  Entries(s.log, s.rows[i].kind.position) == if i in s.commits then 1 else 0)
  {
    hide TradesOf, LogOf, Entries;
    var s := Exec(Start(), events).store;
    CountBySource(s.rows, s.commits);
    forall i | 0 <= i < |s.rows| && s.rows[i].kind.CloseOf?
      ensures Entries(s.log, s.rows[i].kind.position) == if i in s.commits then 1 else 0
    {
      EntriesOfClose(s.rows, s.commits, i);
    }
  }

  lemma EntryAdded(log: seq<LogEntry>, e: LogEntry, position: nat)
    ensures Entries(log + [e], position) == Entries(log, position) + if e.position == position then 1 else 0
  {
    assert (log + [e])[..|log|] == log;
  }

  lemma {:induction false} EntriesOfClose(rows: seq<Row>, commits: seq<nat>, close: nat)
    requires OneOfEach(rows) && close < |rows| && rows[close].kind.CloseOf?
    requires Distinct(commits) && forall i | 0 <= i < |commits| :: commits[i] < |rows|
    ensures Entries(LogOf(rows, commits), rows[close].kind.position) == if close in commits then 1 else 0
  {
    hide Entries;
    var position := rows[close].kind.position;
    if commits == [] {
      NoEntries(position);
    } else {
      var n := |commits| - 1;
      EntriesOfClose(rows, commits[..n], close);
      assert close in commits <==> close in commits[..n] || commits[n] == close;
      assert commits[n] == close ==> close !in commits[..n];
      EntryAdded(LogOf(rows, commits[..n]), LogEntry(rows[close].kind.position), position);
      var kind := rows[commits[n]].kind;
      assert kind == rows[close].kind ==> commits[n] == close;
      assert LogOf(rows, commits[..n]) + [] == LogOf(rows, commits[..n]);
      if kind.CloseOf? {
        EntryAdded(LogOf(rows, commits[..n]), LogEntry(kind.position), position);
      }
    }
  }

  lemma NoEntries(position: nat)
    ensures Entries([], position) == 0
  {
  }

  // The order in which a position's two rows are audited

  /** Row `first` was audited while row `second` was not yet. */
  predicate AuditedFirst(commits: seq<nat>, first: nat, second: nat) {
    commits != [] && (
      AuditedFirst(commits[..|commits| - 1], first, second)
      || (commits[|commits| - 1] == first && second !in commits[..|commits| - 1]))
  }

  lemma RecordAdded(trades: seq<Trade>, t: Trade, position: nat)
    ensures Records(trades + [t], position) == Records(trades, position) + if t.position == position then 1 else 0
  {
    assert (trades + [t])[..|trades|] == trades;
  }

  lemma {:induction false} RecordsClosed(trades: seq<Trade>, closed: nat, position: nat)
    ensures Records(CloseAll(trades, closed), position) == Records(trades, position)
  {
    if trades != [] {
      RecordsClosed(trades[..|trades| - 1], closed, position);
      assert CloseAll(trades, closed)[..|trades| - 1] == CloseAll(trades[..|trades| - 1], closed);
    }
  }

  lemma {:induction false} RecordsFound(trades: seq<Trade>, position: nat)
    ensures HasPosition(trades, position) <==> Records(trades, position) > 0
  {
    if trades != [] {
      var n := |trades| - 1;
      RecordsFound(trades[..n], position);
      if i :| 0 <= i < n && trades[..n][i].position == position {
        assert trades[i].position == position;
      }
      if i :| 0 <= i < |trades| && trades[i].position == position {
        assert i < n ==> trades[..n][i].position == position;
      }
    }
  }

  /** The records of a position: one for its fill, and a second one for its close if and only if the
      close was audited first. */
  lemma {:induction false} RecordsOf(rows: seq<Row>, commits: seq<nat>, fill: nat, close: nat)
    requires OneOfEach(rows) && fill < |rows| && close < |rows|
    requires rows[fill].kind.FillOf? && rows[close].kind == CloseOf(rows[fill].kind.position)
    requires Distinct(commits) && forall i | 0 <= i < |commits| :: commits[i] < |rows|
    ensures Records(TradesOf(rows, commits), rows[fill].kind.position) ==
            (if fill in commits then 1 else 0) + (if AuditedFirst(commits, close, fill) then 1 else 0)
    ensures AuditedFirst(commits, close, fill) ==> close in commits
    ensures close in commits ==> AuditedFirst(commits, close, fill) || fill in commits
  {
    hide Records, Audited, CloseAll, HasPosition;
    if commits == [] {
      NoRecords(rows[fill].kind.position);
    } else {
      var n := |commits| - 1;
      var before, last := commits[..n], commits[n];
      RecordsOf(rows, before, fill, close);
      CountBySource(rows, before);
      assert forall i | i in commits :: i in before || i == last;
      AuditedRecords(rows, TradesOf(rows, before), last, rows[fill].kind.position, fill, close);
    }
  }

  lemma NoRecords(position: nat)
    ensures Records([], position) == 0
  {
  }

  /** How one more audited row changes the number of records of a position. */
  lemma AuditedRecords(rows: seq<Row>, trades: seq<Trade>, id: nat, position: nat, fill: nat, close: nat)
    requires OneOfEach(rows) && id < |rows| && fill < |rows| && close < |rows|
    requires rows[fill].kind == FillOf(position) && rows[close].kind == CloseOf(position)
    requires forall i | 0 <= i < |trades| :: trades[i].source != id
    ensures Records(Audited(trades, id, rows[id].kind), position) ==
            if id == fill then Records(trades, position) + 1
            else if id == close && Records(trades, position) == 0 then 1
            else Records(trades, position)
  {
    hide Records, CloseAll, HasPosition;
    assert !HasSource(trades, id);
    match rows[id].kind {
      case FillOf(p) =>
        RecordAdded(trades, Trade(id, p, Open), position);
      case CloseOf(p) =>
        RecordsFound(trades, p);
        RecordsClosed(trades, p, position);
        RecordAdded(trades, Trade(id, p, Closed), position);
      case OtherEvent =>
    }
  }

  /** When both rows of a position have been audited it has one record, or two if and only if the
      close was audited while the fill was not; a comment in the consumer says two never happens. */
  lemma TwoRecordsIff(s: Store, fill: nat, close: nat)
    requires Inv(s) && OneOfEach(s.rows) && fill in s.commits && close in s.commits
    requires s.rows[fill].kind.FillOf? && s.rows[close].kind == CloseOf(s.rows[fill].kind.position)
    ensures Records(s.trades, s.rows[fill].kind.position) == if AuditedFirst(s.commits, close, fill) then 2 else 1
  {
    hide TradesOf, LogOf, Records;
    RecordsOf(s.rows, s.commits, fill, close);
  }

  /** The record of a fill: of its position, and closed out by the close exactly if the close was
      audited later; one written after the close stays open for good. */
  lemma {:induction false} FillRecord(rows: seq<Row>, commits: seq<nat>, fill: nat, close: nat)
    requires OneOfEach(rows) && fill < |rows| && close < |rows|
    requires rows[fill].kind.FillOf? && rows[close].kind == CloseOf(rows[fill].kind.position)
    requires Distinct(commits) && forall i | 0 <= i < |commits| :: commits[i] < |rows|
    ensures HasSource(TradesOf(rows, commits), fill) <==> fill in commits
    ensures forall t | t in TradesOf(rows, commits) && t.source == fill ::
              t == Trade(fill, rows[fill].kind.position,
                         if close in commits && !AuditedFirst(commits, close, fill) then Closed else Open)
  {
    hide Audited;
    if commits != [] {
      var n := |commits| - 1;
      FillRecord(rows, commits[..n], fill, close);
      RecordsOf(rows, commits[..n], fill, close);
      CountBySource(rows, commits[..n]);
      assert forall i | i in commits :: i in commits[..n] || i == commits[n];
      RecordAfter(rows, TradesOf(rows, commits[..n]), commits[n], fill, close);
    }
  }

  /** How one more audited row changes the record of a fill. */
  lemma RecordAfter(rows: seq<Row>, trades: seq<Trade>, id: nat, fill: nat, close: nat)
    requires OneOfEach(rows) && id < |rows| && fill < |rows| && close < |rows|
    requires rows[fill].kind.FillOf? && rows[close].kind == CloseOf(rows[fill].kind.position)
    requires !HasSource(trades, id)
    requires forall t | t in trades && t.source == fill :: t.position == rows[fill].kind.position
    ensures var after := Audited(trades, id, rows[id].kind);
            && (HasSource(after, fill) <==> HasSource(trades, fill) || id == fill)
            && (id == fill ==> forall t | t in after && t.source == fill :: t == Trade(fill, rows[fill].kind.position, Open))
            && (id == close ==> forall t | t in after && t.source == fill ::
                  t == Trade(fill, rows[fill].kind.position, Closed))
            && (id != fill && id != close ==> forall t | t in after && t.source == fill :: t in trades)
  {
    var after := Audited(trades, id, rows[id].kind);
    if i :| 0 <= i < |trades| && trades[i].source == fill {
      assert after[i].source == fill;
    }
    assert rows[id].kind == rows[close].kind ==> id == close;
    assert rows[id].kind == rows[fill].kind ==> id == fill;
    assert forall i | 0 <= i < |trades| :: trades[i] in trades;
    if id == fill {
      assert after[|trades|] == Trade(id, rows[fill].kind.position, Open);
    }
  }

  /** A close writes a record of its own exactly if it was audited while its fill was not; that record is of
      its position and closed, for good. */
  lemma {:induction false} CloseRecord(rows: seq<Row>, commits: seq<nat>, fill: nat, close: nat)
    requires OneOfEach(rows) && fill < |rows| && close < |rows|
    requires rows[fill].kind.FillOf? && rows[close].kind == CloseOf(rows[fill].kind.position)
    requires Distinct(commits) && forall i | 0 <= i < |commits| :: commits[i] < |rows|
    ensures HasSource(TradesOf(rows, commits), close) <==> AuditedFirst(commits, close, fill)
    ensures forall t | t in TradesOf(rows, commits) && t.source == close ::
              t == Trade(close, rows[close].kind.position, Closed)
  {
    hide Audited;
    if commits != [] {
      var n := |commits| - 1;
      CloseRecord(rows, commits[..n], fill, close);
      RecordsOf(rows, commits[..n], fill, close);
      RecordsFound(TradesOf(rows, commits[..n]), rows[close].kind.position);
      CountBySource(rows, commits[..n]);
      assert forall i | i in commits :: i in commits[..n] || i == commits[n];
      CloseRecordAfter(rows, TradesOf(rows, commits[..n]), commits[n], close);
    }
  }

  /** How one more audited row changes the record of a close. */
  lemma CloseRecordAfter(rows: seq<Row>, trades: seq<Trade>, id: nat, close: nat)
    requires OneOfEach(rows) && id < |rows| && close < |rows| && rows[close].kind.CloseOf?
    requires !HasSource(trades, id)
    requires forall t | t in trades && t.source == close :: t == Trade(close, rows[close].kind.position, Closed)
    ensures var after := Audited(trades, id, rows[id].kind);
            && (HasSource(after, close) <==>
                  HasSource(trades, close) || (id == close && !HasPosition(trades, rows[close].kind.position)))
            && forall t | t in after && t.source == close :: t == Trade(close, rows[close].kind.position, Closed)
  {
    var after := Audited(trades, id, rows[id].kind);
    if i :| 0 <= i < |trades| && trades[i].source == close {
      assert after[i].source == close;
    }
    assert rows[id].kind == rows[close].kind ==> id == close;
    assert forall i | 0 <= i < |trades| :: trades[i] in trades;
    if id == close && !HasPosition(trades, rows[close].kind.position) {
      assert after[|trades|] == Trade(close, rows[close].kind.position, Closed);
    }
  }

  /** In every run, for a position with its fill and its close: the fill's record is there once it is audited,
      closed out exactly by a later close; the close's own is there exactly if it was audited first, and closed. */
  lemma RecordsInRun(events: seq<Event>, fill: nat, close: nat)
    requires Good(Start()) && Legal(Start(), events)
    requires fill < |Exec(Start(), events).store.rows| && close < |Exec(Start(), events).store.rows|
    requires Exec(Start(), events).store.rows[fill].kind.FillOf?
    requires Exec(Start(), events).store.rows[close].kind == CloseOf(Exec(Start(), events).store.rows[fill].kind.position)
    ensures var s := Exec(Start(), events).store;
            && (HasSource(s.trades, fill) <==> fill in s.commits)
            && (HasSource(s.trades, close) <==> AuditedFirst(s.commits, close, fill))
            && forall t | t in s.trades ::
                 && (t.source == fill ==> t == Trade(fill, s.rows[fill].kind.position,
                       if close in s.commits && !AuditedFirst(s.commits, close, fill) then Closed else Open))
                 && (t.source == close ==> t == Trade(close, s.rows[fill].kind.position, Closed))
  {
    hide TradesOf, LogOf, AuditedFirst;
    var s := Exec(Start(), events).store;
    FillRecord(s.rows, s.commits, fill, close);
    CloseRecord(s.rows, s.commits, fill, close);
  }

  lemma StartIsGood()
    ensures Good(Start())
  {
  }

  ghost predicate StepsTo(s: State, e: Event, t: State) {
    Enabled(s, e) && (e.Process? ==> s.batch[0] < |s.store.rows|) && Apply(s, e) == t
  }

  ghost predicate RunsTo(s: State, events: seq<Event>, t: State) { Good(s) && Legal(s, events) && Exec(s, events) == t }

  function FillRow(audited: bool, retries: nat): Row { Row(FillOf(7), 0, false, audited, false, retries, false) }

  function CloseRow(audited: bool): Row { Row(CloseOf(7), 1, false, audited, false, 0, false) }

  /** The stations of a run in which the fill of position 7 is rolled back once and its close is not. */
  function Station(k: nat): State
    requires k <= 7
  {
    var closed, both := Store([FillRow(false, 1), CloseRow(true)], [Trade(1, 7, Closed)], [LogEntry(7)], [1]),
                        Store([FillRow(false, 0), CloseRow(false)], [], [], []);
    match k
    case 0 => Start()
    case 1 => State(Store([FillRow(false, 0)], [], [], []), [])
    case 2 => State(both, [])
    case 3 => State(both, [0, 1])
    case 4 => State(Store([FillRow(false, 1), CloseRow(false)], [], [], []), [1])
    case 5 => State(closed, [])
    case 6 => State(closed, [0])
    case _ =>
      State(Store([FillRow(true, 1), CloseRow(true)], [Trade(1, 7, Closed), Trade(0, 7, Open)], [LogEntry(7)], [1, 0]), [])
  }

  function Stage(k: nat): Event
    requires k < 7
  {
    match k
    case 0 => Fill(7, true, 0)
    case 1 => Close(7, 1)
    case 2 => Poll
    case 3 => Process(RolledBack)
    case 4 => Process(Acknowledged)
    case 5 => Poll
    case _ => Process(Acknowledged)
  }

  lemma Arrivals()
    ensures StepsTo(Station(0), Stage(0), Station(1)) && StepsTo(Station(1), Stage(1), Station(2))
  {
    assert Station(1).store.rows[0].kind == FillOf(7);
  }

  lemma Polls()
    ensures StepsTo(Station(2), Stage(2), Station(3)) && StepsTo(Station(5), Stage(5), Station(6))
  {
    TwoRows(FillRow(false, 0), CloseRow(false));
    TwoRows(FillRow(false, 1), CloseRow(true));
  }

  lemma TwoRows(f: Row, c: Row)
    requires IsPending(f)
    ensures Pending([f, c]) == if IsPending(c) then [0, 1] else [0]
  {
    assert [f, c][..1] == [f] && [f][..0] == [];
    assert Pending([f]) == [0];
  }

  lemma RolledBackStage()
    ensures StepsTo(Station(3), Stage(3), Station(4))
  {
    var rows := Station(3).store.rows;
    assert rows[0 := FillRow(false, 1)] == Station(4).store.rows;
    assert Station(3).batch[1..] == [1];
  }

  lemma CloseStage()
    ensures StepsTo(Station(4), Stage(4), Station(5))
  {
    var rows := Station(4).store.rows;
    assert rows[1 := CloseRow(true)] == Station(5).store.rows;
    assert Station(4).batch[1..] == [];
  }

  lemma FillStage()
    ensures StepsTo(Station(6), Stage(6), Station(7))
  {
    var rows := Station(6).store.rows;
    assert rows[0 := FillRow(true, 1)] == Station(7).store.rows;
    assert Station(6).batch[1..] == [];
  }

  lemma {:induction false} Journey(k: nat) returns (events: seq<Event>)
    requires k <= 7 && Good(Station(k))
    requires forall j | k <= j < 7 :: StepsTo(Station(j), Stage(j), Station(j + 1))
    ensures RunsTo(Station(k), events, Station(7))
    decreases 7 - k
  {
    hide Good, Station, Stage, Enabled, Apply;
    if k == 7 {
      return [];
    }
    assert StepsTo(Station(k), Stage(k), Station(k + 1));
    StepKeeps(Station(k), Stage(k));
    var rest := Journey(k + 1);
    events := [Stage(k)] + rest;
  }

  /** It does happen: a poll finds fill and close, the fill's transaction is rolled back, the close's
      commits, and the next poll audits the fill. */
  lemma TwoRecordsHappen() returns (events: seq<Event>)
    ensures Good(Start()) && Legal(Start(), events) && Records(Exec(Start(), events).store.trades, 7) == 2
  {
    hide Good, Apply, Enabled;
    StartIsGood();
    Arrivals();
    Polls();
    RolledBackStage();
    CloseStage();
    FillStage();
    events := Journey(0);
    var t := Station(7).store.trades;
    assert t[..1] == [Trade(1, 7, Closed)] && t[..1][..0] == [];
  }

  // ---------------------------------------------------------------------------------------
  // The consumer and its neighbours as they run
  // ---------------------------------------------------------------------------------------

  datatype Tally = Tally(processed: nat, failed: nat, skipped: nat)

  /** A whole batch with the given endings, none of them the consumer's death. */
  function BatchDone(s: Store, ids: seq<nat>, endings: seq<Ending>): Store
    requires |ids| == |endings|
    decreases |ids|
  {
    if ids == [] || ids[0] >= |s.rows| then s else BatchDone(Processed(s, ids[0], endings[0]), ids[1..], endings[1..])
  }

  predicate Alive(e: Ending) { !e.DiesCommitted? && !e.DiesUncommitted? }

  function AckCount(endings: seq<Ending>): (n: nat)
    ensures n <= |endings|
  {
    if endings == [] then 0 else AckCount(endings[..|endings| - 1]) + if endings[|endings| - 1].Acknowledged? then 1 else 0
  }

  /** From `i` on the batch holds different rows, all of them still to be audited. */
  ghost predicate ToDo(rows: seq<Row>, ids: seq<nat>, i: nat) {
    && (forall k | i <= k < |ids| :: ids[k] < |rows| && IsPending(rows[ids[k]]))
    && Distinct(ids)
  }

  lemma BatchToDo(rows: seq<Row>)
    ensures ToDo(rows, Batch(rows), 0)
  {
    hide Pending, IsPending;
    PendingRows(rows);
  }

  lemma NextToDo(s: Store, ids: seq<nat>, i: nat, endings: seq<Ending>)
    requires i < |ids| == |endings| && ToDo(s.rows, ids, i)
    ensures ids[i] < |s.rows| && IsPending(s.rows[ids[i]]) && NeedsAudit(s.rows[ids[i]].kind)
    ensures ToDo(Processed(s, ids[i], endings[i]).rows, ids, i + 1)
    ensures BatchDone(s, ids[i..], endings[i..])
         == BatchDone(Processed(s, ids[i], endings[i]), ids[i + 1..], endings[i + 1..])
  {
    hide Processed;
    ProcessedRows(s, ids[i], endings[i]);
    assert ids[i..][1..] == ids[i + 1..] && endings[i..][1..] == endings[i + 1..];
  }

  lemma NothingToDo(s: Store)
    ensures BatchDone(s, [], []) == s
  {
  }

  lemma Acknowledgements(endings: seq<Ending>, i: nat)
    requires i <= |endings|
    ensures AckCount(endings[..0]) == 0
    ensures i < |endings| ==>
              AckCount(endings[..i + 1]) == AckCount(endings[..i]) + if endings[i].Acknowledged? then 1 else 0
  {
    if i < |endings| {
      assert endings[..i + 1][..i] == endings[..i];
    }
  }

  class AuditStore {
    var store: Store

    constructor ()
      ensures store == Store([], [], [], [])
    {
      store := Store([], [], [], []);
    }

    /** The fill's transaction: the record, unless its row has one, and the flag. */
    method ProcessFill(id: nat)
      requires id < |store.rows| && store.rows[id].kind.FillOf?
      modifies this
      ensures store == AuditTx(old(store), id)
      ensures HasSource(store.trades, id) && (HasSource(old(store).trades, id) ==> store.trades == old(store).trades)
      ensures AuditTx(store, id).trades == store.trades && AuditTx(store, id).rows == store.rows
    {
      var row := store.rows[id];
      var trades := store.trades;
      if !HasSource(trades, id) {
        trades := trades + [Trade(id, row.kind.position, Open)];
        assert trades[|trades| - 1].source == id;
      }
      store := Store(store.rows[id := row.(audited := true)], trades, store.log, store.commits + [id]);
    }

    /** The close's transaction: update the position's records or write one, add to the log, set the
        flag. */
    method ProcessClose(id: nat)
      requires id < |store.rows| && store.rows[id].kind.CloseOf?
      modifies this
      ensures store == AuditTx(old(store), id)
      ensures HasPosition(old(store).trades, old(store).rows[id].kind.position) ==>
                && |store.trades| == |old(store).trades|
                && forall i | 0 <= i < |store.trades| && store.trades[i].position == old(store).rows[id].kind.position ::
                     store.trades[i].status == Closed
      ensures !HasPosition(old(store).trades, old(store).rows[id].kind.position) && !HasSource(old(store).trades, id) ==>
                store.trades == old(store).trades + [Trade(id, old(store).rows[id].kind.position, Closed)]
    {
      var row := store.rows[id];
      var position := row.kind.position;
      var updated := HasPosition(store.trades, position);
      var trades := CloseAll(store.trades, position);
      NothingToClose(store.trades, position);
      if !updated {
        trades := Upsert(trades, Trade(id, position, Closed));
      }
      store := Store(store.rows[id := row.(audited := true)], trades, store.log + [LogEntry(position)],
                     store.commits + [id]);
    }

    /** One row of a batch: its transaction, and the retry counter if that was not acknowledged. */
    method ProcessOne(id: nat, ending: Ending)
      requires id < |store.rows| && NeedsAudit(store.rows[id].kind) && Alive(ending)
      modifies this
      ensures store == Processed(old(store), id, ending)
    {
      if !ending.RolledBack? {
        if store.rows[id].kind.FillOf? {
          ProcessFill(id);
        } else {
          ProcessClose(id);
        }
      }
      if !ending.Acknowledged? {
        store := store.(rows := store.rows[id := store.rows[id].(retries := store.rows[id].retries + 1)]);
      }
    }

    /** One poll and its batch, oldest row first; `endings` says how the store answers each row. Every
        row of the batch is counted once: as processed if its transaction was acknowledged, else as
        failed. */
    method ProcessPending(endings: seq<Ending>) returns (result: Tally)
      requires |endings| == |Batch(store.rows)| && forall k | 0 <= k < |endings| :: Alive(endings[k])
      requires Inv(store)
      modifies this
      ensures store == BatchDone(old(store), Batch(old(store).rows), endings)
      ensures Inv(store)
      ensures result == Tally(AckCount(endings), |endings| - AckCount(endings), 0)
    {
      hide Processed, Inv, Batch, BatchDone, AckCount, ToDo, IsPending;
      BatchToDo(store.rows);
      result := Tally(0, 0, 0);
      var events := Batch(store.rows);
      assert events[0..] == events && endings[0..] == endings;
      Acknowledgements(endings, 0);
      for i := 0 to |events|
        invariant Inv(store) && ToDo(store.rows, events, i)
        invariant BatchDone(old(store), events, endings) == BatchDone(store, events[i..], endings[i..])
        invariant result == Tally(AckCount(endings[..i]), i - AckCount(endings[..i]), 0)
      {
        assert Alive(endings[i]);
        NextToDo(store, events, i, endings);
        Acknowledgements(endings, i);
        ProcessedKeepsInv(store, events[i], endings[i]);
        ProcessOne(events[i], endings[i]);
        if endings[i].Acknowledged? {
          result := result.(processed := result.processed + 1);
        } else {
          result := result.(failed := result.failed + 1);
        }
      }
      NothingToDo(store);
      assert endings[..|endings|] == endings && events[|events|..] == [] && endings[|endings|..] == [];
    }

    /** Set the delivery flag, reporting whether this call was the one that set it. */
    method MarkPublished(id: nat) returns (flipped: bool)
      requires id < |store.rows|
      modifies this
      ensures flipped == (!old(store).rows[id].published && !old(store).rows[id].pruned)
      ensures store == if flipped then old(store).(rows := old(store).rows[id := old(store).rows[id].(published := true)])
                       else old(store)
    {
      flipped := !store.rows[id].published && !store.rows[id].pruned;
      if flipped {
        store := store.(rows := store.rows[id := store.rows[id].(published := true)]);
      }
    }

    /** Push to the user's socket and, for an event that already has its row, mark that row; never a
        second row. An event without one gets a row only if it could not be delivered. */
    method EnqueueAndPush(delivered: bool, existing: Option<nat>, at: nat)
      requires existing.Some? ==> existing.value < |store.rows|
      modifies this
      ensures store.trades == old(store).trades && store.log == old(store).log && store.commits == old(store).commits
      ensures |store.rows| == |old(store).rows| + if !delivered && existing.None? then 1 else 0
      ensures forall i | 0 <= i < |old(store).rows| ::
                store.rows[i] == old(store).rows[i]
                || (delivered && existing == Some(i) && store.rows[i] == old(store).rows[i].(published := true))
      ensures Inv(old(store)) ==> Inv(store)
    {
      ghost var was := store;
      if delivered {
        if existing.Some? {
          var _ := MarkPublished(existing.value);
        }
      } else if existing.None? {
        store := store.(rows := store.rows + [NewRow(OtherEvent, at, true)]);
      }
      if Inv(was) {
        RowsChangedKeepsInv(was, store.rows);
      }
    }

    /** The cleaner deletes only rows that are delivered, audited, notified and past their keeping. */
    method CleanUp(now: nat) returns (pruned: set<nat>)
      modifies this
      ensures store == Cleaned(old(store), now)
      ensures |store.rows| == |old(store).rows| && forall i | i in pruned :: 0 <= i < |store.rows|
      ensures forall i | 0 <= i < |old(store).rows| ::
                var row := old(store).rows[i];
                i in pruned <==> row.published && row.audited && row.notified && row.createdAt + 7_200_000 < now
      ensures forall i | 0 <= i < |old(store).rows| ::
                var row := old(store).rows[i];
                store.rows[i] == row.(pruned := row.pruned || i in pruned)
      ensures Inv(old(store)) ==> Inv(store)
    {
      ghost var was := store;
      pruned := set i | 0 <= i < |store.rows| && Prunable(store.rows[i], now);
      store := Cleaned(store, now);
      if Inv(was) {
        RowsChangedKeepsInv(was, store.rows);
      }
    }
  }

  lemma NothingToClose(trades: seq<Trade>, position: nat)
    ensures !HasPosition(trades, position) ==> CloseAll(trades, position) == trades
  {
  }

  lemma ProcessedRows(s: Store, id: nat, ending: Ending)
    requires id < |s.rows|
    ensures |Processed(s, id, ending).rows| == |s.rows|
    ensures forall i | 0 <= i < |s.rows| && i != id :: Processed(s, id, ending).rows[i] == s.rows[i]
  {
  }
}
