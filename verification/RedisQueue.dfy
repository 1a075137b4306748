/** The per-user execution queue. */
module RedisQueue {
  // One user's two Redis keys (the lock and the depth counter), any number of `enqueue` calls made by
  // any number of workers, and a clock.  Every event is one Redis command, one timer or one settled
  // task, together with the local code that runs before the next `await`.  `lag` bounds how late any
  // of them may be: 0 means commands are instantaneous and timers are urgent.

  import opened Prelude

  const MAX_QUEUE_DEPTH: int := 5
  const EXECUTION_TIMEOUT_MS: real := 15000.0
  const LOCK_TTL_MS: real := 30000.0
  const LOCK_RETRY_INIT_MS: real := 50.0
  const LOCK_RETRY_MAX_MS: real := 400.0
  const LOCK_RETRY_JITTER_MS: real := 20.0
  const LOCK_MAX_WAIT_MS: real := 27000.0
  const DEPTH_KEY_TTL_MS: real := 60000.0

  /** The fresh UUID of one `enqueue` call: it names the call and is its lock value. */
  type CallId = nat

  datatype Outcome = Completed | ExecutionError | TimedOut | QueueFull

  datatype Phase =
    | Counted                                            // INCR answered, EXPIRE is next
    | Contending(deadline: real, retryMs: real, due: real) // next SET NX at `due`
    | LockGranted(lockedAt: real)                        // SET answered OK, task about to start
    | Executing(lockedAt: real, startedAt: real)         // task running, cancel token false
    | Releasing(outcome: Outcome, since: real)           // compare-and-delete is next
    | Leaving(outcome: Outcome, since: real)             // DECR is next
    | Done(outcome: Outcome)
    | Crashed                                            // the worker process died

  datatype Call = Call(enteredAt: real, depthSeen: int, phase: Phase)

  datatype Lock = Lock(owner: CallId, expiresAt: real)

  /** A depth key without `ttl` never expires: INCR and DECR create the key without one. */
  datatype DepthKey = Absent | Present(count: int, ttl: Option<real>)

  /** `counting` is the history of the depth key: the calls whose INCR the present key holds. */
  datatype State = State(
    now: real,
    lock: Option<Lock>,
    depth: DepthKey,
    counting: set<CallId>,
    calls: map<CallId, Call>)

  datatype Event =
    | Incr(id: CallId)
    | ExpireDepth(id: CallId)
    | TryLock(id: CallId, pause: real)
    | StartTask(id: CallId)
    | TaskSettles(id: CallId, ok: bool)
    | TimeoutFires(id: CallId)
    | Release(id: CallId)
    | Decr(id: CallId)
    | Crash(id: CallId)
    | Tick(to: real)

  function Initial(): State { State(0.0, None, Absent, {}, map[]) }

  function DepthValue(key: DepthKey): int { if key.Present? then key.count else 0 }

  function BumpDepth(key: DepthKey, delta: int): DepthKey {
    if key.Present? then key.(count := key.count + delta) else Present(delta, None)
  }

  predicate InFlight(p: Phase) { !p.Done? && !p.Crashed? }

  /** When the phase must end, were everything on time. */
  function Due(c: Call): Option<real> {
    match c.phase
    case Counted => Some(c.enteredAt)
    case Contending(_, _, due) => Some(due)
    case LockGranted(at) => Some(at)
    case Executing(_, started) => Some(started + EXECUTION_TIMEOUT_MS)
    case Releasing(_, since) => Some(since)
    case Leaving(_, since) => Some(since)
    case Done(_) => None
    case Crashed => None
  }

  /** The sleep after a lost race: the back-off plus jitter, cut at the deadline. */
  predicate PauseAllowed(retryMs: real, remaining: real, pause: real) {
    Min(retryMs, remaining) <= pause <= Min(retryMs + LOCK_RETRY_JITTER_MS, remaining)
  }

  predicate Enabled(lag: real, s: State, e: Event) {
    match e
    case Incr(id) => id !in s.calls
    case ExpireDepth(id) => id in s.calls && s.calls[id].phase.Counted?
    case TryLock(id, pause) =>
      && id in s.calls && s.calls[id].phase.Contending?
      && var p := s.calls[id].phase;
      && p.due <= s.now
      && (s.lock.Some? && s.now < p.deadline ==> PauseAllowed(p.retryMs, p.deadline - s.now, pause))
    case StartTask(id) => id in s.calls && s.calls[id].phase.LockGranted?
    case TaskSettles(id, _) => id in s.calls && s.calls[id].phase.Executing?
    case TimeoutFires(id) =>
      && id in s.calls && s.calls[id].phase.Executing?
      && s.calls[id].phase.startedAt + EXECUTION_TIMEOUT_MS <= s.now
    case Release(id) => id in s.calls && s.calls[id].phase.Releasing?
    case Decr(id) => id in s.calls && s.calls[id].phase.Leaving?
    case Crash(id) => id in s.calls && InFlight(s.calls[id].phase)
    case Tick(to) =>
      && s.now < to
      && forall id | id in s.calls && Due(s.calls[id]).Some? :: to <= Due(s.calls[id]).value + lag
  }

  function Put(s: State, id: CallId, p: Phase): State
    requires id in s.calls
  {
    s.(calls := s.calls[id := s.calls[id].(phase := p)])
  }

  function Apply(s: State, e: Event, lag: real): State
    requires Enabled(lag, s, e)
  {
    match e
    case Incr(id) =>
      var key := BumpDepth(s.depth, 1);
      s.(depth := key, counting := s.counting + {id},
         calls := s.calls[id := Call(s.now, key.count, Counted)])
    case ExpireDepth(id) =>
      var key := if s.depth.Present? then s.depth.(ttl := Some(s.now + DEPTH_KEY_TTL_MS)) else Absent;
      var next := if s.calls[id].depthSeen > MAX_QUEUE_DEPTH
                  then Leaving(QueueFull, s.now)
                  else Contending(s.now + LOCK_MAX_WAIT_MS, LOCK_RETRY_INIT_MS, s.now);
      Put(s.(depth := key), id, next)
    case TryLock(id, pause) =>
      var p := s.calls[id].phase;
      if s.lock.None? then
        Put(s.(lock := Some(Lock(id, s.now + LOCK_TTL_MS))), id, LockGranted(s.now))
      else if p.deadline <= s.now then
        Put(s, id, Leaving(TimedOut, s.now))
      else
        Put(s, id, Contending(p.deadline, Min(p.retryMs * 1.5, LOCK_RETRY_MAX_MS), s.now + pause))
    case StartTask(id) => Put(s, id, Executing(s.calls[id].phase.lockedAt, s.now))
    case TaskSettles(id, ok) => Put(s, id, Releasing(if ok then Completed else ExecutionError, s.now))
    case TimeoutFires(id) => Put(s, id, Releasing(TimedOut, s.now))
    case Release(id) =>
      var lock := if s.lock.Some? && s.lock.value.owner == id then None else s.lock;
      Put(s.(lock := lock), id, Leaving(s.calls[id].phase.outcome, s.now))
    case Decr(id) =>
      Put(s.(depth := BumpDepth(s.depth, -1), counting := s.counting - {id}),
          id, Done(s.calls[id].phase.outcome))
    case Crash(id) => Put(s, id, Crashed)
    case Tick(to) =>
      var lock := if s.lock.Some? && s.lock.value.expiresAt <= to then None else s.lock;
      var gone := s.depth.Present? && s.depth.ttl.Some? && s.depth.ttl.value <= to;
      s.(now := to, lock := lock,
         depth := if gone then Absent else s.depth,
         counting := if gone then {} else s.counting)
  }

  predicate Legal(lag: real, s: State, es: seq<Event>)
    decreases |es|
  {
    es == [] || (Enabled(lag, s, es[0]) && Legal(lag, Apply(s, es[0], lag), es[1..]))
  }

  function Exec(lag: real, s: State, es: seq<Event>): State
    requires Legal(lag, s, es)
    decreases |es|
  {
    if es == [] then s else Exec(lag, Apply(s, es[0], lag), es[1..])
  }

  // ---------------------------------------------------------------------------------------
  // Mutual exclusion
  // ---------------------------------------------------------------------------------------

  /** No two tasks of the user run with their cancel tokens still false. */
  ghost predicate AtMostOneActive(s: State) {
    forall i, j | i in s.calls && j in s.calls && s.calls[i].phase.Executing? && s.calls[j].phase.Executing? :: i == j
  }

  /** Whoever was granted the lock and has not let go still owns it, and its timer is in time. */
  ghost predicate CallSafe(lag: real, now: real, lock: Option<Lock>, id: CallId, p: Phase) {
    match p
    case LockGranted(at) => at <= now <= at + lag && lock == Some(Lock(id, at + LOCK_TTL_MS))
    case Executing(at, started) =>
      && at <= started <= at + lag
      && now <= started + EXECUTION_TIMEOUT_MS + lag
      && lock == Some(Lock(id, at + LOCK_TTL_MS))
    case _ => true
  }

  ghost predicate HolderSafe(lag: real, s: State) {
    forall id | id in s.calls :: CallSafe(lag, s.now, s.lock, id, s.calls[id].phase)
  }

  lemma HolderSafeStep(lag: real, s: State, e: Event)
    requires 0.0 <= 2.0 * lag < LOCK_TTL_MS - EXECUTION_TIMEOUT_MS
    requires HolderSafe(lag, s) && Enabled(lag, s, e)
    ensures HolderSafe(lag, Apply(s, e, lag))
  {
    var t := Apply(s, e, lag);
    forall id | id in t.calls
      ensures CallSafe(lag, t.now, t.lock, id, t.calls[id].phase)
    {
      if id in s.calls {
        assert CallSafe(lag, s.now, s.lock, id, s.calls[id].phase);
        if e.Tick? {
          assert Due(s.calls[id]).Some? ==> e.to <= Due(s.calls[id]).value + lag;
        }
      }
    }
  }

  ghost predicate Reachable(lag: real, s: State) {
    exists es :: Legal(lag, Initial(), es) && Exec(lag, Initial(), es) == s
  }

  lemma {:induction false} ExecAppend(lag: real, s: State, es: seq<Event>, e: Event)
    requires Legal(lag, s, es) && Enabled(lag, Exec(lag, s, es), e)
    ensures Legal(lag, s, es + [e])
    ensures Exec(lag, s, es + [e]) == Apply(Exec(lag, s, es), e, lag)
    decreases |es|
  {
    if es == [] {
      assert [e][1..] == [];
    } else {
      ExecAppend(lag, Apply(s, es[0], lag), es[1..], e);
      assert (es + [e])[1..] == es[1..] + [e];
    }
  }

  lemma ReachStep(lag: real, s: State, e: Event)
    requires Reachable(lag, s) && Enabled(lag, s, e)
    ensures Reachable(lag, Apply(s, e, lag))
  {
    var es :| Legal(lag, Initial(), es) && Exec(lag, Initial(), es) == s;
    ExecAppend(lag, Initial(), es, e);
  }

  lemma {:induction false} HolderSafeRun(lag: real, s: State, es: seq<Event>)
    requires 0.0 <= 2.0 * lag < LOCK_TTL_MS - EXECUTION_TIMEOUT_MS
    requires HolderSafe(lag, s) && Legal(lag, s, es)
    ensures HolderSafe(lag, Exec(lag, s, es))
    decreases |es|
  {
    if es != [] {
      HolderSafeStep(lag, s, es[0]);
      HolderSafeRun(lag, Apply(s, es[0], lag), es[1..]);
    }
  }

  lemma MutualExclusion(lag: real, s: State)
    requires 0.0 <= 2.0 * lag < LOCK_TTL_MS - EXECUTION_TIMEOUT_MS
    requires Reachable(lag, s)
    ensures AtMostOneActive(s)
  {
    var es :| Legal(lag, Initial(), es) && Exec(lag, Initial(), es) == s;
    HolderSafeRun(lag, Initial(), es);
    forall i, j | i in s.calls && j in s.calls && s.calls[i].phase.Executing? && s.calls[j].phase.Executing?
      ensures i == j
    {
      assert CallSafe(lag, s.now, s.lock, i, s.calls[i].phase);
      assert CallSafe(lag, s.now, s.lock, j, s.calls[j].phase);
    }
  }

  /** A call that has just been counted gets the free lock and is about to start its task. */
  lemma GrantLock(lag: real, s: State, id: CallId) returns (t: State)
    requires Reachable(lag, s)
    requires id !in s.calls && s.lock.None? && 0 <= DepthValue(s.depth) < MAX_QUEUE_DEPTH
    ensures Reachable(lag, t)
    ensures t.now == s.now && t.lock == Some(Lock(id, s.now + LOCK_TTL_MS))
    ensures t.depth == Present(DepthValue(s.depth) + 1, Some(s.now + DEPTH_KEY_TTL_MS))
    ensures t.calls == s.calls[id := Call(s.now, DepthValue(s.depth) + 1, LockGranted(s.now))]
  {
    hide Reachable;
    ReachStep(lag, s, Incr(id));
    t := Apply(s, Incr(id), lag);
    ReachStep(lag, t, ExpireDepth(id));
    t := Apply(t, ExpireDepth(id), lag);
    ReachStep(lag, t, TryLock(id, 0.0));
    t := Apply(t, TryLock(id, 0.0), lag);
  }

  lemma InitialReachable(lag: real)
    ensures Reachable(lag, Initial())
  {
    assert Legal(lag, Initial(), []) && Exec(lag, Initial(), []) == Initial();
  }

  /** Two calls whose tasks overlap as soon as a reply and a timer may each be 7.5 s late. */
  lemma OverlapHappens(lag: real) returns (s: State)
    requires 2.0 * lag >= LOCK_TTL_MS - EXECUTION_TIMEOUT_MS
    ensures Reachable(lag, s) && !AtMostOneActive(s)
  {
    hide Reachable;
    InitialReachable(lag);
    s := GrantLock(lag, Initial(), 0);
    ReachStep(lag, s, Tick(7500.0));
    s := Apply(s, Tick(7500.0), lag);
    ReachStep(lag, s, StartTask(0));
    s := Apply(s, StartTask(0), lag);
    ReachStep(lag, s, Tick(30000.0));
    s := Apply(s, Tick(30000.0), lag);
    s := GrantLock(lag, s, 1);
    ReachStep(lag, s, StartTask(1));
    s := Apply(s, StartTask(1), lag);
    assert s.calls[0].phase.Executing? && s.calls[1].phase.Executing?;
  }

  /** Tasks of one user never overlap in any run, exactly when twice the lag fits in the
      margin between the lock's TTL and the execution timeout. */
  lemma MutualExclusionIff(lag: real)
    requires 0.0 <= lag
    ensures (forall s :: Reachable(lag, s) ==> AtMostOneActive(s))
       <==> 2.0 * lag < LOCK_TTL_MS - EXECUTION_TIMEOUT_MS
  {
    if 2.0 * lag < LOCK_TTL_MS - EXECUTION_TIMEOUT_MS {
      forall s | Reachable(lag, s) ensures AtMostOneActive(s) {
        MutualExclusion(lag, s);
      }
    } else {
      var s := OverlapHappens(lag);
    }
  }

  // ---------------------------------------------------------------------------------------
  // The depth counter
  // ---------------------------------------------------------------------------------------

  ghost function InFlightIds(s: State): set<CallId> {
    set id | id in s.calls && InFlight(s.calls[id].phase)
  }

  /** The calls let in by the depth check, or that will be once EXPIRE answers. */
  ghost function AdmittedIds(s: State): set<CallId> {
    set id | id in s.calls && InFlight(s.calls[id].phase) && s.calls[id].depthSeen <= MAX_QUEUE_DEPTH
  }

  ghost predicate NoneInFlight(s: State) { forall id | id in s.calls :: !InFlight(s.calls[id].phase) }

  ghost predicate NoCrash(s: State) { forall id | id in s.calls :: !s.calls[id].phase.Crashed? }

  /** With instantaneous commands and urgent timers a call lasts at most 27 s + 15 s. */
  ghost predicate OnTime(now: real, c: Call) {
    c.enteredAt <= now &&
    match c.phase
    case Counted => now == c.enteredAt
    case Contending(deadline, retryMs, due) =>
      && deadline == c.enteredAt + LOCK_MAX_WAIT_MS
      && LOCK_RETRY_INIT_MS <= retryMs <= LOCK_RETRY_MAX_MS
      && now <= due <= deadline
    case LockGranted(at) => now == at <= c.enteredAt + LOCK_MAX_WAIT_MS
    case Executing(_, started) =>
      started <= c.enteredAt + LOCK_MAX_WAIT_MS && now <= started + EXECUTION_TIMEOUT_MS
    case Releasing(_, since) => now == since <= c.enteredAt + LOCK_MAX_WAIT_MS + EXECUTION_TIMEOUT_MS
    case Leaving(_, since) => now == since <= c.enteredAt + LOCK_MAX_WAIT_MS + EXECUTION_TIMEOUT_MS
    case _ => true
  }

  /** The depth key outlives every call it counts. */
  ghost predicate KeyCovers(key: DepthKey, c: Call) {
    InFlight(c.phase) ==>
      && key.Present?
      && (c.phase.Counted? || (key.ttl.Some? && c.enteredAt + DEPTH_KEY_TTL_MS <= key.ttl.value))
  }

  ghost predicate CallCounted(s: State, id: CallId)
    requires id in s.calls
  {
    && OnTime(s.now, s.calls[id])
    && KeyCovers(s.depth, s.calls[id])
    && (InFlight(s.calls[id].phase) ==> id in s.counting)
  }

  ghost predicate KeyExact(s: State) {
    && DepthValue(s.depth) == |s.counting|
    && (s.depth.Absent? ==> s.counting == {})
    && (s.depth.Present? && s.depth.ttl.Some? ==> s.now < s.depth.ttl.value)
  }

  ghost predicate CountingKnown(s: State) {
    forall id | id in s.counting :: id in s.calls && (InFlight(s.calls[id].phase) || s.calls[id].phase.Crashed?)
  }

  ghost predicate DepthSafe(s: State) {
    && (forall id | id in s.calls :: CallCounted(s, id))
    && KeyExact(s)
    && CountingKnown(s)
    && |AdmittedIds(s)| <= MAX_QUEUE_DEPTH
  }

  lemma SubsetSize<T>(a: set<T>, b: set<T>)
    requires a <= b
    ensures |a| <= |b|
  {
    assert b == a + (b - a);
  }

  lemma OnTimeStep(s: State, e: Event, id: CallId)
    requires Enabled(0.0, s, e) && id in Apply(s, e, 0.0).calls
    requires id in s.calls ==> OnTime(s.now, s.calls[id])
    ensures OnTime(Apply(s, e, 0.0).now, Apply(s, e, 0.0).calls[id])
  {
    if id in s.calls && e.Tick? {
      assert Due(s.calls[id]).Some? ==> e.to <= Due(s.calls[id]).value;
    }
  }

  lemma CallAge(now: real, c: Call)
    requires OnTime(now, c) && InFlight(c.phase)
    ensures c.enteredAt <= now <= c.enteredAt + LOCK_MAX_WAIT_MS + EXECUTION_TIMEOUT_MS
  {
  }

  /** The clock cannot reach the key's TTL while the key counts a call in flight. */
  lemma KeyOutlivesCall(s: State, to: real, id: CallId)
    requires Enabled(0.0, s, Tick(to)) && id in s.calls && InFlight(s.calls[id].phase)
    requires CallCounted(s, id)
    ensures s.depth.Present? && s.depth.ttl.Some? && to < s.depth.ttl.value
  {
    OnTimeStep(s, Tick(to), id);
    CallAge(to, s.calls[id]);
    assert to <= Due(s.calls[id]).value;
  }

  lemma CallStaysCounted(s: State, e: Event, id: CallId)
    requires Enabled(0.0, s, e) && id in Apply(s, e, 0.0).calls
    requires id in s.calls ==> CallCounted(s, id)
    ensures CallCounted(Apply(s, e, 0.0), id)
  {
    OnTimeStep(s, e, id);
    if id in s.calls && InFlight(s.calls[id].phase) {
      CallAge(s.now, s.calls[id]);
      if e.Tick? { KeyOutlivesCall(s, e.to, id); }
    }
  }

  lemma KeyExactStep(s: State, e: Event)
    requires Enabled(0.0, s, e) && KeyExact(s)
    requires e.Incr? ==> e.id !in s.counting
    requires e.Decr? ==> e.id in s.counting
    ensures KeyExact(Apply(s, e, 0.0))
  {
  }

  lemma CountingKnownStep(s: State, e: Event)
    requires Enabled(0.0, s, e) && CountingKnown(s)
    ensures CountingKnown(Apply(s, e, 0.0))
  {
    var t := Apply(s, e, 0.0);
    forall id | id in t.counting
      ensures id in t.calls && (InFlight(t.calls[id].phase) || t.calls[id].phase.Crashed?)
    {
      assert id in s.counting || e == Incr(id);
    }
  }

  lemma AdmittedStep(s: State, e: Event)
    requires Enabled(0.0, s, e) && |AdmittedIds(s)| <= MAX_QUEUE_DEPTH
    requires KeyExact(Apply(s, e, 0.0))
    requires forall id | id in AdmittedIds(Apply(s, e, 0.0)) :: id in Apply(s, e, 0.0).counting
    ensures |AdmittedIds(Apply(s, e, 0.0))| <= MAX_QUEUE_DEPTH
  {
    var t := Apply(s, e, 0.0);
    if e.Incr? && t.calls[e.id].depthSeen <= MAX_QUEUE_DEPTH {
      SubsetSize(AdmittedIds(t), t.counting);
    } else {
      SubsetSize(AdmittedIds(t), AdmittedIds(s));
    }
  }

  lemma DepthSafeStep(s: State, e: Event)
    requires DepthSafe(s) && Enabled(0.0, s, e)
    ensures DepthSafe(Apply(s, e, 0.0))
  {
    var t := Apply(s, e, 0.0);
    forall id | id in t.calls ensures CallCounted(t, id) {
      CallStaysCounted(s, e, id);
    }
    assert e.Decr? ==> CallCounted(s, e.id);
    KeyExactStep(s, e);
    CountingKnownStep(s, e);
    AdmittedStep(s, e);
  }

  lemma {:induction false} DepthSafeRun(s: State, es: seq<Event>)
    requires DepthSafe(s) && Legal(0.0, s, es)
    ensures DepthSafe(Exec(0.0, s, es))
    decreases |es|
  {
    if es != [] {
      DepthSafeStep(s, es[0]);
      DepthSafeRun(Apply(s, es[0], 0.0), es[1..]);
    }
  }

  lemma DepthSafeReachable(s: State)
    requires Reachable(0.0, s)
    ensures DepthSafe(s)
  {
    var es :| Legal(0.0, Initial(), es) && Exec(0.0, Initial(), es) == s;
    assert AdmittedIds(Initial()) == {};
    DepthSafeRun(Initial(), es);
  }

  /** In every run: the counter is the number of calls in flight plus those lost to crashes
      since the key was created; at most five admitted calls exist; every call ends within 42 s. */
  lemma DepthCounts(s: State)
    requires Reachable(0.0, s)
    ensures InFlightIds(s) <= s.counting
    ensures forall id | id in s.counting - InFlightIds(s) :: id in s.calls && s.calls[id].phase.Crashed?
    ensures DepthValue(s.depth) == |s.counting| >= |InFlightIds(s)|
    ensures NoCrash(s) ==> DepthValue(s.depth) == |InFlightIds(s)|
    ensures |AdmittedIds(s)| <= 5
    ensures forall id | id in s.calls && InFlight(s.calls[id].phase) :: s.now <= s.calls[id].enteredAt + 42000.0
  {
    DepthSafeReachable(s);
    assert forall id | id in s.calls :: CallCounted(s, id);
    SubsetSize(InFlightIds(s), s.counting);
    if NoCrash(s) { assert s.counting == InFlightIds(s); }
    forall id | id in s.calls && InFlight(s.calls[id].phase)
      ensures s.now <= s.calls[id].enteredAt + LOCK_MAX_WAIT_MS + EXECUTION_TIMEOUT_MS
    {
      assert CallCounted(s, id);
      CallAge(s.now, s.calls[id]);
    }
  }

  /** A call that holds the lock finishes its task at once and leaves. */
  lemma Finish(lag: real, s: State, id: CallId) returns (t: State)
    requires Reachable(lag, s)
    requires id in s.calls && s.calls[id].phase.LockGranted?
    requires s.lock.Some? && s.lock.value.owner == id
    ensures Reachable(lag, t)
    ensures t.now == s.now && t.lock == None && t.depth == BumpDepth(s.depth, -1)
    ensures t.calls == s.calls[id := s.calls[id].(phase := Done(Completed))]
  {
    hide Reachable;
    ReachStep(lag, s, StartTask(id));
    t := Apply(s, StartTask(id), lag);
    ReachStep(lag, t, TaskSettles(id, true));
    t := Apply(t, TaskSettles(id, true), lag);
    ReachStep(lag, t, Release(id));
    t := Apply(t, Release(id), lag);
    ReachStep(lag, t, Decr(id));
    t := Apply(t, Decr(id), lag);
  }

  lemma FirstCall(lag: real) returns (s: State)
    requires 0.0 < lag
    ensures Reachable(lag, s) && s.now == 0.0 && s.lock == None
    ensures s.depth == Present(0, Some(DEPTH_KEY_TTL_MS))
    ensures s.calls == map[0 := Call(0.0, 1, Done(Completed))]
  {
    hide Reachable;
    InitialReachable(lag);
    s := GrantLock(lag, Initial(), 0);
    s := Finish(lag, s, 0);
  }

  /** A second call counts itself just before the key left by the first expires, and is still to
      renew it when that happens. */
  lemma KeyExpiresEarly(lag: real) returns (s: State)
    requires 0.0 < lag
    ensures Reachable(lag, s) && s.depth == Absent && s.lock == None
    ensures 0 in s.calls && 1 in s.calls && forall id | id in s.calls :: id <= 1
    ensures s.calls[0].phase == Done(Completed) && s.calls[1].phase == Counted && s.calls[1].depthSeen == 1
  {
    hide Reachable;
    s := FirstCall(lag);
    var early := DEPTH_KEY_TTL_MS - Min(lag, 1.0);
    ReachStep(lag, s, Tick(early));
    s := Apply(s, Tick(early), lag);
    ReachStep(lag, s, Incr(1));
    s := Apply(s, Incr(1), lag);
    ReachStep(lag, s, Tick(DEPTH_KEY_TTL_MS));
    s := Apply(s, Tick(DEPTH_KEY_TTL_MS), lag);
  }

  /** Any delay at all between INCR and EXPIRE lets the key expire in between: the call's own
      INCR is lost, EXPIRE finds no key, and the final DECR takes the counter to -1. */
  lemma DepthGoesNegative(lag: real) returns (s: State)
    requires 0.0 < lag
    ensures Reachable(lag, s) && NoCrash(s)
    ensures InFlightIds(s) == {} && DepthValue(s.depth) == -1
  {
    hide Reachable;
    s := KeyExpiresEarly(lag);
    ReachStep(lag, s, ExpireDepth(1));
    s := Apply(s, ExpireDepth(1), lag);
    ReachStep(lag, s, TryLock(1, 0.0));
    s := Apply(s, TryLock(1, 0.0), lag);
    s := Finish(lag, s, 1);
  }

  /** The counter is exact in every crash-free run, exactly when commands are instantaneous. */
  lemma DepthExactIff(lag: real)
    requires 0.0 <= lag
    ensures (forall s :: Reachable(lag, s) && NoCrash(s) ==> DepthValue(s.depth) == |InFlightIds(s)|)
       <==> lag == 0.0
  {
    if lag == 0.0 {
      forall s | Reachable(lag, s) && NoCrash(s) ensures DepthValue(s.depth) == |InFlightIds(s)| {
        DepthCounts(s);
      }
    } else {
      var s := DepthGoesNegative(lag);
    }
  }

  // ---------------------------------------------------------------------------------------
  // Crashes
  // ---------------------------------------------------------------------------------------

  /** The key counts the `lost` calls, which have crashed, along with every call in flight. */
  ghost predicate Leaking(s: State, lost: set<CallId>) {
    && s.depth.Present? && s.depth.count == |s.counting|
    && lost <= s.counting
    && (forall id | id in s.counting :: id in s.calls)
    && (forall id | id in s.calls && InFlight(s.calls[id].phase) :: id in s.counting)
    && (forall id | id in lost :: s.calls[id].phase.Crashed?)
  }

  /** With instantaneous commands that is so in every state in which the key counts a crashed call. */
  lemma CrashLeaks(s: State, lost: set<CallId>)
    requires Reachable(0.0, s) && lost != {} && lost <= s.counting
    requires forall id | id in lost :: id in s.calls && s.calls[id].phase.Crashed?
    ensures Leaking(s, lost)
  {
    hide AdmittedIds, InFlightIds;
    DepthSafeReachable(s);
    assert forall id | id in s.calls :: CallCounted(s, id);
    SubsetSize(lost, s.counting);
    assert |s.counting| > 0;
  }

  /** The key runs out in this step. */
  predicate RunsOut(e: Event, due: Option<real>) { e.Tick? && due.Some? && due.value <= e.to }

  function NextDue(s: State, e: Event, due: Option<real>): Option<real> {
    if e.ExpireDepth? then Some(s.now + DEPTH_KEY_TTL_MS) else due
  }

  lemma LeakCount(lag: real, s: State, e: Event)
    requires s.depth.Present? && s.depth.count == |s.counting| && Enabled(lag, s, e)
    requires (e.Incr? ==> e.id !in s.counting) && (e.Decr? ==> e.id in s.counting)
    ensures var t := Apply(s, e, lag);
            if RunsOut(e, s.depth.ttl) then t.depth == Absent && t.counting == {}
            else t.depth.Present? && t.depth.count == |t.counting| && t.depth.ttl == NextDue(s, e, s.depth.ttl)
  {
  }

  lemma LeakCalls(lag: real, s: State, e: Event, lost: set<CallId>)
    requires Leaking(s, lost) && Enabled(lag, s, e) && !RunsOut(e, s.depth.ttl)
    ensures var t := Apply(s, e, lag);
            && lost <= t.counting
            && (forall id | id in t.counting :: id in t.calls)
            && (forall id | id in t.calls && InFlight(t.calls[id].phase) :: id in t.counting)
            && (forall id | id in lost :: t.calls[id].phase.Crashed?)
  {
  }

  /** One step: the lost calls go all together, exactly when the clock reaches the key's end. */
  lemma LeakStep(lag: real, s: State, e: Event, lost: set<CallId>)
    requires Leaking(s, lost) && Enabled(lag, s, e)
    ensures var t := Apply(s, e, lag);
            if RunsOut(e, s.depth.ttl) then t.depth == Absent && t.counting == {}
            else Leaking(t, lost) && t.depth.ttl == NextDue(s, e, s.depth.ttl)
  {
    hide Apply;
    LeakCount(lag, s, e);
    if !RunsOut(e, s.depth.ttl) {
      LeakCalls(lag, s, e, lost);
    }
  }

  /** No moment of the run comes 60 s or more after the last EXPIRE before it; `due` is when the key
      ends at the start. */
  predicate RenewedInTime(lag: real, s: State, es: seq<Event>, due: Option<real>)
    requires Legal(lag, s, es)
    decreases |es|
  {
    es == [] || (!RunsOut(es[0], due) && RenewedInTime(lag, Apply(s, es[0], lag), es[1..], NextDue(s, es[0], due)))
  }

  /** Calls that crashed and are no longer counted never will be again. */
  ghost predicate Forgotten(s: State, lost: set<CallId>) {
    forall id | id in lost :: id in s.calls && s.calls[id].phase.Crashed? && id !in s.counting
  }

  lemma {:induction false} StaysForgotten(lag: real, s: State, es: seq<Event>, lost: set<CallId>)
    requires Legal(lag, s, es) && Forgotten(s, lost)
    ensures Forgotten(Exec(lag, s, es), lost)
    decreases |es|
  {
    if es != [] { StaysForgotten(lag, Apply(s, es[0], lag), es[1..], lost); }
  }

  /** In every run, at any lag: crashed calls stay counted, and the counter at least at their number, if
      and only if the calls that come, refused or not, renew the key within every minute. */
  lemma {:induction false} LeakPersists(lag: real, s: State, es: seq<Event>, lost: set<CallId>)
    requires Legal(lag, s, es) && Leaking(s, lost) && lost != {}
    ensures lost <= Exec(lag, s, es).counting <==> RenewedInTime(lag, s, es, s.depth.ttl)
    ensures RenewedInTime(lag, s, es, s.depth.ttl) ==>
              Leaking(Exec(lag, s, es), lost) && DepthValue(Exec(lag, s, es).depth) >= |lost|
    decreases |es|
  {
    hide Enabled, Apply, Leaking;
    LeakSize(s, lost);
    if es != [] {
      var t := Apply(s, es[0], lag);
      LeakStep(lag, s, es[0], lost);
      if RunsOut(es[0], s.depth.ttl) {
        ForgottenNow(lag, s, es[0], lost);
        StaysForgotten(lag, t, es[1..], lost);
        var id :| id in lost;
      } else {
        LeakPersists(lag, t, es[1..], lost);
      }
    }
  }

  lemma LeakSize(s: State, lost: set<CallId>)
    requires Leaking(s, lost)
    ensures lost <= s.counting && s.depth.Present? && DepthValue(s.depth) >= |lost|
  {
    SubsetSize(lost, s.counting);
  }

  lemma ForgottenNow(lag: real, s: State, e: Event, lost: set<CallId>)
    requires Leaking(s, lost) && Enabled(lag, s, e) && RunsOut(e, s.depth.ttl)
    ensures Forgotten(Apply(s, e, lag), lost)
  {
  }

  /** Every call that was not there at the start has been refused, or is about to be. */
  ghost predicate NewcomersRefused(known: set<CallId>, s: State) {
    forall id | id in s.calls && id !in known ::
      s.calls[id].depthSeen > MAX_QUEUE_DEPTH
      && match s.calls[id].phase
         case Counted => true
         case Leaving(o, _) => o == QueueFull
         case Done(o) => o == QueueFull
         case Crashed => true
         case _ => false
  }

  lemma RefusedStep(lag: real, s: State, e: Event, lost: set<CallId>, known: set<CallId>)
    requires Leaking(s, lost) && |lost| >= MAX_QUEUE_DEPTH && Enabled(lag, s, e) && NewcomersRefused(known, s)
    ensures NewcomersRefused(known, Apply(s, e, lag))
  {
    SubsetSize(lost, s.counting);
  }

  /** Five crashed calls lock the user out: in every run that renews the key within every minute, no
      call that arrives gets past the depth check. */
  lemma {:induction false} LockedOut(lag: real, s: State, es: seq<Event>, lost: set<CallId>, known: set<CallId>)
    requires Legal(lag, s, es) && Leaking(s, lost) && |lost| >= MAX_QUEUE_DEPTH
    requires RenewedInTime(lag, s, es, s.depth.ttl) && NewcomersRefused(known, s)
    ensures NewcomersRefused(known, Exec(lag, s, es))
    decreases |es|
  {
    hide Enabled, Apply, Leaking, NewcomersRefused;
    if es != [] {
      RefusedStep(lag, s, es[0], lost, known);
      LeakStep(lag, s, es[0], lost);
      LockedOut(lag, Apply(s, es[0], lag), es[1..], lost, known);
    }
  }

  /** Five crashed calls still fill the counter, its TTL was renewed just now, and every later
      call has been turned away. */
  ghost predicate Leaked(s: State, unused: CallId) {
    && s.depth == Present(MAX_QUEUE_DEPTH, Some(s.now + DEPTH_KEY_TTL_MS))
    && (forall id | id in s.calls ::
          id < unused && s.calls[id].phase == if id < MAX_QUEUE_DEPTH then Crashed else Done(QueueFull))
  }

  lemma IdleTick(s: State, to: real) returns (t: State)
    requires Reachable(0.0, s) && NoneInFlight(s) && s.now < to
    requires s.depth.Present? && s.depth.ttl.Some? && to < s.depth.ttl.value
    ensures Reachable(0.0, t) && t.now == to && t.depth == s.depth && t.calls == s.calls
  {
    hide Reachable;
    ReachStep(0.0, s, Tick(to));
    t := Apply(s, Tick(to), 0.0);
  }

  /** The next call, 59 s later, is turned away with QUEUE_FULL and renews the TTL. */
  lemma LeakRenewed(s: State, id: CallId) returns (t: State)
    requires Reachable(0.0, s) && Leaked(s, id) && MAX_QUEUE_DEPTH <= id
    ensures Reachable(0.0, t) && Leaked(t, id + 1) && t.now == s.now + 59000.0
  {
    hide Reachable;
    var s1 := IdleTick(s, s.now + 59000.0);
    var s2 := BeginEnqueue(s1, id);
    t := TurnedAway(s2, id);
  }

  lemma BeginEnqueue(s: State, id: CallId) returns (t: State)
    requires Reachable(0.0, s) && id !in s.calls && s.depth.Present?
    ensures Reachable(0.0, t) && t.now == s.now && t.depth == s.depth.(count := s.depth.count + 1)
    ensures t.calls == s.calls[id := Call(s.now, s.depth.count + 1, Counted)]
  {
    hide Reachable;
    ReachStep(0.0, s, Incr(id));
    t := Apply(s, Incr(id), 0.0);
  }

  lemma TurnedAway(s: State, id: CallId) returns (t: State)
    requires Reachable(0.0, s) && s.depth.Present?
    requires id in s.calls && s.calls[id].phase.Counted? && s.calls[id].depthSeen > MAX_QUEUE_DEPTH
    ensures Reachable(0.0, t) && t.now == s.now
    ensures t.depth == Present(s.depth.count - 1, Some(s.now + DEPTH_KEY_TTL_MS))
    ensures t.calls == s.calls[id := s.calls[id].(phase := Done(QueueFull))]
  {
    hide Reachable;
    ReachStep(0.0, s, ExpireDepth(id));
    t := Apply(s, ExpireDepth(id), 0.0);
    ReachStep(0.0, t, Decr(id));
    t := Apply(t, Decr(id), 0.0);
  }

  lemma CrashOne(s: State, id: CallId) returns (t: State)
    requires Reachable(0.0, s) && id !in s.calls && s.now == 0.0
    ensures Reachable(0.0, t) && t.now == 0.0
    ensures t.depth == Present(DepthValue(s.depth) + 1, Some(DEPTH_KEY_TTL_MS))
    ensures t.calls == s.calls[id := Call(0.0, DepthValue(s.depth) + 1, Crashed)]
  {
    hide Reachable;
    ReachStep(0.0, s, Incr(id));
    t := Apply(s, Incr(id), 0.0);
    ReachStep(0.0, t, ExpireDepth(id));
    t := Apply(t, ExpireDepth(id), 0.0);
    ReachStep(0.0, t, Crash(id));
    t := Apply(t, Crash(id), 0.0);
  }

  /** Such states are reached, and last for as long as one wishes: with nothing in flight, and a refused
      call every 59 s, the counter stays at its maximum. */
  lemma {:induction false} LockedOutFor(n: nat) returns (s: State)
    ensures Reachable(0.0, s) && Leaked(s, n + 5)
    ensures s.now == 59000.0 * (n as real)
  {
    if n == 0 {
      InitialReachable(0.0);
      s := Initial();
      for k := 0 to 5
        invariant Reachable(0.0, s) && s.now == 0.0 && DepthValue(s.depth) == k
        invariant k > 0 ==> s.depth == Present(k, Some(DEPTH_KEY_TTL_MS))
        invariant forall id | id in s.calls :: id < k
        invariant forall id | id in s.calls :: s.calls[id].phase.Crashed?
      {
        s := CrashOne(s, k);
      }
    } else {
      s := LockedOutFor(n - 1);
      s := LeakRenewed(s, n + 4);
    }
  }

  // ---------------------------------------------------------------------------------------
  // The retry loop
  // ---------------------------------------------------------------------------------------

  /** Between zero and 20 ms are added to each pause. */
  ghost predicate IsJitter(jitter: nat -> real) { forall i :: 0.0 <= jitter(i) < LOCK_RETRY_JITTER_MS }

  /** The back-off after `k` lost races. */
  function BackOff(k: nat): (r: real)
    ensures LOCK_RETRY_INIT_MS <= r <= LOCK_RETRY_MAX_MS
  {
    if k == 0 then LOCK_RETRY_INIT_MS else Min(BackOff(k - 1) * 1.5, LOCK_RETRY_MAX_MS)
  }

  /** It grows by half from 50 ms on and stays at 400 ms from the sixth lost race on. */
  lemma {:induction false} BackOffGrows(k: nat)
    ensures BackOff(0) == 50.0
    ensures k < 5 ==> 2.0 * BackOff(k + 1) == 3.0 * BackOff(k)
    ensures BackOff(k) == 400.0 <==> k >= 6
  {
    if k > 6 {
      BackOffGrows(k - 1);
    } else {
      assert BackOff(1) == 75.0 && BackOff(2) == 112.5 && BackOff(3) == 168.75;
      assert BackOff(4) == 253.125 && BackOff(5) == 379.6875 && BackOff(6) == 400.0;
    }
  }

  /** When, after the first attempt, attempt `k` is made if all before it lose. */
  function AttemptAt(jitter: nat -> real, k: nat): real {
    if k == 0 then 0.0 else
      var before := AttemptAt(jitter, k - 1);
      before + Min(BackOff(k - 1) + jitter(k - 1), LOCK_MAX_WAIT_MS - before)
  }

  lemma {:induction false} AttemptsSpread(jitter: nat -> real, k: nat)
    requires IsJitter(jitter)
    ensures Min(LOCK_RETRY_INIT_MS * (k as real), LOCK_MAX_WAIT_MS) <= AttemptAt(jitter, k) <= LOCK_MAX_WAIT_MS
  {
    if k > 0 {
      AttemptsSpread(jitter, k - 1);
      assert LOCK_RETRY_INIT_MS * (k as real) == LOCK_RETRY_INIT_MS * ((k - 1) as real) + LOCK_RETRY_INIT_MS;
    }
  }

  /** The acquisition loop against any adversary: `lockFree(t)` says whether SET NX would
      succeed t milliseconds after the first attempt.  It takes the lock at the first of its
      attempts that finds the key free, and gives up only at the deadline, after a last try. */
  method AcquireRedisLock(lockFree: real -> bool, jitter: nat -> real)
    returns (ok: bool, waited: real, attempts: nat)
    requires IsJitter(jitter)
    ensures attempts <= 540 && waited == AttemptAt(jitter, attempts) <= 27000.0
    ensures ok == lockFree(waited)
    ensures forall i | 0 <= i < attempts :: !lockFree(AttemptAt(jitter, i))
    ensures !ok ==> waited == 27000.0
  {
    var retryMs := LOCK_RETRY_INIT_MS;
    waited, attempts := 0.0, 0;
    while true
      invariant retryMs == BackOff(attempts)
      invariant waited == AttemptAt(jitter, attempts) <= LOCK_MAX_WAIT_MS
      invariant attempts <= 540
      invariant forall i | 0 <= i < attempts :: !lockFree(AttemptAt(jitter, i))
      decreases 540 - attempts
    {
      if lockFree(waited) {
        return true, waited, attempts;
      }
      var remaining := LOCK_MAX_WAIT_MS - waited;
      if remaining <= 0.0 {
        return false, waited, attempts;
      }
      AttemptsSpread(jitter, attempts);
      waited := waited + Min(retryMs + jitter(attempts), remaining);
      retryMs := Min(retryMs * 1.5, LOCK_RETRY_MAX_MS);
      attempts := attempts + 1;
    }
  }

  // ---------------------------------------------------------------------------------------
  // What each step means for its caller
  // ---------------------------------------------------------------------------------------

  /** Timers and replies are late by less than the lock has to spare. */
  predicate Punctual(lag: real) { 0.0 <= 2.0 * lag < LOCK_TTL_MS - EXECUTION_TIMEOUT_MS }

  ghost predicate HoldsLock(p: Phase) { p.LockGranted? || p.Executing? }

  lemma HolderSafeReachable(lag: real, s: State)
    requires Punctual(lag) && Reachable(lag, s)
    ensures HolderSafe(lag, s)
  {
    var es :| Legal(lag, Initial(), es) && Exec(lag, Initial(), es) == s;
    HolderSafeRun(lag, Initial(), es);
  }

  /** Whoever has been granted the lock has it still, and nobody else believes to have it. */
  lemma SoleHolder(lag: real, s: State, id: CallId)
    requires Punctual(lag) && Reachable(lag, s) && id in s.calls && HoldsLock(s.calls[id].phase)
    ensures s.lock.Some? && s.lock.value.owner == id && s.now < s.lock.value.expiresAt
    ensures forall j | j in s.calls && HoldsLock(s.calls[j].phase) :: j == id
  {
    HolderSafeReachable(lag, s);
    assert CallSafe(lag, s.now, s.lock, id, s.calls[id].phase);
    forall j | j in s.calls && HoldsLock(s.calls[j].phase) ensures j == id {
      assert CallSafe(lag, s.now, s.lock, j, s.calls[j].phase);
    }
  }

  lemma {:induction false} OwnerKnown(lag: real, s: State, es: seq<Event>)
    requires Legal(lag, s, es) && (s.lock.Some? ==> s.lock.value.owner in s.calls)
    ensures Exec(lag, s, es).lock.Some? ==> Exec(lag, s, es).lock.value.owner in Exec(lag, s, es).calls
    decreases |es|
  {
    if es != [] { OwnerKnown(lag, Apply(s, es[0], lag), es[1..]); }
  }

  lemma NewcomerOwnsNothing(lag: real, s: State, id: CallId)
    requires Reachable(lag, s) && id !in s.calls
    ensures !Owns(s.lock, id)
  {
    var es :| Legal(lag, Initial(), es) && Exec(lag, Initial(), es) == s;
    OwnerKnown(lag, Initial(), es);
  }

  predicate Owns(lock: Option<Lock>, id: CallId) { lock.Some? && lock.value.owner == id }

  /** The call an event belongs to. */
  function Actor(e: Event): Option<CallId> { if e.Tick? then None else Some(e.id) }

  /** Nobody else's event changes a call or hands it the lock. */
  lemma OthersStep(lag: real, s: State, e: Event, me: CallId)
    requires Enabled(lag, s, e) && me in s.calls && Actor(e) != Some(me)
    ensures var t := Apply(s, e, lag);
            && me in t.calls && t.calls[me] == s.calls[me] && s.now <= t.now
            && (Owns(t.lock, me) ==> Owns(s.lock, me))
  {
  }

  // ---------------------------------------------------------------------------------------
  // One call among all others
  // ---------------------------------------------------------------------------------------

  /** The work handed to the queue: how long it takes, and whether it then resolves or rejects. */
  datatype Work = Work(duration: real, ok: bool)

  /** How it ends once it has started. */
  function Settled(work: Work): Outcome {
    if work.duration >= EXECUTION_TIMEOUT_MS then TimedOut else if work.ok then Completed else ExecutionError
  }

  /** While a call awaits its reply, the other calls and the clock do whatever they can of `events`. */
  function OthersDo(lag: real, s: State, me: CallId, events: seq<Event>): State
    decreases |events|
  {
    if events == [] then s
    else
      var e := events[0];
      OthersDo(lag, if Actor(e) != Some(me) && Enabled(lag, s, e) then Apply(s, e, lag) else s, me, events[1..])
  }

  /** Events of others that are possible one after another all happen. */
  lemma {:induction false} OthersDoAll(lag: real, s: State, me: CallId, events: seq<Event>)
    requires Legal(lag, s, events) && forall i | 0 <= i < |events| :: Actor(events[i]) != Some(me)
    ensures OthersDo(lag, s, me, events) == Exec(lag, s, events)
    decreases |events|
  {
    if events != [] {
      assert Actor(events[0]) != Some(me);
      OthersDoAll(lag, Apply(s, events[0], lag), me, events[1..]);
    }
  }

  /** What nobody else's doing changes: the call itself, and that it does not own the lock. */
  ghost predicate Untouched(s: State, t: State, me: CallId) {
    && me in s.calls && me in t.calls && t.calls[me] == s.calls[me] && s.now <= t.now
    && (Owns(t.lock, me) ==> Owns(s.lock, me))
  }

  ghost predicate NoTryLock(events: seq<Event>) { forall i | 0 <= i < |events| :: !events[i].TryLock? }

  lemma {:induction false} OthersUntouched(lag: real, s: State, me: CallId, events: seq<Event>)
    requires me in s.calls
    ensures Untouched(s, OthersDo(lag, s, me, events), me)
    ensures s.lock.None? && NoTryLock(events) ==> OthersDo(lag, s, me, events).lock.None?
    decreases |events|
  {
    hide Enabled, Apply;
    if events != [] {
      var e := events[0];
      if Actor(e) != Some(me) && Enabled(lag, s, e) {
        OthersStep(lag, s, e, me);
        LockStaysFree(lag, s, e);
        OthersUntouched(lag, Apply(s, e, lag), me, events[1..]);
      } else {
        OthersUntouched(lag, s, me, events[1..]);
      }
    }
  }

  lemma LockStaysFree(lag: real, s: State, e: Event)
    requires Enabled(lag, s, e)
    ensures s.lock.None? && !e.TryLock? ==> Apply(s, e, lag).lock.None?
  {
  }

  /** What the code of a call does when it wakes, if there is anything to do. */
  function Turn(s: State, id: CallId, work: Work, jitter: real): Option<Event> {
    if id !in s.calls then Some(Incr(id))
    else
      match s.calls[id].phase
      case Counted => Some(ExpireDepth(id))
      case Contending(deadline, retryMs, due) =>
        if due <= s.now then Some(TryLock(id, Min(retryMs + jitter, deadline - s.now))) else None
      case LockGranted(_) => Some(StartTask(id))
      case Executing(_, started) =>
        if s.now < started + Min(work.duration, EXECUTION_TIMEOUT_MS) then None
        else Some(if work.duration < EXECUTION_TIMEOUT_MS then TaskSettles(id, work.ok) else TimeoutFires(id))
      case Releasing(_, _) => Some(Release(id))
      case Leaving(_, _) => Some(Decr(id))
      case Done(_) => None
      case Crashed => None
  }

  /** What a call waits for is still to come: its next attempt, or the end of its work or of its time. */
  predicate NotDueYet(p: Phase, work: Work, now: real) {
    match p
    case Contending(_, _, due) => now < due
    case Executing(_, started) => now < started + Min(work.duration, EXECUTION_TIMEOUT_MS)
    case _ => false
  }

  lemma TurnEnabled(lag: real, s: State, id: CallId, work: Work, jitter: real)
    requires 0.0 <= jitter < LOCK_RETRY_JITTER_MS && Turn(s, id, work, jitter).Some?
    ensures Enabled(lag, s, Turn(s, id, work, jitter).value)
  {
  }

  function Moved(lag: real, s: State, id: CallId, work: Work, jitter: real): State
    requires 0.0 <= jitter < LOCK_RETRY_JITTER_MS
  {
    match Turn(s, id, work, jitter)
    case None => s
    case Some(e) =>
      TurnEnabled(lag, s, id, work, jitter);
      Apply(s, e, lag)
  }

  /** `others[k]` is what happens at the call's `k`-th await; later awaits are quiet. */
  type Schedule = seq<seq<Event>>

  function At(others: Schedule, k: nat): seq<Event> { if k < |others| then others[k] else [] }

  ghost predicate NoRivals(others: Schedule) { forall k | 0 <= k < |others| :: NoTryLock(others[k]) }

  /** The states in which a call wakes, from its `start`-th await on: each time its code does what there is
      to do and awaits, and it goes on waiting for nothing only while the schedule lasts. */
  ghost predicate Course(lag: real, id: CallId, work: Work, jitter: nat -> real, others: Schedule, start: nat,
                         wakes: seq<State>)
    requires IsJitter(jitter)
  {
    && wakes != []
    && forall j | 0 <= j < |wakes| - 1 :: OneTurn(lag, id, work, jitter, others, start + j, wakes[j], wakes[j + 1])
  }

  ghost predicate OneTurn(lag: real, id: CallId, work: Work, jitter: nat -> real, others: Schedule, k: nat, s: State,
                          t: State)
    requires IsJitter(jitter)
  {
    && t == OthersDo(lag, Moved(lag, s, id, work, jitter(k)), id, At(others, k))
    && (k < |others| || Turn(s, id, work, jitter(k)).Some?)
  }

  /** The course leads from one state to another. */
  ghost predicate Leads(lag: real, id: CallId, work: Work, jitter: nat -> real, others: Schedule, start: nat,
                        wakes: seq<State>, s: State, t: State)
    requires IsJitter(jitter)
  {
    Course(lag, id, work, jitter, others, start, wakes) && wakes[0] == s && wakes[|wakes| - 1] == t
  }

  lemma LeadsNowhere(lag: real, id: CallId, work: Work, jitter: nat -> real, others: Schedule, start: nat, s: State)
    requires IsJitter(jitter)
    ensures Leads(lag, id, work, jitter, others, start, [s], s, s)
  {
  }

  lemma LeadsNext(lag: real, id: CallId, work: Work, jitter: nat -> real, others: Schedule, start: nat,
                  wakes: seq<State>, s: State, t: State, u: State)
    requires IsJitter(jitter) && Leads(lag, id, work, jitter, others, start, wakes, s, t)
    requires OneTurn(lag, id, work, jitter, others, start + |wakes| - 1, t, u)
    ensures Leads(lag, id, work, jitter, others, start, wakes + [u], s, u)
  {
    hide OneTurn;
    CourseNext(lag, id, work, jitter, others, start, wakes, u);
  }

  lemma LeadsOn(lag: real, id: CallId, work: Work, jitter: nat -> real, others: Schedule, start: nat,
                wakes: seq<State>, rest: seq<State>, s: State, t: State, u: State)
    requires IsJitter(jitter) && Leads(lag, id, work, jitter, others, start, wakes, s, t)
    requires Leads(lag, id, work, jitter, others, start + |wakes| - 1, rest, t, u)
    ensures Leads(lag, id, work, jitter, others, start, wakes + rest[1..], s, u)
    ensures |wakes + rest[1..]| == |wakes| + |rest| - 1
  {
    CourseJoin(lag, id, work, jitter, others, start, wakes, rest);
    assert |rest| > 1 ==> (wakes + rest[1..])[|wakes| + |rest| - 2] == rest[|rest| - 1];
    hide OneTurn;
  }

  lemma CourseNext(lag: real, id: CallId, work: Work, jitter: nat -> real, others: Schedule, start: nat,
                   wakes: seq<State>, t: State)
    requires IsJitter(jitter) && Course(lag, id, work, jitter, others, start, wakes)
    requires OneTurn(lag, id, work, jitter, others, start + |wakes| - 1, wakes[|wakes| - 1], t)
    ensures Course(lag, id, work, jitter, others, start, wakes + [t])
  {
    hide OneTurn;
    var w := wakes + [t];
    forall j | 0 <= j < |w| - 1 ensures OneTurn(lag, id, work, jitter, others, start + j, w[j], w[j + 1]) {
      assert j < |wakes| - 1 ==> w[j] == wakes[j] && w[j + 1] == wakes[j + 1];
    }
  }

  lemma CourseJoin(lag: real, id: CallId, work: Work, jitter: nat -> real, others: Schedule, start: nat,
                   wakes: seq<State>, rest: seq<State>)
    requires IsJitter(jitter) && Course(lag, id, work, jitter, others, start, wakes)
    requires Course(lag, id, work, jitter, others, start + |wakes| - 1, rest) && rest[0] == wakes[|wakes| - 1]
    ensures Course(lag, id, work, jitter, others, start, wakes + rest[1..])
  {
    hide OneTurn;
    var w, n := wakes + rest[1..], |wakes| - 1;
    forall j | 0 <= j < |w| - 1 ensures OneTurn(lag, id, work, jitter, others, start + j, w[j], w[j + 1]) {
      if j >= n {
        assert w[j] == rest[j - n] && w[j + 1] == rest[j - n + 1];
        assert OneTurn(lag, id, work, jitter, others, start + n + (j - n), rest[j - n], rest[j - n + 1]);
      }
    }
  }

  /** A call that wakes with its attempt due makes it: it gets the lock if the key is free, and otherwise
      gives up at its deadline or pauses for its back-off with jitter. It sleeps on only while it is early. */
  lemma AttemptWhenDue(lag: real, id: CallId, work: Work, jitter: nat -> real, others: Schedule, k: nat, s: State,
                       t: State)
    requires IsJitter(jitter) && OneTurn(lag, id, work, jitter, others, k, s, t)
    requires id in s.calls && s.calls[id].phase.Contending?
    ensures id in t.calls
    ensures var p := s.calls[id].phase;
            t.calls[id].phase ==
              if s.now < p.due then p
              else if s.lock.None? then LockGranted(s.now)
              else if p.deadline <= s.now then Leaving(TimedOut, s.now)
              else Contending(p.deadline, Min(p.retryMs * 1.5, LOCK_RETRY_MAX_MS),
                              s.now + Min(p.retryMs + jitter(k), p.deadline - s.now))
  {
    OthersUntouched(lag, Moved(lag, s, id, work, jitter(k)), id, At(others, k));
  }

  /** From wake `0` on, the call wakes for its first attempts exactly when they are due. */
  ghost predicate OnTimeWakes(id: CallId, wakes: seq<State>, n: nat)
    requires n < |wakes|
  {
    forall i | 0 <= i <= n ::
      id in wakes[i].calls && wakes[i].calls[id].phase.Contending? && wakes[i].calls[id].phase.due == wakes[i].now
  }

  ghost predicate FreshContender(s: State, id: CallId) {
    id in s.calls && s.calls[id].phase == Contending(s.now + LOCK_MAX_WAIT_MS, LOCK_RETRY_INIT_MS, s.now)
  }

  /** A call that wakes on time makes its attempts exactly when the retry loop by itself would. */
  lemma {:induction false} AttemptsOnTime(lag: real, id: CallId, work: Work, jitter: nat -> real, others: Schedule,
                                          start: nat, wakes: seq<State>, n: nat, pauses: nat -> real)
    requires IsJitter(jitter) && Course(lag, id, work, jitter, others, start, wakes)
    requires n < |wakes| && OnTimeWakes(id, wakes, n) && FreshContender(wakes[0], id)
    requires forall i: nat :: pauses(i) == jitter(start + i)
    ensures forall i | 0 <= i < n :: wakes[i].lock.Some?
    ensures wakes[n].now == wakes[0].now + AttemptAt(pauses, n)
    ensures wakes[n].calls[id].phase.retryMs == BackOff(n)
    ensures wakes[n].calls[id].phase.deadline == wakes[0].now + LOCK_MAX_WAIT_MS
  {
    hide OneTurn;
    if n > 0 {
      AttemptsOnTime(lag, id, work, jitter, others, start, wakes, n - 1, pauses);
      assert OneTurn(lag, id, work, jitter, others, start + (n - 1), wakes[n - 1], wakes[n]);
      AttemptWhenDue(lag, id, work, jitter, others, start + (n - 1), wakes[n - 1], wakes[n]);
      assert wakes[n].calls[id].phase.Contending?;
    }
  }

  /** And it ends as that loop ends: with the lock at the first of its attempts that finds the key free, or at
      the deadline. */
  lemma AcquiredOnTime(lag: real, id: CallId, work: Work, jitter: nat -> real, others: Schedule, start: nat,
                       wakes: seq<State>, n: nat, pauses: nat -> real)
    requires IsJitter(jitter) && Course(lag, id, work, jitter, others, start, wakes)
    requires n + 1 < |wakes| && OnTimeWakes(id, wakes, n) && FreshContender(wakes[0], id)
    requires id in wakes[n + 1].calls && !wakes[n + 1].calls[id].phase.Contending?
    requires forall i: nat :: pauses(i) == jitter(start + i)
    ensures forall i | 0 <= i < n :: wakes[i].lock.Some? && wakes[i].now == wakes[0].now + AttemptAt(pauses, i)
    ensures wakes[n].now == wakes[0].now + AttemptAt(pauses, n)
    ensures wakes[n + 1].calls[id].phase
            == if wakes[n].lock.None? then LockGranted(wakes[n].now) else Leaving(TimedOut, wakes[n].now)
    ensures wakes[n].lock.Some? ==> AttemptAt(pauses, n) == LOCK_MAX_WAIT_MS
  {
    hide OneTurn, AttemptAt;
    AttemptsOnTime(lag, id, work, jitter, others, start, wakes, n, pauses);
    forall i | 0 <= i < n ensures wakes[i].now == wakes[0].now + AttemptAt(pauses, i) {
      AttemptsOnTime(lag, id, work, jitter, others, start, wakes, i, pauses);
    }
    assert OneTurn(lag, id, work, jitter, others, start + n, wakes[n], wakes[n + 1]);
    AttemptWhenDue(lag, id, work, jitter, others, start + n, wakes[n], wakes[n + 1]);
    AttemptsSpread(pauses, n);
  }

  // ---------------------------------------------------------------------------------------
  // The shared store, one method per step of `enqueue`, and `enqueue` among all others
  // ---------------------------------------------------------------------------------------

  class UserKeys {
    var now: real
    var lock: Option<Lock>
    var depth: DepthKey
    var calls: map<CallId, Call>
    ghost var counting: set<CallId>

    ghost function View(): State
      reads this
    {
      State(now, lock, depth, counting, calls)
    }

    /** The store is in a state that some run of the protocol reaches. */
    ghost predicate Valid(lag: real)
      reads this
    {
      lag >= 0.0 && Reachable(lag, View())
    }

    constructor (ghost lag: real)
      requires lag >= 0.0
      ensures Valid(lag) && View() == Initial()
    {
      now, lock, depth, calls, counting := 0.0, None, Absent, map[], {};
      new;
      InitialReachable(lag);
    }

    method MoveTo(id: CallId, phase: Phase)
      requires id in calls
      modifies this`calls
      ensures View() == Put(old(View()), id, phase)
    {
      calls := calls[id := calls[id].(phase := phase)];
    }

    /** Count the call in. With instantaneous commands and no crash so far, the answer is the number of
        calls in flight, this one included. */
    method IncrDepth(ghost lag: real, id: CallId) returns (count: int)
      requires Valid(lag) && id !in calls
      modifies this
      ensures Valid(lag) && View() == Apply(old(View()), Incr(id), lag)
      ensures count == old(DepthValue(depth)) + 1
      ensures lag == 0.0 && NoCrash(View()) ==> count == |InFlightIds(View())|
    {
      hide Reachable;
      ReachStep(lag, View(), Incr(id));
      depth := if depth.Present? then depth.(count := depth.count + 1) else Present(1, None);
      counting := counting + {id};
      calls := calls[id := Call(now, depth.count, Counted)];
      count := depth.count;
      if lag == 0.0 { DepthCounts(View()); }
    }

    /** Renew the key, and refuse the call if there were five before it: at most five are let in. */
    method SetDepthTtl(ghost lag: real, id: CallId) returns (refused: bool)
      requires Valid(lag) && Enabled(lag, View(), ExpireDepth(id))
      modifies this
      ensures Valid(lag) && View() == Apply(old(View()), ExpireDepth(id), lag)
      ensures refused == (calls[id].depthSeen > MAX_QUEUE_DEPTH)
      ensures lag == 0.0 ==> |AdmittedIds(View())| <= MAX_QUEUE_DEPTH
    {
      hide Reachable;
      ReachStep(lag, View(), ExpireDepth(id));
      if depth.Present? {
        depth := depth.(ttl := Some(now + DEPTH_KEY_TTL_MS));
      }
      refused := calls[id].depthSeen > MAX_QUEUE_DEPTH;
      if refused {
        MoveTo(id, Leaving(QueueFull, now));
      } else {
        MoveTo(id, Contending(now + LOCK_MAX_WAIT_MS, LOCK_RETRY_INIT_MS, now));
      }
      if lag == 0.0 { DepthCounts(View()); }
    }

    /** One round of the acquisition loop: success means that no other call holds the lock or runs. */
    method SetLockNx(ghost lag: real, id: CallId, pause: real) returns (ok: bool)
      requires Valid(lag) && Enabled(lag, View(), TryLock(id, pause))
      modifies this
      ensures Valid(lag) && View() == Apply(old(View()), TryLock(id, pause), lag)
      ensures ok == old(lock).None? && (ok <==> calls[id].phase.LockGranted?)
      ensures ok && Punctual(lag) ==> forall j | j in calls && HoldsLock(calls[j].phase) :: j == id
    {
      hide Reachable;
      ReachStep(lag, View(), TryLock(id, pause));
      var deadline, retryMs := calls[id].phase.deadline, calls[id].phase.retryMs;
      ok := lock.None?;
      if ok {
        lock := Some(Lock(id, now + LOCK_TTL_MS));
        MoveTo(id, LockGranted(now));
        if Punctual(lag) { SoleHolder(lag, View(), id); }
      } else if deadline - now <= 0.0 {
        MoveTo(id, Leaving(TimedOut, now));
      } else {
        MoveTo(id, Contending(deadline, Min(retryMs * 1.5, LOCK_RETRY_MAX_MS), now + pause));
      }
    }

    /** The work starts while no other work of the user runs with its token false. */
    method RunTask(ghost lag: real, id: CallId)
      requires Valid(lag) && Enabled(lag, View(), StartTask(id))
      modifies this
      ensures Valid(lag) && View() == Apply(old(View()), StartTask(id), lag)
      ensures Punctual(lag) ==> forall j | j in calls && HoldsLock(calls[j].phase) :: j == id
    {
      hide Reachable;
      ReachStep(lag, View(), StartTask(id));
      MoveTo(id, Executing(calls[id].phase.lockedAt, now));
      if Punctual(lag) { SoleHolder(lag, View(), id); }
    }

    /** The work settles before its timer, with the lock still its own. */
    method SettleTask(ghost lag: real, id: CallId, ok: bool)
      requires Valid(lag) && Enabled(lag, View(), TaskSettles(id, ok))
      modifies this
      ensures Valid(lag) && View() == Apply(old(View()), TaskSettles(id, ok), lag)
      ensures Punctual(lag) ==> Owns(lock, id) && now < lock.value.expiresAt
    {
      hide Reachable;
      ReachStep(lag, View(), TaskSettles(id, ok));
      if Punctual(lag) { SoleHolder(lag, View(), id); }
      MoveTo(id, Releasing(if ok then Completed else ExecutionError, now));
    }

    /** The timer sets the token before the lock can have expired. */
    method CancelOnTimeout(ghost lag: real, id: CallId)
      requires Valid(lag) && Enabled(lag, View(), TimeoutFires(id))
      modifies this
      ensures Valid(lag) && View() == Apply(old(View()), TimeoutFires(id), lag)
      ensures Punctual(lag) ==> Owns(lock, id) && now < lock.value.expiresAt
    {
      hide Reachable;
      ReachStep(lag, View(), TimeoutFires(id));
      if Punctual(lag) { SoleHolder(lag, View(), id); }
      MoveTo(id, Releasing(TimedOut, now));
    }

    /** The compare-and-delete script: the call's own lock is gone, any other is untouched. */
    method ReleaseLock(ghost lag: real, id: CallId)
      requires Valid(lag) && Enabled(lag, View(), Release(id))
      modifies this
      ensures Valid(lag) && View() == Apply(old(View()), Release(id), lag)
      ensures !Owns(lock, id) && (!old(Owns(lock, id)) ==> lock == old(lock))
    {
      hide Reachable;
      ReachStep(lag, View(), Release(id));
      if lock.Some? && lock.value.owner == id {
        lock := None;
      }
      MoveTo(id, Leaving(calls[id].phase.outcome, now));
    }

    /** Count the call out; with instantaneous commands the counter never goes below the calls left. */
    method DecrDepth(ghost lag: real, id: CallId)
      requires Valid(lag) && Enabled(lag, View(), Decr(id))
      modifies this
      ensures Valid(lag) && View() == Apply(old(View()), Decr(id), lag)
      ensures id !in counting && (lag == 0.0 ==> DepthValue(depth) >= |InFlightIds(View())|)
    {
      hide Reachable;
      ReachStep(lag, View(), Decr(id));
      depth := if depth.Present? then depth.(count := depth.count - 1) else Present(-1, None);
      counting := counting - {id};
      MoveTo(id, Done(calls[id].phase.outcome));
      if lag == 0.0 { DepthCounts(View()); }
    }

    /** Time passes, and Redis drops the keys whose TTL has run out: with instantaneous commands never
        the depth key while a call is in flight. */
    method PassTime(ghost lag: real, to: real)
      requires Valid(lag) && Enabled(lag, View(), Tick(to))
      modifies this
      ensures Valid(lag) && View() == Apply(old(View()), Tick(to), lag)
      ensures lag == 0.0 && InFlightIds(View()) != {} ==> depth == old(depth) && depth.Present?
    {
      hide Reachable;
      ReachStep(lag, View(), Tick(to));
      now := to;
      if lock.Some? && lock.value.expiresAt <= now {
        lock := None;
      }
      if depth.Present? && depth.ttl.Some? && depth.ttl.value <= now {
        depth, counting := Absent, {};
      }
      if lag == 0.0 { DepthCounts(View()); }
    }

    method Die(ghost lag: real, id: CallId)
      requires Valid(lag) && Enabled(lag, View(), Crash(id))
      modifies this
      ensures Valid(lag) && View() == Apply(old(View()), Crash(id), lag)
    {
      hide Reachable;
      ReachStep(lag, View(), Crash(id));
      MoveTo(id, Crashed);
    }

    method Perform(ghost lag: real, e: Event)
      requires Valid(lag) && Enabled(lag, View(), e)
      modifies this
      ensures Valid(lag) && View() == Apply(old(View()), e, lag)
    {
      hide Reachable, Apply;
      match e {
        case Incr(id) => var _ := IncrDepth(lag, id);
        case ExpireDepth(id) => var _ := SetDepthTtl(lag, id);
        case TryLock(id, pause) => var _ := SetLockNx(lag, id, pause);
        case StartTask(id) => RunTask(lag, id);
        case TaskSettles(id, ok) => SettleTask(lag, id, ok);
        case TimeoutFires(id) => CancelOnTimeout(lag, id);
        case Release(id) => ReleaseLock(lag, id);
        case Decr(id) => DecrDepth(lag, id);
        case Crash(id) => Die(lag, id);
        case Tick(to) => PassTime(lag, to);
      }
    }

    method Await(lag: real, me: CallId, events: seq<Event>)
      requires Valid(lag) && me in calls
      modifies this
      ensures Valid(lag) && View() == OthersDo(lag, old(View()), me, events)
      ensures Untouched(old(View()), View(), me)
    {
      hide Reachable, Apply, Enabled;
      OthersUntouched(lag, View(), me, events);
      assert events[0..] == events;
      for k := 0 to |events|
        invariant Valid(lag) && OthersDo(lag, old(View()), me, events) == OthersDo(lag, View(), me, events[k..])
      {
        assert events[k..][0] == events[k] && events[k..][1..] == events[k + 1..];
        EnabledSeen(lag, View(), events[k]);
        if Actor(events[k]) != Some(me) && Enabled(lag, State(now, lock, depth, {}, calls), events[k]) {
          Perform(lag, events[k]);
        }
      }
    }

    /** What happens at the `k`-th await. */
    method AwaitNext(lag: real, me: CallId, others: Schedule, k: nat)
      requires Valid(lag) && me in calls
      modifies this
      ensures Valid(lag) && View() == OthersDo(lag, old(View()), me, At(others, k))
      ensures Untouched(old(View()), View(), me)
      ensures old(lock).None? && NoRivals(others) ==> lock.None?
    {
      hide Reachable;
      OthersUntouched(lag, View(), me, At(others, k));
      if k < |others| {
        Await(lag, me, others[k]);
      }
    }

    /** Admission. */
    method Enter(lag: real, id: CallId, ghost work: Work, jitter: nat -> real, others: Schedule)
      returns (refused: bool, ghost wakes: seq<State>)
      requires Valid(lag) && id !in calls && IsJitter(jitter)
      modifies this
      ensures Valid(lag) && id in calls && calls[id].depthSeen == old(DepthValue(depth)) + 1
      ensures Leads(lag, id, work, jitter, others, 0, wakes, old(View()), View()) && |wakes| == 3
      ensures refused == (calls[id].depthSeen > MAX_QUEUE_DEPTH) && !Owns(lock, id)
      ensures if refused then calls[id].phase.Leaving? && calls[id].phase.outcome.QueueFull?
              else calls[id].phase.Contending? && calls[id].phase.due <= now && calls[id].phase.retryMs > 0.0
      ensures old(lock).None? && NoRivals(others) ==> lock.None?
    {
      hide Reachable, OthersDo, Leads, NoRivals;
      NewcomerOwnsNothing(lag, View(), id);
      LeadsNowhere(lag, id, work, jitter, others, 0, View());
      wakes := [View()];
      var _ := IncrDepth(lag, id);
      AwaitNext(lag, id, others, 0);
      LeadsNext(lag, id, work, jitter, others, 0, wakes, wakes[0], wakes[0], View());
      wakes := wakes + [View()];
      refused := SetDepthTtl(lag, id);
      AwaitNext(lag, id, others, 1);
      LeadsNext(lag, id, work, jitter, others, 0, wakes, wakes[0], wakes[1], View());
      wakes := wakes + [View()];
    }

    /** The acquisition loop among all others: it ends with the lock, with a timeout, or, if the schedule ends
        first, before its next attempt is due. */
    method Acquire(lag: real, id: CallId, ghost work: Work, jitter: nat -> real, others: Schedule, start: nat)
      returns (k: nat, ghost wakes: seq<State>)
      requires Valid(lag) && id in calls && calls[id].phase.Contending? && calls[id].phase.retryMs > 0.0
      requires IsJitter(jitter)
      modifies this
      ensures Valid(lag) && id in calls && calls[id].depthSeen == old(calls[id].depthSeen)
      ensures Leads(lag, id, work, jitter, others, start, wakes, old(View()), View()) && k == start + |wakes| - 1
      ensures match calls[id].phase
              case LockGranted(_) => true
              case Leaving(o, _) => o == TimedOut
              case Contending(_, _, due) => k >= |others| && now < due
              case _ => false
      ensures Owns(lock, id) ==> old(Owns(lock, id)) || calls[id].phase.LockGranted?
      ensures old(lock).None? && old(calls[id].phase.due <= now) && NoRivals(others) ==> calls[id].phase.LockGranted?
    {
      hide Reachable, OthersDo, Leads, NoRivals;
      k := start;
      LeadsNowhere(lag, id, work, jitter, others, start, View());
      wakes := [View()];
      ghost var was := View();
      while calls[id].phase.Contending? && (k < |others| || calls[id].phase.due <= now)
        invariant Valid(lag) && id in calls && calls[id].depthSeen == was.calls[id].depthSeen
        invariant Leads(lag, id, work, jitter, others, start, wakes, was, View()) && k == start + |wakes| - 1
        invariant match calls[id].phase
                  case LockGranted(_) => true
                  case Leaving(o, _) => o == TimedOut
                  case Contending(_, retryMs, _) => retryMs > 0.0
                  case _ => false
        invariant Owns(lock, id) ==> Owns(was.lock, id) || calls[id].phase.LockGranted?
        invariant was.lock.None? && was.calls[id].phase.due <= was.now ==> View() == was || calls[id].phase.LockGranted?
        decreases if k < |others| then |others| - k else 0,
                  if calls[id].phase.Contending? && calls[id].phase.due <= now then 1 else 0
      {
        ghost var before := View();
        var p := calls[id].phase;
        if p.due <= now {
          var _ := SetLockNx(lag, id, Min(p.retryMs + jitter(k), p.deadline - now));
        }
        assert k >= |others| ==> At(others, k) == [];
        NothingHappens(lag, View(), id);
        AwaitNext(lag, id, others, k);
        LeadsNext(lag, id, work, jitter, others, start, wakes, was, before, View());
        wakes := wakes + [View()];
        k := k + 1;
      }
    }

    /** The work against its timer; false if the schedule ends before either is due. */
    method RaceTimer(lag: real, id: CallId, work: Work, jitter: nat -> real, others: Schedule, start: nat)
      returns (k: nat, alive: bool, ghost wakes: seq<State>)
      requires Valid(lag) && id in calls && calls[id].phase.LockGranted? && IsJitter(jitter)
      modifies this
      ensures Valid(lag) && id in calls && calls[id].depthSeen == old(calls[id].depthSeen)
      ensures Leads(lag, id, work, jitter, others, start, wakes, old(View()), View()) && k == start + |wakes| - 1
      ensures alive ==> calls[id].phase.Releasing? && calls[id].phase.outcome == Settled(work)
      ensures !alive ==> k >= |others| && calls[id].phase.Executing?
                         && now < calls[id].phase.startedAt + Min(work.duration, EXECUTION_TIMEOUT_MS)
    {
      hide Reachable, OthersDo, Leads;
      LeadsNowhere(lag, id, work, jitter, others, start, View());
      wakes := [View()];
      ghost var was := View();
      RunTask(lag, id);
      var due := now + Min(work.duration, EXECUTION_TIMEOUT_MS);
      AwaitNext(lag, id, others, start);
      LeadsNext(lag, id, work, jitter, others, start, wakes, was, was, View());
      wakes := wakes + [View()];
      k := start + 1;
      ghost var running := calls[id];
      while now < due && k < |others|
        invariant Valid(lag) && id in calls && calls[id] == running
        invariant Leads(lag, id, work, jitter, others, start, wakes, was, View()) && k == start + |wakes| - 1
        decreases |others| - k
      {
        ghost var before := View();
        AwaitNext(lag, id, others, k);
        LeadsNext(lag, id, work, jitter, others, start, wakes, was, before, View());
        wakes := wakes + [View()];
        k := k + 1;
      }
      alive := due <= now;
      if alive {
        ghost var before := View();
        if work.duration < EXECUTION_TIMEOUT_MS {
          SettleTask(lag, id, work.ok);
        } else {
          CancelOnTimeout(lag, id);
        }
        AwaitNext(lag, id, others, k);
        LeadsNext(lag, id, work, jitter, others, start, wakes, was, before, View());
        wakes := wakes + [View()];
        k := k + 1;
      }
    }

    /** Lock, work and release; false if the schedule ends before the next thing is due. */
    method Serve(lag: real, id: CallId, work: Work, jitter: nat -> real, others: Schedule, start: nat)
      returns (k: nat, alive: bool, ghost wakes: seq<State>)
      requires Valid(lag) && id in calls && calls[id].phase.Contending? && calls[id].phase.retryMs > 0.0
      requires !Owns(lock, id) && IsJitter(jitter)
      modifies this
      ensures Valid(lag) && id in calls && calls[id].depthSeen == old(calls[id].depthSeen)
      ensures Leads(lag, id, work, jitter, others, start, wakes, old(View()), View()) && k == start + |wakes| - 1
      ensures alive ==> calls[id].phase.Leaving? && !Owns(lock, id)
      ensures alive ==> calls[id].phase.outcome == TimedOut || calls[id].phase.outcome == Settled(work)
      ensures !alive ==> k >= |others| && NotDueYet(calls[id].phase, work, now)
      ensures old(lock).None? && old(calls[id].phase.due <= now) && NoRivals(others) ==>
                if alive then calls[id].phase.outcome == Settled(work) else calls[id].phase.Executing?
    {
      hide Reachable, OthersDo, Leads, NoRivals, Settled;
      ghost var was := View();
      k, wakes := Acquire(lag, id, work, jitter, others, start);
      alive := !calls[id].phase.Contending?;
      if calls[id].phase.LockGranted? {
        ghost var granted := View();
        ghost var rest;
        k, alive, rest := RaceTimer(lag, id, work, jitter, others, k);
        LeadsOn(lag, id, work, jitter, others, start, wakes, rest, was, granted, View());
        wakes := wakes + rest[1..];
        if alive {
          ghost var before := View();
          ReleaseLock(lag, id);
          AwaitNext(lag, id, others, k);
          LeadsNext(lag, id, work, jitter, others, start, wakes, was, before, View());
          wakes := wakes + [View()];
          k := k + 1;
        }
      }
    }

    /** One call from INCR to DECR, with `others` happening at its awaits. It has no answer only if the schedule
        ends while the call waits for its next attempt, its work or its timer; a call that finds the lock free and
        no rival for it does its work. Whatever the others do, every state on the way is reached by a run of the
        protocol; a call that returns leaves neither its count nor its lock behind. */
    method Enqueue(lag: real, id: CallId, work: Work, jitter: nat -> real, others: Schedule)
      returns (r: Option<Outcome>, ghost wakes: seq<State>)
      requires Valid(lag) && id !in calls && IsJitter(jitter)
      modifies this
      ensures Valid(lag) && (Punctual(lag) ==> AtMostOneActive(View()))
      ensures Leads(lag, id, work, jitter, others, 0, wakes, old(View()), View())
      ensures id in calls && calls[id].depthSeen == old(DepthValue(depth)) + 1
      ensures r.Some? ==> calls[id].phase == Done(r.value) && id !in counting && !Owns(lock, id)
      ensures r.None? ==> |wakes| > |others| && NotDueYet(calls[id].phase, work, now)
      ensures calls[id].depthSeen > MAX_QUEUE_DEPTH ==> r == Some(QueueFull)
      ensures calls[id].depthSeen <= MAX_QUEUE_DEPTH && r.Some? ==> r.value == TimedOut || r.value == Settled(work)
      ensures calls[id].depthSeen <= MAX_QUEUE_DEPTH && old(lock).None? && NoRivals(others) ==>
                if r.Some? then r.value == Settled(work) else calls[id].phase.Executing?
    {
      hide Reachable, AtMostOneActive, OthersDo, Leads, NoRivals, Settled;
      ghost var was := View();
      var refused;
      refused, wakes := Enter(lag, id, work, jitter, others);
      var k, alive := 2, true;
      if !refused {
        ghost var entered := View();
        ghost var rest;
        k, alive, rest := Serve(lag, id, work, jitter, others, k);
        LeadsOn(lag, id, work, jitter, others, 0, wakes, rest, was, entered, View());
        wakes := wakes + rest[1..];
      }
      if alive {
        r := Some(calls[id].phase.outcome);
        Leave(lag, id, work, jitter, others, k, wakes, was);
        wakes := wakes + [View()];
      } else {
        r := None;
      }
      if Punctual(lag) { MutualExclusion(lag, View()); }
    }

    method Leave(lag: real, id: CallId, ghost work: Work, jitter: nat -> real, others: Schedule, k: nat,
                 ghost wakes: seq<State>, ghost was: State)
      requires Valid(lag) && id in calls && calls[id].phase.Leaving? && !Owns(lock, id) && IsJitter(jitter)
      requires Leads(lag, id, work, jitter, others, 0, wakes, was, View()) && k == |wakes| - 1
      modifies this
      ensures Valid(lag) && id in calls && calls[id] == old(calls[id]).(phase := Done(old(calls[id].phase.outcome)))
      ensures id !in counting && !Owns(lock, id)
      ensures Leads(lag, id, work, jitter, others, 0, wakes + [View()], was, View())
    {
      hide Reachable, OthersDo, Leads;
      ghost var before := View();
      DecrDepth(lag, id);
      ghost var left := View();
      AwaitNext(lag, id, others, k);
      NeverCountedAgain(lag, left, id, At(others, k));
      LeadsNext(lag, id, work, jitter, others, 0, wakes, was, before, View());
    }
  }

  /** Only the call itself adds its count. */
  lemma {:induction false} NeverCountedAgain(lag: real, s: State, id: CallId, events: seq<Event>)
    requires id in s.calls && id !in s.counting
    ensures id !in OthersDo(lag, s, id, events).counting
    decreases |events|
  {
    if events != [] {
      var e := events[0];
      NeverCountedAgain(lag, if Actor(e) != Some(id) && Enabled(lag, s, e) then Apply(s, e, lag) else s, id, events[1..]);
    }
  }

  lemma NothingHappens(lag: real, s: State, id: CallId)
    ensures OthersDo(lag, s, id, []) == s
  {
  }

  /** What may happen does not depend on the history of the depth key. */
  lemma EnabledSeen(lag: real, s: State, e: Event)
    ensures Enabled(lag, s.(counting := {}), e) == Enabled(lag, s, e)
  {
  }
}
