/** The in-memory fallback of the execution queue. */
module MemoryQueue {
  // A promise chain and a depth counter per user.  The accepted `enqueue` calls are logged in order;
  // the `next` promise of a call is named by its place in the log.

  import opened Prelude

  const MAX_QUEUE_DEPTH: nat := 5

  type UserId = string

  /** TimedOut: the cancel token is set and the slot resolved, but its work still runs. */
  datatype Status = Waiting | Running | TimedOut | Finished

  /** `previous` is the `next` promise this call awaits; None is an already resolved one. */
  datatype Task = Task(user: UserId, previous: Option<nat>, status: Status)

  datatype Queue = Queue(chains: map<UserId, nat>, depths: map<UserId, nat>, tasks: seq<Task>)

  datatype Event = Enqueue(user: UserId) | Start(task: nat) | Timeout(task: nat) | Settle(task: nat)

  predicate SlotResolved(t: Task) { t.status.TimedOut? || t.status.Finished? }

  /** `previous.then(() => thisSlot)` has resolved. */
  predicate NextResolved(tasks: seq<Task>, i: nat)
    requires i < |tasks|
  {
    && SlotResolved(tasks[i])
    && (tasks[i].previous.Some? ==>
          var p := tasks[i].previous.value; p < i && NextResolved(tasks, p))
  }

  predicate MayStart(tasks: seq<Task>, i: nat)
    requires i < |tasks|
  {
    && tasks[i].status.Waiting?
    && (tasks[i].previous.Some? ==>
          var p := tasks[i].previous.value; p < i && NextResolved(tasks, p))
  }

  function Get<V>(m: map<UserId, V>, u: UserId, default: V): V { if u in m then m[u] else default }

  predicate Full(q: Queue, u: UserId) { Get(q.depths, u, 0) >= MAX_QUEUE_DEPTH }

  predicate Enabled(q: Queue, e: Event) {
    match e
    case Enqueue(_) => true
    case Start(i) => i < |q.tasks| && MayStart(q.tasks, i)
    case Timeout(i) => i < |q.tasks| && q.tasks[i].status.Running?
    case Settle(i) => i < |q.tasks| && (q.tasks[i].status.Running? || q.tasks[i].status.TimedOut?)
  }

  function SetStatus(tasks: seq<Task>, i: nat, s: Status): seq<Task>
    requires i < |tasks|
  {
    tasks[i := tasks[i].(status := s)]
  }

  /** The `finally` block: count down, and drop the entries of a user with nothing left. */
  function CountDown(q: Queue, u: UserId): Queue {
    var d := Get(q.depths, u, 1);
    if d <= 1 then q.(depths := q.depths - {u}, chains := q.chains - {u})
    else q.(depths := q.depths[u := d - 1])
  }

  function Apply(q: Queue, e: Event): Queue
    requires Enabled(q, e)
  {
    match e
    case Enqueue(u) =>
      if Full(q, u) then q
      else
        var previous := if u in q.chains then Some(q.chains[u]) else None;
        Queue(q.chains[u := |q.tasks|], q.depths[u := Get(q.depths, u, 0) + 1],
              q.tasks + [Task(u, previous, Waiting)])
    case Start(i) => q.(tasks := SetStatus(q.tasks, i, Running))
    case Timeout(i) => q.(tasks := SetStatus(q.tasks, i, TimedOut))
    case Settle(i) => CountDown(q.(tasks := SetStatus(q.tasks, i, Finished)), q.tasks[i].user)
  }

  // ---------------------------------------------------------------------------------------
  // What every run keeps
  // ---------------------------------------------------------------------------------------

  function Unfinished(tasks: seq<Task>, u: UserId): nat {
    if tasks == [] then 0
    else
      var last := tasks[|tasks| - 1];
      Unfinished(tasks[..|tasks| - 1], u) + if last.user == u && !last.status.Finished? then 1 else 0
  }

  /** Task `i` of the user is the newest of its user's. */
  ghost predicate Newest(tasks: seq<Task>, u: UserId, i: nat) {
    i < |tasks| && tasks[i].user == u && forall j | i < j < |tasks| :: tasks[j].user != u
  }

  ghost predicate AllFinished(tasks: seq<Task>, u: UserId, bound: nat)
    requires bound <= |tasks|
  {
    forall j | 0 <= j < bound && tasks[j].user == u :: tasks[j].status.Finished?
  }

  ghost predicate EarlierResolved(tasks: seq<Task>, i: nat)
    requires i < |tasks|
  {
    forall j | 0 <= j < i && tasks[j].user == tasks[i].user :: SlotResolved(tasks[j])
  }

  /** A call awaits the one just before it, or nothing when all before it have finished. */
  ghost predicate Linked(tasks: seq<Task>, i: nat)
    requires i < |tasks|
  {
    match tasks[i].previous
    case Some(p) => p < i && tasks[p].user == tasks[i].user && forall j | p < j < i :: tasks[j].user != tasks[i].user
    case None => AllFinished(tasks, tasks[i].user, i)
  }

  ghost predicate TasksOk(tasks: seq<Task>) {
    && (forall i | 0 <= i < |tasks| :: Linked(tasks, i))
    && (forall i | 0 <= i < |tasks| && !tasks[i].status.Waiting? :: EarlierResolved(tasks, i))
  }

  ghost predicate DepthsOk(q: Queue) {
    && (forall u :: u in q.depths ==> q.depths[u] > 0)
    && (forall u {:trigger Unfinished(q.tasks, u)} :: Get(q.depths, u, 0) == Unfinished(q.tasks, u) <= MAX_QUEUE_DEPTH)
  }

  ghost predicate ChainsOk(q: Queue) {
    q.chains.Keys == q.depths.Keys && forall u | u in q.chains :: Newest(q.tasks, u, q.chains[u])
  }

  ghost predicate Inv(q: Queue) { TasksOk(q.tasks) && DepthsOk(q) && ChainsOk(q) }

  lemma {:induction false} UnfinishedUpdate(tasks: seq<Task>, i: nat, s: Status, u: UserId)
    requires i < |tasks|
    ensures Unfinished(SetStatus(tasks, i, s), u) == Unfinished(tasks, u)
      + (if tasks[i].user == u && !s.Finished? then 1 else 0)
      - (if tasks[i].user == u && !tasks[i].status.Finished? then 1 else 0)
  {
    var n := |tasks| - 1;
    if i < n {
      UnfinishedUpdate(tasks[..n], i, s, u);
      assert SetStatus(tasks, i, s)[..n] == SetStatus(tasks[..n], i, s);
    } else {
      assert SetStatus(tasks, i, s)[..n] == tasks[..n];
    }
  }

  lemma {:induction false} NoneUnfinished(tasks: seq<Task>, u: UserId)
    ensures Unfinished(tasks, u) == 0 <==> AllFinished(tasks, u, |tasks|)
  {
    if tasks != [] {
      var n := |tasks| - 1;
      NoneUnfinished(tasks[..n], u);
      assert AllFinished(tasks[..n], u, n) <==> AllFinished(tasks, u, n);
    }
  }

  /** A resolved chain promise means every earlier slot of the user is resolved. */
  lemma {:induction false} ChainResolved(tasks: seq<Task>, i: nat)
    requires i < |tasks| && NextResolved(tasks, i)
    requires forall k | 0 <= k < |tasks| :: Linked(tasks, k)
    ensures SlotResolved(tasks[i]) && EarlierResolved(tasks, i)
  {
    assert Linked(tasks, i);
    if tasks[i].previous.Some? {
      ChainResolved(tasks, tasks[i].previous.value);
    }
  }

  lemma LinkedStable(tasks: seq<Task>, i: nat, s: Status, k: nat)
    requires i < |tasks| && k < |tasks| && Linked(tasks, k)
    requires tasks[i].status.Finished? ==> s.Finished?
    ensures Linked(SetStatus(tasks, i, s), k)
  {
  }

  lemma TasksOkUpdate(tasks: seq<Task>, i: nat, s: Status)
    requires TasksOk(tasks) && i < |tasks| && !s.Waiting?
    requires SlotResolved(tasks[i]) ==> s.TimedOut? || s.Finished?
    requires tasks[i].status.Finished? ==> s.Finished?
    requires tasks[i].status.Waiting? ==> EarlierResolved(tasks, i)
    ensures TasksOk(SetStatus(tasks, i, s))
  {
    var t := SetStatus(tasks, i, s);
    forall k | 0 <= k < |t| ensures Linked(t, k) {
      LinkedStable(tasks, i, s, k);
    }
    forall k | 0 <= k < |t| && !t[k].status.Waiting? ensures EarlierResolved(t, k) {
      assert EarlierResolved(tasks, k);
    }
  }

  lemma StatusStep(q: Queue, i: nat, s: Status)
    requires Inv(q) && i < |q.tasks|
    requires if s.Running? then MayStart(q.tasks, i) else (s.TimedOut? && q.tasks[i].status.Running?)
    ensures Inv(q.(tasks := SetStatus(q.tasks, i, s)))
  {
    forall u ensures Unfinished(SetStatus(q.tasks, i, s), u) == Unfinished(q.tasks, u) {
      UnfinishedUpdate(q.tasks, i, s, u);
    }
    assert Linked(q.tasks, i);
    if s.Running? && q.tasks[i].previous.Some? {
      ChainResolved(q.tasks, q.tasks[i].previous.value);
    }
    TasksOkUpdate(q.tasks, i, s);
  }

  lemma SettleDepths(q: Queue, i: nat)
    requires DepthsOk(q) && ChainsOk(q) && Enabled(q, Settle(i))
    ensures DepthsOk(Apply(q, Settle(i)))
  {
    hide Unfinished, Newest;
    var t := SetStatus(q.tasks, i, Finished);
    forall u ensures Unfinished(t, u) == Unfinished(q.tasks, u) - if u == q.tasks[i].user then 1 else 0 {
      UnfinishedUpdate(q.tasks, i, Finished, u);
    }
  }

  lemma SettleStep(q: Queue, i: nat)
    requires Inv(q) && Enabled(q, Settle(i))
    ensures Inv(Apply(q, Settle(i)))
  {
    SettleDepths(q, i);
    TasksOkUpdate(q.tasks, i, Finished);
  }

  lemma UnfinishedAppend(tasks: seq<Task>, t: Task, u: UserId)
    ensures Unfinished(tasks + [t], u) == Unfinished(tasks, u) + if t.user == u && !t.status.Finished? then 1 else 0
  {
    assert (tasks + [t])[..|tasks|] == tasks;
  }

  lemma EnqueueDepths(q: Queue, u: UserId)
    requires DepthsOk(q) && ChainsOk(q) && !Full(q, u)
    ensures DepthsOk(Apply(q, Enqueue(u))) && ChainsOk(Apply(q, Enqueue(u)))
  {
    hide Unfinished;
    var r := Apply(q, Enqueue(u));
    forall v ensures Unfinished(r.tasks, v) == Unfinished(q.tasks, v) + if v == u then 1 else 0 {
      UnfinishedAppend(q.tasks, r.tasks[|q.tasks|], v);
    }
    forall v | v in r.chains ensures Newest(r.tasks, v, r.chains[v]) {
      assert v != u ==> Newest(q.tasks, v, q.chains[v]);
    }
  }

  lemma EnqueueTasks(q: Queue, u: UserId)
    requires Inv(q) && !Full(q, u)
    ensures TasksOk(Apply(q, Enqueue(u)).tasks)
  {
    var r := Apply(q, Enqueue(u));
    if u !in q.chains { NoneUnfinished(q.tasks, u); }
    forall k | 0 <= k < |r.tasks| ensures Linked(r.tasks, k) {
      assert k < |q.tasks| ==> Linked(q.tasks, k);
      assert u in q.chains ==> Newest(q.tasks, u, q.chains[u]);
    }
    forall k | 0 <= k < |r.tasks| && !r.tasks[k].status.Waiting? ensures EarlierResolved(r.tasks, k) {
      assert EarlierResolved(q.tasks, k);
    }
  }

  lemma InvStep(q: Queue, e: Event)
    requires Inv(q) && Enabled(q, e)
    ensures Inv(Apply(q, e))
  {
    match e
    case Enqueue(u) => if !Full(q, u) { EnqueueDepths(q, u); EnqueueTasks(q, u); }
    case Start(i) => StatusStep(q, i, Running);
    case Timeout(i) => StatusStep(q, i, TimedOut);
    case Settle(i) => SettleStep(q, i);
  }

  // ---------------------------------------------------------------------------------------
  // Runs
  // ---------------------------------------------------------------------------------------

  function Empty(): Queue { Queue(map[], map[], []) }

  predicate Legal(q: Queue, es: seq<Event>)
    decreases |es|
  {
    es == [] || (Enabled(q, es[0]) && Legal(Apply(q, es[0]), es[1..]))
  }

  function Exec(q: Queue, es: seq<Event>): Queue
    requires Legal(q, es)
    decreases |es|
  {
    if es == [] then q else Exec(Apply(q, es[0]), es[1..])
  }

  lemma {:induction false} InvRun(q: Queue, es: seq<Event>)
    requires Inv(q) && Legal(q, es)
    ensures Inv(Exec(q, es))
    decreases |es|
  {
    if es != [] {
      InvStep(q, es[0]);
      InvRun(Apply(q, es[0]), es[1..]);
    }
  }

  /** In every run a user's tasks start in enqueue order, each only after all earlier ones have
      finished or been cancelled, so no two run with their tokens false; the depth entry counts
      the unfinished tasks, never above five; and the chain entry exists exactly while one is. */
  lemma SerialisedPerUser(es: seq<Event>, i: nat, j: nat)
    requires Legal(Empty(), es)
    requires i < j < |Exec(Empty(), es).tasks|
    requires Exec(Empty(), es).tasks[i].user == Exec(Empty(), es).tasks[j].user
    ensures var q := Exec(Empty(), es);
            && (!q.tasks[j].status.Waiting? ==> SlotResolved(q.tasks[i]))
            && !(q.tasks[i].status.Running? && q.tasks[j].status.Running?)
            && (MayStart(q.tasks, j) ==> SlotResolved(q.tasks[i]))
  {
    var q := Exec(Empty(), es);
    InvRun(Empty(), es);
    if !q.tasks[j].status.Waiting? { assert EarlierResolved(q.tasks, j); }
    if MayStart(q.tasks, j) {
      assert Linked(q.tasks, j);
      if q.tasks[j].previous.Some? { ChainResolved(q.tasks, q.tasks[j].previous.value); }
    }
  }

  lemma EntriesMatchTasks(es: seq<Event>, u: UserId)
    requires Legal(Empty(), es)
    ensures var q := Exec(Empty(), es);
            && Get(q.depths, u, 0) == Unfinished(q.tasks, u) <= MAX_QUEUE_DEPTH
            && (u in q.chains <==> !AllFinished(q.tasks, u, |q.tasks|))
            && (u in q.chains ==> Newest(q.tasks, u, q.chains[u]))
  {
    InvRun(Empty(), es);
    NoneUnfinished(Exec(Empty(), es).tasks, u);
  }

  /** Nobody is forgotten: whenever tasks of a user wait and none runs, the oldest may start. */
  lemma NoLostWakeup(es: seq<Event>, i: nat)
    requires Legal(Empty(), es)
    requires i < |Exec(Empty(), es).tasks| && Exec(Empty(), es).tasks[i].status.Waiting?
    requires EarlierResolved(Exec(Empty(), es).tasks, i)
    ensures MayStart(Exec(Empty(), es).tasks, i)
  {
    var q := Exec(Empty(), es);
    InvRun(Empty(), es);
    assert Linked(q.tasks, i);
    if q.tasks[i].previous.Some? { ResolvedChain(q.tasks, q.tasks[i].previous.value, i); }
  }

  lemma {:induction false} ResolvedChain(tasks: seq<Task>, p: nat, i: nat)
    requires p < i < |tasks| && tasks[p].user == tasks[i].user && EarlierResolved(tasks, i)
    requires forall k | 0 <= k < |tasks| :: Linked(tasks, k)
    ensures NextResolved(tasks, p)
  {
    assert Linked(tasks, p);
    if tasks[p].previous.Some? { ResolvedChain(tasks, tasks[p].previous.value, i); }
  }

  // ---------------------------------------------------------------------------------------
  // The class
  // ---------------------------------------------------------------------------------------

  class InMemoryQueue {
    var chains: map<UserId, nat>
    var depths: map<UserId, nat>
    var tasks: seq<Task>

    ghost function View(): Queue
      reads this
    {
      Queue(chains, depths, tasks)
    }

    ghost predicate Valid()
      reads this
    {
      Inv(View())
    }

    constructor ()
      ensures Valid() && View() == Empty()
    {
      chains, depths, tasks := map[], map[], [];
      new;
      assert forall u :: Unfinished(tasks, u) == 0;
    }

    method Admit(user: UserId) returns (slot: Option<nat>)
      requires Valid()
      modifies this
      ensures Valid() && View() == Apply(old(View()), Enqueue(user))
      ensures slot == if old(Full(View(), user)) then None else Some(old(|tasks|))
    {
      hide Inv;
      InvStep(View(), Enqueue(user));
      var depth := if user in depths then depths[user] else 0;
      if depth >= MAX_QUEUE_DEPTH {
        return None;
      }
      depths := depths[user := depth + 1];
      var previous := if user in chains then Some(chains[user]) else None;
      chains := chains[user := |tasks|];
      slot := Some(|tasks|);
      tasks := tasks + [Task(user, previous, Waiting)];
    }

    method Begin(i: nat)
      requires Valid() && Enabled(View(), Start(i))
      modifies this`tasks
      ensures Valid() && View() == Apply(old(View()), Start(i))
    {
      hide Inv;
      InvStep(View(), Start(i));
      tasks := tasks[i := tasks[i].(status := Running)];
    }

    method CancelOnTimeout(i: nat)
      requires Valid() && Enabled(View(), Timeout(i))
      modifies this`tasks
      ensures Valid() && View() == Apply(old(View()), Timeout(i))
    {
      hide Inv;
      InvStep(View(), Timeout(i));
      tasks := tasks[i := tasks[i].(status := TimedOut)];
    }

    method Finish(i: nat)
      requires Valid() && Enabled(View(), Settle(i))
      modifies this
      ensures Valid() && View() == Apply(old(View()), Settle(i))
    {
      hide Inv;
      InvStep(View(), Settle(i));
      var user := tasks[i].user;
      tasks := tasks[i := tasks[i].(status := Finished)];
      var d := if user in depths then depths[user] else 1;
      if d <= 1 {
        depths := depths - {user};
      } else {
        depths := depths[user := d - 1];
      }
      if (if user in depths then depths[user] else 0) == 0 {
        chains := chains - {user};
      }
    }
  }

  /** In every run a call is let in exactly while its user has fewer than five unfinished tasks. */
  lemma AdmittedIff(es: seq<Event>, u: UserId)
    requires Legal(Empty(), es)
    ensures var q := Exec(Empty(), es);
            Apply(q, Enqueue(u)).tasks != q.tasks <==> Unfinished(q.tasks, u) < 5
  {
    EntriesMatchTasks(es, u);
    var q := Exec(Empty(), es);
    hide Unfinished;
    assert |Apply(q, Enqueue(u)).tasks| == if Full(q, u) then |q.tasks| else |q.tasks| + 1;
  }
}
