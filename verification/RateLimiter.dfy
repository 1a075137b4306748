/** The gateway's fixed-window limiter: one counter per key, expiring a minute after it is created. */
module RateLimiter {
  import opened Prelude

  datatype Tier = Unauth | Standard | Gold | Platinum | Vip | Enterprise

  const WINDOW_MS := 60_000
  const WINDOW_SECONDS := 60

  function TierLimit(tier: Tier): nat {
    match tier
    case Unauth => 10
    case Standard => 30
    case Gold => 300
    case Platinum => 1_000
    case Vip => 3_000
    case Enterprise => 10_000
  }

  function EndpointOverride(endpoint: string): Option<nat> {
    if endpoint == "/auth/session" || endpoint == "/api/v1/auth/login" then Some(5)
    else if endpoint == "/auth/refresh" then Some(20)
    else if endpoint == "/api/v1/auth/register" then Some(10)
    else None
  }

  function Least(a: nat, b: nat): nat { if a <= b then a else b }

  function LimitOf(tier: Tier, endpoint: string): nat {
    match EndpointOverride(endpoint)
    case Some(limit) => Least(limit, TierLimit(tier))
    case None => TierLimit(tier)
  }

  /** Some request is always admitted, and an override only ever tightens: five for signing in, ten for
      registering, whatever the tier, and only the lowest tier gets less than the twenty for refreshing. */
  lemma LimitRange(tier: Tier, endpoint: string)
    ensures 5 <= LimitOf(tier, endpoint) <= TierLimit(tier)
    ensures LimitOf(tier, endpoint) == 5 <==> endpoint in {"/auth/session", "/api/v1/auth/login"}
    ensures endpoint == "/api/v1/auth/register" ==> LimitOf(tier, endpoint) == 10
    ensures endpoint == "/auth/refresh" ==> LimitOf(tier, endpoint) == if tier == Unauth then 10 else 20
    ensures LimitOf(tier, endpoint) < TierLimit(tier) ==>
              endpoint in {"/auth/session", "/api/v1/auth/login", "/auth/refresh", "/api/v1/auth/register"}
  {
  }

  // The counter of one key as a function of the times of its checks

  datatype Entry = Entry(count: nat, start: nat)

  ghost predicate Ordered(times: seq<nat>) { forall i, j | 0 <= i <= j < |times| :: times[i] <= times[j] }

  /** The counter the last check of the series left behind. */
  function EntryAfter(times: seq<nat>): (e: Entry)
    requires times != []
    ensures e.count >= 1
  {
    var n := |times| - 1;
    if n > 0 && times[n] < EntryAfter(times[..n]).start + WINDOW_MS then
      EntryAfter(times[..n]).(count := EntryAfter(times[..n]).count + 1)
    else Entry(1, times[n])
  }

  lemma {:induction false} EntryIsRecent(times: seq<nat>)
    requires times != [] && Ordered(times)
    ensures var e := EntryAfter(times); e.start <= times[|times| - 1] < e.start + WINDOW_MS
  {
    var n := |times| - 1;
    if n > 0 {
      EntryIsRecent(times[..n]);
    }
  }

  /** Two checks fall in the same window or in windows that opened at least a minute apart. */
  lemma {:induction false} WindowsApart(times: seq<nat>, i: nat)
    requires 0 < i <= |times| && Ordered(times)
    ensures var early, late := EntryAfter(times[..i]).start, EntryAfter(times).start;
            early == late || early + 60_000 <= late
  {
    var n := |times| - 1;
    if i == |times| {
      assert times[..i] == times;
    } else {
      WindowsApart(times[..n], i);
      assert times[..n][..i] == times[..i];
      EntryIsRecent(times[..n]);
    }
  }

  /** The check at the end of a series is admitted while the counter is within the limit. */
  predicate Admitted(times: seq<nat>, limit: nat)
    requires times != []
  {
    EntryAfter(times).count <= limit
  }

  function RequestsOf(times: seq<nat>, start: nat): nat {
    if times == [] then 0
    else RequestsOf(times[..|times| - 1], start) + if EntryAfter(times).start == start then 1 else 0
  }

  function AdmissionsOf(times: seq<nat>, limit: nat, start: nat): nat {
    if times == [] then 0
    else AdmissionsOf(times[..|times| - 1], limit, start)
         + if EntryAfter(times).start == start && Admitted(times, limit) then 1 else 0
  }

  lemma {:induction false} RequestsCounted(times: seq<nat>, start: nat)
    requires Ordered(times) && times != []
    ensures start == EntryAfter(times).start ==> RequestsOf(times, start) == EntryAfter(times).count
    ensures start > EntryAfter(times).start ==> RequestsOf(times, start) == 0
  {
    var n := |times| - 1;
    if n > 0 {
      RequestsCounted(times[..n], start);
      EntryIsRecent(times[..n]);
    }
  }

  /** In every run each window admits exactly as many requests as arrive, up to the limit. */
  lemma {:induction false} WindowQuota(times: seq<nat>, limit: nat, start: nat)
    requires Ordered(times)
    ensures AdmissionsOf(times, limit, start) == Least(RequestsOf(times, start), limit)
  {
    if times != [] {
      WindowQuota(times[..|times| - 1], limit, start);
      RequestsCounted(times, start);
    }
  }

  /** How many checks with a time in the half-open minute from `from` were admitted. */
  function AdmittedWithin(times: seq<nat>, limit: nat, from: nat): nat {
    if times == [] then 0
    else AdmittedWithin(times[..|times| - 1], limit, from)
         + if from <= times[|times| - 1] < from + 60_000 && Admitted(times, limit) then 1 else 0
  }

  /** What the minute can have admitted, given the counter: the request that opened a window
      before the minute used up one of that window's admissions outside it. */
  function Ceiling(e: Entry, limit: nat, from: nat): int {
    if e.start < from then Least(e.count, limit) - 1
    else if e.start < from + WINDOW_MS then limit - 1 + Least(e.count, limit)
    else 2 * limit - 1
  }

  lemma {:induction false} NothingBefore(times: seq<nat>, limit: nat, from: nat)
    requires Ordered(times) && (times != [] ==> times[|times| - 1] < from)
    ensures AdmittedWithin(times, limit, from) == 0
  {
    if times != [] {
      NothingBefore(times[..|times| - 1], limit, from);
    }
  }

  lemma {:induction false} WithinCeiling(times: seq<nat>, limit: nat, from: nat)
    requires Ordered(times) && times != [] && limit >= 1
    ensures AdmittedWithin(times, limit, from) <= Ceiling(EntryAfter(times), limit, from)
  {
    var n := |times| - 1;
    if times[n] < from {
      NothingBefore(times, limit, from);
      EntryIsRecent(times);
    } else if n > 0 {
      WithinCeiling(times[..n], limit, from);
      EntryIsRecent(times[..n]);
    }
  }

  /** In every run no half-open minute, wherever it starts, admits twice the limit. */
  lemma SlidingBound(times: seq<nat>, limit: nat, from: nat)
    requires Ordered(times) && limit >= 1
    ensures AdmittedWithin(times, limit, from) <= 2 * limit - 1
  {
    if times != [] {
      WithinCeiling(times, limit, from);
    }
  }

  function Repeat(t: nat, n: nat): (s: seq<nat>)
    ensures |s| == n && forall i | 0 <= i < n :: s[i] == t
  {
    seq(n, _ => t)
  }

  /** One request, the rest of the quota just before the window ends, and a full quota just after. */
  function Burst(limit: nat, late: nat): seq<nat>
    requires limit >= 1
  {
    [0] + Repeat(WINDOW_MS - 1, limit - 1) + Repeat(WINDOW_MS, late)
  }

  lemma {:induction false} BurstBefore(limit: nat, n: nat)
    requires limit >= 1 && n < limit
    ensures var t := [0] + Repeat(WINDOW_MS - 1, n);
            EntryAfter(t) == Entry(n + 1, 0) && AdmittedWithin(t, limit, 1) == n
  {
    var t := [0] + Repeat(WINDOW_MS - 1, n);
    if n == 0 {
      assert t == [0];
      assert t[..0] == [];
    } else {
      BurstBefore(limit, n - 1);
      assert t[..n] == [0] + Repeat(WINDOW_MS - 1, n - 1);
    }
  }

  lemma {:induction false} BurstAfter(limit: nat, n: nat)
    requires 1 <= n <= limit
    ensures EntryAfter(Burst(limit, n)) == Entry(n, WINDOW_MS)
    ensures AdmittedWithin(Burst(limit, n), limit, 1) == limit - 1 + n
  {
    var t := Burst(limit, n);
    BurstBefore(limit, limit - 1);
    assert t[..|t| - 1] == Burst(limit, n - 1);
    if n == 1 {
      assert Burst(limit, 0) == [0] + Repeat(WINDOW_MS - 1, limit - 1);
    } else {
      BurstAfter(limit, n - 1);
    }
  }

  /** The bound is reached for every limit. */
  lemma SlidingBoundIsTight(limit: nat)
    requires limit >= 1
    ensures Ordered(Burst(limit, limit)) && AdmittedWithin(Burst(limit, limit), limit, 1) == 2 * limit - 1
  {
    BurstAfter(limit, limit);
  }

  // The limiter over its store of counters

  datatype Reply = Reply(allowed: bool, remaining: nat, limit: nat, retryAfter: nat)
  datatype CheckResult = Decided(reply: Reply) | Unavailable

  /** The store reports the time to live in whole seconds, off by less than one. */
  predicate TtlOf(ttl: nat, remainingMs: int) { ttl * 1000 < remainingMs + 1000 && remainingMs < ttl * 1000 + 1000 }

  function TierName(tier: Tier): string {
    match tier
    case Unauth => "UNAUTH"
    case Standard => "STANDARD"
    case Gold => "GOLD"
    case Platinum => "PLATINUM"
    case Vip => "VIP"
    case Enterprise => "ENTERPRISE"
  }

  function KeyOf(tier: Tier, identifier: string, endpoint: string): string {
    "rl:" + TierName(tier) + ":" + identifier + ":" + endpoint
  }

  /** The pair `c`, `d` is the pair `a`, `b` with the separator moved to a later one. */
  ghost predicate Shifted(a: string, b: string, c: string, d: string) {
    exists x: string :: c == a + ":" + x && b == x + ":" + d
  }

  lemma JoinedIff(a: string, b: string, c: string, d: string)
    ensures a + ":" + b == c + ":" + d <==>
              (a == c && b == d) || Shifted(a, b, c, d) || Shifted(c, d, a, b)
  {
    var s, t := a + ":" + b, c + ":" + d;
    if s == t {
      assert s[..|a|] == a && s[|a| + 1..] == b && t[..|c|] == c && t[|c| + 1..] == d;
      assert s[|a|] == ':' == t[|c|];
      if |a| < |c| {
        var x := s[|a| + 1..|c|];
        assert c == a + ":" + x && b == x + ":" + d;
      } else if |c| < |a| {
        var x := s[|c| + 1..|a|];
        assert a == c + ":" + x && d == x + ":" + b;
      }
    }
    ShiftedJoins(a, b, c, d);
    ShiftedJoins(c, d, a, b);
  }

  lemma ShiftedJoins(a: string, b: string, c: string, d: string)
    ensures Shifted(a, b, c, d) ==> a + ":" + b == c + ":" + d && |a| < |c| && |d| < |b| && (b[0] == ':' || b[0] in c)
  {
    if x: string :| c == a + ":" + x && b == x + ":" + d {
      assert a + ":" + (x + ":" + d) == a + ":" + x + ":" + d;
      assert if x == "" then b[0] == ':' else c[|a| + 1] == x[0] == b[0];
    }
  }

  lemma KeyParts(tier: Tier, rest: string, tier': Tier, rest': string)
    ensures "rl:" + TierName(tier) + ":" + rest == "rl:" + TierName(tier') + ":" + rest' <==>
              tier == tier' && rest == rest'
  {
    var s, t := "rl:" + TierName(tier) + ":" + rest, "rl:" + TierName(tier') + ":" + rest';
    assert s[3] == TierName(tier)[0] && t[3] == TierName(tier')[0];
    assert s[4 + |TierName(tier)|..] == rest && t[4 + |TierName(tier')|..] == rest';
  }

  /** Two checks share a counter exactly if tier, client and endpoint agree, or the text between two
      separators ends the one's identifier and starts the other's endpoint. */
  lemma KeysEqualIff(tier: Tier, id: string, endpoint: string, tier': Tier, id': string, endpoint': string)
    ensures KeyOf(tier, id, endpoint) == KeyOf(tier', id', endpoint') <==>
              tier == tier' && (
                || (id == id' && endpoint == endpoint')
                || Shifted(id, endpoint, id', endpoint') || Shifted(id', endpoint', id, endpoint))
  {
    var rest, rest' := id + ":" + endpoint, id' + ":" + endpoint';
    assert KeyOf(tier, id, endpoint) == "rl:" + TierName(tier) + ":" + rest;
    assert KeyOf(tier', id', endpoint') == "rl:" + TierName(tier') + ":" + rest';
    KeyParts(tier, rest, tier', rest');
    JoinedIff(id, endpoint, id', endpoint');
  }

  /** What the gateway passes: an address, which may hold separators, and the path of a URL. */
  predicate IsClient(id: string, endpoint: string) { '/' !in id && endpoint != "" && endpoint[0] == '/' }

  /** So two clients of the gateway never share a counter, nor do two endpoints of one client. */
  lemma ClientsApart(tier: Tier, id: string, endpoint: string, tier': Tier, id': string, endpoint': string)
    requires (IsClient(id, endpoint) && IsClient(id', endpoint')) || id == id' || endpoint == endpoint'
    requires KeyOf(tier, id, endpoint) == KeyOf(tier', id', endpoint')
    ensures tier == tier' && id == id' && endpoint == endpoint'
  {
    KeysEqualIff(tier, id, endpoint, tier', id', endpoint');
    ShiftedJoins(id, endpoint, id', endpoint');
    ShiftedJoins(id', endpoint', id, endpoint);
  }

  /** A counter that agrees with the checks of its key, none of them later than the clock. */
  ghost predicate Tracks(e: Entry, times: seq<nat>, clock: nat) {
    times != [] && Ordered(times) && times[|times| - 1] <= clock && e == EntryAfter(times)
  }

  function NextEntry(entry: Option<Entry>, now: nat): Entry {
    if entry.Some? && now < entry.value.start + WINDOW_MS then entry.value.(count := entry.value.count + 1)
    else Entry(1, now)
  }

  lemma TracksNext(times: seq<nat>, e: Option<Entry>, clock: nat, now: nat)
    requires clock <= now && (if e.Some? then Tracks(e.value, times, clock) else times == [])
    ensures Tracks(NextEntry(e, now), times + [now], now)
    ensures NextEntry(e, now).start <= now < NextEntry(e, now).start + WINDOW_MS
  {
    assert (times + [now])[..|times|] == times;
    EntryIsRecent(times + [now]);
  }

  lemma TracksLater(e: Entry, times: seq<nat>, clock: nat, now: nat)
    requires Tracks(e, times, clock) && clock <= now
    ensures Tracks(e, times, now)
  {
  }

  class Limiter {
    var counters: map<string, Entry>
    ghost var log: map<string, seq<nat>>
    ghost var clock: nat

    ghost predicate Valid()
      reads this
    {
      && counters.Keys == log.Keys
      && forall k | k in log :: Tracks(counters[k], log[k], clock)
    }

    constructor ()
      ensures Valid() && log == map[] && clock == 0
    {
      counters, log, clock := map[], map[], 0;
    }

    /** The store's script: create the counter with its expiry, or count up a live one. */
    method Increment(key: string, now: nat) returns (count: nat, remainingMs: nat)
      requires Valid() && clock <= now
      modifies this
      ensures Valid() && clock == now
      ensures log == old(log)[key := LogOf(old(log), key) + [now]]
      ensures count == EntryAfter(log[key]).count
      ensures remainingMs == EntryAfter(log[key]).start + WINDOW_MS - now > 0
    {
      hide Tracks, EntryAfter, NextEntry;
      forall k | k in log ensures Tracks(counters[k], log[k], now) {
        TracksLater(counters[k], log[k], clock, now);
      }
      var entry := if key in counters then Some(counters[key]) else None;
      TracksNext(LogOf(log, key), entry, clock, now);
      counters := counters[key := NextEntry(entry, now)];
      log := log[key := LogOf(log, key) + [now]];
      clock := now;
      count := counters[key].count;
      remainingMs := counters[key].start + WINDOW_MS - now;
    }

    /** One check. `up` and `acked` say whether the store ran the script and whether its answer came
        back; without an answer the request is refused, although it may have been counted. */
    method Check(tier: Tier, identifier: string, endpoint: string, now: nat, up: bool, acked: bool)
      returns (r: CheckResult)
      requires Valid() && clock <= now
      modifies this
      ensures Valid()
      ensures var key, limit := KeyOf(tier, identifier, endpoint), LimitOf(tier, endpoint);
              && log == (if up then old(log)[key := LogOf(old(log), key) + [now]] else old(log))
              && (!up || !acked ==> r == Unavailable)
              && (up && acked ==> r.Decided? && Answers(r.reply, log[key], limit, now))
    {
      var key, limit := KeyOf(tier, identifier, endpoint), LimitOf(tier, endpoint);
      hide Tracks, EntryAfter, KeyOf, LimitOf;
      if !up {
        return Unavailable;
      }
      var count, remainingMs := Increment(key, now);
      if !acked {
        return Unavailable;
      }
      var ttl: nat :| TtlOf(ttl, remainingMs) by { assert TtlOf(remainingMs / 1000, remainingMs); }
      var allowed := count <= limit;
      r := Decided(Reply(allowed, if count <= limit then limit - count else 0, limit,
                         if allowed then 0 else if ttl > 0 then ttl else WINDOW_SECONDS));
      assert r.reply.allowed == Admitted(log[key], limit) && TtlOf(ttl, remainingMs);
    }
  }

  function LogOf(log: map<string, seq<nat>>, key: string): seq<nat> { if key in log then log[key] else [] }

  /** What a reply promises about the checks of its key so far, the current one included: `remaining`
      more would be admitted in this window, and a refused caller is told the time to the end of the
      window, to within a second, or a whole window when less than a second is left. */
  ghost predicate Answers(r: Reply, times: seq<nat>, limit: nat, now: nat)
    requires times != []
  {
    var e := EntryAfter(times);
    && r.limit == limit
    && r.allowed == Admitted(times, limit)
    && r.remaining == limit - Least(e.count, limit)
    && (r.allowed ==> r.retryAfter == 0)
    && (!r.allowed ==> r.retryAfter >= 1 &&
                       (TtlOf(r.retryAfter, e.start + WINDOW_MS - now)
                        || (r.retryAfter == WINDOW_SECONDS && e.start + WINDOW_MS - now < 1000)))
  }
}
