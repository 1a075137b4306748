/** Verifying second factors under concurrency. */
module TwoFactor {
  // Any number of concurrent calls over one stored row, each reading the row first and settling later
  // by one conditional update.

  import opened Prelude
  import opened Base32
  import opened Decimal
  import opened Text
  import opened Totp

  // Which counter a token stands for

  function StripBlanks(s: string): string {
    if s == [] then []
    else StripBlanks(s[..|s| - 1]) + if IsBlank(s[|s| - 1]) then [] else [s[|s| - 1]]
  }

  /** Blanks change nothing, wherever they stand, and every other character stays. */
  lemma {:induction false} BlanksIgnored(a: string, c: char, b: string)
    ensures StripBlanks(a + [c] + b) == StripBlanks(a) + (if IsBlank(c) then [] else [c]) + StripBlanks(b)
  {
    var s := a + [c] + b;
    if b == [] {
      assert s[..|s| - 1] == a;
    } else {
      var n := |b| - 1;
      BlanksIgnored(a, c, b[..n]);
      assert s[..|s| - 1] == a + [c] + b[..n];
    }
  }

  predicate LooksLikeCode(token: string) { |token| == 6 && AllDigits(token) }

  predicate InTime(now: nat) { 1 <= now && now + 1 < Pow256(8) }

  /** The lowest counter of the three around now whose code the token is. */
  ghost function MatchOf(secret: string, token: string, now: nat, mac: Mac): Option<nat>
    requires IsMac(mac) && InTime(now)
  {
    var code, key := StripBlanks(token), Decoded(secret);
    if !LooksLikeCode(code) then None
    else if Code(key, now - 1, mac) == code then Some(now - 1)
    else if Code(key, now, mac) == code then Some(now)
    else if Code(key, now + 1, mac) == code then Some(now + 1)
    else None
  }

  /** The window is one step to each side, and a match is a counter whose code was typed. */
  lemma MatchMeans(secret: string, token: string, now: nat, mac: Mac)
    requires IsMac(mac) && InTime(now)
    ensures var m := MatchOf(secret, token, now, mac);
            && (m.Some? ==> now - 1 <= m.value <= now + 1 && Code(Decoded(secret), m.value, mac) == StripBlanks(token))
            && (m.None? ==> forall c | now - 1 <= c <= now + 1 :: Code(Decoded(secret), c, mac) != StripBlanks(token))
  {
    hide Code, Decoded, LooksLikeCode, StripBlanks;
    forall c: nat | now - 1 <= c <= now + 1
      ensures LooksLikeCode(Code(Decoded(secret), c, mac))
    {
      CodeLooks(Decoded(secret), c, mac);
    }
  }

  lemma CodeLooks(key: seq<Byte>, counter: nat, mac: Mac)
    requires IsMac(mac)
    ensures LooksLikeCode(Code(key, counter, mac))
  {
    CodeShape(key, counter, mac);
  }

  method MatchCounter(secret: string, token: string, now: nat, mac: Mac) returns (r: Option<nat>)
    requires IsMac(mac) && InTime(now)
    ensures r == MatchOf(secret, token, now, mac)
  {
    hide Code, Decoded;
    var normalised := StripBlanks(token);
    if !LooksLikeCode(normalised) {
      return None;
    }
    for w := -1 to 2
      invariant forall c: nat | now - 1 <= c < now + w :: Code(Decoded(secret), c, mac) != normalised
    {
      var counter := now + w;
      var code := Hotp(secret, counter, mac);
      if code == normalised {
        return Some(counter);
      }
    }
    return None;
  }

  // The stored row and one call's update of it

  datatype Row = Row(secret: string, backupCodes: seq<string>, lastUsedCounter: Option<nat>)

  /** `at` is the number of the time step in which the token was checked. */
  datatype Acceptance = ByCounter(counter: nat, token: string, at: nat) | ByCode(code: string) | Refused

  function Keep(codes: seq<string>, used: seq<string>): seq<string> {
    if codes == [] then []
    else Keep(codes[..|codes| - 1], used) + if codes[|codes| - 1] in used then [] else [codes[|codes| - 1]]
  }

  predicate Newer(row: Row, counter: nat) { row.lastUsedCounter.None? || row.lastUsedCounter.value < counter }

  /** What a call that read `snapshot` does to the row as it is when the call gets to its update. */
  ghost function Settled(row: Row, snapshot: Row, token: string, now: nat, mac: Mac): (Row, Acceptance)
    requires IsMac(mac) && InTime(now)
  {
    var m, code := MatchOf(snapshot.secret, token, now, mac), StripBlanks(Upper(token));
    if m.Some? then
      if Newer(row, m.value) then (row.(lastUsedCounter := m), ByCounter(m.value, token, now)) else (row, Refused)
    else if code in snapshot.backupCodes && code in row.backupCodes then
      (row.(backupCodes := Keep(row.backupCodes, [code])), ByCode(code))
    else (row, Refused)
  }

  /** The token is the code of none of the three counters. */
  ghost predicate NoMatch(secret: string, token: string, now: nat, mac: Mac)
    requires IsMac(mac) && InTime(now)
  {
    forall c: nat | now - 1 <= c <= now + 1 :: Code(Decoded(secret), c, mac) != StripBlanks(token)
  }

  /** It is that of `c`, and of none before it in the window. */
  ghost predicate LowestMatch(secret: string, token: string, now: nat, mac: Mac, c: nat)
    requires IsMac(mac) && InTime(now)
  {
    && now - 1 <= c <= now + 1 && Code(Decoded(secret), c, mac) == StripBlanks(token)
    && forall d: nat | now - 1 <= d < c :: Code(Decoded(secret), d, mac) != StripBlanks(token)
  }

  lemma MatchIff(secret: string, token: string, now: nat, mac: Mac)
    requires IsMac(mac) && InTime(now)
    ensures MatchOf(secret, token, now, mac).None? <==> NoMatch(secret, token, now, mac)
    ensures forall c: nat :: MatchOf(secret, token, now, mac) == Some(c) <==> LowestMatch(secret, token, now, mac, c)
  {
    hide Code, Decoded, StripBlanks, LooksLikeCode;
    MatchMeans(secret, token, now, mac);
    forall c: nat ensures LooksLikeCode(Code(Decoded(secret), c, mac)) { CodeLooks(Decoded(secret), c, mac); }
  }

  /** A call that matches no counter is accepted by code if and only if the token, in upper case and without
      blanks, is a code of the row it read and of the row it settles on; that code goes, and nothing else. */
  lemma CodeAcceptedIff(row: Row, snapshot: Row, token: string, now: nat, mac: Mac)
    requires IsMac(mac) && InTime(now) && NoMatch(snapshot.secret, token, now, mac)
    ensures var code := StripBlanks(Upper(token));
            var (after, a) := Settled(row, snapshot, token, now, mac);
            if code in snapshot.backupCodes && code in row.backupCodes then
              && a == ByCode(code)
              && after.secret == row.secret && after.lastUsedCounter == row.lastUsedCounter
              && forall c :: c in after.backupCodes <==> c in row.backupCodes && c != code
            else a == Refused && after == row
  {
    hide MatchOf, NoMatch, StripBlanks, Upper;
    MatchIff(snapshot.secret, token, now, mac);
    var code := StripBlanks(Upper(token));
    forall c ensures c in Keep(row.backupCodes, [code]) <==> c in row.backupCodes && c != code {
      KeepMembers(row.backupCodes, [code], c);
    }
  }

  /** A call is accepted by counter if and only if the lowest counter that matches is newer than the last one
      accepted, which it then is. */
  lemma CounterAcceptedIff(row: Row, snapshot: Row, token: string, now: nat, mac: Mac, c: nat)
    requires IsMac(mac) && InTime(now) && LowestMatch(snapshot.secret, token, now, mac, c)
    ensures Settled(row, snapshot, token, now, mac) ==
            if row.lastUsedCounter.None? || row.lastUsedCounter.value < c then
              (row.(lastUsedCounter := Some(c)), ByCounter(c, token, now))
            else (row, Refused)
  {
    hide MatchOf, LowestMatch;
    MatchIff(snapshot.secret, token, now, mac);
  }

  class Setting {
    var row: Row

    constructor (row: Row)
      ensures this.row == row
    {
      this.row := row;
    }

    /** The conditional update of the counter, atomic in the store. */
    method ClaimCounter(counter: nat) returns (claimed: bool)
      modifies this
      ensures claimed == Newer(old(row), counter)
      ensures row == if claimed then old(row).(lastUsedCounter := Some(counter)) else old(row)
    {
      claimed := row.lastUsedCounter.None? || row.lastUsedCounter.value < counter;
      if claimed {
        row := row.(lastUsedCounter := Some(counter));
      }
    }

    /** The conditional removal of a backup code, atomic in the store; equal codes go together. */
    method ConsumeCode(code: string) returns (consumed: bool)
      modifies this
      ensures consumed == (code in old(row).backupCodes)
      ensures row == if consumed then old(row).(backupCodes := Keep(old(row).backupCodes, [code])) else old(row)
    {
      consumed := code in row.backupCodes;
      if consumed {
        row := row.(backupCodes := Keep(row.backupCodes, [code]));
      }
    }

    /** The rest of a call after its read. */
    method Settle(snapshot: Row, token: string, now: nat, mac: Mac) returns (valid: bool, usedBackup: bool)
      requires IsMac(mac) && InTime(now)
      modifies this
      ensures row == Settled(old(row), snapshot, token, now, mac).0
      ensures valid == !Settled(old(row), snapshot, token, now, mac).1.Refused?
      ensures usedBackup == Settled(old(row), snapshot, token, now, mac).1.ByCode?
      ensures valid && !usedBackup <==>
                exists c: nat :: LowestMatch(snapshot.secret, token, now, mac, c) && Newer(old(row), c)
      ensures usedBackup <==>
                && NoMatch(snapshot.secret, token, now, mac)
                && StripBlanks(Upper(token)) in snapshot.backupCodes && StripBlanks(Upper(token)) in old(row).backupCodes
      ensures usedBackup ==>
                && row.(backupCodes := []) == old(row).(backupCodes := [])
                && forall c :: c in row.backupCodes <==> c in old(row).backupCodes && c != StripBlanks(Upper(token))
    {
      hide MatchOf, NoMatch, LowestMatch, StripBlanks, Upper, Keep;
      MatchIff(snapshot.secret, token, now, mac);
      if NoMatch(snapshot.secret, token, now, mac) {
        CodeAcceptedIff(row, snapshot, token, now, mac);
      }
      var matchedCounter := MatchCounter(snapshot.secret, token, now, mac);
      if matchedCounter.Some? {
        var claimed := ClaimCounter(matchedCounter.value);
        return claimed, false;
      }
      var normalised := StripBlanks(Upper(token));
      if normalised in snapshot.backupCodes {
        var consumed := ConsumeCode(normalised);
        if consumed {
          return true, true;
        }
      }
      return false, false;
    }
  }

  // Runs of concurrent calls

  datatype Call = Call(snapshot: Row, token: string, now: nat)
  datatype State = State(row: Row, calls: map<nat, Call>, accepted: seq<Acceptance>)

  /** A call reads the row, and settles at any later time or, if its process dies, never. */
  datatype Event = Read(id: nat, token: string, now: nat) | Update(id: nat)

  predicate Enabled(s: State, e: Event) {
    match e
    case Read(id, _, now) => id !in s.calls && InTime(now)
    case Update(id) => id in s.calls && InTime(s.calls[id].now)
  }

  ghost function Apply(s: State, e: Event, mac: Mac): State
    requires IsMac(mac) && Enabled(s, e)
  {
    match e
    case Read(id, token, now) => s.(calls := s.calls[id := Call(s.row, token, now)])
    case Update(id) =>
      var (row, a) := Settled(s.row, s.calls[id].snapshot, s.calls[id].token, s.calls[id].now, mac);
      State(row, s.calls - {id}, if a.Refused? then s.accepted else s.accepted + [a])
  }

  ghost predicate Legal(s: State, events: seq<Event>, mac: Mac)
    requires IsMac(mac)
    decreases |events|
  {
    events == [] || (Enabled(s, events[0]) && Legal(Apply(s, events[0], mac), events[1..], mac))
  }

  ghost function Exec(s: State, events: seq<Event>, mac: Mac): State
    requires IsMac(mac) && Legal(s, events, mac)
    decreases |events|
  {
    if events == [] then s else Exec(Apply(s, events[0], mac), events[1..], mac)
  }

  function Counters(accepted: seq<Acceptance>): seq<nat> {
    if accepted == [] then []
    else
      var a := accepted[|accepted| - 1];
      Counters(accepted[..|accepted| - 1]) + if a.ByCounter? then [a.counter] else []
  }

  function Codes(accepted: seq<Acceptance>): seq<string> {
    if accepted == [] then []
    else
      var a := accepted[|accepted| - 1];
      Codes(accepted[..|accepted| - 1]) + if a.ByCode? then [a.code] else []
  }

  ghost predicate Increasing(c: seq<nat>) { forall i, j | 0 <= i < j < |c| :: c[i] < c[j] }

  ghost predicate Distinct(c: seq<string>) { forall i, j | 0 <= i < j < |c| :: c[i] != c[j] }

  /** Every accepted token was right when it was checked, give or take a step. */
  ghost predicate Justified(a: Acceptance, initial: Row, mac: Mac)
    requires IsMac(mac)
  {
    && (a.ByCounter? ==> a.at - 1 <= a.counter <= a.at + 1
                         && Code(Decoded(initial.secret), a.counter, mac) == StripBlanks(a.token))
    && (a.ByCode? ==> a.code in initial.backupCodes)
    && !a.Refused?
  }

  /** What the acceptances so far say about the stored row, given the row the run started from. */
  ghost predicate Ledger(row: Row, accepted: seq<Acceptance>, initial: Row, mac: Mac)
    requires IsMac(mac)
  {
    && row.secret == initial.secret
    && CounterLedger(row.lastUsedCounter, Counters(accepted), initial)
    && Distinct(Codes(accepted))
    && row.backupCodes == Keep(initial.backupCodes, Codes(accepted))
    && forall i | 0 <= i < |accepted| :: Justified(accepted[i], initial, mac)
  }

  ghost predicate CounterLedger(last: Option<nat>, counters: seq<nat>, initial: Row) {
    && Increasing(counters)
    && (forall i | 0 <= i < |counters| :: Newer(initial, counters[i]))
    && last == (if counters == [] then initial.lastUsedCounter else Some(counters[|counters| - 1]))
  }

  ghost predicate Inv(s: State, initial: Row, mac: Mac)
    requires IsMac(mac)
  {
    Ledger(s.row, s.accepted, initial, mac) && forall id | id in s.calls :: s.calls[id].snapshot.secret == initial.secret
  }

  lemma {:induction false} KeepMembers(codes: seq<string>, used: seq<string>, c: string)
    ensures c in Keep(codes, used) <==> c in codes && c !in used
  {
    if codes != [] {
      KeepMembers(codes[..|codes| - 1], used, c);
      assert codes == codes[..|codes| - 1] + [codes[|codes| - 1]];
    }
  }

  lemma {:induction false} KeepAgain(codes: seq<string>, used: seq<string>, c: string)
    ensures Keep(Keep(codes, used), [c]) == Keep(codes, used + [c])
  {
    if codes != [] {
      var n := |codes| - 1;
      KeepAgain(codes[..n], used, c);
      var kept := Keep(codes[..n], used);
      if codes[n] in used {
        assert Keep(codes, used) == kept;
      }
      assert codes[n] in used + [c] <==> codes[n] in used || codes[n] == c;
    }
  }

  lemma {:induction false} KeepAll(codes: seq<string>)
    ensures Keep(codes, []) == codes
  {
    if codes != [] {
      KeepAll(codes[..|codes| - 1]);
    }
  }

  lemma AcceptanceAdded(accepted: seq<Acceptance>, a: Acceptance)
    ensures Counters(accepted + [a]) == if a.ByCounter? then Counters(accepted) + [a.counter] else Counters(accepted)
    ensures Codes(accepted + [a]) == if a.ByCode? then Codes(accepted) + [a.code] else Codes(accepted)
  {
    assert (accepted + [a])[..|accepted|] == accepted;
  }

  lemma CounterAdded(row: Row, counters: seq<nat>, initial: Row, counter: nat)
    requires CounterLedger(row.lastUsedCounter, counters, initial) && Newer(row, counter)
    ensures CounterLedger(Some(counter), counters + [counter], initial)
  {
  }

  lemma CodeAdded(row: Row, codes: seq<string>, initial: Row, code: string)
    requires Distinct(codes) && row.backupCodes == Keep(initial.backupCodes, codes) && code in row.backupCodes
    ensures Distinct(codes + [code]) && code in initial.backupCodes
    ensures Keep(row.backupCodes, [code]) == Keep(initial.backupCodes, codes + [code])
  {
    KeepMembers(initial.backupCodes, codes, code);
    KeepAgain(initial.backupCodes, codes, code);
  }

  lemma SettledKeepsLedger(row: Row, accepted: seq<Acceptance>, snapshot: Row, token: string, now: nat, initial: Row,
                           mac: Mac)
    requires IsMac(mac) && InTime(now)
    requires Ledger(row, accepted, initial, mac) && snapshot.secret == initial.secret
    ensures var (after, a) := Settled(row, snapshot, token, now, mac);
            Ledger(after, if a.Refused? then accepted else accepted + [a], initial, mac)
  {
    hide MatchOf, Code, Keep, Counters, Codes, Decoded, StripBlanks, Upper, Distinct, CounterLedger;
    var (_, a) := Settled(row, snapshot, token, now, mac);
    MatchMeans(snapshot.secret, token, now, mac);
    AcceptanceAdded(accepted, a);
    match a {
      case ByCounter(counter, _, _) => CounterAdded(row, Counters(accepted), initial, counter);
      case ByCode(code) => CodeAdded(row, Codes(accepted), initial, code);
      case Refused =>
    }
  }

  lemma UpdateKeepsInv(s: State, id: nat, initial: Row, mac: Mac)
    requires IsMac(mac) && Enabled(s, Update(id)) && Inv(s, initial, mac)
    ensures Inv(Apply(s, Update(id), mac), initial, mac)
  {
    hide Ledger, Settled;
    var call := s.calls[id];
    SettledKeepsLedger(s.row, s.accepted, call.snapshot, call.token, call.now, initial, mac);
  }

  lemma {:induction false} RunKeepsInv(s: State, events: seq<Event>, initial: Row, mac: Mac)
    requires IsMac(mac) && Legal(s, events, mac) && Inv(s, initial, mac)
    ensures Inv(Exec(s, events, mac), initial, mac)
    decreases |events|
  {
    hide Inv;
    if events != [] {
      match events[0] {
        case Read(id, token, now) => ReadKeepsInv(s, id, token, now, initial, mac);
        case Update(id) => UpdateKeepsInv(s, id, initial, mac);
      }
      RunKeepsInv(Apply(s, events[0], mac), events[1..], initial, mac);
    }
  }

  lemma LedgerSecret(row: Row, accepted: seq<Acceptance>, initial: Row, mac: Mac)
    requires IsMac(mac) && Ledger(row, accepted, initial, mac)
    ensures row.secret == initial.secret
  {
  }

  lemma ReadKeepsInv(s: State, id: nat, token: string, now: nat, initial: Row, mac: Mac)
    requires IsMac(mac) && Enabled(s, Read(id, token, now)) && Inv(s, initial, mac)
    ensures Inv(Apply(s, Read(id, token, now), mac), initial, mac)
  {
    LedgerSecret(s.row, s.accepted, initial, mac);
    hide Ledger;
  }

  /** In every run of concurrent calls with stale reads: accepted counters strictly increase, no
      backup code is accepted twice, the stored codes are the initial ones without exactly the
      accepted ones, and every acceptance was justified when it was checked. */
  lemma AcceptedOnce(initial: Row, events: seq<Event>, mac: Mac)
    requires IsMac(mac) && Legal(State(initial, map[], []), events, mac)
    ensures var s := Exec(State(initial, map[], []), events, mac);
            && Increasing(Counters(s.accepted))
            && Distinct(Codes(s.accepted))
            && s.row.backupCodes == Keep(initial.backupCodes, Codes(s.accepted))
            && forall i | 0 <= i < |s.accepted| :: Justified(s.accepted[i], initial, mac)
  {
    KeepAll(initial.backupCodes);
    RunKeepsInv(State(initial, map[], []), events, initial, mac);
  }

  /** A correct code is accepted if the last accepted counter lies before the whole window. */
  lemma FreshCodeAccepted(row: Row, snapshot: Row, token: string, now: nat, mac: Mac)
    requires IsMac(mac) && InTime(now) && row.secret == snapshot.secret
    requires Code(Decoded(row.secret), now, mac) == StripBlanks(token)
    requires Newer(row, now - 1)
    ensures Settled(row, snapshot, token, now, mac).1.ByCounter?
  {
    hide Code;
    MatchMeans(snapshot.secret, token, now, mac);
  }
}
