/** Cutting the byte stream of a FIX session into raw messages, however it arrives. */
module FixFramer {
  import opened Prelude
  import opened Text

  const SOH: char := '\U{0001}'
  const MARKER: string := "10="

  /** The end of the first raw message: just after the delimiter that follows the first marker. */
  function FirstEnd(s: string): (e: Option<nat>)
    ensures e.Some? ==> 0 < e.value <= |s|
  {
    match Find(s, MARKER, 0)
    case None => None
    case Some(p) =>
      match Find(s, [SOH], p)
      case None => None
      case Some(q) => Some(q + 1)
  }

  /** The complete messages of a stream, and what is left over. */
  function Split(s: string): (seq<string>, string)
    decreases |s|
  {
    match FirstEnd(s)
    case None => ([], s)
    case Some(e) => var (messages, rest) := Split(s[e..]); ([s[..e]] + messages, rest)
  }

  lemma SplitStep(s: string)
    ensures FirstEnd(s) == None ==> Split(s).0 == [] && Split(s).1 == s
    ensures FirstEnd(s).Some? ==>
              var e := FirstEnd(s).value; Split(s).0 == [s[..e]] + Split(s[e..]).0 && Split(s).1 == Split(s[e..]).1
  {
    hide FirstEnd;
  }

  /** Nothing is lost or invented, and what is left over holds no complete message. */
  lemma {:induction false} SplitKeepsStream(s: string)
    ensures Concat(Split(s).0) + Split(s).1 == s
    ensures FirstEnd(Split(s).1) == None
    decreases |s|
  {
    hide FirstEnd, Concat, Split;
    SplitStep(s);
    match FirstEnd(s)
    case None =>
      NothingToConcat();
    case Some(e) =>
      SplitKeepsStream(s[e..]);
      var first, tail := s[..e], s[e..];
      ConcatCons(first, Split(tail).0);
      Associative(first, Concat(Split(tail).0), Split(tail).1);
      assert s == first + tail;
  }

  /** A raw message ends with the first delimiter after its first marker. */
  ghost predicate IsRaw(m: string) { FirstEnd(m) == Some(|m|) }

  lemma FirstEndPrefix(a: string, b: string)
    requires FirstEnd(a).Some?
    ensures FirstEnd(a + b) == FirstEnd(a)
  {
    hide Find;
    var p := Find(a, MARKER, 0).value;
    FindPrefix(a, b, MARKER, 0);
    FindPrefix(a, b, [SOH], p);
  }

  lemma FirstIsRaw(s: string)
    requires FirstEnd(s).Some?
    ensures IsRaw(s[..FirstEnd(s).value])
  {
    hide Occurs, Find;
    var e := FirstEnd(s).value;
    var m, p := s[..e], Find(s, MARKER, 0).value;
    assert s == m + s[e..];
    FindIsFirst(s, MARKER, 0);
    FindIsFirst(s, [SOH], p);
    MarkerBefore(s, p, e - 1);
    OccursPrefix(m, s[e..], MARKER, p);
    forall j | 0 <= j < p ensures !Occurs(m, MARKER, j) { OccursPrefix(m, s[e..], MARKER, j); }
    FindUnique(m, MARKER, 0, p);
    OccursPrefix(m, s[e..], [SOH], e - 1);
    forall j | p <= j < e - 1 ensures !Occurs(m, [SOH], j) { OccursPrefix(m, s[e..], [SOH], j); }
    FindUnique(m, [SOH], p, e - 1);
  }

  /** The delimiter found after a marker lies behind the whole marker. */
  lemma MarkerBefore(s: string, p: nat, q: nat)
    requires Occurs(s, MARKER, p) && p <= q && Occurs(s, [SOH], q)
    ensures p + 3 <= q
  {
    assert s[p] == s[p..p + 3][0] && s[p + 1] == s[p..p + 3][1] && s[p + 2] == s[p..p + 3][2];
    assert s[q] == s[q..q + 1][0];
  }

  lemma {:induction false} SplitIntoRaw(s: string)
    ensures forall i | 0 <= i < |Split(s).0| :: IsRaw(Split(s).0[i])
    decreases |s|
  {
    hide FirstEnd, IsRaw;
    match FirstEnd(s)
    case None =>
    case Some(e) =>
      FirstIsRaw(s);
      SplitIntoRaw(s[e..]);
  }

  /** Splitting what has arrived and then the left-over with what arrives later is splitting it all. */
  lemma {:induction false} SplitAgain(a: string, b: string)
    ensures Split(a + b) == (Split(a).0 + Split(Split(a).1 + b).0, Split(Split(a).1 + b).1)
    decreases |a|
  {
    hide FirstEnd;
    match FirstEnd(a)
    case None =>
      assert [] + Split(a + b).0 == Split(a + b).0;
    case Some(e) =>
      FirstEndPrefix(a, b);
      assert (a + b)[..e] == a[..e] && (a + b)[e..] == a[e..] + b;
      SplitAgain(a[e..], b);
      var first, left := [a[..e]], Split(a[e..]);
      assert first + (left.0 + Split(left.1 + b).0) == first + left.0 + Split(left.1 + b).0;
  }

  /** The session after a series of chunks, starting from some left-over. */
  function Feed(buffer: string, chunks: seq<string>): (seq<string>, string)
    decreases |chunks|
  {
    if chunks == [] then ([], buffer)
    else
      var (first, rest) := Split(buffer + chunks[0]);
      var (later, last) := Feed(rest, chunks[1..]);
      (first + later, last)
  }

  lemma {:induction false} FeedIsSplit(buffer: string, chunks: seq<string>)
    requires FirstEnd(buffer) == None
    ensures Feed(buffer, chunks) == Split(buffer + Concat(chunks))
    decreases |chunks|
  {
    hide FirstEnd;
    if chunks == [] {
      assert buffer + "" == buffer;
    } else {
      var arrived := buffer + chunks[0];
      SplitKeepsStream(arrived);
      FeedIsSplit(Split(arrived).1, chunks[1..]);
      SplitAgain(arrived, Concat(chunks[1..]));
      assert buffer + Concat(chunks) == arrived + Concat(chunks[1..]);
    }
  }

  /** Cutting one stream in two different ways makes no difference, wherever the cuts fall. */
  lemma ChunkInvariance(chunks: seq<string>, others: seq<string>)
    requires Concat(chunks) == Concat(others)
    ensures Feed("", chunks) == Feed("", others) == Split(Concat(chunks))
  {
    FeedIsSplit("", chunks);
    FeedIsSplit("", others);
    assert "" + Concat(chunks) == Concat(chunks);
  }

  class FixSession {
    var buffer: string

    constructor ()
      ensures buffer == ""
    {
      buffer := "";
    }

    /** Takes one chunk and hands out the messages it completes, in order. */
    method OnData(data: string) returns (raws: seq<string>)
      modifies this
      ensures raws == Split(old(buffer) + data).0
      ensures buffer == Split(old(buffer) + data).1
    {
      hide FirstEnd, Find;
      buffer := buffer + data;
      raws := [];
      var start := 0;
      assert buffer[0..] == buffer;
      var pos := Find(buffer, MARKER, start);
      while pos.Some?
        invariant buffer == old(buffer) + data
        invariant 0 <= start <= |buffer| && pos == Find(buffer, MARKER, start)
        invariant Split(buffer).0 == raws + Split(buffer[start..]).0
        invariant Split(buffer).1 == Split(buffer[start..]).1
        decreases |buffer| - start
      {
        EndFrom(buffer, start);
        var soh := Find(buffer, [SOH], pos.value);
        if soh.None? {
          break;
        }
        var raw := buffer[start..soh.value + 1];
        ghost var tail := buffer[start..];
        assert raw == tail[..soh.value + 1 - start] && buffer[soh.value + 1..] == tail[soh.value + 1 - start..];
        start := soh.value + 1;
        assert raws + ([raw] + Split(buffer[start..]).0) == raws + [raw] + Split(buffer[start..]).0;
        raws := raws + [raw];
        pos := Find(buffer, MARKER, start);
      }
      EndFrom(buffer, start);
      assert Split(buffer[start..]) == ([], buffer[start..]) && raws + [] == raws;
      buffer := buffer[start..];
    }
  }

  /** A session that takes its stream in chunks. */
  method Receive(session: FixSession, chunks: seq<string>) returns (raws: seq<string>)
    modifies session
    ensures raws == Feed(old(session.buffer), chunks).0
    ensures session.buffer == Feed(old(session.buffer), chunks).1
    decreases |chunks|
  {
    if chunks == [] {
      return [];
    }
    var first := session.OnData(chunks[0]);
    var later := Receive(session, chunks[1..]);
    raws := first + later;
  }

  /** A series of messages comes out of the stream as it went in exactly if each is a raw message. */
  lemma {:induction false} SplitMessages(messages: seq<string>)
    ensures Split(Concat(messages)) == (messages, "") <==> forall i | 0 <= i < |messages| :: IsRaw(messages[i])
  {
    hide IsRaw;
    if Split(Concat(messages)) == (messages, "") {
      SplitIntoRaw(Concat(messages));
    }
    if forall i | 0 <= i < |messages| :: IsRaw(messages[i]) {
      RawsSplit(messages);
    }
  }

  lemma {:induction false} RawsSplit(messages: seq<string>)
    requires forall i | 0 <= i < |messages| :: IsRaw(messages[i])
    ensures Split(Concat(messages)).0 == messages && Split(Concat(messages)).1 == ""
  {
    hide FirstEnd, Split;
    var stream := Concat(messages);
    SplitStep(stream);
    if messages == [] {
    } else {
      var m, tail := messages[0], messages[1..];
      assert FirstEnd(m) == Some(|m|);
      FirstEndPrefix(m, Concat(tail));
      assert stream == m + Concat(tail);
      assert stream[..|m|] == m && stream[|m|..] == Concat(tail);
      RawsSplit(tail);
      assert messages == [m] + tail;
    }
  }

  /** Where the first message of `s[start..]` ends, found by searching `s` itself from `start`. */
  lemma EndFrom(s: string, start: nat)
    requires start <= |s|
    ensures FirstEnd(s[start..]) ==
            match Find(s, MARKER, start)
            case None => None
            case Some(p) => (match Find(s, [SOH], p) case None => None case Some(q) => Some(q + 1 - start))
  {
    hide Find;
    FindShifted(s, MARKER, start, 0);
    match Find(s, MARKER, start)
    case None =>
    case Some(p) => FindShifted(s, [SOH], start, p - start);
  }
}
