/** Printing and parsing FIX 4.4 messages in tag=value form, BodyLength(9) and CheckSum(10). */
module FixMessage {
  import opened Prelude
  import opened Text
  import opened Decimal
  import opened FixFramer

  type Fields = map<int, string>
  datatype Entry = Entry(tag: nat, value: string)

  // ---------------------------------------------------------------------------------------
  // Parsing
  // ---------------------------------------------------------------------------------------

  /** The pieces between delimiters. */
  function Pieces(s: string): seq<string>
    decreases |s|
  {
    match Find(s, [SOH], 0)
    case None => [s]
    case Some(i) => [s[..i]] + Pieces(s[i + 1..])
  }

  function TrimStart(s: string): string {
    if s != [] && IsBlank(s[0]) then TrimStart(s[1..]) else s
  }

  function LeadingDigits(s: string): (d: string)
    ensures AllDigits(d)
  {
    if s != [] && IsDigit(s[0]) then [s[0]] + LeadingDigits(s[1..]) else []
  }

  /** The number a text starts with, after blanks and a sign, whatever follows it. */
  function ParseInt(s: string): Option<int> {
    var t := TrimStart(s);
    var signed := t != [] && (t[0] == '-' || t[0] == '+');
    var d := LeadingDigits(if signed then t[1..] else t);
    if d == [] then None
    else
      var n: int := Value(d);
      Some(if signed && t[0] == '-' then -n else n)
  }

  function ParsePiece(fields: Fields, piece: string): Fields {
    if piece == [] then fields
    else
      match Find(piece, "=", 0)
      case None => fields
      case Some(eq) =>
        match ParseInt(piece[..eq])
        case None => fields
        case Some(tag) => fields[tag := piece[eq + 1..]]
  }

  function ParsePieces(pieces: seq<string>): Fields {
    if pieces == [] then map[] else ParsePiece(ParsePieces(pieces[..|pieces| - 1]), pieces[|pieces| - 1])
  }

  function Parsed(raw: string): Fields { ParsePieces(Pieces(raw)) }

  method ParseMessage(raw: string) returns (fields: Fields)
    ensures fields == Parsed(raw)
  {
    hide Pieces, ParsePiece;
    fields := map[];
    var pieces := Pieces(raw);
    for i := 0 to |pieces|
      invariant fields == ParsePieces(pieces[..i])
    {
      assert pieces[..i + 1][..i] == pieces[..i];
      fields := ParsePiece(fields, pieces[i]);
    }
    assert pieces[..|pieces|] == pieces;
  }

  // ---------------------------------------------------------------------------------------
  // Printing
  // ---------------------------------------------------------------------------------------

  function FieldText(e: Entry): string { ToDecimal(e.tag) + "=" + e.value }

  /** Every entry followed by a delimiter. */
  function Render(entries: seq<Entry>): string {
    if entries == [] then ""
    else Render(entries[..|entries| - 1]) + FieldText(entries[|entries| - 1]) + [SOH]
  }

  /** The length of a text in UTF-8. */
  function ByteLength(s: string): nat {
    if s == [] then 0
    else
      var c := s[|s| - 1] as int;
      ByteLength(s[..|s| - 1]) + if c < 0x80 then 1 else if c < 0x800 then 2 else if c < 0x1_0000 then 3 else 4
  }

  /** The sum of the UTF-16 code units of a text, which is what the printer adds up. */
  function CodeSum(s: string): nat {
    if s == [] then 0 else CodeSum(s[..|s| - 1]) + CodeUnits(s[|s| - 1])
  }

  function CodeUnits(c: char): nat {
    var n := c as int;
    if n < 0x1_0000 then n else 0xD800 + (n - 0x1_0000) / 0x400 + 0xDC00 + (n - 0x1_0000) % 0x400
  }

  /** The sum of the UTF-8 bytes of a text, which is what the standard adds up. */
  function ByteSum(s: string): nat {
    if s == [] then 0 else ByteSum(s[..|s| - 1]) + Bytes(s[|s| - 1])
  }

  function Bytes(c: char): nat {
    var n := c as int;
    if n < 0x80 then n
    else if n < 0x800 then 0xC0 + n / 0x40 + 0x80 + n % 0x40
    else if n < 0x1_0000 then 0xE0 + n / 0x1000 + 0x80 + n / 0x40 % 0x40 + 0x80 + n % 0x40
    else 0xF0 + n / 0x4_0000 + 0x80 + n / 0x1000 % 0x40 + 0x80 + n / 0x40 % 0x40 + 0x80 + n % 0x40
  }

  function CheckText(sum: nat): string { PadStart(ToDecimal(sum % 256), 3) }

  datatype Order = Order(msgType: string, sender: string, target: string, seqNum: nat, sendingTime: string,
                         body: seq<Entry>)

  /** Everything but the length, the version and the trailer, in printing order. */
  function BodyEntries(o: Order): seq<Entry> {
    [Entry(35, o.msgType), Entry(49, o.sender), Entry(56, o.target), Entry(34, ToDecimal(o.seqNum)),
     Entry(52, o.sendingTime)] + o.body
  }

  function HeaderEntries(o: Order): seq<Entry> {
    [Entry(8, "FIX.4.4"), Entry(9, ToDecimal(ByteLength(Render(BodyEntries(o)))))]
  }

  /** The message without its trailer. */
  function Untrailed(o: Order): string { Render(HeaderEntries(o)) + Render(BodyEntries(o)) }

  function Message(o: Order): string {
    Untrailed(o) + FieldText(Entry(10, CheckText(CodeSum(Untrailed(o))))) + [SOH]
  }

  /** The printer. `body` lists the caller's fields in the order an object lists its numeric keys,
      which is ascending; the clock's reading is part of the request. */
  method BuildMessage(o: Order) returns (m: string)
    ensures m == Message(o)
  {
    hide FieldText, ByteLength, CodeUnits;
    var body := "";
    var fields := [Entry(35, o.msgType), Entry(49, o.sender), Entry(56, o.target), Entry(34, ToDecimal(o.seqNum)),
                   Entry(52, o.sendingTime)];
    for i := 0 to |o.body|
      invariant fields == BodyEntries(o)[..5 + i]
    {
      fields := fields + [o.body[i]];
    }
    assert fields == BodyEntries(o);
    for i := 0 to |fields|
      invariant body == Render(fields[..i])
    {
      assert fields[..i + 1][..i] == fields[..i];
      body := body + FieldText(fields[i]) + [SOH];
    }
    assert fields[..|fields|] == fields;
    var header := "8=FIX.4.4" + [SOH] + "9=" + ToDecimal(ByteLength(body)) + [SOH];
    HeaderText(o);
    var raw := header + body;
    var sum := 0;
    for i := 0 to |raw|
      invariant sum == CodeSum(raw[..i])
    {
      assert raw[..i + 1][..i] == raw[..i];
      sum := sum + CodeUnits(raw[i]);
    }
    assert raw[..|raw|] == raw;
    m := raw + FieldText(Entry(10, CheckText(sum))) + [SOH];
  }

  lemma HeaderText(o: Order)
    ensures Render(HeaderEntries(o)) ==
            "8=FIX.4.4" + [SOH] + "9=" + ToDecimal(ByteLength(Render(BodyEntries(o)))) + [SOH]
  {
    hide ByteLength;
    var h := HeaderEntries(o);
    assert h[..1][..0] == [];
    assert ToDecimal(8) == "8" && ToDecimal(9) == "9";
    assert Render(h[..1]) == "8=FIX.4.4" + [SOH];
  }

  // ---------------------------------------------------------------------------------------
  // Reading back what was printed
  // ---------------------------------------------------------------------------------------

  predicate Delimited(value: string) { SOH !in value }

  /** The last entry for a tag wins. */
  function MapOf(entries: seq<Entry>): Fields {
    if entries == [] then map[]
    else MapOf(entries[..|entries| - 1])[entries[|entries| - 1].tag as int := entries[|entries| - 1].value]
  }

  lemma OverrideThenSet(a: Fields, b: Fields, tag: int, value: string)
    ensures a + b[tag := value] == (a + b)[tag := value]
  {
  }

  lemma {:induction false} MapConcat(a: seq<Entry>, b: seq<Entry>)
    ensures MapOf(a + b) == MapOf(a) + MapOf(b)
  {
    if b == [] {
      assert a + b == a;
    } else {
      var n := |b| - 1;
      MapConcat(a, b[..n]);
      assert (a + b)[..|a + b| - 1] == a + b[..n];
      assert (a + b)[|a + b| - 1] == b[n];
      OverrideThenSet(MapOf(a), MapOf(b[..n]), b[n].tag as int, b[n].value);
    }
  }

  lemma {:induction false} RenderConcat(a: seq<Entry>, b: seq<Entry>)
    ensures Render(a + b) == Render(a) + Render(b)
  {
    hide FieldText;
    if b == [] {
      assert a + b == a;
    } else {
      var n := |b| - 1;
      RenderConcat(a, b[..n]);
      assert (a + b)[..|a + b| - 1] == a + b[..n];
      Associative(Render(a), Render(b[..n]), FieldText(b[n]));
      Associative(Render(a), Render(b[..n]) + FieldText(b[n]), [SOH]);
    }
  }

  lemma {:induction false} DigitsLead(s: string)
    requires AllDigits(s)
    ensures LeadingDigits(s) == s
  {
    if s != [] {
      DigitsLead(s[1..]);
      assert s == [s[0]] + s[1..];
    }
  }

  /** A printed tag reads back as the number it is. */
  lemma TagParsed(tag: nat)
    ensures ParseInt(ToDecimal(tag)) == Some(tag as int)
    ensures AllDigits(ToDecimal(tag))
  {
    hide ToDecimal, Value;
    DecimalValue(tag);
    var t := ToDecimal(tag);
    assert IsDigit(t[0]);
    DigitsLead(t);
  }

  lemma {:induction false} BlanksTrimmed(blanks: string, s: string)
    requires forall i | 0 <= i < |blanks| :: IsBlank(blanks[i])
    requires s == "" || !IsBlank(s[0])
    ensures TrimStart(blanks + s) == s
  {
    if blanks == "" {
      assert blanks + s == s;
    } else {
      BlanksTrimmed(blanks[1..], s);
      assert (blanks + s)[1..] == blanks[1..] + s;
    }
  }

  lemma {:induction false} DigitsBeforeRest(digits: string, rest: string)
    requires AllDigits(digits) && (rest == "" || !IsDigit(rest[0]))
    ensures LeadingDigits(digits + rest) == digits
  {
    if digits == "" {
      assert digits + rest == rest;
    } else {
      DigitsBeforeRest(digits[1..], rest);
      assert (digits + rest)[1..] == digits[1..] + rest;
    }
  }

  /** The parser of tags reads blanks, a sign and digits, ignores what follows, and finds no number only where
      there are no digits. */
  lemma LenientTag(blanks: string, sign: string, digits: string, rest: string)
    requires forall i | 0 <= i < |blanks| :: IsBlank(blanks[i])
    requires sign in {"", "+", "-"} && AllDigits(digits) && (rest == "" || !IsDigit(rest[0]))
    requires digits == "" && sign == "" && rest != "" ==> !IsBlank(rest[0]) && rest[0] !in {'+', '-'}
    ensures var n: int := Value(digits);
            ParseInt(blanks + (sign + digits + rest)) == if digits == "" then None else Some(if sign == "-" then -n else n)
  {
    var t := sign + digits + rest;
    hide Value, AllDigits, TrimStart, LeadingDigits;
    assert t == "" || !IsBlank(t[0]) by {
      assert t != "" ==> t[0] == if sign != "" then sign[0] else if digits != "" then digits[0] else rest[0];
      assert digits != "" ==> IsDigit(digits[0]) by { FirstDigit(digits); }
    }
    BlanksTrimmed(blanks, t);
    DigitsBeforeRest(digits, rest);
    if sign == "" {
      assert t == digits + rest;
      assert digits != "" ==> IsDigit(t[0]) by { FirstDigit(digits); }
    } else {
      assert t[1..] == digits + rest;
    }
  }

  lemma FirstDigit(digits: string)
    requires AllDigits(digits)
    ensures digits != "" ==> IsDigit(digits[0])
  {
  }

  lemma EqualsFound(digits: string, value: string)
    requires AllDigits(digits)
    ensures Find(digits + "=" + value, "=", 0) == Some(|digits|)
  {
    hide Find;
    var s := digits + "=" + value;
    assert s[|digits|..|digits| + 1] == "=";
    forall j | 0 <= j < |digits|
      ensures !Occurs(s, "=", j)
    {
      assert s[j] == digits[j] && IsDigit(digits[j]);
      assert s[j..j + 1][0] == s[j];
    }
    FindUnique(s, "=", 0, |digits|);
  }

  lemma FieldParsed(fields: Fields, e: Entry)
    ensures ParsePiece(fields, FieldText(e)) == fields[e.tag as int := e.value]
  {
    hide Find, ToDecimal, ParseInt, AllDigits;
    var digits, piece := ToDecimal(e.tag), FieldText(e);
    TagParsed(e.tag);
    EqualsFound(digits, e.value);
    assert piece[..|digits|] == digits && piece[|digits| + 1..] == e.value;
  }

  /** The first piece of a text that starts with a delimiter-free one. */
  lemma FirstPiece(f: string, rest: string)
    requires Delimited(f)
    ensures Pieces(f + [SOH] + rest) == [f] + Pieces(rest)
  {
    hide Find;
    var s := f + [SOH] + rest;
    assert s[|f|..|f| + 1] == [SOH];
    forall j | 0 <= j < |f|
      ensures !Occurs(s, [SOH], j)
    {
      assert s[j] == f[j];
      assert s[j..j + 1][0] == s[j];
    }
    FindUnique(s, [SOH], 0, |f|);
    assert s[..|f|] == f && s[|f| + 1..] == rest;
  }

  function Texts(entries: seq<Entry>): (t: seq<string>)
    ensures |t| == |entries|
  {
    seq(|entries|, i requires 0 <= i < |entries| => FieldText(entries[i]))
  }

  lemma FieldDelimited(e: Entry)
    requires Delimited(e.value)
    ensures Delimited(FieldText(e)) && FieldText(e) != []
  {
    hide ToDecimal;
    DecimalValue(e.tag);
    forall i | 0 <= i < |FieldText(e)|
      ensures FieldText(e)[i] != SOH
    {
      if i < |ToDecimal(e.tag)| {
        assert IsDigit(ToDecimal(e.tag)[i]);
      } else if i > |ToDecimal(e.tag)| {
        assert FieldText(e)[i] == e.value[i - |ToDecimal(e.tag)| - 1];
      }
    }
  }

  ghost predicate AllDelimited(entries: seq<Entry>) { forall i | 0 <= i < |entries| :: Delimited(entries[i].value) }

  lemma {:induction false} PiecesOfRender(entries: seq<Entry>)
    requires AllDelimited(entries)
    ensures Pieces(Render(entries)) == Texts(entries) + [""]
  {
    hide FieldText, Pieces, Render, Delimited;
    if entries == [] {
      EmptyPieces();
    } else {
      var e, rest := entries[0], entries[1..];
      assert entries == [e] + rest;
      RenderConcat([e], rest);
      RenderOne(e);
      FieldDelimited(e);
      FirstPiece(FieldText(e), Render(rest));
      PiecesOfRender(rest);
      assert Texts(entries) == [FieldText(e)] + Texts(rest);
    }
  }

  lemma EmptyPieces()
    ensures Render([]) == "" && Pieces("") == [""]
  {
  }

  lemma RenderOne(e: Entry)
    ensures Render([e]) == FieldText(e) + [SOH]
  {
    hide FieldText;
    assert [e][..0] == [];
  }

  lemma {:induction false} TextsParsed(entries: seq<Entry>)
    ensures ParsePieces(Texts(entries)) == MapOf(entries)
  {
    hide FieldText, ParsePiece;
    if entries != [] {
      var n := |entries| - 1;
      TextsParsed(entries[..n]);
      assert Texts(entries)[..n] == Texts(entries[..n]);
      FieldParsed(MapOf(entries[..n]), entries[n]);
    }
  }

  /** Parsing what was printed gives every field back, the last of each tag. */
  lemma RenderParsed(entries: seq<Entry>)
    requires AllDelimited(entries)
    ensures Parsed(Render(entries)) == MapOf(entries)
  {
    hide ParsePiece, Pieces, Render, MapOf;
    PiecesOfRender(entries);
    TextsParsed(entries);
    var texts := Texts(entries);
    assert (texts + [""])[..|texts|] == texts;
    EmptyPiece(ParsePieces(texts));
  }

  lemma EmptyPiece(fields: Fields)
    ensures ParsePiece(fields, "") == fields
  {
  }

  function Trailer(o: Order): Entry { Entry(10, CheckText(CodeSum(Untrailed(o)))) }

  lemma MessageIsRender(o: Order)
    ensures Message(o) == Render(HeaderEntries(o) + BodyEntries(o) + [Trailer(o)])
  {
    hide Render, FieldText, HeaderEntries, BodyEntries, CodeSum, CheckText;
    RenderConcat(HeaderEntries(o), BodyEntries(o));
    RenderConcat(HeaderEntries(o) + BodyEntries(o), [Trailer(o)]);
    RenderOne(Trailer(o));
    Associative(Untrailed(o), FieldText(Trailer(o)), [SOH]);
  }

  lemma CheckTextShape(sum: nat)
    ensures |CheckText(sum)| == 3 && AllDigits(CheckText(sum)) && Value(CheckText(sum)) == sum % 256
  {
    assert Pow10(3) == 1000;
    FixedWidth(sum % 256, 3);
  }

  lemma DigitsDelimited(s: string)
    requires AllDigits(s)
    ensures Delimited(s)
  {
  }

  /** The values the caller supplied. */
  ghost predicate GivenDelimited(o: Order) {
    Delimited(o.msgType) && Delimited(o.sender) && Delimited(o.target) && Delimited(o.sendingTime) && AllDelimited(o.body)
  }

  lemma EntriesDelimited(o: Order)
    requires GivenDelimited(o)
    ensures AllDelimited(HeaderEntries(o) + BodyEntries(o) + [Trailer(o)])
  {
    hide Delimited, ByteLength, CodeSum, CheckText, Render, ToDecimal;
    DecimalValue(o.seqNum);
    DigitsDelimited(ToDecimal(o.seqNum));
    DecimalValue(ByteLength(Render(BodyEntries(o))));
    DigitsDelimited(ToDecimal(ByteLength(Render(BodyEntries(o)))));
    CheckTextShape(CodeSum(Untrailed(o)));
    DigitsDelimited(CheckText(CodeSum(Untrailed(o))));
    VersionDelimited();
  }

  lemma VersionDelimited()
    ensures Delimited("FIX.4.4")
  {
  }

  /** Parsing a printed message gives back exactly its header, the caller's fields (a field of the
      caller's replaces a header field of its tag) and the check sum. */
  lemma RoundTrip(o: Order)
    requires GivenDelimited(o)
    ensures Parsed(Message(o)) == (MapOf(HeaderEntries(o)) + MapOf(BodyEntries(o)))[10 := Trailer(o).value]
  {
    hide Parsed, Message, Render, HeaderEntries, BodyEntries, CheckText, AllDelimited;
    EntriesDelimited(o);
    MessageIsRender(o);
    RenderParsed(HeaderEntries(o) + BodyEntries(o) + [Trailer(o)]);
    MapConcat(HeaderEntries(o), BodyEntries(o));
    MapConcat(HeaderEntries(o) + BodyEntries(o), [Trailer(o)]);
    assert [Trailer(o)][..0] == [];
    assert MapOf([Trailer(o)]) == map[10 := Trailer(o).value];
  }

  lemma {:induction false} PiecesDelimited(s: string)
    ensures forall i | 0 <= i < |Pieces(s)| :: Delimited(Pieces(s)[i])
    decreases |s|
  {
    hide Find, Occurs;
    FindIsFirst(s, [SOH], 0);
    match Find(s, [SOH], 0)
    case None => PrefixDelimited(s, |s|);
    case Some(i) =>
      PrefixDelimited(s, i);
      PiecesDelimited(s[i + 1..]);
  }

  lemma PrefixDelimited(s: string, i: nat)
    requires i <= |s| && forall j | 0 <= j < i :: !Occurs(s, [SOH], j)
    ensures Delimited(s[..i]) && s[..|s|] == s
  {
    forall j | 0 <= j < i
      ensures s[j] != SOH
    {
      assert !Occurs(s, [SOH], j);
      assert s[j..j + 1] == [s[j]];
    }
  }

  lemma {:induction false} ParsedDelimited(pieces: seq<string>)
    requires forall i | 0 <= i < |pieces| :: Delimited(pieces[i])
    ensures forall tag | tag in ParsePieces(pieces) :: Delimited(ParsePieces(pieces)[tag])
  {
    hide Find, ParseInt;
    if pieces != [] {
      ParsedDelimited(pieces[..|pieces| - 1]);
    }
  }

  /** A caller's field comes back whole exactly when its value holds no delimiter. */
  lemma ValueSurvivesIff(o: Order, i: nat)
    requires i < |o.body| && o.body[i].tag != 10
    requires forall j | i < j < |o.body| :: o.body[j].tag != o.body[i].tag
    requires forall j | 0 <= j < |o.body| && j != i :: Delimited(o.body[j].value)
    requires Delimited(o.msgType) && Delimited(o.sender) && Delimited(o.target) && Delimited(o.sendingTime)
    ensures var fields, e := Parsed(Message(o)), o.body[i];
            (e.tag as int in fields && fields[e.tag as int] == e.value) <==> Delimited(e.value)
  {
    hide Message, Pieces, ParsePieces, MapOf, HeaderEntries, Delimited, CheckText, CodeSum;
    var e := o.body[i];
    if Delimited(e.value) {
      RoundTrip(o);
      var entries := BodyEntries(o);
      assert entries[5 + i] == e;
      assert forall j | 5 + i < j < |entries| :: entries[j] == o.body[j - 5];
      LastWins(entries, 5 + i);
    } else {
      PiecesDelimited(Message(o));
      ParsedDelimited(Pieces(Message(o)));
    }
  }

  lemma {:induction false} LastWins(entries: seq<Entry>, i: nat)
    requires i < |entries| && forall j | i < j < |entries| :: entries[j].tag != entries[i].tag
    ensures entries[i].tag as int in MapOf(entries) && MapOf(entries)[entries[i].tag as int] == entries[i].value
  {
    var n := |entries| - 1;
    if i < n {
      assert entries[n].tag != entries[i].tag;
      LastWins(entries[..n], i);
    }
  }

  /** The order in which an object lists numeric keys. */
  ghost predicate Ascending(entries: seq<Entry>) {
    forall i, j | 0 <= i < j < |entries| :: entries[i].tag < entries[j].tag
  }

  /** Every field the caller gave comes back, unless it claims the trailer's own tag. */
  lemma BodyReturned(o: Order, i: nat)
    requires GivenDelimited(o) && Ascending(o.body) && i < |o.body| && o.body[i].tag != 10
    ensures o.body[i].tag as int in Parsed(Message(o)) && Parsed(Message(o))[o.body[i].tag as int] == o.body[i].value
  {
    hide Message, Parsed, MapOf, HeaderEntries;
    RoundTrip(o);
    var entries := BodyEntries(o);
    assert entries[5 + i] == o.body[i];
    assert forall j | 5 + i < j < |entries| :: entries[j] == o.body[j - 5];
    LastWins(entries, 5 + i);
  }

  ghost predicate Mentions(entries: seq<Entry>, tag: nat) { exists i | 0 <= i < |entries| :: entries[i].tag == tag }

  lemma {:induction false} MentionedTags(entries: seq<Entry>, tag: nat)
    ensures tag as int in MapOf(entries) <==> Mentions(entries, tag)
  {
    if entries != [] {
      var n := |entries| - 1;
      MentionedTags(entries[..n], tag);
      if i :| 0 <= i < n && entries[..n][i].tag == tag {
        assert entries[i].tag == tag;
      }
      if i :| 0 <= i < |entries| && entries[i].tag == tag {
        assert i < n ==> entries[..n][i].tag == tag;
      }
    }
  }

  /** One field as it stands in a message. */
  function Spelled(tag: string, value: string): string { tag + "=" + value + [SOH] }

  /** The text that the length counts, field by field in the printer's order. */
  function Counted(o: Order): string {
    Spelled("35", o.msgType) + (Spelled("49", o.sender) + (Spelled("56", o.target)
    + (Spelled("34", ToDecimal(o.seqNum)) + (Spelled("52", o.sendingTime) + Render(o.body)))))
  }

  lemma FieldSpelled(tag: nat, digits: string, value: string, rest: seq<Entry>)
    requires ToDecimal(tag) == digits
    ensures Render([Entry(tag, value)] + rest) == Spelled(digits, value) + Render(rest)
  {
    hide Render;
    RenderConcat([Entry(tag, value)], rest);
    RenderOne(Entry(tag, value));
  }

  lemma CountedIsRendered(o: Order)
    ensures Render(BodyEntries(o)) == Counted(o)
  {
    hide Render, Spelled;
    var a, b, c, d, e := Entry(35, o.msgType), Entry(49, o.sender), Entry(56, o.target), Entry(34, ToDecimal(o.seqNum)),
                         Entry(52, o.sendingTime);
    assert BodyEntries(o) == [a] + ([b] + ([c] + ([d] + ([e] + o.body))));
    TwoDigits();
    FieldSpelled(52, "52", o.sendingTime, o.body);
    FieldSpelled(34, "34", ToDecimal(o.seqNum), [e] + o.body);
    FieldSpelled(56, "56", o.target, [d] + ([e] + o.body));
    FieldSpelled(49, "49", o.sender, [c] + ([d] + ([e] + o.body)));
    FieldSpelled(35, "35", o.msgType, [b] + ([c] + ([d] + ([e] + o.body))));
  }

  lemma TwoDigits()
    ensures ToDecimal(35) == "35" && ToDecimal(49) == "49" && ToDecimal(56) == "56"
    ensures ToDecimal(34) == "34" && ToDecimal(52) == "52" && ToDecimal(10) == "10"
  {
    assert ToDecimal(3) == "3" && ToDecimal(4) == "4" && ToDecimal(5) == "5" && ToDecimal(1) == "1";
  }

  /** The whole message, spelled out: version, length, the counted text and the check sum. */
  lemma MessageSpelled(o: Order)
    ensures var head := Spelled("8", "FIX.4.4") + Spelled("9", ToDecimal(ByteLength(Counted(o))));
            Message(o) == head + Counted(o) + Spelled("10", CheckText(CodeSum(head + Counted(o))))
  {
    hide Render, ByteLength, CodeSum, CheckText, Counted, BodyEntries;
    HeaderText(o);
    CountedIsRendered(o);
    TrailerText(o);
    var u, length, check := Untrailed(o), ToDecimal(ByteLength(Counted(o))), CheckText(CodeSum(Untrailed(o)));
    HeadSpelled(length);
    assert "10" + "=" == "10=";
    Associative(u, "10=" + check, [SOH]);
  }

  lemma HeadSpelled(length: string)
    ensures "8=FIX.4.4" + [SOH] + "9=" + length + [SOH] == Spelled("8", "FIX.4.4") + Spelled("9", length)
  {
    assert Spelled("8", "FIX.4.4") == "8=FIX.4.4" + [SOH];
    assert "9" + "=" == "9=";
    var start := "8=FIX.4.4" + [SOH];
    Associative(start, "9=", length);
    Associative(start, "9=" + length, [SOH]);
  }

  /** Whoever parses a message finds version, length, type, parties, sequence number and time each at the tag
      that the standard gives it, unless the caller's fields claim that tag. */
  lemma HeaderReturned(o: Order)
    requires GivenDelimited(o)
    ensures var f := Parsed(Message(o));
            && (!Mentions(o.body, 8) ==> Holds(f, 8, "FIX.4.4"))
            && (!Mentions(o.body, 9) ==> Holds(f, 9, ToDecimal(ByteLength(Counted(o)))))
            && (!Mentions(o.body, 35) ==> Holds(f, 35, o.msgType))
            && (!Mentions(o.body, 49) ==> Holds(f, 49, o.sender))
            && (!Mentions(o.body, 56) ==> Holds(f, 56, o.target))
            && (!Mentions(o.body, 34) ==> Holds(f, 34, ToDecimal(o.seqNum)))
            && (!Mentions(o.body, 52) ==> Holds(f, 52, o.sendingTime))
  {
    hide Message, Parsed, GivenDelimited, Counted, ToDecimal, ByteLength, Render;
    RoundTrip(o);
    CountedIsRendered(o);
    FirstTwo(o);
    BodyTag(o, 0);
    BodyTag(o, 1);
    BodyTag(o, 2);
    BodyTag(o, 3);
    BodyTag(o, 4);
    hide MapOf;
    MentionedTags(BodyEntries(o), 8);
    MentionedTags(BodyEntries(o), 9);
    NotInHead(o, 8);
    NotInHead(o, 9);
  }

  lemma FirstTwo(o: Order)
    ensures 8 in MapOf(HeaderEntries(o)) && MapOf(HeaderEntries(o))[8] == "FIX.4.4"
    ensures 9 in MapOf(HeaderEntries(o)) && MapOf(HeaderEntries(o))[9] == ToDecimal(ByteLength(Render(BodyEntries(o))))
  {
    hide ToDecimal, ByteLength, Render, MapOf;
    LastWins(HeaderEntries(o), 0);
    LastWins(HeaderEntries(o), 1);
  }

  lemma NotInHead(o: Order, tag: nat)
    requires tag == 8 || tag == 9
    ensures Mentions(BodyEntries(o), tag) <==> Mentions(o.body, tag)
  {
    var entries := BodyEntries(o);
    assert forall j | 5 <= j < |entries| :: entries[j] == o.body[j - 5];
    if i :| 0 <= i < |o.body| && o.body[i].tag == tag {
      assert entries[i + 5].tag == tag;
    }
  }

  lemma BodyTag(o: Order, i: nat)
    requires i < 5
    ensures !Mentions(o.body, BodyEntries(o)[i].tag) ==>
              Holds(MapOf(BodyEntries(o)), BodyEntries(o)[i].tag, BodyEntries(o)[i].value)
  {
    var entries := BodyEntries(o);
    if !Mentions(o.body, entries[i].tag) {
      assert forall j | 5 <= j < |entries| :: entries[j] == o.body[j - 5];
      LastWins(entries, i);
    }
  }

  datatype Report = Report(orderId: string, clOrdId: string, execId: string, symbol: string, side: string,
                           execType: string, ordStatus: string, cumQty: string, leavesQty: string, avgPx: string,
                           account: string, text: string)

  /** The fields of an execution report as its object lists them; an empty text is left out. */
  function ReportBody(r: Report): seq<Entry> {
    [Entry(1, r.account), Entry(6, r.avgPx), Entry(11, r.clOrdId), Entry(14, r.cumQty), Entry(17, r.execId),
     Entry(37, r.orderId), Entry(39, r.ordStatus), Entry(54, r.side), Entry(55, r.symbol)]
    + (if r.text == "" then [] else [Entry(58, r.text)])
    + [Entry(150, r.execType), Entry(151, r.leavesQty)]
  }

  ghost predicate Holds(fields: Fields, tag: int, value: string) { tag in fields && fields[tag] == value }

  /** A counterparty that parses a report finds each value at its tag. */
  lemma ReportReturned(o: Order, r: Report)
    requires o.body == ReportBody(r) && GivenDelimited(o)
    ensures Carries(Parsed(Message(o)), r)
  {
    hide Message, Parsed, GivenDelimited;
    var f, n := Parsed(Message(o)), |o.body|;
    assert Ascending(o.body);
    forall i | 0 <= i < n
      ensures Holds(f, o.body[i].tag, o.body[i].value)
    {
      BodyReturned(o, i);
    }
    assert o.body[0].tag == 1 && o.body[1].tag == 6 && o.body[2].tag == 11 && o.body[3].tag == 14;
    assert o.body[4].tag == 17 && o.body[5].tag == 37 && o.body[6].tag == 39 && o.body[7].tag == 54;
    assert o.body[8].tag == 55 && o.body[n - 2].tag == 150 && o.body[n - 1].tag == 151;
    assert r.text != "" ==> o.body[9].tag == 58;
  }

  /** Every value of a report, at its tag. */
  ghost predicate Carries(f: Fields, r: Report) {
    && Holds(f, 37, r.orderId) && Holds(f, 11, r.clOrdId) && Holds(f, 17, r.execId) && Holds(f, 55, r.symbol)
    && Holds(f, 54, r.side) && Holds(f, 150, r.execType) && Holds(f, 39, r.ordStatus) && Holds(f, 14, r.cumQty)
    && Holds(f, 151, r.leavesQty) && Holds(f, 6, r.avgPx) && Holds(f, 1, r.account)
    && (r.text != "" ==> Holds(f, 58, r.text))
  }

  /** A report's own fields leave those of the header alone. */
  lemma ReportTags(r: Report)
    ensures forall tag | tag in [8, 9, 34, 35, 49, 52, 56] :: !Mentions(ReportBody(r), tag)
  {
  }

  /** The report reaches a counterparty whole: if no value holds a delimiter, parsing what is sent finds
      every value at its tag, under the type of a report, both parties' names, its number and its time. */
  method BuildExecutionReport(sender: string, target: string, seqNum: nat, sendingTime: string, r: Report)
    returns (m: string)
    ensures var o := Order("8", sender, target, seqNum, sendingTime, ReportBody(r));
            && m == Message(o)
            && (GivenDelimited(o) ==>
                  && Carries(Parsed(m), r)
                  && Holds(Parsed(m), 35, "8") && Holds(Parsed(m), 49, sender) && Holds(Parsed(m), 56, target)
                  && Holds(Parsed(m), 34, ToDecimal(seqNum)) && Holds(Parsed(m), 52, sendingTime))
  {
    hide Message, Parsed, GivenDelimited, ReportBody, Carries, Mentions, ToDecimal;
    var o := Order("8", sender, target, seqNum, sendingTime, ReportBody(r));
    m := BuildMessage(o);
    if GivenDelimited(o) {
      ReportReturned(o, r);
      ReportTags(r);
      HeaderReturned(o);
    }
  }

  // ---------------------------------------------------------------------------------------
  // The standard's own check of a message
  // ---------------------------------------------------------------------------------------

  /** What a receiver checks: version first, then the number of bytes between it and the trailer,
      and in the trailer three digits with the sum of all bytes before it. */
  ghost predicate Conforms(m: string, lengthText: string, body: string, checkText: string) {
    var upToTrailer := "8=FIX.4.4" + [SOH] + "9=" + lengthText + [SOH] + body;
    && m == upToTrailer + "10=" + checkText + [SOH]
    && AllDigits(lengthText) && Value(lengthText) == ByteLength(body)
    && |checkText| == 3 && AllDigits(checkText) && Value(checkText) == ByteSum(upToTrailer) % 256
  }

  /** A byte sequence stands for a character by section 3 of RFC 3629. */
  ghost predicate IsUtf8(b: seq<int>, c: char) {
    var n := c as int;
    && (forall i | 1 <= i < |b| :: 0x80 <= b[i] < 0xC0)
    && ((|b| == 1 && b[0] == n < 0x80)
        || (|b| == 2 && 0xC0 <= b[0] < 0xE0 && 0x80 <= n && n == (b[0] - 0xC0) * 0x40 + (b[1] - 0x80))
        || (|b| == 3 && 0xE0 <= b[0] < 0xF0 && 0x800 <= n
            && n == (b[0] - 0xE0) * 0x1000 + (b[1] - 0x80) * 0x40 + (b[2] - 0x80))
        || (|b| == 4 && 0xF0 <= b[0] < 0xF8 && 0x1_0000 <= n
            && n == (b[0] - 0xF0) * 0x4_0000 + (b[1] - 0x80) * 0x1000 + (b[2] - 0x80) * 0x40 + (b[3] - 0x80)))
  }

  /** One 16-bit unit or a surrogate pair stands for a character by section 2 of RFC 2781. */
  ghost predicate IsUtf16(u: seq<int>, c: char) {
    var n := c as int;
    || (|u| == 1 && u[0] == n < 0x1_0000)
    || (|u| == 2 && 0xD800 <= u[0] < 0xDC00 <= u[1] < 0xE000
        && n == 0x1_0000 + (u[0] - 0xD800) * 0x400 + (u[1] - 0xDC00))
  }

  function Total(b: seq<int>): int { if b == [] then 0 else Total(b[..|b| - 1]) + b[|b| - 1] }

  lemma TotalOfFew(b: seq<int>)
    ensures |b| == 1 ==> Total(b) == b[0]
    ensures |b| == 2 ==> Total(b) == b[0] + b[1]
    ensures |b| == 3 ==> Total(b) == b[0] + b[1] + b[2]
    ensures |b| == 4 ==> Total(b) == b[0] + b[1] + b[2] + b[3]
  {
    if 1 <= |b| <= 4 {
      var n := |b| - 1;
      assert n >= 1 ==> b[..n][..n - 1] == b[..n - 1];
      assert n >= 2 ==> b[..n - 1][..n - 2] == b[..n - 2];
      assert n >= 3 ==> b[..n - 2][..n - 3] == b[..n - 3];
    }
  }

  lemma Sextets(n: nat, a: nat, b: nat, c: nat, d: nat)
    requires n == a * 0x4_0000 + b * 0x1000 + c * 0x40 + d && b < 0x40 && c < 0x40 && d < 0x40
    ensures n / 0x4_0000 == a && n / 0x1000 == a * 0x40 + b && n / 0x40 == (a * 0x40 + b) * 0x40 + c
    ensures n / 0x1000 % 0x40 == b && n / 0x40 % 0x40 == c && n % 0x40 == d
  {
  }

  /** Whatever bytes stand for a character, they are as many and as much as is counted for it. */
  lemma BytesCounted(c: char, b: seq<int>)
    requires IsUtf8(b, c)
    ensures |b| == ByteLength([c]) && Total(b) == Bytes(c)
  {
    TotalOfFew(b);
    var n := c as int;
    assert [c][..0] == [];
    if |b| == 2 {
      Sextets(n, 0, 0, b[0] - 0xC0, b[1] - 0x80);
    } else if |b| == 3 {
      Sextets(n, 0, b[0] - 0xE0, b[1] - 0x80, b[2] - 0x80);
    } else if |b| == 4 {
      Sextets(n, b[0] - 0xF0, b[1] - 0x80, b[2] - 0x80, b[3] - 0x80);
    }
  }

  /** And so are its 16-bit units. */
  lemma UnitsCounted(c: char, u: seq<int>)
    requires IsUtf16(u, c)
    ensures Total(u) == CodeUnits(c)
  {
    TotalOfFew(u);
  }

  ghost predicate Ascii(s: string) { forall i | 0 <= i < |s| :: s[i] as int < 0x80 }

  lemma {:induction false} AsciiSums(s: string)
    requires Ascii(s)
    ensures CodeSum(s) == ByteSum(s) && ByteLength(s) == |s|
  {
    if s != [] {
      AsciiSums(s[..|s| - 1]);
    }
  }

  /** A printed message passes the standard's check whenever its code units and its bytes have the
      same sum modulo 256, for an ASCII message in particular. */
  lemma Printed(o: Order)
    ensures Conforms(Message(o), ToDecimal(ByteLength(Render(BodyEntries(o)))), Render(BodyEntries(o)),
                     CheckText(CodeSum(Untrailed(o))))
       <==> CodeSum(Untrailed(o)) % 256 == ByteSum(Untrailed(o)) % 256
    ensures Ascii(Untrailed(o)) ==> CodeSum(Untrailed(o)) == ByteSum(Untrailed(o))
  {
    hide CodeSum, ByteSum, Render, ByteLength, CheckText, BodyEntries, HeaderEntries;
    HeaderText(o);
    DecimalValue(ByteLength(Render(BodyEntries(o))));
    CheckTextShape(CodeSum(Untrailed(o)));
    TrailerText(o);
    var u, c := Untrailed(o), Trailer(o).value;
    Associative(u, "10=", c);
    if Ascii(u) {
      AsciiSums(u);
    }
  }

  /** By how much the code units of a text exceed its bytes. */
  function Gap(s: string): int { CodeSum(s) - ByteSum(s) }

  lemma {:induction false} GapConcat(a: string, b: string)
    ensures Gap(a + b) == Gap(a) + Gap(b)
  {
    hide CodeUnits, Bytes;
    if b == [] {
      assert a + b == a;
    } else {
      GapConcat(a, b[..|b| - 1]);
      assert (a + b)[..|a + b| - 1] == a + b[..|b| - 1];
    }
  }

  lemma AsciiGap(s: string)
    requires Ascii(s)
    ensures Gap(s) == 0
  {
    AsciiSums(s);
  }

  function ValueGaps(entries: seq<Entry>): int {
    if entries == [] then 0 else ValueGaps(entries[..|entries| - 1]) + Gap(entries[|entries| - 1].value)
  }

  lemma FieldGap(e: Entry)
    ensures Gap(FieldText(e) + [SOH]) == Gap(e.value)
  {
    hide Gap;
    var d := ToDecimal(e.tag);
    DecimalValue(e.tag);
    AsciiGap(d + "=");
    GapConcat(d + "=", e.value);
    GapConcat(FieldText(e), [SOH]);
    AsciiGap([SOH]);
  }

  /** Only values can open a gap: tags and delimiters are ASCII. */
  lemma {:induction false} RenderGap(entries: seq<Entry>)
    ensures Gap(Render(entries)) == ValueGaps(entries)
  {
    hide Gap, FieldText;
    if entries == [] {
      AsciiGap("");
    } else {
      var n := |entries| - 1;
      RenderGap(entries[..n]);
      FieldGap(entries[n]);
      Associative(Render(entries[..n]), FieldText(entries[n]), [SOH]);
      GapConcat(Render(entries[..n]), FieldText(entries[n]) + [SOH]);
    }
  }

  lemma {:induction false} GapsConcat(a: seq<Entry>, b: seq<Entry>)
    ensures ValueGaps(a + b) == ValueGaps(a) + ValueGaps(b)
  {
    hide Gap;
    if b == [] {
      assert a + b == a;
    } else {
      GapsConcat(a, b[..|b| - 1]);
      assert (a + b)[..|a + b| - 1] == a + b[..|b| - 1];
    }
  }

  lemma OneGap(e: Entry)
    ensures ValueGaps([e]) == Gap(e.value)
  {
    hide Gap;
    assert [e][..0] == [];
  }

  lemma TwoGaps(e: Entry, f: Entry)
    ensures ValueGaps([e, f]) == Gap(e.value) + Gap(f.value)
  {
    hide Gap;
    assert [e, f][..1] == [e];
    OneGap(e);
  }

  /** The gap of the values the caller chose. */
  function CallerGap(o: Order): int {
    Gap(o.msgType) + Gap(o.sender) + Gap(o.target) + Gap(o.sendingTime) + ValueGaps(o.body)
  }

  lemma UntrailedGap(o: Order)
    ensures Gap(Untrailed(o)) == CallerGap(o)
  {
    hide Gap, Render, FieldText, ByteLength;
    RenderGap(HeaderEntries(o));
    RenderGap(BodyEntries(o));
    GapConcat(Render(HeaderEntries(o)), Render(BodyEntries(o)));
    var length := ToDecimal(ByteLength(Render(BodyEntries(o))));
    DecimalValue(ByteLength(Render(BodyEntries(o))));
    AsciiGap(length);
    AsciiGap("FIX.4.4");
    TwoGaps(Entry(8, "FIX.4.4"), Entry(9, length));
    FixedGaps(o);
  }

  lemma FixedGaps(o: Order)
    ensures ValueGaps(BodyEntries(o)) == CallerGap(o)
  {
    hide Gap;
    var seqNum := ToDecimal(o.seqNum);
    DecimalValue(o.seqNum);
    AsciiGap(seqNum);
    var a, b, c := [Entry(35, o.msgType), Entry(49, o.sender)], [Entry(56, o.target), Entry(34, seqNum)],
                   [Entry(52, o.sendingTime)];
    TwoGaps(a[0], a[1]);
    TwoGaps(b[0], b[1]);
    OneGap(c[0]);
    GapsConcat(a, b);
    GapsConcat(a + b, c);
    GapsConcat(a + b + c, o.body);
    assert BodyEntries(o) == a + b + c + o.body;
  }

  /** So a printed message passes the standard's check if and only if the values its caller chose have,
      all together, as many code units as bytes, modulo 256. */
  lemma ConformsIff(o: Order)
    ensures Conforms(Message(o), ToDecimal(ByteLength(Render(BodyEntries(o)))), Render(BodyEntries(o)),
                     CheckText(CodeSum(Untrailed(o))))
       <==> CallerGap(o) % 256 == 0
  {
    hide Conforms, Message, Render, BodyEntries, Untrailed, CodeSum, ByteSum, CheckText, CallerGap;
    Printed(o);
    UntrailedGap(o);
  }

  lemma {:induction false} AsciiGaps(entries: seq<Entry>)
    requires forall i | 0 <= i < |entries| :: Ascii(entries[i].value)
    ensures ValueGaps(entries) == 0
  {
    hide Gap;
    if entries != [] {
      AsciiGaps(entries[..|entries| - 1]);
      AsciiGap(entries[|entries| - 1].value);
    }
  }

  /** One letter outside ASCII, in one value of an otherwise plain message, is enough to fail it: e-acute
      is one code unit, 233, but two bytes, 195 and 169. */
  lemma NonAsciiChecksum(o: Order, before: seq<Entry>, tag: nat, left: string, right: string, after: seq<Entry>)
    requires Ascii(o.msgType) && Ascii(o.sender) && Ascii(o.target) && Ascii(o.sendingTime)
    requires o.body == before + [Entry(tag, left + "\U{E9}" + right)] + after && Ascii(left) && Ascii(right)
    requires forall i | 0 <= i < |before| :: Ascii(before[i].value)
    requires forall i | 0 <= i < |after| :: Ascii(after[i].value)
    ensures !Conforms(Message(o), ToDecimal(ByteLength(Render(BodyEntries(o)))), Render(BodyEntries(o)),
                      CheckText(CodeSum(Untrailed(o))))
  {
    hide Conforms, Message, Render, BodyEntries, Untrailed, ByteLength, CheckText;
    var e := Entry(tag, left + "\U{E9}" + right);
    ConformsIff(o);
    AsciiGap(o.msgType);
    AsciiGap(o.sender);
    AsciiGap(o.target);
    AsciiGap(o.sendingTime);
    AsciiGap(left);
    AsciiGap(right);
    AsciiGaps(before);
    AsciiGaps(after);
    GapsConcat(before + [e], after);
    GapsConcat(before, [e]);
    OneGap(e);
    GapConcat(left + "\U{E9}", right);
    GapConcat(left, "\U{E9}");
    EAcuteGap();
    hide Gap;
  }

  lemma EAcuteGap()
    ensures Gap("\U{E9}") == 233 - 364
  {
    assert "\U{E9}"[..0] == "";
    assert CodeUnits('\U{E9}') == 233 && Bytes('\U{E9}') == 364;
  }

  // ---------------------------------------------------------------------------------------
  // Printed messages in a stream
  // ---------------------------------------------------------------------------------------

  /** No printed field shows the marker of the trailer. */
  ghost predicate Unmarked(entries: seq<Entry>) {
    forall i | 0 <= i < |entries| :: !Contains(FieldText(entries[i]), MARKER)
  }

  ghost predicate Closed(s: string) { s == "" || s[|s| - 1] == SOH }

  /** The marker holds no delimiter, so it never reaches across one. */
  lemma MarkerInOnePiece(a: string, f: string, i: int)
    requires Closed(a) && Occurs(a + f, MARKER, i)
    ensures if i < |a| then Occurs(a, MARKER, i) else Occurs(f, MARKER, i - |a|)
  {
    var s := a + f;
    var w := s[i..i + 3];
    assert w[0] == s[i] && w[1] == s[i + 1] && w[2] == s[i + 2];
    assert |a| > 0 ==> s[|a| - 1] == a[|a| - 1];
    if i < |a| < i + 3 {
      assert false;
    } else if i < |a| {
      OccursPrefix(a, f, MARKER, i);
    } else {
      assert s[|a|..] == f;
      OccursShifted(s, MARKER, |a|, i - |a|);
    }
  }

  lemma MarkerBeforeEnd(f: string, i: int)
    requires Occurs(f + [SOH], MARKER, i)
    ensures Occurs(f, MARKER, i)
  {
    var s := f + [SOH];
    assert s[i..i + 3][2] == s[i + 2];
    if i + 3 == |s| {
      assert false;
    } else {
      OccursPrefix(f, [SOH], MARKER, i);
    }
  }

  lemma ContainsIff(a: string, f: string)
    requires Closed(a)
    ensures Contains(a + f + [SOH], MARKER) <==> Contains(a, MARKER) || Contains(f, MARKER)
  {
    hide Closed;
    var s := a + f + [SOH];
    if Contains(s, MARKER) {
      var i :| Occurs(s, MARKER, i);
      MarkerBeforeEnd(a + f, i);
      MarkerInOnePiece(a, f, i);
    }
    if i :| Occurs(a, MARKER, i) {
      OccursPrefix(a, f + [SOH], MARKER, i);
      Associative(a, f, [SOH]);
      assert Occurs(s, MARKER, i);
    }
    if i :| Occurs(f, MARKER, i) {
      OccursPrefix(f, [SOH], MARKER, i);
      Associative(a, f, [SOH]);
      assert s[|a|..] == f + [SOH];
      OccursShifted(s, MARKER, |a|, i);
      assert Occurs(s, MARKER, i + |a|);
    }
  }

  lemma {:induction false} RenderMarked(entries: seq<Entry>)
    ensures Closed(Render(entries))
    ensures Contains(Render(entries), MARKER) <==> !Unmarked(entries)
  {
    hide FieldText, Contains;
    if entries == [] {
      NothingContained();
    } else {
      var n := |entries| - 1;
      RenderMarked(entries[..n]);
      ContainsIff(Render(entries[..n]), FieldText(entries[n]));
      assert forall i | 0 <= i < n :: entries[..n][i] == entries[i];
    }
  }

  lemma NothingContained()
    ensures !Contains("", MARKER)
  {
  }

  /** A text of fields and its trailer are one raw message exactly if no field shows the marker. */
  lemma RawIffUnmarked(u: string, digits: string)
    requires Closed(u) && AllDigits(digits)
    ensures IsRaw(u + "10=" + digits + [SOH]) <==> !Contains(u, MARKER)
  {
    hide Find, Closed;
    var m := u + "10=" + digits + [SOH];
    assert m[|u|..|u| + 3] == MARKER;
    assert m == u + ("10=" + digits + [SOH]);
    FindIsFirst(m, MARKER, 0);
    if i :| Occurs(u, MARKER, i) {
      OccursPrefix(u, "10=" + digits + [SOH], MARKER, i);
      MarkedTooEarly(u, "10=" + digits + [SOH], i);
    } else {
      forall j | 0 <= j < |u|
        ensures !Occurs(m, MARKER, j)
      {
        if Occurs(m, MARKER, j) {
          MarkerInOnePiece(u, "10=" + digits + [SOH], j);
        }
      }
      FindUnique(m, MARKER, 0, |u|);
      TrailerEnd(u, digits);
    }
  }

  /** A marker inside the fields ends the message at a delimiter inside the fields. */
  lemma MarkedTooEarly(u: string, tail: string, i: int)
    requires Closed(u) && Occurs(u, MARKER, i) && tail != []
    ensures !IsRaw(u + tail)
  {
    hide Find;
    var m := u + tail;
    FindIsFirst(m, MARKER, 0);
    OccursPrefix(u, tail, MARKER, i);
    var p := Find(m, MARKER, 0).value;
    assert p <= i;
    assert m[|u| - 1..|u|] == [SOH];
    assert Occurs(m, [SOH], |u| - 1);
    FindIsFirst(m, [SOH], p);
  }

  lemma TrailerEnd(u: string, digits: string)
    requires AllDigits(digits)
    ensures var m := u + "10=" + digits + [SOH]; Find(m, [SOH], |u|) == Some(|m| - 1)
  {
    hide Find;
    var m := u + "10=" + digits + [SOH];
    assert m[|m| - 1..|m|] == [SOH];
    forall j | |u| <= j < |m| - 1
      ensures !Occurs(m, [SOH], j)
    {
      assert m[j..j + 1] == [m[j]];
      if j >= |u| + 3 {
        assert m[j] == digits[j - |u| - 3];
        assert IsDigit(digits[j - |u| - 3]);
      } else {
        assert m[j] == "10="[j - |u|];
      }
    }
    FindUnique(m, [SOH], |u|, |m| - 1);
  }

  /** Where a field can show the marker: at a tag that ends in ten, or in its value. */
  lemma MarkedField(e: Entry)
    ensures Contains(FieldText(e), MARKER) <==> (e.tag >= 10 && e.tag % 100 == 10) || Contains(e.value, MARKER)
  {
    hide Contains, Occurs;
    var d, f := ToDecimal(e.tag), FieldText(e);
    DecimalValue(e.tag);
    TagEnd(e.tag);
    MarkedFieldText(d, e.value);
  }

  predicate EndsWith(s: string, t: string) { |t| <= |s| && s[|s| - |t|..] == t }

  lemma TagEnd(tag: nat)
    ensures EndsWith(ToDecimal(tag), "10") <==> tag >= 10 && tag % 100 == 10
  {
    hide DigitChar;
    DigitsOfTen(tag);
    if tag >= 10 {
      var t := ToDecimal(tag / 10);
      assert t == t[..|t| - 1] + [DigitChar(tag / 10 % 10)];
      assert ToDecimal(tag) == t[..|t| - 1] + [DigitChar(tag / 10 % 10), DigitChar(tag % 10)];
      assert EndsWith(ToDecimal(tag), "10") <==> [DigitChar(tag / 10 % 10), DigitChar(tag % 10)] == "10";
    }
  }

  lemma DigitsOfTen(tag: nat)
    ensures tag % 100 == 10 <==> tag / 10 % 10 == 1 && tag % 10 == 0
    ensures DigitChar(tag / 10 % 10) == '1' <==> tag / 10 % 10 == 1
    ensures DigitChar(tag % 10) == '0' <==> tag % 10 == 0
  {
  }

  lemma MarkedFieldText(d: string, value: string)
    requires AllDigits(d) && d != []
    ensures Contains(d + "=" + value, MARKER) <==> EndsWith(d, "10") || Contains(value, MARKER)
  {
    var f := d + "=" + value;
    var n := |d|;
    assert f[n + 1..] == value;
    if EndsWith(d, "10") {
      assert f[n - 2..n + 1] == MARKER;
      assert Occurs(f, MARKER, n - 2);
    }
    if i :| Occurs(value, MARKER, i) {
      OccursShifted(f, MARKER, n + 1, i);
      assert Occurs(f, MARKER, i + n + 1);
    }
    if i :| Occurs(f, MARKER, i) {
      var w := f[i..i + 3];
      assert w[0] == f[i] && w[1] == f[i + 1] && w[2] == f[i + 2];
      if i > n {
        OccursShifted(f, MARKER, n + 1, i - n - 1);
        assert Occurs(value, MARKER, i - n - 1);
      } else if i + 2 < n {
        assert IsDigit(f[i + 2]);
      } else if i + 2 == n {
        assert d[n - 2..] == [f[i], f[i + 1]];
      } else {
        assert f[n] == '=';
      }
    }
  }

  lemma TrailerText(o: Order)
    ensures FieldText(Trailer(o)) == "10=" + CheckText(CodeSum(Untrailed(o)))
  {
    hide CheckText, CodeSum, Untrailed;
    assert ToDecimal(10) == "10";
  }

  /** A printed message is one raw message of a stream exactly if no field of it shows the marker. */
  lemma MessageIsRawIff(o: Order)
    ensures IsRaw(Message(o)) <==> Unmarked(HeaderEntries(o) + BodyEntries(o))
  {
    hide Render, HeaderEntries, BodyEntries, CodeSum, CheckText, IsRaw, Contains, Unmarked, Closed;
    var u, sum := Untrailed(o), CodeSum(Untrailed(o));
    RenderConcat(HeaderEntries(o), BodyEntries(o));
    RenderMarked(HeaderEntries(o) + BodyEntries(o));
    CheckTextShape(sum);
    RawIffUnmarked(u, CheckText(sum));
    TrailerText(o);
    Associative(u, "10=", CheckText(sum));
  }

  function Messages(orders: seq<Order>): (m: seq<string>)
    ensures |m| == |orders|
  {
    seq(|orders|, i requires 0 <= i < |orders| => Message(orders[i]))
  }

  /** A stream of printed messages splits into exactly those messages if and only if no field of
      any of them shows the marker. */
  lemma StreamOfMessages(orders: seq<Order>)
    ensures Split(Concat(Messages(orders))) == (Messages(orders), "")
       <==> forall i | 0 <= i < |orders| :: Unmarked(HeaderEntries(orders[i]) + BodyEntries(orders[i]))
  {
    hide IsRaw, Unmarked, Split, Message, HeaderEntries, BodyEntries;
    SplitMessages(Messages(orders));
    forall i | 0 <= i < |orders|
      ensures IsRaw(Messages(orders)[i]) <==> Unmarked(HeaderEntries(orders[i]) + BodyEntries(orders[i]))
    {
      MessageIsRawIff(orders[i]);
    }
  }
}
