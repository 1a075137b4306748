/** Base32, section 6 of RFC 4648. */
module Base32 {
  // The codec with its 32-bit accumulator, against the bit stream it stands for.

  type Bits = seq<int>
  type Byte = x: int | 0 <= x < 256
  type Digit = x: int | 0 <= x < 32   // one base32 symbol as a number

  function Pow2(n: nat): (p: nat)
    ensures p > 0
  {
    if n == 0 then 1 else 2 * Pow2(n - 1)
  }

  /** The lowest `w` bits of a number, highest first; a negative number in two's complement. */
  function ToBits(x: int, w: nat): (b: Bits)
    ensures |b| == w
    decreases w
  {
    if w == 0 then [] else ToBits(x / 2, w - 1) + [x % 2]
  }

  function Num(b: Bits): int {
    if b == [] then 0 else 2 * Num(b[..|b| - 1]) + b[|b| - 1]
  }

  /** All numbers of a series, `w` bits each. */
  function Stream(xs: seq<int>, w: nat): (b: Bits)
    ensures |b| == |xs| * w
  {
    if xs == [] then [] else Stream(xs[..|xs| - 1], w) + ToBits(xs[|xs| - 1], w)
  }

  function Zeros(n: nat): (b: Bits)
    ensures |b| == n
  {
    seq(n, _ => 0)
  }

  /** The stream cut into groups of `w` bits; an incomplete last group is dropped. */
  function Group(b: Bits, w: nat): seq<int>
    requires w >= 1
    decreases |b|
  {
    if |b| < w then [] else [Num(b[..w])] + Group(b[w..], w)
  }

  // Bits of numbers

  lemma {:induction false} NumOfBits(x: int, w: nat)
    ensures Num(ToBits(x, w)) == x % Pow2(w)
    decreases w
  {
    if w > 0 {
      NumOfBits(x / 2, w - 1);
      assert ToBits(x, w)[..w - 1] == ToBits(x / 2, w - 1);
      ModTwice(x, Pow2(w - 1));
    }
  }

  lemma ModTwice(x: int, p: int)
    requires p > 0
    ensures 2 * ((x / 2) % p) + x % 2 == x % (2 * p)
  {
    var q, r := (x / 2) / p, (x / 2) % p;
    assert x == q * (2 * p) + (2 * r + x % 2);
    DivModUnique(x, 2 * p, q, 2 * r + x % 2);
  }

  lemma DivModUnique(x: int, d: int, q: int, r: int)
    requires d > 0 && x == q * d + r && 0 <= r < d
    ensures x / d == q && x % d == r
  {
    QuotientUnique(d, q, r, x / d, x % d);
  }

  lemma QuotientUnique(d: int, q: int, r: int, q': int, r': int)
    requires 0 <= r < d && 0 <= r' < d && q * d + r == q' * d + r'
    ensures q == q' && r == r'
  {
    if q > q' {
      TimesGap(q, q', d);
    } else if q < q' {
      TimesGap(q', q, d);
    }
  }

  lemma {:induction false} TimesGap(q: int, p: int, d: int)
    requires q > p && d > 0
    ensures q * d >= p * d + d
    decreases q - p
  {
    assert q * d == (q - 1) * d + d;
    if q > p + 1 {
      TimesGap(q - 1, p, d);
    }
  }

  /** The high bits come from the number shifted right, the low ones from the number itself. */
  lemma {:induction false} SplitBits(x: int, high: nat, low: nat)
    ensures ToBits(x, high + low) == ToBits(x / Pow2(low), high) + ToBits(x, low)
    decreases low
  {
    if low == 0 {
      assert ToBits(x, 0) == [];
      assert x / 1 == x;
    } else {
      SplitBits(x / 2, high, low - 1);
      DivTwice(x, Pow2(low - 1));
    }
  }

  lemma DivTwice(x: int, p: int)
    requires p > 0
    ensures (x / 2) / p == x / (2 * p)
  {
    var q, r := (x / 2) / p, (x / 2) % p;
    assert x == q * (2 * p) + (2 * r + x % 2);
    DivModUnique(x, 2 * p, q, 2 * r + x % 2);
  }

  /** Only the value modulo `2^m` matters to the lowest bits: wrap-around is invisible. */
  lemma {:induction false} WrapInvisible(x: int, k: int, m: nat, w: nat)
    requires w <= m
    ensures ToBits(x + k * Pow2(m), w) == ToBits(x, w)
    decreases w
  {
    if w > 0 {
      var p := Pow2(m - 1);
      assert k * Pow2(m) == 2 * (k * p);
      WrapInvisible(x / 2, k, m - 1, w - 1);
    }
  }

  lemma BitsOfMod(x: int, m: nat, w: nat)
    requires w <= m
    ensures ToBits(x % Pow2(m), w) == ToBits(x, w)
  {
    hide ToBits;
    var p := Pow2(m);
    assert x == x / p * p + x % p;
    WrapInvisible(x % p, x / p, m, w);
  }

  lemma {:induction false} AppendedBits(x: int, y: int, w: nat, n: nat)
    requires 0 <= y < Pow2(n)
    ensures ToBits(x * Pow2(n) + y, w + n) == ToBits(x, w) + ToBits(y, n)
  {
    var z, p := x * Pow2(n) + y, Pow2(n);
    SplitBits(z, w, n);
    DivModUnique(z, p, x, y);
    BitsOfMod(z, n, n);
  }

  lemma {:induction false} ZeroBits(w: nat)
    ensures ToBits(0, w) == Zeros(w)
  {
    if w > 0 {
      ZeroBits(w - 1);
    }
  }

  // Streams and groups

  lemma StreamAppend(xs: seq<int>, x: int, w: nat)
    ensures Stream(xs + [x], w) == Stream(xs, w) + ToBits(x, w)
  {
    assert (xs + [x])[..|xs|] == xs;
  }

  lemma {:induction false} StreamPrepend(x: int, xs: seq<int>, w: nat)
    ensures Stream([x] + xs, w) == ToBits(x, w) + Stream(xs, w)
  {
    if xs == [] {
      assert [x] + xs == [] + [x];
      StreamAppend([], x, w);
    } else {
      var n := |xs| - 1;
      StreamPrepend(x, xs[..n], w);
      assert ([x] + xs)[..n + 1] == [x] + xs[..n];
    }
  }

  /** Grouping takes a stream apart again; fewer bits than a group at the end change nothing. */
  lemma {:induction false} GroupOfStream(xs: seq<int>, w: nat, rest: Bits)
    requires w >= 1 && |rest| < w && forall i | 0 <= i < |xs| :: 0 <= xs[i] < Pow2(w)
    ensures Group(Stream(xs, w) + rest, w) == xs
  {
    if xs != [] {
      var x, tail := xs[0], xs[1..];
      hide Stream, ToBits, Num, Pow2;
      assert xs == [x] + tail;
      StreamPrepend(x, tail, w);
      var b := Stream(xs, w) + rest;
      assert |ToBits(x, w)| == w;
      assert b == ToBits(x, w) + (Stream(tail, w) + rest);
      assert b[..w] == ToBits(x, w);
      assert b[w..] == Stream(tail, w) + rest;
      NumOfBits(x, w);
      SmallMod(x, Pow2(w));
      GroupOfStream(tail, w, rest);
    }
  }

  ghost predicate AreBits(b: Bits) { forall i | 0 <= i < |b| :: 0 <= b[i] < 2 }

  lemma {:induction false} BitsAreBits(x: int, w: nat)
    ensures AreBits(ToBits(x, w))
    decreases w
  {
    if w > 0 {
      BitsAreBits(x / 2, w - 1);
    }
  }

  lemma {:induction false} StreamsAreBits(xs: seq<int>, w: nat)
    ensures AreBits(Stream(xs, w))
  {
    hide ToBits;
    if xs != [] {
      StreamsAreBits(xs[..|xs| - 1], w);
      BitsAreBits(xs[|xs| - 1], w);
    }
  }

  lemma {:induction false} BitsOfNum(b: Bits)
    requires AreBits(b)
    ensures ToBits(Num(b), |b|) == b && 0 <= Num(b) < Pow2(|b|)
  {
    if b != [] {
      BitsOfNum(b[..|b| - 1]);
    }
  }

  lemma {:induction false} GroupRange(b: Bits, w: nat)
    requires w >= 1 && AreBits(b)
    ensures forall i | 0 <= i < |Group(b, w)| :: 0 <= Group(b, w)[i] < Pow2(w)
    decreases |b|
  {
    hide Num, Pow2;
    if |b| >= w {
      BitsOfNum(b[..w]);
      GroupRange(b[w..], w);
    }
  }

  /** Whole groups put back together are the stream. */
  lemma {:induction false} StreamOfGroup(b: Bits, w: nat)
    requires w >= 1 && AreBits(b) && |b| % w == 0
    ensures Stream(Group(b, w), w) == b
    decreases |b|
  {
    hide Num, ToBits;
    if |b| >= w {
      BitsOfNum(b[..w]);
      FewerGroups(|b|, w);
      StreamOfGroup(b[w..], w);
      StreamPrepend(Num(b[..w]), Group(b[w..], w), w);
    } else {
      SmallMod(|b|, w);
    }
  }

  lemma FewerGroups(n: int, w: int)
    requires n >= w > 0 && n % w == 0
    ensures (n - w) % w == 0
  {
    var q := n / w;
    assert n == q * w;
    assert n - w == (q - 1) * w;
    DivModUnique(n - w, w, q - 1, 0);
  }

  lemma SmallMod(x: int, p: int)
    requires 0 <= x < p
    ensures x % p == x
  {
  }

  // The encoding

  const ALPHABET: string := "ABCDEFGHIJKLMNOPQRSTUVWXYZ234567"

  function Symbol(d: Digit): char { ALPHABET[d] }

  function IndexOf(c: char): (i: int)
    ensures -1 <= i < 32
    ensures i >= 0 ==> ALPHABET[i] == c
  {
    if 'A' <= c <= 'Z' then c as int - 'A' as int
    else if '2' <= c <= '7' then c as int - '2' as int + 26
    else -1
  }

  /** Table 3 of RFC 4648: the letters in order, then the figures from two on. */
  lemma SymbolMeans(d: Digit)
    ensures Symbol(d) as int == if d < 26 then 'A' as int + d else '2' as int + d - 26
  {
  }

  lemma IndexOfSymbol(d: Digit)
    ensures IndexOf(Symbol(d)) == d
  {
  }

  function Padding(bits: nat): nat { (5 - bits % 5) % 5 }

  function Filled(bytes: seq<Byte>): (b: Bits)
    ensures AreBits(b) && |b| % 5 == 0
  {
    FilledFacts(bytes, Stream(bytes, 8));
    Stream(bytes, 8) + Zeros(Padding(8 * |bytes|))
  }

  lemma FilledFacts(bytes: seq<Byte>, bits: Bits)
    requires bits == Stream(bytes, 8)
    ensures AreBits(bits + Zeros(Padding(8 * |bytes|))) && |bits + Zeros(Padding(8 * |bytes|))| % 5 == 0
  {
    hide Stream, Padding;
    StreamsAreBits(bytes, 8);
    WholeGroups(8 * |bytes|);
    assert |bits| == 8 * |bytes|;
  }

  lemma WholeGroups(bits: nat)
    ensures (bits + Padding(bits)) % 5 == 0
  {
    var q, r := bits / 5, bits % 5;
    if r > 0 {
      assert bits + Padding(bits) == 5 * (q + 1);
    }
  }

  /** The digits of an encoding: the stream of bytes, filled up with zeros to whole groups of five. */
  function Digits(bytes: seq<Byte>): seq<Digit> {
    assert Pow2(5) == 32;
    GroupRange(Filled(bytes), 5);
    Group(Filled(bytes), 5)
  }

  function Text(digits: seq<Digit>): (s: string)
    ensures |s| == |digits|
  {
    seq(|digits|, i requires 0 <= i < |digits| => Symbol(digits[i]))
  }

  function UpperChar(c: char): char { if 'a' <= c <= 'z' then (c as int - 32) as char else c }

  function Upper(s: string): (u: string)
    ensures |u| == |s|
  {
    seq(|s|, i requires 0 <= i < |s| => UpperChar(s[i]))
  }

  function StripPadding(s: string): string {
    if s != [] && s[|s| - 1] == '=' then StripPadding(s[..|s| - 1]) else s
  }

  /** The digits of a text; characters outside the alphabet are skipped. */
  function Meaningful(s: string): (d: seq<Digit>) {
    if s == [] then []
    else
      var i := IndexOf(s[|s| - 1]);
      Meaningful(s[..|s| - 1]) + if i < 0 then [] else [i]
  }

  /** What a text decodes to: whole bytes of its stream of digits. */
  function Decoded(s: string): seq<Byte> {
    var bits := Stream(Meaningful(Upper(s)), 5);
    assert Pow2(8) == 256;
    StreamsAreBits(Meaningful(Upper(s)), 5);
    GroupRange(bits, 8);
    Group(bits, 8)
  }

  lemma {:induction false} MeaningfulText(digits: seq<Digit>)
    ensures Meaningful(Upper(Text(digits))) == digits
  {
    hide Symbol, UpperChar, IndexOf;
    if digits != [] {
      var n := |digits| - 1;
      MeaningfulText(digits[..n]);
      assert Upper(Text(digits))[..n] == Upper(Text(digits[..n]));
      UpperSymbol(digits[n]);
      IndexOfSymbol(digits[n]);
    }
  }

  lemma UpperSymbol(d: Digit)
    ensures UpperChar(Symbol(d)) == Symbol(d)
  {
  }

  /** Any digits that stand for the bytes and fewer than a byte of filling decode to the bytes. */
  lemma DecodedStream(digits: seq<Digit>, bytes: seq<Byte>, filling: Bits)
    requires Stream(digits, 5) == Stream(bytes, 8) + filling && |filling| < 8
    ensures Decoded(Text(digits)) == bytes
  {
    MeaningfulText(digits);
    assert Pow2(8) == 256;
    GroupOfStream(bytes, 8, filling);
  }

  /** Decoding an encoding gives the bytes back, for every byte sequence. */
  lemma RoundTrip(bytes: seq<Byte>)
    ensures Decoded(Text(Digits(bytes))) == bytes
  {
    hide Stream, Group, Pow2, Filled, Decoded, Text;
    StreamOfGroup(Filled(bytes), 5);
    FilledIs(bytes);
    DecodedStream(Digits(bytes), bytes, Zeros(Padding(8 * |bytes|)));
  }

  lemma FilledIs(bytes: seq<Byte>)
    ensures Filled(bytes) == Stream(bytes, 8) + Zeros(Padding(8 * |bytes|))
  {
  }

  lemma NothingMeaningful()
    ensures Meaningful([]) == []
  {
  }

  lemma MeaningfulNext(s: string, i: nat)
    requires i < |s|
    ensures IndexOf(s[i]) < 0 ==> Meaningful(s[..i + 1]) == Meaningful(s[..i])
    ensures IndexOf(s[i]) >= 0 ==> Meaningful(s[..i + 1]) == Meaningful(s[..i]) + [IndexOf(s[i])]
  {
    hide IndexOf;
    assert s[..i + 1][..i] == s[..i];
  }

  lemma {:induction false} StrippingIsRedundant(s: string)
    ensures Meaningful(StripPadding(s)) == Meaningful(s)
  {
    if s != [] && s[|s| - 1] == '=' {
      StrippingIsRedundant(s[..|s| - 1]);
    }
  }

  lemma DigitsStream(digits: seq<Digit>, bytes: seq<Byte>, filling: nat)
    requires Stream(digits, 5) == Stream(bytes, 8) + Zeros(filling) && filling < 5
    ensures digits == Digits(bytes) && filling == Padding(8 * |bytes|) && |digits| == (8 * |bytes| + 4) / 5
  {
    hide Stream, Group;
    assert |Stream(digits, 5)| == |digits| * 5 == |bytes| * 8 + filling;
    PaddingUnique(|digits|, 8 * |bytes|, filling);
    assert Pow2(5) == 32;
    GroupOfStream(digits, 5, []);
    assert Stream(digits, 5) + [] == Stream(digits, 5);
  }

  lemma PaddingUnique(digits: nat, bits: nat, filling: nat)
    requires digits * 5 == bits + filling && filling < 5
    ensures filling == Padding(bits) && digits == (bits + 4) / 5
  {
    var q, r := bits / 5, bits % 5;
    assert bits == 5 * q + r;
    assert 5 * (digits - q) == r + filling;
  }

  // 32-bit operations

  const WORD := 0x1_0000_0000

  function ToInt32(x: int): int {
    var u := x % WORD;
    if u >= WORD / 2 then u - WORD else u
  }

  /** `(value << n) | low` on 32-bit integers. */
  function ShiftIn(value: int, low: int, n: nat): int
    requires 0 <= low < Pow2(n)
  {
    ToInt32(ToInt32(value * Pow2(n)) + low)
  }

  /** `(value >>> n) & (2^w - 1)`. */
  function Field(value: int, n: nat, w: nat): int { (value % WORD) / Pow2(n) % Pow2(w) }

  lemma WordIsPow2()
    ensures Pow2(32) == WORD
  {
    assert Pow2(8) == 256;
    assert Pow2(16) == 65536;
    assert Pow2(24) == 16777216;
  }

  lemma ToInt32Bits(x: int, w: nat)
    requires w <= 32
    ensures ToBits(ToInt32(x), w) == ToBits(x, w)
  {
    WordIsPow2();
    BitsOfMod(x, 32, w);
    WrapInvisible(x % WORD, -1, 32, w);
  }

  /** Shifting new bits in appends them to the pending ones, as long as these fit the word. */
  lemma ShiftInBits(value: int, low: int, n: nat, w: nat)
    requires 0 <= low < Pow2(n) && w + n <= 32
    ensures ToBits(ShiftIn(value, low, n), w + n) == ToBits(value, w) + ToBits(low, n)
  {
    var shifted := ToInt32(value * Pow2(n));
    ToInt32Bits(shifted + low, w + n);
    WrapOf(value * Pow2(n));
    var k: int :| shifted == value * Pow2(n) + k * WORD;
    WordIsPow2();
    WrapInvisible(value * Pow2(n) + low, k, 32, w + n);
    AppendedBits(value, low, w, n);
  }

  lemma WrapOf(x: int)
    ensures exists k: int :: ToInt32(x) == x + k * WORD
  {
    var q := x / WORD;
    assert ToInt32(x) == x + (-q) * WORD || ToInt32(x) == x + (-q - 1) * WORD;
  }

  /** Reading the oldest `w` pending bits off the accumulator. */
  lemma FieldBits(value: int, n: nat, w: nat)
    requires w + n <= 32
    ensures ToBits(value, w + n) == ToBits(Field(value, n, w), w) + ToBits(value, n)
    ensures 0 <= Field(value, n, w) < Pow2(w)
  {
    WordIsPow2();
    var u := value % WORD;
    BitsOfMod(value, 32, w + n);
    BitsOfMod(value, 32, n);
    SplitBits(u, w, n);
    BitsOfMod(u / Pow2(n), w, w);
  }

  // The two loops

  /** For every byte sequence the loop, wrap-around and all, writes the digits of its bit stream. */
  method Encode(buf: seq<Byte>) returns (result: string)
    ensures result == Text(Digits(buf))
    ensures |result| == (8 * |buf| + 4) / 5
  {
    hide Stream, ToBits, Pow2, Group, ShiftIn, Field;
    var digits: seq<Digit> := [];
    result := "";
    var bits: nat, value := 0, 0;
    for i := 0 to |buf|
      invariant bits < 5 && result == Text(digits)
      invariant Stream(digits, 5) + ToBits(value, bits) == Stream(buf[..i], 8)
    {
      var byte := buf[i];
      ghost var was := value;
      ByteFits();
      value := ShiftIn(value, byte, 8);
      ShiftInBits(was, byte, 8, bits);
      assert buf[..i + 1] == buf[..i] + [byte];
      StreamAppend(buf[..i], byte, 8);
      bits := bits + 8;
      assert Stream(digits, 5) + ToBits(value, bits) == Stream(buf[..i + 1], 8);
      while bits >= 5
        invariant bits < 13 && result == Text(digits)
        invariant Stream(digits, 5) + ToBits(value, bits) == Stream(buf[..i + 1], 8)
      {
        var digit := Field(value, bits - 5, 5);
        FieldBits(value, bits - 5, 5);
        DigitFits();
        StreamAppend(digits, digit, 5);
        assert Stream(digits + [digit], 5) + ToBits(value, bits - 5) == Stream(digits, 5) + ToBits(value, bits);
        digits := digits + [digit];
        result := result + [Symbol(digit)];
        bits := bits - 5;
      }
    }
    assert buf[..|buf|] == buf;
    assert ToBits(value, 0) == [];
    ghost var filling := if bits > 0 then 5 - bits else 0;
    if bits > 0 {
      var digit := LastDigit(value, bits);
      StreamAppend(digits, digit, 5);
      assert Stream(digits + [digit], 5) == Stream(buf, 8) + Zeros(5 - bits);
      digits := digits + [digit];
      result := result + [Symbol(digit)];
    }
    assert Stream(digits, 5) == Stream(buf, 8) + Zeros(filling);
    DigitsStream(digits, buf, filling);
  }

  /** `(value << (5 - bits)) & 31`: the pending bits, filled up with zeros. */
  method LastDigit(value: int, bits: nat) returns (digit: Digit)
    requires 0 < bits < 5
    ensures ToBits(digit, 5) == ToBits(value, bits) + Zeros(5 - bits)
  {
    hide ToBits, Pow2;
    DigitFits();
    var shifted := ShiftIn(value, 0, 5 - bits);
    ShiftInBits(value, 0, 5 - bits, bits);
    ZeroBits(5 - bits);
    digit := shifted % 32;
    BitsOfMod(shifted, 5, 5);
  }

  lemma ByteFits()
    ensures Pow2(8) == 256
  {
  }

  lemma DigitFits()
    ensures Pow2(5) == 32
  {
  }

  /** The loop reads off whole bytes of the stream of the symbols it knows and skips the rest. */
  method Decode(s: string) returns (bytes: seq<Byte>)
    ensures bytes == Decoded(s)
  {
    hide Stream, ToBits, Pow2, Group, ShiftIn, Field, IndexOf, Meaningful;
    var chars := StripPadding(Upper(s));
    StrippingIsRedundant(Upper(s));
    bytes := [];
    var bits: nat, value := 0, 0;
    assert Meaningful(chars[..0]) == [] by { NothingMeaningful(); }
    for i := 0 to |chars|
      invariant bits < 8
      invariant Stream(bytes, 8) + ToBits(value, bits) == Stream(Meaningful(chars[..i]), 5)
    {
      MeaningfulNext(chars, i);
      var idx := IndexOf(chars[i]);
      if idx == -1 {
        continue;
      }
      ghost var was := value;
      DigitFits();
      value := ShiftIn(value, idx, 5);
      ShiftInBits(was, idx, 5, bits);
      StreamAppend(Meaningful(chars[..i]), idx, 5);
      bits := bits + 5;
      assert Stream(bytes, 8) + ToBits(value, bits) == Stream(Meaningful(chars[..i + 1]), 5);
      if bits >= 8 {
        var byte := Field(value, bits - 8, 8);
        FieldBits(value, bits - 8, 8);
        ByteFits();
        StreamAppend(bytes, byte, 8);
        assert Stream(bytes + [byte], 8) + ToBits(value, bits - 8) == Stream(bytes, 8) + ToBits(value, bits);
        bytes := bytes + [byte];
        bits := bits - 8;
      }
    }
    assert chars[..|chars|] == chars;
    ByteFits();
    GroupOfStream(bytes, 8, ToBits(value, bits));
  }

  // What decoding does not look at

  lemma {:induction false} MeaningfulConcat(a: string, b: string)
    ensures Meaningful(a + b) == Meaningful(a) + Meaningful(b)
  {
    hide IndexOf;
    if b == [] {
      assert a + b == a;
    } else {
      MeaningfulConcat(a, b[..|b| - 1]);
      assert (a + b)[..|a + b| - 1] == a + b[..|b| - 1];
    }
  }

  lemma NotInAlphabet(c: char)
    ensures IndexOf(UpperChar(c)) < 0 <==> !('A' <= c <= 'Z' || 'a' <= c <= 'z' || '2' <= c <= '7')
  {
  }

  /** A character outside the alphabet, a blank or a padding sign say, changes nothing anywhere. */
  lemma NoiseIgnored(a: string, c: char, b: string)
    requires !('A' <= c <= 'Z' || 'a' <= c <= 'z' || '2' <= c <= '7')
    ensures Decoded(a + [c] + b) == Decoded(a + b)
  {
    hide IndexOf, UpperChar, Stream, Group, Meaningful;
    NotInAlphabet(c);
    var x := [UpperChar(c)];
    MeaningfulNext(x, 0);
    NothingMeaningful();
    assert x[..1] == x && x[..0] == [];
    MeaningfulConcat(Upper(a) + x, Upper(b));
    MeaningfulConcat(Upper(a), x);
    MeaningfulConcat(Upper(a), Upper(b));
    assert Meaningful(x) == [];
    assert Meaningful(Upper(a) + x) == Meaningful(Upper(a));
    assert Upper(a + [c] + b) == Upper(a) + x + Upper(b);
    assert Upper(a + b) == Upper(a) + Upper(b);
  }

  /** Two characters are the same letter, in capitals or not. */
  predicate SameLetter(c: char, d: char) { 'a' <= c <= 'z' && d as int - 'A' as int == c as int - 'a' as int }

  lemma CaseIgnored(s: string, t: string)
    requires |s| == |t| && forall i | 0 <= i < |s| :: s[i] == t[i] || SameLetter(s[i], t[i]) || SameLetter(t[i], s[i])
    ensures Decoded(s) == Decoded(t)
  {
    assert Upper(s) == Upper(t);
  }
}
