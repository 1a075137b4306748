/**
 One-time codes: the truncated code of section 5.3 of RFC 4226, computed with the buffer writes and
 the signed shifts of the original, over an abstract MAC; section 5.2 of RFC 6238 is about accepting
 them, once each.
 */
module Totp {
  import opened Prelude
  import opened Base32
  import opened Decimal

  const MAC_LENGTH := 20
  const TWO_32 := 0x1_0000_0000
  const TWO_31 := 0x8000_0000
  const CODE_SPACE := 1_000_000

  /** HMAC-SHA1 is a parameter of which only the length of its result is known. */
  type Mac = (seq<Byte>, seq<Byte>) -> seq<Byte>

  ghost predicate IsMac(mac: Mac) {
    forall key: seq<Byte>, message: seq<Byte> :: |mac(key, message)| == MAC_LENGTH
  }

  /** Bytes as a number, most significant first. */
  function BigEndian(b: seq<Byte>): nat {
    if b == [] then 0 else 256 * BigEndian(b[..|b| - 1]) + b[|b| - 1]
  }

  function BytesOf(n: nat, width: nat): (b: seq<Byte>)
    ensures |b| == width
  {
    if width == 0 then [] else BytesOf(n / 256, width - 1) + [n % 256]
  }

  function Pow256(n: nat): (p: nat)
    ensures p > 0
  {
    if n == 0 then 1 else 256 * Pow256(n - 1)
  }

  lemma {:induction false} BytesValue(n: nat, width: nat)
    requires n < Pow256(width)
    ensures BigEndian(BytesOf(n, width)) == n
  {
    if width > 0 {
      BytesValue(n / 256, width - 1);
    }
  }

  /** Four bytes of the MAC, from the place its last nibble names, without the top bit. */
  function Truncated(hmac: seq<Byte>): (n: nat)
    requires |hmac| == MAC_LENGTH
  {
    var offset := hmac[MAC_LENGTH - 1] % 16;
    BigEndian(hmac[offset..offset + 4]) % TWO_31
  }

  /** The code of a counter: six digits of the truncated MAC of the counter's eight bytes. */
  ghost function Code(key: seq<Byte>, counter: nat, mac: Mac): (c: string)
    requires IsMac(mac)
  {
    PadStart(ToDecimal(Truncated(mac(key, BytesOf(counter, 8))) % CODE_SPACE), 6)
  }

  /** Every code is exactly six digits, and reads as the truncated MAC modulo a million. */
  lemma CodeShape(key: seq<Byte>, counter: nat, mac: Mac)
    requires IsMac(mac)
    ensures var c := Code(key, counter, mac);
            |c| == 6 && AllDigits(c) && Value(c) == Truncated(mac(key, BytesOf(counter, 8))) % CODE_SPACE
  {
    assert Pow10(6) == CODE_SPACE;
    FixedWidth(Truncated(mac(key, BytesOf(counter, 8))) % CODE_SPACE, 6);
  }

  /** Two counters share a message only if they are equal, so no two steps of time share one. */
  lemma MessagesDiffer(a: nat, b: nat)
    requires a < Pow256(8) && b < Pow256(8) && BytesOf(a, 8) == BytesOf(b, 8)
    ensures a == b
  {
    BytesValue(a, 8);
    BytesValue(b, 8);
  }

  // The code as it is computed

  method WriteUInt32BE(buffer: array<Byte>, value: nat, at: nat)
    requires value < TWO_32 && at + 4 <= buffer.Length
    modifies buffer
    ensures buffer[at..at + 4] == BytesOf(value, 4)
    ensures forall i | 0 <= i < buffer.Length && !(at <= i < at + 4) :: buffer[i] == old(buffer[i])
  {
    buffer[at] := value / 0x100_0000 % 256;
    buffer[at + 1] := value / 0x1_0000 % 256;
    buffer[at + 2] := value / 0x100 % 256;
    buffer[at + 3] := value % 256;
    FourBytes(value);
  }

  lemma FourBytes(n: nat)
    ensures BytesOf(n, 4) == [n / 0x100_0000 % 256, n / 0x1_0000 % 256, n / 0x100 % 256, n % 256]
  {
    assert n / 256 / 256 == n / 0x1_0000;
    assert n / 0x1_0000 / 256 == n / 0x100_0000;
    assert BytesOf(n, 4) == BytesOf(n / 256, 3) + [n % 256];
    assert BytesOf(n / 256, 3) == BytesOf(n / 0x1_0000, 2) + [n / 256 % 256];
    assert BytesOf(n / 0x1_0000, 2) == BytesOf(n / 0x100_0000, 1) + [n / 0x1_0000 % 256];
    assert BytesOf(n / 0x100_0000, 1) == BytesOf(n / 0x100_0000 / 256, 0) + [n / 0x100_0000 % 256];
  }

  /** Two words of four bytes are the eight bytes of the counter. */
  lemma SplitWords(n: nat)
    ensures BytesOf(n, 8) == BytesOf(n / TWO_32, 4) + BytesOf(n % TWO_32, 4)
  {
    assert Pow256(4) == TWO_32;
    FourSteps(n, 4);
    assert n / 0x100_0000 / 256 == n / TWO_32;
    LowBytes(n, 4);
  }

  /** Peeling four bytes off the low end. */
  lemma FourSteps(n: nat, rest: nat)
    ensures BytesOf(n, rest + 4) == BytesOf(n / 0x100_0000 / 256, rest) + BytesOf(n, 4)
  {
    FourBytes(n);
    assert n / 256 / 256 == n / 0x1_0000 && n / 0x1_0000 / 256 == n / 0x100_0000;
    assert BytesOf(n, rest + 4) == BytesOf(n / 256, rest + 3) + [n % 256];
    assert BytesOf(n / 256, rest + 3) == BytesOf(n / 0x1_0000, rest + 2) + [n / 256 % 256];
    assert BytesOf(n / 0x1_0000, rest + 2) == BytesOf(n / 0x100_0000, rest + 1) + [n / 0x1_0000 % 256];
    assert BytesOf(n / 0x100_0000, rest + 1) == BytesOf(n / 0x100_0000 / 256, rest) + [n / 0x100_0000 % 256];
  }

  /** The lowest bytes do not depend on what lies above them. */
  lemma {:induction false} LowBytes(n: nat, w: nat)
    ensures BytesOf(n % Pow256(w), w) == BytesOf(n, w)
  {
    if w > 0 {
      ByteStep(n, Pow256(w - 1));
      LowBytes(n / 256, w - 1);
    }
  }

  lemma ByteStep(n: nat, p: nat)
    requires p > 0
    ensures (n % (256 * p)) / 256 == (n / 256) % p && (n % (256 * p)) % 256 == n % 256
  {
    var q, r := (n / 256) / p, (n / 256) % p;
    assert n / 256 == q * p + r;
    assert n == q * (256 * p) + (256 * r + n % 256);
    DivModUnique(n, 256 * p, q, 256 * r + n % 256);
  }

  method Hotp(secret: string, counter: nat, mac: Mac) returns (code: string)
    requires IsMac(mac) && counter < Pow256(8)
    ensures code == Code(Decoded(secret), counter, mac)
  {
    hide Decoded, BytesOf, PadStart, ToDecimal;
    var key := Decode(secret);
    var msg := new Byte[8];
    WriteUInt32BE(msg, counter / TWO_32, 0);
    ghost var high := msg[0..4];
    WriteUInt32BE(msg, counter % TWO_32, 4);
    assert msg[..] == msg[0..4] + msg[4..8];
    assert msg[0..4] == high;
    SplitWords(counter);
    var hmac := mac(key, msg[..]);
    var offset := hmac[MAC_LENGTH - 1] % 16;
    var n := WithoutTopBit(hmac[offset..offset + 4]);
    DropTopBit(hmac[offset..offset + 4]);
    code := PadStart(ToDecimal(n % CODE_SPACE), 6);
  }

  /** `(b0 & 0x7f) << 24 | b1 << 16 | b2 << 8 | b3`. */
  function WithoutTopBit(b: seq<Byte>): nat
    requires |b| == 4
  {
    var b0: int, b1: int, b2: int, b3: int := b[0], b[1], b[2], b[3];
    b0 % 128 * 0x100_0000 + b1 * 0x1_0000 + b2 * 0x100 + b3
  }

  lemma DropTopBit(b: seq<Byte>)
    requires |b| == 4
    ensures BigEndian(b) % TWO_31 == WithoutTopBit(b)
  {
    assert b[..3][..2] == b[..2] && b[..2][..1] == b[..1] && b[..1][..0] == [];
    var b0: int, b1: int, b2: int, b3: int := b[0], b[1], b[2], b[3];
    assert BigEndian(b[..1]) == b0;
    assert BigEndian(b[..2]) == 256 * b0 + b1;
    assert BigEndian(b[..3]) == 256 * (256 * b0 + b1) + b2;
    assert BigEndian(b) == b0 / 128 * TWO_31 + WithoutTopBit(b);
    DivModUnique(BigEndian(b), TWO_31, b0 / 128, WithoutTopBit(b));
  }

  /** The low four bits of the last byte name the first of the four bytes that matter, and nothing else of the
      MAC matters. */
  lemma TruncatedBytes(hmac: seq<Byte>, other: seq<Byte>, at: nat)
    requires |hmac| == |other| == MAC_LENGTH && at < 16
    requires hmac[19] % 16 == at == other[19] % 16
    requires forall i | at <= i < at + 4 :: hmac[i] == other[i]
    ensures Truncated(hmac) == Truncated(other)
    ensures var b0: int, b1: int, b2: int, b3: int := hmac[at], hmac[at + 1], hmac[at + 2], hmac[at + 3];
            Truncated(hmac) == b0 % 128 * 0x100_0000 + b1 * 0x1_0000 + b2 * 0x100 + b3
  {
    assert hmac[at..at + 4] == other[at..at + 4];
    DropTopBit(hmac[at..at + 4]);
  }

  /** The example of section 5.4 of RFC 4226. */
  lemma TruncationExample()
    ensures Truncated([0x1f, 0x86, 0x98, 0x69, 0x0e, 0x02, 0xca, 0x16, 0x61, 0x85,
                       0x50, 0xef, 0x7f, 0x19, 0xda, 0x8e, 0x94, 0x5b, 0x55, 0x5a]) == 0x50ef_7f19
  {
    var hmac: seq<Byte> := [0x1f, 0x86, 0x98, 0x69, 0x0e, 0x02, 0xca, 0x16, 0x61, 0x85,
                            0x50, 0xef, 0x7f, 0x19, 0xda, 0x8e, 0x94, 0x5b, 0x55, 0x5a];
    TruncatedBytes(hmac, hmac, 10);
  }
}
