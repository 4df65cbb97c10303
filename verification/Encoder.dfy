/** The network encodings of encoder.cljs, on JavaScript's 32-bit integer operators. */
module Encoder {
  import opened Octets

  /** The integer that a JavaScript bit operator sees: x modulo 2^32, read as a signed word. */
  function ToInt32(x: int): (r: int)
    ensures -0x8000_0000 <= r < 0x8000_0000
    ensures r % TWO_TO_THE_32 == x % TWO_TO_THE_32
  {
    var m := x % TWO_TO_THE_32;
    if m < 0x8000_0000 then m else m - TWO_TO_THE_32
  }

  /** `x >> 8` and `x >> 16`: arithmetic shifts, which round towards minus infinity. */
  function ShiftRight8(x: int): int { ToInt32(x) / 0x100 }

  function ShiftRight16(x: int): int { ToInt32(x) / 0x1_0000 }

  /** `0xff & x` */
  function LowOctet(x: int): byte { ToInt32(x) % 0x100 }

  function EncodeUint8(x: int): Bytes { [LowOctet(x)] }

  function EncodeUint16(x: int): Bytes { EncodeUint8(ShiftRight8(x)) + EncodeUint8(x) }

  function EncodeUint32(x: int): Bytes { EncodeUint16(ShiftRight16(x)) + EncodeUint16(x) }

  function EncodeUint64(msw: int, lsw: int): Bytes { EncodeUint32(msw) + EncodeUint32(lsw) }

  /** A name is kept as its UTF-8 octets; the wire adds the terminator. */
  function EncodeUtf8(name: Bytes): Bytes { name + [0] }

  /** The number that a big-endian octet string denotes. */
  function BigEndian(s: Bytes): nat {
    if s == [] then 0 else BigEndian(s[..|s| - 1]) * 0x100 + s[|s| - 1]
  }

  lemma {:induction false} LastDigit(q: int, r: byte)
    ensures (0x100 * q + r) % 0x100 == r && (0x100 * q + r) / 0x100 == q
  {
  }

  lemma {:induction false} LastWord(q: int, r: uint16)
    ensures (TWO_TO_THE_16 * q + r) % TWO_TO_THE_16 == r
  {
  }

  /** The integer that a bit operator sees has the low two octets of x. */
  lemma {:induction false} LowOctets(x: int)
    ensures var t, m := ToInt32(x), x % TWO_TO_THE_32;
            && t % 0x100 == m % 0x100 == x % 0x100
            && (t / 0x100) % 0x100 == (m / 0x100) % 0x100
  {
    var k, m := x / TWO_TO_THE_32, x % TWO_TO_THE_32;
    var q, r := m / 0x100, m % 0x100;
    var j := if m < 0x8000_0000 then 0 else 1;
    assert ToInt32(x) == 0x100 * (q - 0x100_0000 * j) + r;
    assert x == 0x100 * (0x100_0000 * k + q) + r;
    hide ToInt32;
    LastDigit(q - 0x100_0000 * j, r);
    LastDigit(0x100_0000 * k + q, r);
    var p, d := q / 0x100, q % 0x100;
    assert q - 0x100_0000 * j == 0x100 * (p - 0x1_0000 * j) + d;
    LastDigit(p - 0x1_0000 * j, d);
  }

  lemma {:induction false} LowOctetIsModulo(x: int)
    ensures LowOctet(x) == x % 0x100
  {
    hide ToInt32;
    LowOctets(x);
  }

  lemma {:induction false} EncodeUint16Octets(x: int)
    requires -0x8000_0000 <= x < 0x8000_0000
    ensures EncodeUint16(x) == [(x / 0x100) % 0x100, x % 0x100]
  {
    assert ToInt32(x) == x;
    LowOctetIsModulo(x / 0x100);
    LowOctetIsModulo(x);
  }

  /** The four big-endian digits of a word whose leading digit may be read with a sign. */
  lemma {:induction false} Digits(a: int, b: byte, c: byte, d: byte, t: int)
    requires t == a * 0x100_0000 + b * 0x1_0000 + c * 0x100 + d
    ensures t / 0x1_0000 == a * 0x100 + b && t / 0x100 == a * 0x1_0000 + b * 0x100 + c
    ensures t / 0x100_0000 == a && (t / 0x1_0000) % 0x100 == b && (t / 0x100) % 0x100 == c && t % 0x100 == d
  {
    assert t == 0x1_0000 * (a * 0x100 + b) + (c * 0x100 + d);
    assert t == 0x100 * (a * 0x1_0000 + b * 0x100 + c) + d;
    assert t / 0x1_0000 == a * 0x100 + b;
    assert t / 0x100 == a * 0x1_0000 + b * 0x100 + c;
  }

  lemma {:induction false} DigitsExist(x: uint32) returns (a: byte, b: byte, c: byte, d: byte)
    ensures x == a * 0x100_0000 + b * 0x1_0000 + c * 0x100 + d
  {
    var q := x / 0x100;
    var p := q / 0x100;
    a, b, c, d := p / 0x100, p % 0x100, q % 0x100, x % 0x100;
  }

  /** The signed shifts lose nothing: on every unsigned word the four octets are the big-endian
      form, although words from 2^31 up are negative while they are shifted. */
  lemma {:induction false} EncodeUint32Octets(x: uint32)
    ensures EncodeUint32(x) == [x / 0x100_0000, (x / 0x1_0000) % 0x100, (x / 0x100) % 0x100, x % 0x100]
  {
    var a, b, c, d := DigitsExist(x);
    Digits(a, b, c, d, x);
    var lead := SignedLead(x, a, b, c, d);
    var high := lead * 0x100 + b as int;
    EncodeUint16Octets(high);
    EncodeUint16OfWord(x);
    assert high / 0x100 == lead;
  }

  lemma {:induction false} SignedLead(x: uint32, a: byte, b: byte, c: byte, d: byte) returns (lead: int)
    requires x == a * 0x100_0000 + b * 0x1_0000 + c * 0x100 + d
    ensures -0x80 <= lead < 0x80 && lead % 0x100 == a
    ensures ShiftRight16(x) == lead * 0x100 + b
    ensures (ToInt32(x) / 0x100) % 0x100 == c && ToInt32(x) % 0x100 == d
  {
    var t := ToInt32(x);
    lead := if t == x then a as int else a as int - 0x100;
    Digits(lead, b, c, d, t);
  }

  lemma {:induction false} EncodeUint16OfWord(x: int)
    ensures EncodeUint16(x) == [(ToInt32(x) / 0x100) % 0x100, ToInt32(x) % 0x100]
  {
    LowOctetIsModulo(ToInt32(x) / 0x100);
  }

  lemma {:induction false} TwoLowDigits(x: nat)
    ensures (x / 0x100) % 0x100 * 0x100 + x % 0x100 == x % TWO_TO_THE_16
  {
    var q := x / 0x100;
    var k := q / 0x100;
    var low := q % 0x100 * 0x100 + x % 0x100;
    assert x == TWO_TO_THE_16 * k + low;
    LastWord(k, low);
  }

  lemma {:induction false} LowWord(x: int)
    ensures (x % TWO_TO_THE_32) % TWO_TO_THE_16 == x % TWO_TO_THE_16
  {
    var k, m := x / TWO_TO_THE_32, x % TWO_TO_THE_32;
    var h, l := m / TWO_TO_THE_16, m % TWO_TO_THE_16;
    assert x == TWO_TO_THE_16 * (TWO_TO_THE_16 * k + h) + l;
    LastWord(TWO_TO_THE_16 * k + h, l);
  }

  /** Encoding a 16-bit count keeps it modulo 2^16 and nothing more, whatever the number. */
  lemma {:induction false} EncodeUint16Value(x: int)
    ensures |EncodeUint16(x)| == 2 && BigEndian(EncodeUint16(x)) == x % TWO_TO_THE_16
  {
    hide EncodeUint16, BigEndian, ToInt32;
    var m := x % TWO_TO_THE_32;
    EncodeUint16OfWord(x);
    LowOctets(x);
    BigEndianOfTwo((m / 0x100) % 0x100, m % 0x100);
    TwoLowDigits(m);
    LowWord(x);
  }

  lemma {:induction false} BigEndianOfTwo(a: byte, b: byte)
    ensures BigEndian([a, b]) == a * 0x100 + b
  {
    assert [a, b][..1] == [a] && [a][..0] == [];
    assert BigEndian([a]) == a;
  }

  lemma {:induction false} EncodeUint32Value(x: uint32)
    ensures |EncodeUint32(x)| == 4 && BigEndian(EncodeUint32(x)) == x
  {
    EncodeUint32Octets(x);
    var a, b, c, d := DigitsExist(x);
    Digits(a, b, c, d, x);
    BigEndianOfFour(a, b, c, d);
  }

  lemma {:induction false} BigEndianOfFour(a: byte, b: byte, c: byte, d: byte)
    ensures BigEndian([a, b, c, d]) == a * 0x100_0000 + b * 0x1_0000 + c * 0x100 + d
  {
    var s := [a, b, c, d];
    assert s[..3] == [a, b, c] && [a, b, c][..2] == [a, b] && [a, b][..1] == [a] && [a][..0] == [];
    assert BigEndian([a, b]) == BigEndian([a]) * 0x100 + b;
    assert BigEndian([a, b, c]) == BigEndian([a, b]) * 0x100 + c;
  }
}
