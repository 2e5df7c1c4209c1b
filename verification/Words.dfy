/** Bytes, 16-bit words, the bits of the status register, and the C operators on them. */
module Words {

  type byte = x: int | 0 <= x < 0x100
  type word = x: int | 0 <= x < 0x1_0000

  /** A register number, and the number of a bit in a byte. */
  type RegNo = x: int | 0 <= x < 16
  type Bit = x: int | 0 <= x < 8

  /** A carry or a borrow. */
  type Carry = x: int | 0 <= x < 2

  /** The low register of a pair. */
  type PairNo = x: int | 0 <= x < 15

  // Bits of the status register (src/runheader.h).
  const CARRY: Bit := 0
  const ZERO: Bit := 1
  const NEGATIVE: Bit := 2
  const OVERFLOW: Bit := 3
  const SIGN: Bit := 4
  const TRANSFER: Bit := 6

  /** Truncation to uint8_t and to uint16_t. */
  function Trunc8(x: int): byte { x % 0x100 }

  function Trunc16(x: int): word { x % 0x1_0000 }

  /** w & 0x0100, as 0 or 1 */
  function Bit8(w: word): Carry { w / 0x100 % 2 }

  function High(w: word): byte { w / 0x100 }

  /** A register pair, or two bytes in memory, low byte first. */
  function Join(lo: byte, hi: byte): word { lo + 0x100 * hi }

  lemma JoinHalves(w: word)
    ensures Join(Trunc8(w), High(w)) == w
  {
  }

  function Power2(n: nat): (p: nat)
    ensures p > 0
  {
    if n == 0 then 1 else 2 * Power2(n - 1)
  }

  function Signed(b: byte): int { if b < 0x80 then b else b - 0x100 }

  function Signed16(w: word): int { if w < 0x8000 then w else w - 0x1_0000 }

  function BitAnd(a: byte, b: byte): byte { ((a as bv8) & (b as bv8)) as int }

  function BitOr(a: byte, b: byte): byte { ((a as bv8) | (b as bv8)) as int }

  function BitXor(a: byte, b: byte): byte { ((a as bv8) ^ (b as bv8)) as int }

  /** 1 << b */
  function Mask(b: Bit): bv8 {
    if b == 0 then 1 else if b == 1 then 2 else if b == 2 then 4 else if b == 3 then 8
    else if b == 4 then 0x10 else if b == 5 then 0x20 else if b == 6 then 0x40 else 0x80
  }

  predicate Flag(f: bv8, b: Bit) { f & Mask(b) != 0 }

  function Put(f: bv8, b: Bit, on: bool): bv8 { if on then f | Mask(b) else f & !Mask(b) }

  predicate TestBit(x: byte, b: Bit) { Flag(x as bv8, b) }

  function PutBit(x: byte, b: Bit, on: bool): byte { Put(x as bv8, b, on) as int }

  lemma FlagPut(f: bv8, b: Bit, on: bool, b': Bit)
    ensures Flag(Put(f, b, on), b') == if b == b' then on else Flag(f, b')
  {
  }

  /** The byte with the given value, built a nibble at a time. */
  function Nibble(x: int): (v: bv8)
    requires 0 <= x < 16
    ensures v < 16 && v as int == x
  {
    if x == 0 then 0 else if x == 1 then 1 else if x == 2 then 2 else if x == 3 then 3
    else if x == 4 then 4 else if x == 5 then 5 else if x == 6 then 6 else if x == 7 then 7
    else if x == 8 then 8 else if x == 9 then 9 else if x == 10 then 10 else if x == 11 then 11
    else if x == 12 then 12 else if x == 13 then 13 else if x == 14 then 14 else 15
  }

  lemma NibblesMakeByte(hi: bv8, lo: bv8)
    requires hi < 16 && lo < 16
    ensures ((hi << 4) | lo) as int == 16 * hi as int + lo as int
  {
  }

  /** A byte survives the trip through a bit-vector. */
  lemma ByteRoundTrip(x: byte)
    ensures (x as bv8) as int == x
  {
    NibblesMakeByte(Nibble(x / 16), Nibble(x % 16));
    var v := (Nibble(x / 16) << 4) | Nibble(x % 16);
    assert (v as int) as bv8 == v;
  }

  lemma TopBit(x: byte)
    ensures ((x as bv8) & 0x80 != 0) == (x >= 0x80)
  {
    ByteRoundTrip(x);
    var v := x as bv8;
    assert (v & 0x80 != 0) == (v as int >= 0x80);
  }

  lemma LowBit(x: byte)
    ensures ((x as bv8) & 1 != 0) == (x % 2 == 1)
  {
    ByteRoundTrip(x);
    var v := x as bv8;
    assert (v & 1 != 0) == (v as int % 2 == 1);
  }

  /** One's complement of a byte. */
  lemma Complement(v: bv8)
    ensures (!v) as int == 0xff - v as int
  {
  }

  // ----- division -----

  lemma DivideTwice(x: int, m: nat)
    requires m > 0
    ensures x / 2 / m == x / (2 * m)
  {
    var q := x / (2 * m);
    var r := x - 2 * m * q;
    assert 0 <= r < 2 * m;
    assert x / 2 == m * q + r / 2 by { assert x == 2 * (m * q) + r; }
    QuotientIs(x / 2, m, q, r / 2);
  }

  lemma QuotientIs(x: int, m: int, q: int, r: int)
    requires x == m * q + r && 0 <= r < m
    ensures x / m == q
  {
    assert x / m * m + x % m == x;
    assert (x / m - q) * m == r - x % m;
    if x / m != q { Multiple(x / m - q, m); }
  }

  lemma Multiple(d: int, m: int)
    requires d != 0 && m > 0
    ensures d * m >= m || d * m <= -m
  {
  }
}
