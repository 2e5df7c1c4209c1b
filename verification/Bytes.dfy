/** What the handlers on one byte, and the multiplications, compute. */
module Bytes {
  import opened Words
  import opened Isa
  import opened Arithmetic

  // ----- products -----

  lemma ProductFlagsRead(f: bv8, w: word)
    ensures Flag(ProductFlags(f, w), CARRY) == (w >= 0x8000) && Flag(ProductFlags(f, w), ZERO) == (w == 0)
  {
  }

  lemma ProductFits(a: byte, b: byte)
    ensures 0 <= a * b <= 0xfe01
    ensures -0x3f80 <= Signed(a) * Signed(b) <= 0x4000
  {
    BoundedProduct(a, b, 0xff);
    SignedProduct(Signed(a), Signed(b));
  }

  lemma BoundedProduct(x: int, y: int, k: nat)
    requires 0 <= x <= k && 0 <= y <= k
    ensures 0 <= x * y <= k * k
  {
    assert x * y <= k * y <= k * k by { Monotone(x, k, y); Monotone(y, k, k); }
  }

  lemma Monotone(x: int, y: int, k: nat)
    requires x <= y
    ensures x * k <= y * k
  {
  }

  lemma SignedProduct(x: int, y: int)
    requires -0x80 <= x < 0x80 && -0x80 <= y < 0x80
    ensures -0x3f80 <= x * y <= 0x4000
  {
    if x >= 0 && y >= 0 {
      BoundedProduct(x, y, 0x7f);
    } else if x < 0 && y < 0 {
      BoundedProduct(-x, -y, 0x80);
      assert x * y == -x * -y;
    } else if x < 0 {
      Monotone(-x, 0x80, y);
      Monotone(y, 0x7f, 0x80);
      assert x * y == -(-x * y);
    } else {
      Monotone(-y, 0x80, x);
      Monotone(x, 0x7f, 0x80);
      assert x * y == -(-y * x);
    }
  }

  /** Multiply leaves the whole product in r1:r0, with C its top bit. */
  lemma MultiplyIsExact(c: Core, d: RegNo, r: RegNo)
    ensures var c1, x := Effect(Mul(d, r), c), At(c.reg, d) * At(c.reg, r);
            && PairAt(c1.reg, 0) == x && Flag(c1.sreg, CARRY) == (x >= 0x8000) && Flag(c1.sreg, ZERO) == (x == 0)
            && forall i: RegNo :: i > 1 ==> c1.reg[i] == c.reg[i]
  {
    hide ProductFlags, Flag, Trunc8, High;
    var x := At(c.reg, d) * At(c.reg, r);
    ProductFits(c.reg[d], c.reg[r]);
    assert Trunc16(x) == x;
    hide Trunc16;
    JoinHalves(x);
    ProductFlagsRead(c.sreg, x);
  }

  lemma SignedWord(x: int)
    requires -0x8000 <= x < 0x8000
    ensures Signed16(Trunc16(x)) == x && (Trunc16(x) >= 0x8000 <==> x < 0) && (Trunc16(x) == 0 <==> x == 0)
  {
    if x < 0 { assert Trunc16(x) == x + 0x1_0000; } else { assert Trunc16(x) == x; }
  }

  /** MultiplyS leaves the product of the signed numbers, with C its sign. */
  lemma MultiplySIsExact(c: Core, d: RegNo, r: RegNo)
    ensures var c1, x := Effect(Muls(d, r), c), Signed(c.reg[d]) * Signed(c.reg[r]);
            && Signed16(PairAt(c1.reg, 0)) == x && Flag(c1.sreg, CARRY) == (x < 0) && Flag(c1.sreg, ZERO) == (x == 0)
            && forall i: RegNo :: i > 1 ==> c1.reg[i] == c.reg[i]
  {
    hide ProductFlags, Flag, Trunc8, High, Trunc16, Signed, Signed16;
    var x := Signed(c.reg[d]) * Signed(c.reg[r]);
    ProductFits(c.reg[d], c.reg[r]);
    SignedWord(x);
    JoinHalves(Trunc16(x));
    ProductFlagsRead(c.sreg, Trunc16(x));
  }

  // ----- one byte -----

  /** Negate is exact for all bytes but 0x80; V tells of that one, C of all but 0, and S is always the exact sign. */
  lemma NegateIsExact(c: Core, d: RegNo)
    ensures var c1, x := Effect(Neg(d), c), Signed(c.reg[d]);
            && (Signed(c1.reg[d]) == -x <==> c.reg[d] != 0x80)
            && Flag(c1.sreg, OVERFLOW) == (c.reg[d] == 0x80) && Flag(c1.sreg, CARRY) == (c.reg[d] != 0)
            && Flag(c1.sreg, ZERO) == (x == 0) && Flag(c1.sreg, SIGN) == (-x < 0)
  {
    hide ResultFlags, Flag, Put;
    var x := Effect(Neg(d), c).reg[d];
    var f := Put(c.sreg, OVERFLOW, x == 0x80);
    FlagPut(c.sreg, OVERFLOW, x == 0x80, OVERFLOW);
    FlagPut(f, CARRY, x != 0, CARRY);
    FlagPut(f, CARRY, x != 0, OVERFLOW);
    ResultFlagsRead(Put(f, CARRY, x != 0), x);
  }

  /** Increment adds 1 modulo 256, with V and S of the signed sum and C kept. */
  lemma IncrementIsExact(c: Core, d: RegNo)
    ensures var c1, x := Effect(Inc(d), c), Signed(c.reg[d]) + 1;
            && c1.reg[d] == Trunc8(At(c.reg, d) + 1) && Flag(c1.sreg, CARRY) == Flag(c.sreg, CARRY)
            && Flag(c1.sreg, ZERO) == (c1.reg[d] == 0) && Flag(c1.sreg, NEGATIVE) == (c1.reg[d] >= 0x80)
            && Flag(c1.sreg, OVERFLOW) == (x >= 0x80) && Flag(c1.sreg, SIGN) == (x < 0)
  {
    hide ResultFlags, Flag, Put;
    var v := c.reg[d] == 0x7f;
    FlagPut(c.sreg, OVERFLOW, v, OVERFLOW);
    FlagPut(c.sreg, OVERFLOW, v, CARRY);
    ResultFlagsRead(Put(c.sreg, OVERFLOW, v), Trunc8(At(c.reg, d) + 1));
  }

  /** Decrement subtracts 1 in the same way. */
  lemma DecrementIsExact(c: Core, d: RegNo)
    ensures var c1, x := Effect(Dec(d), c), Signed(c.reg[d]) - 1;
            && c1.reg[d] == Trunc8(At(c.reg, d) - 1) && Flag(c1.sreg, CARRY) == Flag(c.sreg, CARRY)
            && Flag(c1.sreg, ZERO) == (c1.reg[d] == 0) && Flag(c1.sreg, NEGATIVE) == (c1.reg[d] >= 0x80)
            && Flag(c1.sreg, OVERFLOW) == (x < -0x80) && Flag(c1.sreg, SIGN) == (x < 0)
  {
    hide ResultFlags, Flag, Put;
    var v := c.reg[d] == 0x80;
    FlagPut(c.sreg, OVERFLOW, v, OVERFLOW);
    FlagPut(c.sreg, OVERFLOW, v, CARRY);
    ResultFlagsRead(Put(c.sreg, OVERFLOW, v), Trunc8(At(c.reg, d) - 1));
  }

  /** Compliment maps x to -1 - x, sets C and clears V, so that S is the exact sign. */
  lemma ComplimentIsExact(c: Core, d: RegNo)
    ensures var c1, x := Effect(Com(d), c), -1 - Signed(c.reg[d]);
            && Signed(c1.reg[d]) == x && Flag(c1.sreg, CARRY) && !Flag(c1.sreg, OVERFLOW)
            && Flag(c1.sreg, ZERO) == (x == 0) && Flag(c1.sreg, SIGN) == (x < 0)
  {
    hide ResultFlags, Flag, Put;
    var f := Put(c.sreg, CARRY, true);
    FlagPut(c.sreg, CARRY, true, CARRY);
    FlagPut(f, OVERFLOW, false, CARRY);
    FlagPut(f, OVERFLOW, false, OVERFLOW);
    ResultFlagsRead(Put(f, OVERFLOW, false), 0xff - At(c.reg, d));
  }

  /** ArithShiftRt halves a signed number, rounding down; C is the bit lost. */
  lemma ArithShiftHalves(c: Core, d: RegNo)
    ensures var c1, x := Effect(Asr(d), c), Signed(c.reg[d]);
            2 * Signed(c1.reg[d]) + CarryIn(c1.sreg) == x
  {
    hide ResultFlags, Flag, Put;
    var a := c.reg[d];
    var r := Effect(Asr(d), c).reg[d];
    var f := Put(c.sreg, CARRY, a % 2 == 1);
    FlagPut(c.sreg, CARRY, a % 2 == 1, CARRY);
    ResultFlagsRead(f, r);
    var g := ResultFlags(f, r);
    FlagPut(g, OVERFLOW, Flag(g, OVERFLOW) || (r >= 0x80) != (a % 2 == 1), CARRY);
  }

  // ----- single bits -----

  predicate OneBit(m: bv8) { m != 0 && m & (m - 1) == 0 }

  lemma MaskIsOneBit(k: Bit)
    ensures OneBit(Mask(k))
  {
  }

  lemma MaskedAnd(v: bv8, w: bv8, m: bv8)
    requires OneBit(m)
    ensures (v & w) & m != 0 <==> v & m != 0 && w & m != 0
  {
  }

  lemma MaskedOr(v: bv8, w: bv8, m: bv8)
    requires OneBit(m)
    ensures (v | w) & m != 0 <==> v & m != 0 || w & m != 0
  {
  }

  lemma MaskedXor(v: bv8, w: bv8, m: bv8)
    requires OneBit(m)
    ensures (v ^ w) & m != 0 <==> (v & m != 0) != (w & m != 0)
  {
  }

  lemma LogicBits(v: bv8, w: bv8, k: Bit)
    ensures Flag(v & w, k) == (Flag(v, k) && Flag(w, k)) && Flag(v | w, k) == (Flag(v, k) || Flag(w, k))
    ensures Flag(v ^ w, k) == (Flag(v, k) != Flag(w, k))
  {
    hide Mask, OneBit;
    MaskIsOneBit(k);
    MaskedAnd(v, w, Mask(k));
    MaskedOr(v, w, Mask(k));
    MaskedXor(v, w, Mask(k));
  }

  lemma BitsOf(v: bv8, k: Bit)
    ensures TestBit(v as int, k) == Flag(v, k)
  {
    hide Flag;
    assert (v as int) as bv8 == v;
  }

  lemma TestBitOf(x: byte, k: Bit)
    ensures TestBit(x, k) == Flag(x as bv8, k)
  {
  }

  lemma HalfFlag(v: bv8, b: Bit)
    ensures b > 0 ==> Flag(v, b) == Flag(v >> 1, b - 1)
  {
  }

  lemma HalfByte(v: bv8)
    ensures (v >> 1) as int == v as int / 2 && Flag(v, 0) == (v as int % 2 == 1)
  {
  }

  lemma HalfDigit(x: nat, b: nat)
    requires b > 0
    ensures x / 2 / Power2(b - 1) == x / Power2(b)
  {
    var m := Power2(b - 1);
    DivideTwice(x, m);
  }

  lemma {:induction false} FlagIsDigit(v: bv8, b: Bit)
    ensures Flag(v, b) <==> v as int / Power2(b) % 2 == 1
    decreases b
  {
    hide Flag;
    HalfByte(v);
    if b > 0 {
      HalfFlag(v, b);
      FlagIsDigit(v >> 1, b - 1);
      HalfDigit(v as int, b);
    }
  }

  /** Bit b of a byte is its binary digit for 2 to the b. */
  lemma BitIsDigit(x: byte, b: Bit)
    ensures TestBit(x, b) <==> x / Power2(b) % 2 == 1
  {
    hide Flag, TestBit, Power2;
    ByteRoundTrip(x);
    TestBitOf(x, b);
    FlagIsDigit(x as bv8, b);
  }

  lemma AndByte(v: bv8, w: bv8, k: Bit)
    ensures TestBit((v & w) as int, k) == (Flag(v, k) && Flag(w, k))
  {
    hide Flag, TestBit;
    LogicBits(v, w, k);
    BitsOf(v & w, k);
  }

  lemma OrByte(v: bv8, w: bv8, k: Bit)
    ensures TestBit((v | w) as int, k) == (Flag(v, k) || Flag(w, k))
  {
    hide Flag, TestBit;
    LogicBits(v, w, k);
    BitsOf(v | w, k);
  }

  lemma XorByte(v: bv8, w: bv8, k: Bit)
    ensures TestBit((v ^ w) as int, k) == (Flag(v, k) != Flag(w, k))
  {
    hide Flag, TestBit;
    LogicBits(v, w, k);
    BitsOf(v ^ w, k);
  }

  /** And, or and exclusive or act on each bit by itself. */
  lemma AndIsBitwise(a: byte, b: byte, k: Bit)
    ensures TestBit(BitAnd(a, b), k) == (TestBit(a, k) && TestBit(b, k))
  {
    hide Flag, TestBit;
    TestBitOf(a, k);
    TestBitOf(b, k);
    AndByte(a as bv8, b as bv8, k);
  }

  lemma OrIsBitwise(a: byte, b: byte, k: Bit)
    ensures TestBit(BitOr(a, b), k) == (TestBit(a, k) || TestBit(b, k))
  {
    hide Flag, TestBit;
    TestBitOf(a, k);
    TestBitOf(b, k);
    OrByte(a as bv8, b as bv8, k);
  }

  lemma XorIsBitwise(a: byte, b: byte, k: Bit)
    ensures TestBit(BitXor(a, b), k) == (TestBit(a, k) != TestBit(b, k))
  {
    hide Flag, TestBit;
    TestBitOf(a, k);
    TestBitOf(b, k);
    XorByte(a as bv8, b as bv8, k);
  }

  /** What every logic instruction leaves besides its byte: V clear, C kept, and so S the sign of the result. */
  predicate LogicExact(c: Core, d: RegNo, c1: Core) {
    && c1 == c.(reg := c.reg[d := c1.reg[d]], sreg := c1.sreg)
    && !Flag(c1.sreg, OVERFLOW) && Flag(c1.sreg, CARRY) == Flag(c.sreg, CARRY)
    && Flag(c1.sreg, ZERO) == (c1.reg[d] == 0) && Flag(c1.sreg, NEGATIVE) == (c1.reg[d] >= 0x80)
    && Flag(c1.sreg, SIGN) == (Signed(c1.reg[d]) < 0)
  }

  lemma LogicFlagsRead(c: Core, d: RegNo, x: byte)
    ensures LogicExact(c, d, LogicInto(c, d, x)) && LogicInto(c, d, x).reg[d] == x
  {
    hide ResultFlags, Flag, Put;
    FlagPut(c.sreg, OVERFLOW, false, OVERFLOW);
    FlagPut(c.sreg, OVERFLOW, false, CARRY);
    ResultFlagsRead(Put(c.sreg, OVERFLOW, false), x);
  }

  /** And and AndImm, bit by bit. */
  lemma AndIsExact(c: Core, d: RegNo, r: RegNo, k: byte)
    ensures var c1 := Effect(And(d, r), c);
            LogicExact(c, d, c1)
            && forall i: Bit :: TestBit(c1.reg[d], i) == (TestBit(c.reg[d], i) && TestBit(c.reg[r], i))
    ensures var c1 := Effect(Andi(d, k), c);
            LogicExact(c, d, c1) && forall i: Bit :: TestBit(c1.reg[d], i) == (TestBit(c.reg[d], i) && TestBit(k, i))
  {
    hide LogicExact, LogicInto, BitAnd, TestBit;
    var a, b := c.reg[d], c.reg[r];
    LogicFlagsRead(c, d, BitAnd(a, b));
    LogicFlagsRead(c, d, BitAnd(a, k));
    forall i: Bit ensures TestBit(BitAnd(a, b), i) == (TestBit(a, i) && TestBit(b, i)) { AndIsBitwise(a, b, i); }
    forall i: Bit ensures TestBit(BitAnd(a, k), i) == (TestBit(a, i) && TestBit(k, i)) { AndIsBitwise(a, k, i); }
  }

  /** Or and OrImm, bit by bit. */
  lemma OrIsExact(c: Core, d: RegNo, r: RegNo, k: byte)
    ensures var c1 := Effect(Or(d, r), c);
            LogicExact(c, d, c1)
            && forall i: Bit :: TestBit(c1.reg[d], i) == (TestBit(c.reg[d], i) || TestBit(c.reg[r], i))
    ensures var c1 := Effect(Ori(d, k), c);
            LogicExact(c, d, c1) && forall i: Bit :: TestBit(c1.reg[d], i) == (TestBit(c.reg[d], i) || TestBit(k, i))
  {
    hide LogicExact, LogicInto, BitOr, TestBit;
    var a, b := c.reg[d], c.reg[r];
    LogicFlagsRead(c, d, BitOr(a, b));
    LogicFlagsRead(c, d, BitOr(a, k));
    forall i: Bit ensures TestBit(BitOr(a, b), i) == (TestBit(a, i) || TestBit(b, i)) { OrIsBitwise(a, b, i); }
    forall i: Bit ensures TestBit(BitOr(a, k), i) == (TestBit(a, i) || TestBit(k, i)) { OrIsBitwise(a, k, i); }
  }

  /** ExclusiveOr, bit by bit. */
  lemma XorIsExact(c: Core, d: RegNo, r: RegNo)
    ensures var c1 := Effect(Eor(d, r), c);
            LogicExact(c, d, c1)
            && forall i: Bit :: TestBit(c1.reg[d], i) == (TestBit(c.reg[d], i) != TestBit(c.reg[r], i))
  {
    hide LogicExact, LogicInto, BitXor, TestBit;
    var a, b := c.reg[d], c.reg[r];
    LogicFlagsRead(c, d, BitXor(a, b));
    forall i: Bit ensures TestBit(BitXor(a, b), i) == (TestBit(a, i) != TestBit(b, i)) { XorIsBitwise(a, b, i); }
  }

  lemma PutBitRead(x: byte, b: Bit, on: bool, i: Bit)
    ensures TestBit(PutBit(x, b, on), i) == if i == b then on else TestBit(x, i)
  {
    hide Flag, Put, TestBit;
    TestBitOf(x, i);
    FlagPut(x as bv8, b, on, i);
    BitsOf(Put(x as bv8, b, on), i);
  }

  /** BitStoreT and then BitLoad copy one bit of a register to one bit of another, and keep the others. */
  lemma BitTravels(c: Core, r: RegNo, b: Bit, d: RegNo, k: Bit)
    ensures var c1 := Effect(Bld(d, k), Effect(Bst(r, b), c));
            forall i: Bit :: TestBit(c1.reg[d], i) == if i == k then TestBit(c.reg[r], b) else TestBit(c.reg[d], i)
  {
    hide Flag, Put, TestBit, PutBit;
    var t := TestBit(c.reg[r], b);
    FlagPut(c.sreg, TRANSFER, t, TRANSFER);
    forall i: Bit ensures TestBit(PutBit(c.reg[d], k, t), i) == if i == k then t else TestBit(c.reg[d], i) {
      PutBitRead(c.reg[d], k, t, i);
    }
  }

  lemma SwapFlag(v: bv8, k: Bit)
    ensures Flag((v << 4) | (v & 0xf0), k) == (k >= 4 && (Flag(v, k) || Flag(v, k - 4)))
  {
  }

  /** Swap clears the low nibble, and each bit of the high one is the or of itself and the bit four below. */
  lemma SwapIsOr(x: byte, k: Bit)
    ensures TestBit(SwapByte(x), k) == (k >= 4 && (TestBit(x, k) || TestBit(x, k - 4)))
  {
    hide Flag, TestBit;
    var v := x as bv8;
    TestBitOf(x, k);
    if k >= 4 { TestBitOf(x, k - 4); }
    SwapFlag(v, k);
    BitsOf((v << 4) | (v & 0xf0), k);
  }
}
