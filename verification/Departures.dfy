/**
 Where flags, pointers and nibbles are not what one expects: for each such place, exactly when the
 code does what one expects, and an input for which it does not.
 */
module Departures {
  import opened Words
  import opened Isa
  import opened Arithmetic

  // ----- the pointer of a pre-decrement -----

  /** dec_reg subtracts 1 from the pair exactly when the low byte is at least 2. */
  lemma DecPairSubtracts(reg: Regs, p: PairNo)
    ensures PairAt(DecPair(reg, p), p) == Trunc16(PairAt(reg, p) - 1) <==> reg[p] >= 2
  {
    var lo: int, hi: int := reg[p], reg[p + 1];
    if lo == 0 {
      assert Trunc8(lo - 1) == 0xff;
    } else {
      assert Trunc8(lo - 1) == lo - 1;
    }
  }

  /** With a low byte of 1 it borrows without need; with 0 it does not borrow. */
  lemma DecPairWrong(reg: Regs, p: PairNo)
    ensures reg[p] == 1 && reg[p + 1] == 1 ==> PairAt(reg, p) == 0x101 && PairAt(DecPair(reg, p), p) == 0
    ensures reg[p] == 0 && reg[p + 1] == 1 ==> PairAt(reg, p) == 0x100 && PairAt(DecPair(reg, p), p) == 0x1ff
  {
  }

  /** A load with pre-decrement reads the right cell, but leaves the right pointer in the same cases only. */
  lemma LoadPreDecrements(c: Core, d: RegNo, p: PairNo)
    ensures var c1 := Effect(Load(d, p, PreDec), c);
            && c1.reg[d] == c.mem[Trunc16(PairAt(c.reg, p) - 1)]
            && (d != p && d != p + 1 ==>
                  (PairAt(c1.reg, p) == Trunc16(PairAt(c.reg, p) - 1) <==> c.reg[p] >= 2))
  {
    hide DecPair, Trunc16;
    DecPairSubtracts(c.reg, p);
  }

  lemma StorePreDecrements(c: Core, d: RegNo, p: PairNo)
    ensures var c1 := Effect(Store(p, PreDec, d), c);
            && c1.mem == c.mem[Trunc16(PairAt(c.reg, p) - 1) := c1.reg[d]]
            && (PairAt(c1.reg, p) == Trunc16(PairAt(c.reg, p) - 1) <==> c.reg[p] >= 2)
  {
    hide DecPair, Trunc16;
    DecPairSubtracts(c.reg, p);
  }

  // ----- V and S of the shifts -----

  /** The flags that shifts leave, read back one by one. */
  lemma ShiftFlagsRead(f: bv8, out: bool, r: byte)
    ensures var g := ShiftFlags(f, out, r);
            && Flag(g, CARRY) == out && Flag(g, ZERO) == (r == 0) && Flag(g, NEGATIVE) == (r >= 0x80)
            && Flag(g, SIGN) == ((r >= 0x80) != Flag(f, OVERFLOW))
            && Flag(g, OVERFLOW) == (Flag(f, OVERFLOW) || (r >= 0x80) != out)
  {
  }

  /** S is N xor V exactly when V was set before or the shift does not set it. */
  lemma ShiftSign(f: bv8, out: bool, r: byte)
    ensures var g := ShiftFlags(f, out, r);
            Flag(g, SIGN) == (Flag(g, NEGATIVE) != Flag(g, OVERFLOW)) <==> (Flag(f, OVERFLOW) || (r >= 0x80) == out)
  {
    hide ShiftFlags, Flag;
    ShiftFlagsRead(f, out, r);
  }

  /** V is N xor C exactly when no V of before stays. */
  lemma ShiftOverflow(f: bv8, out: bool, r: byte)
    ensures var g := ShiftFlags(f, out, r);
            Flag(g, OVERFLOW) == (Flag(g, NEGATIVE) != Flag(g, CARRY)) <==> !(Flag(f, OVERFLOW) && (r >= 0x80) == out)
  {
    hide ShiftFlags, Flag;
    ShiftFlagsRead(f, out, r);
  }

  predicate IsShift(o: Op) { o.Asr? || o.Lsr? || o.Ror? }

  /** Whether the shifted byte has its top bit set. */
  predicate TopAfter(o: Op, c: Core)
    requires IsShift(o)
  {
    if o.Asr? then c.reg[o.d] >= 0x80 else o.Ror? && Flag(c.sreg, CARRY)
  }

  /** The three shifts on their operands: the bit shifted in is the new top bit, the lowest bit goes to C. */
  lemma ShiftedFlags(o: Op, c: Core)
    requires IsShift(o)
    ensures var c1, low := Effect(o, c), c.reg[o.d] % 2 == 1;
            && c1.sreg == ShiftFlags(c.sreg, low, c1.reg[o.d]) && (c1.reg[o.d] >= 0x80) == TopAfter(o, c)
  {
    hide ShiftFlags, Flag;
  }

  /** After ArithShiftRt, LogicalShiftRt and RotateRight, exactly when S and V are what their names say. */
  lemma ShiftsExact(o: Op, c: Core)
    requires IsShift(o)
    ensures var g, low := Effect(o, c).sreg, c.reg[o.d] % 2 == 1;
            && (Flag(g, SIGN) == (Flag(g, NEGATIVE) != Flag(g, OVERFLOW))
                <==> (Flag(c.sreg, OVERFLOW) || TopAfter(o, c) == low))
            && (Flag(g, OVERFLOW) == (Flag(g, NEGATIVE) != Flag(g, CARRY))
                <==> !(Flag(c.sreg, OVERFLOW) && TopAfter(o, c) == low))
  {
    hide ShiftFlags, Flag, Effect, TopAfter;
    ShiftedFlags(o, c);
    ShiftSign(c.sreg, c.reg[o.d] % 2 == 1, Effect(o, c).reg[o.d]);
    ShiftOverflow(c.sreg, c.reg[o.d] % 2 == 1, Effect(o, c).reg[o.d]);
  }

  /** LogicalShiftRt of 1 with all flags clear: V is set, N is not, and S stays clear. */
  lemma ShiftSignWrong(c: Core, d: RegNo)
    requires c.reg[d] == 1 && c.sreg == 0
    ensures var g := Effect(Lsr(d), c).sreg; Flag(g, OVERFLOW) && !Flag(g, NEGATIVE) && !Flag(g, SIGN)
  {
    hide ShiftFlags;
    ShiftFlagsRead(0, true, 0);
  }

  // ----- nibbles -----

  lemma SwapParts(v: bv8)
    ensures (((v << 4) | (v & 0xf0)) >> 4) == (v & 0x0f) | (v >> 4) && ((v << 4) | (v & 0xf0)) & 0x0f == 0
    ensures ((v << 4) | (v & 0xf0)) == ((v << 4) | (v >> 4)) <==> v < 16
  {
  }

  lemma NibbleBounds(v: bv8)
    ensures ((v << 4) | (v >> 4)) as int == v as int % 16 * 16 + v as int / 16 && (v < 16 <==> v as int < 16)
  {
  }

  lemma SameByte(v: bv8, w: bv8)
    ensures v == w <==> v as int == w as int
  {
  }

  /** Swap exchanges the nibbles exactly when the high one is empty. */
  lemma SwapExchanges(x: byte)
    ensures SwapByte(x) == x % 16 * 16 + x / 16 <==> x < 16
  {
    var v := x as bv8;
    ByteRoundTrip(x);
    SwapParts(v);
    NibbleBounds(v);
    SameByte((v << 4) | (v & 0xf0), (v << 4) | (v >> 4));
  }

  lemma SwapWrong()
    ensures SwapByte(0x12) == 0x30
  {
    ByteRoundTrip(0x12);
    assert 0x12 as bv8 == 0x12;
  }

  // ----- subtractions and comparisons -----

  /** 5 - 5 with C set before: C stays set, although nothing is borrowed. */
  lemma SubtractCarryWrong(c: Core, d: RegNo, r: RegNo)
    requires c.reg[d] == 5 && c.reg[r] == 5 && c.sreg == 1
    ensures Flag(Effect(Sub(d, r), c).sreg, CARRY)
  {
    hide DiffFlags;
    SubtractCarry(c, d, 5, 5, 0);
  }

  /** 5 - 5 with all flags clear: Z stays clear. */
  lemma SubtractZeroWrong(c: Core, d: RegNo, r: RegNo)
    requires c.reg[d] == 5 && c.reg[r] == 5 && c.sreg == 0
    ensures Effect(Sub(d, r), c).reg[d] == 0 && !Flag(Effect(Sub(d, r), c).sreg, ZERO)
  {
    hide DiffFlags;
    SubtractZero(c, d, 5, 5, 0);
  }

  /** 1 - 1 on a pair with all flags clear: Z stays clear. */
  lemma SubtractImmWordZeroWrong(c: Core, p: PairNo)
    requires c.reg[p] == 1 && c.reg[p + 1] == 0 && c.sreg == 0
    ensures PairAt(Effect(Sbiw(p, 1), c).reg, p) == 0 && !Flag(Effect(Sbiw(p, 1), c).sreg, ZERO)
  {
    hide Effect;
    SubtractImmWordSubtracts(c, p, 1);
    SubtractImmWordZero(c, p, 1);
  }

  /** 5 - 1 on a pair with C set before: C stays set. */
  lemma SubtractImmWordCarryWrong(c: Core, p: PairNo)
    requires c.reg[p] == 5 && c.reg[p + 1] == 0 && c.sreg == 1
    ensures PairAt(Effect(Sbiw(p, 1), c).reg, p) == 4 && Flag(Effect(Sbiw(p, 1), c).sreg, CARRY)
  {
    hide Effect;
    SubtractImmWordSubtracts(c, p, 1);
    SubtractImmWordCarry(c, p, 1);
  }

  /** -127 compared with -128: S says that it is less. */
  lemma CompareSignWrong(c: Core, d: RegNo, r: RegNo)
    requires c.reg[d] == 0x81 && c.reg[r] == 0x80
    ensures Signed(c.reg[d]) > Signed(c.reg[r]) && Flag(Effect(Cp(d, r), c).sreg, SIGN)
  {
    hide SumFlags, Flag;
    CompareSign(c, 0x81, 0x80, 0);
  }

  // ----- the stack pointer -----

  /** A push stays in 0xf000..0xffff exactly from above 0xf000, or from 0, where it wraps. */
  lemma PushStaysInRange(c: Core, x: byte)
    ensures PushByte(c, x).sp >= 0xf000 <==> c.sp > 0xf000 || c.sp == 0
  {
    if c.sp > 0 { assert Trunc16(c.sp - 1) == c.sp - 1; }
  }

  lemma PushLeavesRange(c: Core, x: byte)
    requires c.sp == 0xf000
    ensures PushByte(c, x).sp == 0xefff
  {
    PushStaysInRange(c, x);
  }
}
