/**
 What the arithmetic of single handlers means: the flags of additions and subtractions, the
 16-bit additions on register pairs, and the places where a flag does not mean what it should.
 */
module Arithmetic {
  import opened Words
  import opened Isa

  /** Z, N and S of a result, when V and C are in place. */
  lemma ResultFlagsRead(f: bv8, r: byte)
    ensures var g := ResultFlags(f, r);
            && Flag(g, ZERO) == (r == 0) && Flag(g, NEGATIVE) == (r >= 0x80)
            && Flag(g, SIGN) == ((r >= 0x80) != Flag(f, OVERFLOW))
            && Flag(g, OVERFLOW) == Flag(f, OVERFLOW) && Flag(g, CARRY) == Flag(f, CARRY)
            && Flag(g, TRANSFER) == Flag(f, TRANSFER)
  {
  }

  /** The flags that additions and comparisons leave, read back one by one. */
  lemma SumFlagsRead(f: bv8, w: word, a: byte, b: byte)
    ensures var g, r := SumFlags(f, w, a, b), Trunc8(w);
            && Flag(g, CARRY) == (Bit8(w) == 1) && Flag(g, ZERO) == (r == 0)
            && Flag(g, NEGATIVE) == (r >= 0x80) && Flag(g, OVERFLOW) == SignFlips(a, b, r)
            && Flag(g, SIGN) == ((r >= 0x80) != SignFlips(a, b, r))
            && Flag(g, TRANSFER) == Flag(f, TRANSFER)
  {
    hide Flag, Put, ResultFlags, SignFlips, Trunc8, Bit8;
    var v := SignFlips(a, b, Trunc8(w));
    var f1 := Put(f, CARRY, Bit8(w) == 1);
    FlagPut(f, CARRY, Bit8(w) == 1, CARRY);
    FlagPut(f, CARRY, Bit8(w) == 1, TRANSFER);
    FlagPut(f1, OVERFLOW, v, CARRY);
    FlagPut(f1, OVERFLOW, v, OVERFLOW);
    FlagPut(f1, OVERFLOW, v, TRANSFER);
    ResultFlagsRead(Put(f1, OVERFLOW, v), Trunc8(w));
  }

  /** The flags that subtractions leave, read back one by one. */
  lemma DiffFlagsRead(f: bv8, w: word, a: byte, b: byte)
    ensures var g, r := DiffFlags(f, w, a, b), Trunc8(w);
            && Flag(g, CARRY) == (b + CarryIn(f) > a) && Flag(g, ZERO) == (Flag(f, ZERO) && w == 0)
            && Flag(g, NEGATIVE) == (r >= 0x80) && Flag(g, OVERFLOW) == BorrowFlips(a, b, r)
            && Flag(g, SIGN) == ((r >= 0x80) != BorrowFlips(a, b, r))
            && Flag(g, TRANSFER) == Flag(f, TRANSFER)
  {
  }

  /** The carry and the sign of the exact sum; V says that the signed sum does not fit. */
  lemma SumExact(f: bv8, a: byte, b: byte, cin: Carry)
    ensures var g, signed := SumFlags(f, a + b + cin, a, b), Signed(a) + Signed(b) + cin;
            && Flag(g, CARRY) == (a + b + cin >= 0x100)
            && Flag(g, ZERO) == ((a + b + cin) % 0x100 == 0)
            && Flag(g, NEGATIVE) == ((a + b + cin) % 0x100 >= 0x80)
            && Flag(g, OVERFLOW) == !(-0x80 <= signed < 0x80)
            && Flag(g, SIGN) == (signed < 0)
  {
    hide Flag, SumFlags;
    SumFlagsRead(f, a + b + cin, a, b);
  }

  /** The sign of the exact difference, whether or not a borrow comes in; V likewise. */
  lemma DiffExact(f: bv8, a: byte, b: byte, cin: Carry)
    ensures var g, signed := DiffFlags(f, Trunc16(a - b - cin), a, b), Signed(a) - Signed(b) - cin;
            && Flag(g, CARRY) == (a < b + CarryIn(f))
            && Flag(g, ZERO) == (Flag(f, ZERO) && a == b + cin)
            && Flag(g, NEGATIVE) == ((a - b - cin) % 0x100 >= 0x80)
            && Flag(g, OVERFLOW) == !(-0x80 <= signed < 0x80)
            && Flag(g, SIGN) == (signed < 0)
  {
    hide Flag, DiffFlags;
    DiffFlagsRead(f, Trunc16(a - b - cin), a, b);
    TruncTwice(a - b - cin);
  }

  lemma TruncTwice(x: int)
    ensures Trunc8(Trunc16(x)) == Trunc8(x)
  {
  }

  lemma BorrowBit(a: byte, b: byte, cin: Carry)
    ensures (Bit8(Trunc16(a - b - cin)) == 1) == (a < b + cin)
  {
  }

  // ----- additions and subtractions of bytes -----

  /** Add and AddWithC: the result, and every flag that they set. */
  lemma AddIsExact(c: Core, d: RegNo, r: RegNo, withCarry: bool)
    ensures var cin := if withCarry then CarryIn(c.sreg) else 0;
            var c1 := Effect(if withCarry then Adc(d, r) else Add(d, r), c);
            var sum: int, signed: int := c.reg[d] as int + c.reg[r] + cin, Signed(c.reg[d]) + Signed(c.reg[r]) + cin;
            && c1 == Result(c, d, Trunc8(sum), c1.sreg)
            && Flag(c1.sreg, CARRY) == (sum >= 0x100)
            && Flag(c1.sreg, ZERO) == (sum % 0x100 == 0)
            && Flag(c1.sreg, NEGATIVE) == (sum % 0x100 >= 0x80)
            && Flag(c1.sreg, OVERFLOW) == !(-0x80 <= signed < 0x80)
            && Flag(c1.sreg, SIGN) == (signed < 0)
  {
    hide Flag, SumFlags, CarryIn, Trunc8, Signed;
    SumExact(c.sreg, c.reg[d], c.reg[r], if withCarry then CarryIn(c.sreg) else 0);
  }

  /** Subtract and SubtractWithC: the result, and V and S exact. */
  lemma SubtractIsExact(c: Core, d: RegNo, r: RegNo, withCarry: bool)
    ensures var cin := if withCarry then CarryIn(c.sreg) else 0;
            var c1 := Effect(if withCarry then Sbc(d, r) else Sub(d, r), c);
            var diff: int, signed: int := c.reg[d] as int - c.reg[r] - cin, Signed(c.reg[d]) - Signed(c.reg[r]) - cin;
            && c1 == Result(c, d, Trunc8(diff), c1.sreg)
            && Flag(c1.sreg, CARRY) == (c.reg[d] < c.reg[r] as int + CarryIn(c.sreg))
            && Flag(c1.sreg, ZERO) == (Flag(c.sreg, ZERO) && diff == 0)
            && Flag(c1.sreg, NEGATIVE) == (diff % 0x100 >= 0x80)
            && Flag(c1.sreg, OVERFLOW) == !(-0x80 <= signed < 0x80)
            && Flag(c1.sreg, SIGN) == (signed < 0)
  {
    hide Flag, DiffFlags, CarryIn, Trunc8, Trunc16, Signed;
    var cin := if withCarry then CarryIn(c.sreg) else 0;
    DiffExact(c.sreg, c.reg[d], c.reg[r], cin);
    TruncTwice(c.reg[d] as int - c.reg[r] - cin);
  }

  /** BranchLessThan after Subtract is the signed comparison of the registers. */
  lemma BranchLessThanAfterSubtract(s: Cpu, d: RegNo, r: RegNo, k: byte)
    ensures var s1 := Ran(s, Sub(d, r), 2);
            Branched(s1, true, SIGN, k)
            == s1.(ip := if Signed(s.core.reg[d]) < Signed(s.core.reg[r]) then BranchTo(s1.ip, k)
                         else Trunc16(s1.ip + 2))
  {
    hide Flag, DiffFlags, BranchTo;
    SubtractIsExact(s.core, d, r, false);
  }

  /** Subtract and SubtractImm are one subtraction without an incoming borrow. */
  lemma SubtractsInto(c: Core, d: RegNo, r: RegNo, k: byte)
    ensures Effect(Sub(d, r), c) == DiffInto(c, d, c.reg[d], c.reg[r], 0)
    ensures Effect(Subi(d, k), c) == DiffInto(c, d, c.reg[d], k, 0)
  {
    hide DiffInto;
  }

  /** SubtractWithC and SubtractImmC are the same with the carry as borrow. */
  lemma SubtractsWithCInto(c: Core, d: RegNo, r: RegNo, k: byte)
    ensures Effect(Sbc(d, r), c) == DiffInto(c, d, c.reg[d], c.reg[r], CarryIn(c.sreg))
    ensures Effect(Sbci(d, k), c) == DiffInto(c, d, c.reg[d], k, CarryIn(c.sreg))
  {
    hide DiffInto;
  }

  /** C after a subtraction is the borrow exactly if the operands differ, or the C of before is what was subtracted. */
  lemma SubtractCarry(c: Core, d: RegNo, a: byte, b: byte, cin: Carry)
    ensures Flag(DiffInto(c, d, a, b, cin).sreg, CARRY) == (a < b + cin) <==> a != b || cin == CarryIn(c.sreg)
  {
    hide Flag, DiffFlags, Trunc16, Trunc8;
    DiffFlagsRead(c.sreg, Trunc16(a - b - cin), a, b);
  }

  /** Z after a subtraction tells of zero exactly if the byte is not zero, or Z was set and nothing is borrowed. */
  lemma SubtractZero(c: Core, d: RegNo, a: byte, b: byte, cin: Carry)
    ensures Flag(DiffInto(c, d, a, b, cin).sreg, ZERO) == ((a - b - cin) % 0x100 == 0)
            <==> ((a - b - cin) % 0x100 == 0 ==> Flag(c.sreg, ZERO) && a >= b + cin)
  {
    hide Flag, DiffFlags;
    DiffFlagsRead(c.sreg, Trunc16(a - b - cin), a, b);
  }

  // ----- comparisons -----

  /** After Compare and CompareCarry C is the borrow, and Z and N are those of the difference. */
  lemma CompareIsExact(c: Core, a: byte, b: byte, cin: Carry)
    ensures var c1 := Compare(c, a, b, cin);
            && Flag(c1.sreg, CARRY) == (a < b + cin)
            && Flag(c1.sreg, ZERO) == ((a - b - cin) % 0x100 == 0)
            && Flag(c1.sreg, NEGATIVE) == ((a - b - cin) % 0x100 >= 0x80)
  {
    hide Flag, SumFlags, Trunc16;
    var w := Trunc16(a - b - cin);
    SumFlagsRead(c.sreg, w, a, b);
    TruncTwice(a - b - cin);
    BorrowBit(a, b, cin);
  }

  /**
   S after a comparison is not the sign of the difference, because V is computed as for an addition.
   BranchLessThan is right after Compare, CompareImm and CompareCarry exactly for the operands below.
   */
  lemma CompareSign(c: Core, a: byte, b: byte, cin: Carry)
    ensures Flag(Compare(c, a, b, cin).sreg, SIGN) == (Signed(a) - Signed(b) - cin < 0)
            <==> if a >= 0x80 && b >= 0x80 then a < b + cin
                 else if a < 0x80 && b < 0x80 then a >= b + cin
                 else -0x80 <= Signed(a) - Signed(b) - cin < 0x80
  {
    hide Flag, SumFlags, Trunc16;
    var w := Trunc16(a - b - cin);
    SumFlagsRead(c.sreg, w, a, b);
    TruncTwice(a - b - cin);
  }

  /** The three comparisons are this one. */
  lemma ComparisonsCompare(c: Core, d: RegNo, r: RegNo, k: byte)
    ensures Effect(Cp(d, r), c) == Compare(c, c.reg[d], c.reg[r], 0)
    ensures Effect(Cpi(d, k), c) == Compare(c, c.reg[d], k, 0)
    ensures Effect(Cpc(d, r), c) == Compare(c, c.reg[d], c.reg[r], CarryIn(c.sreg))
  {
  }

  // ----- register pairs -----

  /** inc_reg adds 1 to the pair. */
  lemma IncPairCounts(reg: Regs, p: PairNo)
    ensures PairAt(IncPair(reg, p), p) == Trunc16(PairAt(reg, p) + 1)
    ensures forall d: RegNo :: d != p && d != p + 1 ==> IncPair(reg, p)[d] == reg[d]
  {
  }

  /** The flags of the high byte, and Z of the whole pair. */
  lemma PairFlagsRead(f: bv8, z: bool)
    ensures var g := Put(f, ZERO, Flag(f, ZERO) && z);
            && Flag(g, CARRY) == Flag(f, CARRY) && Flag(g, ZERO) == (Flag(f, ZERO) && z)
            && Flag(g, NEGATIVE) == Flag(f, NEGATIVE) && Flag(g, OVERFLOW) == Flag(f, OVERFLOW)
            && Flag(g, SIGN) == Flag(f, SIGN)
  {
  }

  /** The two byte additions of a word addition, seen from the word. */
  lemma LowSum(lo: byte, k: byte)
    requires k < 0x40
    ensures var low := Trunc16(lo + k); 0x100 * Bit8(low) + Trunc8(low) == lo + k
  {
  }

  lemma HighSum(hi: byte, cin: Carry)
    ensures var h := Trunc16(hi + cin);
            && 0x100 * Bit8(h) + Trunc8(h) == hi + cin
            && SignFlips(hi, cin, Trunc8(h)) == (hi == 0x7f && cin == 1)
            && (Trunc8(h) >= 0x80) == (0x80 <= hi as int + cin < 0x100)
  {
    assert Trunc16(hi + cin) == hi + cin;
  }

  lemma WordSum(lo: byte, hi: byte, k: byte)
    requires k < 0x40
    ensures var w, low := Join(lo, hi), Trunc16(lo + k);
            var h := Trunc16(hi + Bit8(low));
            var high, v := Trunc8(h), SignFlips(hi, Bit8(low), Trunc8(h));
            && Trunc16(w + k) == Join(Trunc8(low), high)
            && (Bit8(h) == 1) == (w + k > 0xffff)
            && v == (Signed16(w) + k > 0x7fff)
            && ((high >= 0x80) != v) == (Signed16(w) + k < 0)
  {
    hide Trunc8, Bit8, SignFlips;
    LowSum(lo, k);
    HighSum(hi, Bit8(Trunc16(lo + k)));
  }

  /** AddImmWord is addition on 16 bits with all its flags, for the constants it can encode. */
  lemma AddImmWordIsExact(c: Core, p: PairNo, k: byte)
    requires k < 0x40
    ensures var w, c1 := PairAt(c.reg, p), Effect(Adiw(p, k), c);
            && PairAt(c1.reg, p) == Trunc16(w + k)
            && Flag(c1.sreg, CARRY) == (w + k > 0xffff)
            && Flag(c1.sreg, ZERO) == (Trunc16(w + k) == 0)
            && Flag(c1.sreg, NEGATIVE) == (Trunc16(w + k) >= 0x8000)
            && Flag(c1.sreg, OVERFLOW) == (Signed16(w) + k > 0x7fff)
            && Flag(c1.sreg, SIGN) == (Signed16(w) + k < 0)
  {
    hide Flag, Put, SumFlags, Trunc16, Bit8, SignFlips, Signed16;
    var lo: byte, hi: byte := c.reg[p], c.reg[p + 1];
    var cin := Bit8(Trunc16(lo + k));
    WordSum(lo, hi, k);
    SumFlagsRead(c.sreg, Trunc16(hi + cin), hi, cin);
    PairFlagsRead(SumFlags(c.sreg, Trunc16(hi + cin), hi, cin), Trunc8(Trunc16(lo + k)) == 0);
  }

  /** SubtractImmWord subtracts on 16 bits, so that it undoes AddImmWord. */
  lemma SubtractImmWordSubtracts(c: Core, p: PairNo, k: byte)
    ensures PairAt(Effect(Sbiw(p, k), c).reg, p) == Trunc16(PairAt(c.reg, p) - k)
  {
    hide Put, DiffFlags, Trunc8, Trunc16, Bit8;
    WordDifference(c.reg[p], c.reg[p + 1], k);
  }

  lemma LowDifference(lo: byte, k: byte)
    ensures var low := Trunc16(lo - k); Trunc8(low) - 0x100 * Bit8(low) == lo - k
  {
    var low := Trunc16(lo - k);
    assert low == if lo < k then lo - k + 0x1_0000 else lo - k;
  }

  lemma HighDifference(hi: byte, cin: Carry)
    ensures Trunc8(Trunc16(hi - cin)) == if hi < cin then 0xff else hi - cin
  {
    assert Trunc16(hi - cin) == if hi < cin then 0xffff else hi - cin;
  }

  lemma WordDifference(lo: byte, hi: byte, k: byte)
    ensures var low := Trunc16(lo - k);
            Trunc16(Join(lo, hi) - k) == Join(Trunc8(low), Trunc8(Trunc16(hi - Bit8(low))))
  {
    hide Trunc8, Trunc16, Bit8;
    var low := Trunc16(lo - k);
    LowDifference(lo, k);
    HighDifference(hi, Bit8(low));
    Reduced(Join(lo, hi) - k, Join(Trunc8(low), Trunc8(Trunc16(hi - Bit8(low)))));
  }

  lemma Reduced(x: int, w: word)
    requires x == w || x == w - 0x1_0000
    ensures Trunc16(x) == w
  {
  }

  lemma SubtractUndoesAdd(c: Core, p: PairNo, k: byte)
    requires k < 0x40
    ensures PairAt(Effect(Sbiw(p, k), Effect(Adiw(p, k), c)).reg, p) == PairAt(c.reg, p)
    ensures Effect(Sbiw(p, k), Effect(Adiw(p, k), c)).reg == c.reg
  {
    hide Effect, Trunc16;
    var c1 := Effect(Adiw(p, k), c);
    AddImmWordIsExact(c, p, k);
    SubtractImmWordSubtracts(c1, p, k);
    PairOnly(c, p, k);
    PairOnly(c1, p, k);
    UndoWord(PairAt(c.reg, p), k);
    var r, r1 := c.reg, Effect(Sbiw(p, k), c1).reg;
    JoinInjective(r[p], r[p + 1], r1[p], r1[p + 1]);
    assert r == r1;
  }

  lemma UndoWord(w: word, k: byte)
    ensures Trunc16(Trunc16(w + k) - k) == w
  {
  }

  lemma JoinInjective(lo: byte, hi: byte, lo': byte, hi': byte)
    requires Join(lo, hi) == Join(lo', hi')
    ensures lo == lo' && hi == hi'
  {
  }

  /** The word instructions leave all other registers alone. */
  lemma PairOnly(c: Core, p: PairNo, k: byte)
    ensures forall i: RegNo :: i != p && i != p + 1 ==>
              Effect(Adiw(p, k), c).reg[i] == c.reg[i] && Effect(Sbiw(p, k), c).reg[i] == c.reg[i]
  {
    hide Put, DiffFlags, SumFlags;
  }

  /** C after SubtractImmWord is the borrow, except when C was set and the high byte equals the borrow of the low. */
  lemma SubtractImmWordCarry(c: Core, p: PairNo, k: byte)
    ensures var low: int := if c.reg[p] < k then 1 else 0;
            Flag(Effect(Sbiw(p, k), c).sreg, CARRY) == (PairAt(c.reg, p) < k)
            <==> !(Flag(c.sreg, CARRY) && c.reg[p + 1] == low)
  {
    hide Flag, Put, DiffFlags, Trunc8, Trunc16, Bit8;
    var lo: byte, hi: byte := c.reg[p], c.reg[p + 1];
    var cin := Bit8(Trunc16(lo - k));
    BorrowBit(lo, k, 0);
    DiffFlagsRead(c.sreg, Trunc16(hi - cin), hi, cin);
    PairFlagsRead(DiffFlags(c.sreg, Trunc16(hi - cin), hi, cin), Trunc8(Trunc16(lo - k)) == 0);
  }

  /** Z of a word subtraction: kept if both bytes are zero, and cleared otherwise. */
  lemma SubWordZero(c: Core, p: PairNo, lo: byte, hi: byte, k: byte)
    ensures var low := Trunc16(lo - k);
            var high := Trunc16(hi - Bit8(low));
            && Flag(SubWord(c, p, lo, hi, k).sreg, ZERO) == (Flag(c.sreg, ZERO) && high == 0 && Trunc8(low) == 0)
            && SubWord(c, p, lo, hi, k).reg == c.reg[p := Trunc8(low)][p + 1 := Trunc8(high)]
  {
    hide Flag, Put, DiffFlags, Trunc8, Trunc16, Bit8;
    var low := Trunc16(lo - k);
    var high := Trunc16(hi - Bit8(low));
    var f := DiffFlags(c.sreg, high, hi, Bit8(low));
    DiffFlagsRead(c.sreg, high, hi, Bit8(low));
    FlagPut(f, ZERO, Flag(f, ZERO) && Trunc8(low) == 0, ZERO);
  }

  /** Z after SubtractImmWord tells of a zero pair exactly if the pair is not zero, or Z was set before. */
  lemma SubtractImmWordZero(c: Core, p: PairNo, k: byte)
    ensures var c1 := Effect(Sbiw(p, k), c);
            Flag(c1.sreg, ZERO) == (PairAt(c1.reg, p) == 0) <==> (PairAt(c1.reg, p) == 0 ==> Flag(c.sreg, ZERO))
  {
    hide Flag, SubWord, Trunc8, Trunc16, Bit8;
    SubWordZero(c, p, c.reg[p], c.reg[p + 1], k);
    HighZero(c.reg[p + 1], Bit8(Trunc16(c.reg[p] - k)));
  }

  lemma WordDifferenceSign(lo: byte, hi: byte, k: byte)
    requires k < 0x40
    ensures var w, cin := Join(lo, hi), if lo < k then 1 else 0;
            var high := Trunc8(Trunc16(hi - cin));
            && (high >= 0x80) == (Trunc16(w - k) >= 0x8000)
            && BorrowFlips(hi, cin, high) == (Signed16(w) - k < -0x8000)
            && ((high >= 0x80) != BorrowFlips(hi, cin, high)) == (Signed16(w) - k < 0)
  {
    var cin := if lo < k then 1 else 0;
    assert Trunc16(hi - cin) == if hi < cin then 0xffff else hi - cin;
  }

  /** N, V and S after SubtractImmWord are those of the 16-bit difference, for the constants it can encode. */
  lemma SubtractImmWordSigns(c: Core, p: PairNo, k: byte)
    requires k < 0x40
    ensures var w, c1 := PairAt(c.reg, p), Effect(Sbiw(p, k), c);
            && Flag(c1.sreg, NEGATIVE) == (Trunc16(w - k) >= 0x8000)
            && Flag(c1.sreg, OVERFLOW) == (Signed16(w) - k < -0x8000) && Flag(c1.sreg, SIGN) == (Signed16(w) - k < 0)
  {
    hide Flag, Put, DiffFlags, Trunc8, Trunc16, Bit8, BorrowFlips, Signed16;
    var lo: byte, hi: byte := c.reg[p], c.reg[p + 1];
    BorrowBit(lo, k, 0);
    var cin := Bit8(Trunc16(lo - k));
    assert cin == if lo < k then 1 else 0;
    WordDifferenceSign(lo, hi, k);
    DiffFlagsRead(c.sreg, Trunc16(hi - cin), hi, cin);
    PairFlagsRead(DiffFlags(c.sreg, Trunc16(hi - cin), hi, cin), Trunc8(Trunc16(lo - k)) == 0);
  }

  lemma HighZero(hi: byte, cin: Carry)
    ensures Trunc16(hi - cin) == 0 <==> Trunc8(Trunc16(hi - cin)) == 0
  {
    assert Trunc16(hi - cin) == if hi < cin then 0xffff else hi - cin;
  }
}
