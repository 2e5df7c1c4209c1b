/**
 What the instructions do, mnemonic by mnemonic, in numbers and bits: from the operands as written to the
 registers, flags and memory left behind.
 */
module Manual {
  import opened Words
  import opened Isa
  import opened Arithmetic
  import opened Bytes
  import opened Departures
  import opened Symbols
  import opened Parser
  import opened Source
  import opened Correct

  /** What an instruction that only computes leaves; none if it is not legal or does something else. */
  function Done(m: Mnemonic, arg: Arg, early: seq<Equate>, late: seq<Equate>, c: Core): Option<Core> {
    hide Means, Effect;
    match Means(m, arg, early, late)
    case Some(Do(o)) => Some(Effect(o, c))
    case _ => None
  }

  lemma DoneIs(m: Mnemonic, arg: Arg, early: seq<Equate>, late: seq<Equate>, c: Core, o: Op)
    requires Means(m, arg, early, late) == Some(Do(o))
    ensures Done(m, arg, early, late, c) == Some(Effect(o, c))
  {
    hide Means, Effect;
  }

  // ----- the forms of operands, each with the meaning of its mnemonic -----

  lemma DualLine(m: Mnemonic, d: RegText, r: RegText, early: seq<Equate>, late: seq<Equate>, c: Core)
    requires TypeOf(m).DirDual? && d < 16 && r < 16
    ensures var a := DualMeaning(m, d as int, r as int);
            a.Do? ==> Done(m, TwoRegs(d, r), early, late, c) == Some(Effect(a.op, c))
  {
    hide TypeOf, Means, Effect, Done, DualMeaning;
    TwoRegistersParts(m, d, r, early, late);
    var a := DualMeaning(m, d as int, r as int);
    if a.Do? { DoneIs(m, TwoRegs(d, r), early, late, c, a.op); }
  }

  lemma DoubledLine(m: Mnemonic, d: RegText, early: seq<Equate>, late: seq<Equate>, c: Core)
    requires TypeOf(m).DirStd? && d < 16
    ensures var a := DoubledMeaning(m, d as int);
            a.Do? ==> Done(m, OneReg(d), early, late, c) == Some(Effect(a.op, c))
  {
    hide TypeOf, Means, Effect, Done, DoubledMeaning;
    SameRegisterParts(m, d, early, late);
    var a := DoubledMeaning(m, d as int);
    if a.Do? { DoneIs(m, OneReg(d), early, late, c, a.op); }
  }

  lemma SingleLine(m: Mnemonic, d: RegText, early: seq<Equate>, late: seq<Equate>, c: Core)
    requires TypeOf(m).DirSing? && d < 16
    ensures var a := SingleMeaning(m, d as int);
            a.Do? ==> Done(m, OneReg(d), early, late, c) == Some(Effect(a.op, c))
  {
    hide TypeOf, Means, Effect, Done, SingleMeaning;
    OneRegisterParts(m, d, early, late);
    var a := SingleMeaning(m, d as int);
    if a.Do? { DoneIs(m, OneReg(d), early, late, c, a.op); }
  }

  lemma ByteLine(m: Mnemonic, d: RegText, e: seq<Token>, k: byte, early: seq<Equate>, late: seq<Equate>, c: Core)
    requires TypeOf(m).ImmByte? && d < 16 && Meaning(e, late) == Known(k)
    ensures var a := ByteMeaning(m, d as int, k);
            a.Do? ==> Done(m, RegExpr(d, e), early, late, c) == Some(Effect(a.op, c))
  {
    hide TypeOf, Means, Effect, Done, ByteMeaning, Meaning;
    RegisterByteParts(m, d, e, early, late);
    var a := ByteMeaning(m, d as int, k);
    if a.Do? { DoneIs(m, RegExpr(d, e), early, late, c, a.op); }
  }

  lemma NoArgLine(m: Mnemonic, early: seq<Equate>, late: seq<Equate>, c: Core)
    requires TypeOf(m).Implied?
    ensures var a := ImpliedMeaning(m); a.Do? ==> Done(m, NoArg, early, late, c) == Some(Effect(a.op, c))
  {
    hide TypeOf, Means, Effect, Done, ImpliedMeaning;
    NoOperandParts(m, early, late);
    var a := ImpliedMeaning(m);
    if a.Do? { DoneIs(m, NoArg, early, late, c, a.op); }
  }

  // ----- what each mnemonic is for the machine -----

  lemma DualType(m: Mnemonic)
    ensures m.MAdd? || m.MAddWithC? || m.MSubtract? || m.MSubtractWithC? || m.MCompare? || m.MCompareCarry?
            || m.MAnd? || m.MOr? || m.MExclusiveOr? || m.MMove? || m.MMultiply? || m.MMultiplyS?
            ==> TypeOf(m).DirDual?
  {
  }

  lemma DualTable(m: Mnemonic, d: RegNo, r: RegNo)
    ensures m.MAdd? ==> TypeOf(m).DirDual? && DualMeaning(m, d, r) == Do(Op.Add(d, r))
    ensures m.MAddWithC? ==> TypeOf(m).DirDual? && DualMeaning(m, d, r) == Do(Adc(d, r))
    ensures m.MSubtract? ==> TypeOf(m).DirDual? && DualMeaning(m, d, r) == Do(Op.Sub(d, r))
    ensures m.MSubtractWithC? ==> TypeOf(m).DirDual? && DualMeaning(m, d, r) == Do(Sbc(d, r))
    ensures m.MCompare? ==> TypeOf(m).DirDual? && DualMeaning(m, d, r) == Do(Cp(d, r))
    ensures m.MCompareCarry? ==> TypeOf(m).DirDual? && DualMeaning(m, d, r) == Do(Cpc(d, r))
    ensures m.MAnd? ==> TypeOf(m).DirDual? && DualMeaning(m, d, r) == Do(Op.And(d, r))
    ensures m.MOr? ==> TypeOf(m).DirDual? && DualMeaning(m, d, r) == Do(Op.Or(d, r))
    ensures m.MExclusiveOr? ==> TypeOf(m).DirDual? && DualMeaning(m, d, r) == Do(Eor(d, r))
    ensures m.MMove? ==> TypeOf(m).DirDual? && DualMeaning(m, d, r) == Do(Mov(d, r))
    ensures m.MMultiply? ==> TypeOf(m).DirDual? && DualMeaning(m, d, r) == Do(Op.Mul(d, r))
    ensures m.MMultiplyS? ==> TypeOf(m).DirDual? && DualMeaning(m, d, r) == Do(Muls(d, r))
  {
    hide TypeOf;
    DualType(m);
  }

  lemma DoubledType(m: Mnemonic)
    ensures m.MLogicalShiftLt? || m.MRotateLeft? || m.MClearReg? || m.MTestZero?
            ==> TypeOf(m).DirStd?
  {
  }

  lemma DoubledTable(m: Mnemonic, d: RegNo)
    ensures m.MLogicalShiftLt? ==> TypeOf(m).DirStd? && DoubledMeaning(m, d) == Do(Op.Add(d, d))
    ensures m.MRotateLeft? ==> TypeOf(m).DirStd? && DoubledMeaning(m, d) == Do(Adc(d, d))
    ensures m.MClearReg? ==> TypeOf(m).DirStd? && DoubledMeaning(m, d) == Do(Eor(d, d))
    ensures m.MTestZero? ==> TypeOf(m).DirStd? && DoubledMeaning(m, d) == Do(Op.And(d, d))
  {
    hide TypeOf;
    DoubledType(m);
  }

  lemma ByteType(m: Mnemonic)
    ensures m.MSubtractImm? || m.MSubtractImmC? || m.MCompareImm? || m.MAndImm? || m.MClearBitsReg? ||
            m.MOrImm? || m.MSetBitsReg? || m.MLoadImm?
            ==> TypeOf(m).ImmByte?
  {
  }

  lemma ByteTable(m: Mnemonic, d: RegNo, k: byte)
    ensures m.MSubtractImm? ==> TypeOf(m).ImmByte? && ByteMeaning(m, d, k) == Do(Subi(d, k))
    ensures m.MSubtractImmC? ==> TypeOf(m).ImmByte? && ByteMeaning(m, d, k) == Do(Sbci(d, k))
    ensures m.MCompareImm? ==> TypeOf(m).ImmByte? && ByteMeaning(m, d, k) == Do(Cpi(d, k))
    ensures m.MAndImm? ==> TypeOf(m).ImmByte? && ByteMeaning(m, d, k) == Do(Andi(d, k))
    ensures m.MClearBitsReg? ==> TypeOf(m).ImmByte? && ByteMeaning(m, d, k) == Do(Andi(d, 0xff - k))
    ensures m.MOrImm? ==> TypeOf(m).ImmByte? && ByteMeaning(m, d, k) == Do(Ori(d, k))
    ensures m.MSetBitsReg? ==> TypeOf(m).ImmByte? && ByteMeaning(m, d, k) == Do(Ori(d, k))
    ensures m.MLoadImm? ==> TypeOf(m).ImmByte? && ByteMeaning(m, d, k) == Do(Ldi(d, k))
  {
    hide TypeOf;
    ByteType(m);
  }

  lemma ShiftType(m: Mnemonic)
    ensures m.MArithShiftRt? || m.MLogicalShiftRt? || m.MRotateRight? || m.MPush? || m.MPop? ==> TypeOf(m).DirSing?
  {
  }

  lemma SingleType(m: Mnemonic)
    ensures m.MCompliment? || m.MNegate? || m.MIncrement? || m.MDecrement? || m.MSwap? || m.MSetAllReg?
            ==> TypeOf(m).DirSing?
  {
  }

  lemma SingleTable(m: Mnemonic, d: RegNo)
    ensures m.MArithShiftRt? ==> TypeOf(m).DirSing? && SingleMeaning(m, d) == Do(Asr(d))
    ensures m.MLogicalShiftRt? ==> TypeOf(m).DirSing? && SingleMeaning(m, d) == Do(Lsr(d))
    ensures m.MRotateRight? ==> TypeOf(m).DirSing? && SingleMeaning(m, d) == Do(Ror(d))
    ensures m.MCompliment? ==> TypeOf(m).DirSing? && SingleMeaning(m, d) == Do(Com(d))
    ensures m.MNegate? ==> TypeOf(m).DirSing? && SingleMeaning(m, d) == Do(Neg(d))
    ensures m.MIncrement? ==> TypeOf(m).DirSing? && SingleMeaning(m, d) == Do(Inc(d))
    ensures m.MDecrement? ==> TypeOf(m).DirSing? && SingleMeaning(m, d) == Do(Dec(d))
    ensures m.MSwap? ==> TypeOf(m).DirSing? && SingleMeaning(m, d) == Do(Swap(d))
    ensures m.MPush? ==> TypeOf(m).DirSing? && SingleMeaning(m, d) == Do(Push(d))
    ensures m.MPop? ==> TypeOf(m).DirSing? && SingleMeaning(m, d) == Do(Pop(d))
    ensures m.MSetAllReg? ==> TypeOf(m).DirSing? && SingleMeaning(m, d) == Do(Ldi(d, 0xff))
  {
    hide TypeOf;
    ShiftType(m);
    SingleType(m);
  }

  // ----- results of one byte -----

  /** c1 is c with x in register d and these flags: C, V and S as given, Z and N by x. */
  predicate Sets(c: Core, c1: Core, d: RegNo, x: byte, carry: bool, overflow: bool, sign: bool) {
    && c1 == Result(c, d, x, c1.sreg)
    && Flag(c1.sreg, CARRY) == carry && Flag(c1.sreg, ZERO) == (x == 0) && Flag(c1.sreg, NEGATIVE) == (x >= 0x80)
    && Flag(c1.sreg, OVERFLOW) == overflow && Flag(c1.sreg, SIGN) == sign
  }

  lemma SetsResult(c: Core, d: RegNo, x: byte, f: bv8)
    ensures Sets(c, Result(c, d, x, ResultFlags(f, x)), d, x, Flag(f, CARRY), Flag(f, OVERFLOW),
                 (x >= 0x80) != Flag(f, OVERFLOW))
  {
    hide Flag, ResultFlags;
    ResultFlagsRead(f, x);
  }

  /** The sum of two bytes and a carry: C is the carry out, V says that the signed sum does not fit, S is its sign. */
  predicate Adds(c: Core, c1: Core, d: RegNo, a: byte, b: byte, cin: Carry) {
    var sum: int, signed: int := a as int + b + cin, Signed(a) + Signed(b) + cin;
    Sets(c, c1, d, Trunc8(sum), sum >= 0x100, !(-0x80 <= signed < 0x80), signed < 0)
  }

  lemma SumLeft(c: Core, d: RegNo, r: RegNo)
    ensures Adds(c, Effect(Add(d, r), c), d, c.reg[d], c.reg[r], 0)
    ensures Adds(c, Effect(Adc(d, r), c), d, c.reg[d], c.reg[r], CarryIn(c.sreg))
  {
    hide Effect, Flag, CarryIn, Signed;
    AddIsExact(c, d, r, false);
    AddIsExact(c, d, r, true);
  }

  /** Add and AddWithC, and their names for one register: LogicalShiftLt doubles it, RotateLeft with the carry. */
  lemma AddLine(d: RegText, r: RegText, early: seq<Equate>, late: seq<Equate>, c: Core)
    requires d < 16 && r < 16
    ensures var a, b := c.reg[d as int], c.reg[r as int];
            && (var t := Done(MAdd, TwoRegs(d, r), early, late, c); t.Some? && Adds(c, t.value, d as int, a, b, 0))
            && (var t := Done(MAddWithC, TwoRegs(d, r), early, late, c);
                t.Some? && Adds(c, t.value, d as int, a, b, CarryIn(c.sreg)))
            && (var t := Done(MLogicalShiftLt, OneReg(d), early, late, c);
                t.Some? && Adds(c, t.value, d as int, a, a, 0))
            && (var t := Done(MRotateLeft, OneReg(d), early, late, c);
                t.Some? && Adds(c, t.value, d as int, a, a, CarryIn(c.sreg)))
  {
    hide Effect, Done, Adds, CarryIn, TypeOf, DualMeaning, DoubledMeaning;
    var x: RegNo, y: RegNo := d as int, r as int;
    DualTable(MAdd, x, y);
    DualLine(MAdd, d, r, early, late, c);
    DualTable(MAddWithC, x, y);
    DualLine(MAddWithC, d, r, early, late, c);
    DoubledTable(MLogicalShiftLt, x);
    DoubledLine(MLogicalShiftLt, d, early, late, c);
    DoubledTable(MRotateLeft, x);
    DoubledLine(MRotateLeft, d, early, late, c);
    SumLeft(c, d as int, r as int);
    SumLeft(c, d as int, d as int);
  }

  /** The difference; Z is only kept or cleared, and C counts the C of before. */
  predicate Subtracts(c: Core, c1: Core, d: RegNo, a: byte, b: byte, cin: Carry) {
    var diff: int, signed: int := a as int - b - cin, Signed(a) - Signed(b) - cin;
    && c1 == Result(c, d, Trunc8(diff), c1.sreg)
    && Flag(c1.sreg, CARRY) == (a < b as int + CarryIn(c.sreg))
    && Flag(c1.sreg, ZERO) == (Flag(c.sreg, ZERO) && diff == 0) && Flag(c1.sreg, NEGATIVE) == (diff % 0x100 >= 0x80)
    && Flag(c1.sreg, OVERFLOW) == !(-0x80 <= signed < 0x80) && Flag(c1.sreg, SIGN) == (signed < 0)
  }

  lemma DifferenceLeft(c: Core, d: RegNo, a: byte, b: byte, cin: Carry)
    ensures Subtracts(c, DiffInto(c, d, a, b, cin), d, a, b, cin)
  {
    hide Flag, CarryIn, DiffFlags, Trunc8, Trunc16, Signed;
    DiffExact(c.sreg, a, b, cin);
    TruncTwice(a - b - cin);
  }

  /** The four subtractions. */
  lemma SubtractLine(d: RegText, r: RegText, e: seq<Token>, k: byte, early: seq<Equate>, late: seq<Equate>, c: Core)
    requires d < 16 && r < 16 && Meaning(e, late) == Known(k)
    ensures var a, b := c.reg[d as int], c.reg[r as int];
            && (var t := Done(MSubtract, TwoRegs(d, r), early, late, c);
                t.Some? && Subtracts(c, t.value, d as int, a, b, 0))
            && (var t := Done(MSubtractWithC, TwoRegs(d, r), early, late, c);
                t.Some? && Subtracts(c, t.value, d as int, a, b, CarryIn(c.sreg)))
            && (var t := Done(MSubtractImm, RegExpr(d, e), early, late, c);
                t.Some? && Subtracts(c, t.value, d as int, a, k, 0))
            && (var t := Done(MSubtractImmC, RegExpr(d, e), early, late, c);
                t.Some? && Subtracts(c, t.value, d as int, a, k, CarryIn(c.sreg)))
  {
    hide Effect, Done, Subtracts, CarryIn, Meaning, DiffInto, TypeOf, DualMeaning, ByteMeaning;
    var x: RegNo, y: RegNo := d as int, r as int;
    var a, b := c.reg[x], c.reg[y];
    DualTable(MSubtract, x, y);
    DualLine(MSubtract, d, r, early, late, c);
    DualTable(MSubtractWithC, x, y);
    DualLine(MSubtractWithC, d, r, early, late, c);
    ByteTable(MSubtractImm, x, k);
    ByteLine(MSubtractImm, d, e, k, early, late, c);
    ByteTable(MSubtractImmC, x, k);
    ByteLine(MSubtractImmC, d, e, k, early, late, c);
    SubtractsInto(c, d as int, r as int, k);
    SubtractsWithCInto(c, d as int, r as int, k);
    DifferenceLeft(c, d as int, a, b, 0);
    DifferenceLeft(c, d as int, a, b, CarryIn(c.sreg));
    DifferenceLeft(c, d as int, a, k, 0);
    DifferenceLeft(c, d as int, a, k, CarryIn(c.sreg));
  }

  /** A comparison changes flags only: C is the borrow, Z and N are those of the difference. */
  predicate Compares(c: Core, c1: Core, a: byte, b: byte, cin: Carry) {
    && c1 == c.(sreg := c1.sreg) && Flag(c1.sreg, CARRY) == (a < b as int + cin)
    && Flag(c1.sreg, ZERO) == ((a - b - cin) % 0x100 == 0) && Flag(c1.sreg, NEGATIVE) == ((a - b - cin) % 0x100 >= 0x80)
  }

  lemma CompareLine(d: RegText, r: RegText, e: seq<Token>, k: byte, early: seq<Equate>, late: seq<Equate>, c: Core)
    requires d < 16 && r < 16 && Meaning(e, late) == Known(k)
    ensures var a, b := c.reg[d as int], c.reg[r as int];
            && (var t := Done(MCompare, TwoRegs(d, r), early, late, c); t.Some? && Compares(c, t.value, a, b, 0))
            && (var t := Done(MCompareCarry, TwoRegs(d, r), early, late, c);
                t.Some? && Compares(c, t.value, a, b, CarryIn(c.sreg)))
            && (var t := Done(MCompareImm, RegExpr(d, e), early, late, c); t.Some? && Compares(c, t.value, a, k, 0))
  {
    hide Effect, Done, CarryIn, Meaning, Compare, Flag, TypeOf, DualMeaning, ByteMeaning;
    var x: RegNo, y: RegNo := d as int, r as int;
    var a, b := c.reg[x], c.reg[y];
    DualTable(MCompare, x, y);
    DualLine(MCompare, d, r, early, late, c);
    DualTable(MCompareCarry, x, y);
    DualLine(MCompareCarry, d, r, early, late, c);
    ByteTable(MCompareImm, x, k);
    ByteLine(MCompareImm, d, e, k, early, late, c);
    ComparisonsCompare(c, d as int, r as int, k);
    CompareIsExact(c, a, b, 0);
    CompareIsExact(c, a, b, CarryIn(c.sreg));
    CompareIsExact(c, a, k, 0);
    CompareOnlyFlags(c, a, b, 0);
    CompareOnlyFlags(c, a, b, CarryIn(c.sreg));
    CompareOnlyFlags(c, a, k, 0);
  }

  lemma CompareOnlyFlags(c: Core, a: byte, b: byte, cin: Carry)
    ensures Compare(c, a, b, cin) == c.(sreg := Compare(c, a, b, cin).sreg)
  {
    hide SumFlags, Trunc16;
  }

  // ----- logic -----

  /** And, AndImm and ClearBitsReg, which clears the bits that are set in its operand. */
  lemma AndLine(d: RegText, r: RegText, e: seq<Token>, k: byte, early: seq<Equate>, late: seq<Equate>, c: Core)
    requires d < 16 && r < 16 && Meaning(e, late) == Known(k)
    ensures var x: RegNo, y: RegNo := d as int, r as int;
            && (var t := Done(MAnd, TwoRegs(d, r), early, late, c);
                t.Some? && LogicExact(c, x, t.value)
                && forall i: Bit :: TestBit(t.value.reg[x], i) == (TestBit(c.reg[x], i) && TestBit(c.reg[y], i)))
            && (var t := Done(MAndImm, RegExpr(d, e), early, late, c);
                t.Some? && LogicExact(c, x, t.value)
                && forall i: Bit :: TestBit(t.value.reg[x], i) == (TestBit(c.reg[x], i) && TestBit(k, i)))
            && (var t := Done(MClearBitsReg, RegExpr(d, e), early, late, c);
                t.Some? && LogicExact(c, x, t.value)
                && forall i: Bit :: TestBit(t.value.reg[x], i) == (TestBit(c.reg[x], i) && !TestBit(k, i)))
  {
    hide Done, Effect, TypeOf, DualMeaning, ByteMeaning, Meaning, LogicExact, TestBit;
    var x: RegNo, y: RegNo := d as int, r as int;
    DualTable(MAnd, x, y);
    DualLine(MAnd, d, r, early, late, c);
    ByteTable(MAndImm, x, k);
    ByteLine(MAndImm, d, e, k, early, late, c);
    ByteTable(MClearBitsReg, x, k);
    ByteLine(MClearBitsReg, d, e, k, early, late, c);
    AndIsExact(c, x, y, k);
    AndIsExact(c, x, y, 0xff - k);
    forall i: Bit ensures TestBit(0xff - k, i) == !TestBit(k, i) { ComplementBit(k, i); }
  }

  lemma ComplementFlag(v: bv8, i: Bit)
    ensures Flag(!v, i) == !Flag(v, i)
  {
  }

  lemma ComplementBit(k: byte, i: Bit)
    ensures TestBit(0xff - k, i) == !TestBit(k, i)
  {
    hide Flag, TestBit;
    var v := k as bv8;
    ByteRoundTrip(k);
    Complement(v);
    BitsOf(!v, i);
    TestBitOf(k, i);
    ComplementFlag(v, i);
  }

  /** Or, and OrImm with its other name. */
  lemma OrLine(d: RegText, r: RegText, e: seq<Token>, k: byte, early: seq<Equate>, late: seq<Equate>, c: Core)
    requires d < 16 && r < 16 && Meaning(e, late) == Known(k)
    ensures var x: RegNo, y: RegNo := d as int, r as int;
            && (var t := Done(MOr, TwoRegs(d, r), early, late, c);
                t.Some? && LogicExact(c, x, t.value)
                && forall i: Bit :: TestBit(t.value.reg[x], i) == (TestBit(c.reg[x], i) || TestBit(c.reg[y], i)))
            && (var t := Done(MOrImm, RegExpr(d, e), early, late, c);
                t.Some? && LogicExact(c, x, t.value)
                && forall i: Bit :: TestBit(t.value.reg[x], i) == (TestBit(c.reg[x], i) || TestBit(k, i)))
            && Done(MSetBitsReg, RegExpr(d, e), early, late, c) == Done(MOrImm, RegExpr(d, e), early, late, c)
  {
    hide Done, Effect, TypeOf, DualMeaning, ByteMeaning, Meaning, LogicExact, TestBit;
    var x: RegNo, y: RegNo := d as int, r as int;
    DualTable(MOr, x, y);
    DualLine(MOr, d, r, early, late, c);
    ByteTable(MOrImm, x, k);
    ByteLine(MOrImm, d, e, k, early, late, c);
    ByteTable(MSetBitsReg, x, k);
    ByteLine(MSetBitsReg, d, e, k, early, late, c);
    OrIsExact(c, x, y, k);
  }

  /** ExclusiveOr; ClearReg leaves 0; TestZero changes flags only. */
  lemma XorLine(d: RegText, r: RegText, early: seq<Equate>, late: seq<Equate>, c: Core)
    requires d < 16 && r < 16
    ensures var x: RegNo, y: RegNo := d as int, r as int;
            && (var t := Done(MExclusiveOr, TwoRegs(d, r), early, late, c);
                t.Some? && LogicExact(c, x, t.value)
                && forall i: Bit :: TestBit(t.value.reg[x], i) == (TestBit(c.reg[x], i) != TestBit(c.reg[y], i)))
            && (var t := Done(MClearReg, OneReg(d), early, late, c);
                t.Some? && LogicExact(c, x, t.value) && t.value.reg[x] == 0)
            && (var t := Done(MTestZero, OneReg(d), early, late, c);
                t.Some? && LogicExact(c, x, t.value) && t.value.reg[x] == c.reg[x])
  {
    hide Done, Effect, TypeOf, DualMeaning, DoubledMeaning, LogicExact, TestBit;
    var x: RegNo, y: RegNo := d as int, r as int;
    DualTable(MExclusiveOr, x, y);
    DualLine(MExclusiveOr, d, r, early, late, c);
    DoubledTable(MClearReg, x);
    DoubledLine(MClearReg, d, early, late, c);
    DoubledTable(MTestZero, x);
    DoubledLine(MTestZero, d, early, late, c);
    XorIsExact(c, x, y);
    XorIsExact(c, x, x);
    AndIsExact(c, x, x, 0);
    SameByteLogic(c, x);
  }

  lemma WithItself(x: byte)
    ensures BitXor(x, x) == 0 && BitAnd(x, x) == x
  {
    ByteRoundTrip(x);
    SameBits(x as bv8);
  }

  lemma SameBits(v: bv8)
    ensures v & v == v && v ^ v == 0
  {
  }

  lemma SameByteLogic(c: Core, d: RegNo)
    ensures Effect(Eor(d, d), c).reg[d] == 0 && Effect(And(d, d), c).reg[d] == c.reg[d]
  {
    hide BitXor, BitAnd, LogicFlags;
    WithItself(c.reg[d]);
  }

  // ----- shifts -----

  /** The byte moved down by one with a new top bit; C is the bit lost, and N xor C is ORed into V after S is set. */
  predicate Shifts(c: Core, c1: Core, d: RegNo, top: bool) {
    var lost, v, x := c.reg[d] % 2 == 1, Flag(c.sreg, OVERFLOW), c.reg[d] / 2 + if top then 0x80 else 0;
    Sets(c, c1, d, x, lost, v || top != lost, top != v)
  }

  lemma ShiftLeaves(c: Core, d: RegNo, a: byte, top: bool)
    requires a == c.reg[d]
    ensures Shifts(c, ShiftInto(c, d, a, if top then 0x80 else 0), d, top)
  {
    hide Flag, ShiftFlags;
    ShiftFlagsRead(c.sreg, a % 2 == 1, a / 2 + if top then 0x80 else 0);
  }

  lemma ShiftEffects(c: Core, d: RegNo)
    ensures Shifts(c, Effect(Lsr(d), c), d, false)
    ensures Shifts(c, Effect(Asr(d), c), d, c.reg[d] >= 0x80)
    ensures Shifts(c, Effect(Ror(d), c), d, Flag(c.sreg, CARRY))
  {
    hide Shifts, ShiftInto, Flag;
    ShiftLeaves(c, d, c.reg[d], false);
    ShiftLeaves(c, d, c.reg[d], c.reg[d] >= 0x80);
    ShiftLeaves(c, d, c.reg[d], Flag(c.sreg, CARRY));
  }

  /** LogicalShiftRt shifts in 0, ArithShiftRt the top bit again, RotateRight the carry. */
  lemma ShiftLine(d: RegText, early: seq<Equate>, late: seq<Equate>, c: Core)
    requires d < 16
    ensures var x: RegNo := d as int;
            && (var t := Done(MLogicalShiftRt, OneReg(d), early, late, c); t.Some? && Shifts(c, t.value, x, false))
            && (var t := Done(MArithShiftRt, OneReg(d), early, late, c);
                t.Some? && Shifts(c, t.value, x, c.reg[x] >= 0x80))
            && (var t := Done(MRotateRight, OneReg(d), early, late, c);
                t.Some? && Shifts(c, t.value, x, Flag(c.sreg, CARRY)))
  {
    hide Done, Effect, TypeOf, SingleMeaning, Shifts, Flag;
    var x: RegNo := d as int;
    SingleTable(MLogicalShiftRt, x);
    SingleLine(MLogicalShiftRt, d, early, late, c);
    SingleTable(MArithShiftRt, x);
    SingleLine(MArithShiftRt, d, early, late, c);
    SingleTable(MRotateRight, x);
    SingleLine(MRotateRight, d, early, late, c);
    ShiftEffects(c, x);
  }

  // ----- one byte -----

  lemma StepLeaves(c: Core, d: RegNo, x: byte, v: bool)
    ensures Sets(c, StepInto(c, d, x, v), d, x, Flag(c.sreg, CARRY), v, (x >= 0x80) != v)
  {
    hide Flag, ResultFlags, Put;
    FlagPut(c.sreg, OVERFLOW, v, OVERFLOW);
    FlagPut(c.sreg, OVERFLOW, v, CARRY);
    SetsResult(c, d, x, Put(c.sreg, OVERFLOW, v));
  }

  lemma FlagsLeave(c: Core, d: RegNo, x: byte, carry: bool, v: bool)
    ensures Sets(c, Result(c, d, x, ResultFlags(Put(Put(c.sreg, CARRY, carry), OVERFLOW, v), x)), d, x, carry, v,
                 (x >= 0x80) != v)
    ensures Sets(c, Result(c, d, x, ResultFlags(Put(Put(c.sreg, OVERFLOW, v), CARRY, carry), x)), d, x, carry, v,
                 (x >= 0x80) != v)
  {
    hide Flag, ResultFlags, Put;
    var f, g := Put(c.sreg, CARRY, carry), Put(c.sreg, OVERFLOW, v);
    FlagPut(c.sreg, CARRY, carry, CARRY);
    FlagPut(f, OVERFLOW, v, CARRY);
    FlagPut(f, OVERFLOW, v, OVERFLOW);
    FlagPut(c.sreg, OVERFLOW, v, OVERFLOW);
    FlagPut(g, CARRY, carry, CARRY);
    FlagPut(g, CARRY, carry, OVERFLOW);
    SetsResult(c, d, x, Put(f, OVERFLOW, v));
    SetsResult(c, d, x, Put(g, CARRY, carry));
  }

  lemma StepEffects(c: Core, d: RegNo)
    ensures var a: int := c.reg[d];
            && Sets(c, Effect(Inc(d), c), d, Trunc8(a + 1), Flag(c.sreg, CARRY), a == 0x7f,
                    (Trunc8(a + 1) >= 0x80) != (a == 0x7f))
            && Sets(c, Effect(Dec(d), c), d, Trunc8(a - 1), Flag(c.sreg, CARRY), a == 0x80,
                    (Trunc8(a - 1) >= 0x80) != (a == 0x80))
  {
    hide Sets, StepInto, Flag;
    var a: int := c.reg[d];
    StepLeaves(c, d, Trunc8(a + 1), a == 0x7f);
    StepLeaves(c, d, Trunc8(a - 1), a == 0x80);
  }

  lemma FlipEffects(c: Core, d: RegNo)
    ensures var a: int := c.reg[d];
            && Sets(c, Effect(Com(d), c), d, 0xff - a, true, false, 0xff - a >= 0x80)
            && Sets(c, Effect(Neg(d), c), d, Trunc8(-a), a != 0, a == 0x80, (Trunc8(-a) >= 0x80) != (a == 0x80))
  {
    hide Sets, ResultFlags, Put, Flag, Result;
    var a: int := c.reg[d];
    FlagsLeave(c, d, 0xff - a, true, false);
    FlagsLeave(c, d, Trunc8(-a), a != 0, a == 0x80);
  }

  /** One more, one less, all bits flipped, and the negative, each modulo 256; S is the sign of the exact result. */
  lemma ByteOpLine(d: RegText, early: seq<Equate>, late: seq<Equate>, c: Core)
    requires d < 16
    ensures var x: RegNo := d as int;
            var a: int, n: int, carry := c.reg[x], Signed(c.reg[x]), Flag(c.sreg, CARRY);
            && (var t := Done(MIncrement, OneReg(d), early, late, c);
                t.Some? && Sets(c, t.value, x, Trunc8(a + 1), carry, n + 1 > 0x7f, n + 1 < 0))
            && (var t := Done(MDecrement, OneReg(d), early, late, c);
                t.Some? && Sets(c, t.value, x, Trunc8(a - 1), carry, n - 1 < -0x80, n - 1 < 0))
            && (var t := Done(MCompliment, OneReg(d), early, late, c);
                t.Some? && Sets(c, t.value, x, 0xff - a, true, false, -1 - n < 0))
            && (var t := Done(MNegate, OneReg(d), early, late, c);
                t.Some? && Sets(c, t.value, x, Trunc8(-a), a != 0, -n > 0x7f, -n < 0))
            && Done(MSetAllReg, OneReg(d), early, late, c) == Some(c.(reg := c.reg[x := 0xff]))
  {
    hide Done, Effect, TypeOf, SingleMeaning, Flag;
    var x: RegNo := d as int;
    SingleTable(MIncrement, x);
    SingleLine(MIncrement, d, early, late, c);
    SingleTable(MDecrement, x);
    SingleLine(MDecrement, d, early, late, c);
    SingleTable(MCompliment, x);
    SingleLine(MCompliment, d, early, late, c);
    SingleTable(MNegate, x);
    SingleLine(MNegate, d, early, late, c);
    SingleTable(MSetAllReg, x);
    SingleLine(MSetAllReg, d, early, late, c);
    StepEffects(c, x);
    FlipEffects(c, x);
    LoadEffect(c, x, 0xff);
  }

  lemma LoadEffect(c: Core, d: RegNo, k: byte)
    ensures Effect(Ldi(d, k), c) == c.(reg := c.reg[d := k])
  {
  }

  /** The low nibble of y is clear, and each bit of its high one is the or of that bit of x and the one four below. */
  predicate NibblesOred(x: byte, y: byte) {
    forall k: Bit :: k < 4 ==> !TestBit(y, k) && TestBit(y, k + 4) == (TestBit(x, k + 4) || TestBit(x, k))
  }

  lemma SwapNibbles(x: byte)
    ensures NibblesOred(x, SwapByte(x))
  {
    hide SwapByte, TestBit;
    forall k: Bit | k < 4
      ensures !TestBit(SwapByte(x), k) && TestBit(SwapByte(x), k + 4) == (TestBit(x, k + 4) || TestBit(x, k))
    {
      SwapIsOr(x, k);
      SwapIsOr(x, k + 4);
    }
  }

  lemma SwapEffect(c: Core, d: RegNo)
    ensures Effect(Swap(d), c) == c.(reg := c.reg[d := SwapByte(c.reg[d])])
  {
    hide SwapByte;
  }

  /** Swap does that to its register; it changes no flag. */
  lemma SwapLine(d: RegText, early: seq<Equate>, late: seq<Equate>, c: Core)
    requires d < 16
    ensures var x: RegNo, t := d as int, Done(MSwap, OneReg(d), early, late, c);
            && t.Some? && t.value == c.(reg := c.reg[x := t.value.reg[x]]) && NibblesOred(c.reg[x], t.value.reg[x])
  {
    hide Done, Effect, TypeOf, SingleMeaning, NibblesOred, SwapByte;
    var x: RegNo := d as int;
    SingleTable(MSwap, x);
    SingleLine(MSwap, d, early, late, c);
    SwapEffect(c, x);
    SwapNibbles(c.reg[x]);
  }

  /** Multiply and MultiplyS leave 16 bits in r1:r0, C as their top bit, and Z; nothing else changes. */
  lemma MultiplyLine(d: RegText, r: RegText, early: seq<Equate>, late: seq<Equate>, c: Core)
    requires d < 16 && r < 16
    ensures var a: int, b: int := c.reg[d as int], c.reg[r as int];
            var n, k := Signed(c.reg[d as int]), Signed(c.reg[r as int]);
            && (var t := Done(MMultiply, TwoRegs(d, r), early, late, c);
                && t.Some? && OnlyProduct(c, t.value) && PairAt(t.value.reg, 0) == a * b
                && Flag(t.value.sreg, CARRY) == (a * b >= 0x8000) && Flag(t.value.sreg, ZERO) == (a * b == 0))
            && (var t := Done(MMultiplyS, TwoRegs(d, r), early, late, c);
                && t.Some? && OnlyProduct(c, t.value) && Signed16(PairAt(t.value.reg, 0)) == n * k
                && Flag(t.value.sreg, CARRY) == (n * k < 0) && Flag(t.value.sreg, ZERO) == (n * k == 0))
  {
    hide Done, Effect, TypeOf, DualMeaning, Flag, Signed, Signed16, PairAt;
    var x: RegNo, y: RegNo := d as int, r as int;
    DualTable(MMultiply, x, y);
    DualLine(MMultiply, d, r, early, late, c);
    DualTable(MMultiplyS, x, y);
    DualLine(MMultiplyS, d, r, early, late, c);
    MultiplyIsExact(c, x, y);
    MultiplySIsExact(c, x, y);
    ProductOnly(c, x, y);
  }

  predicate OnlyProduct(c: Core, c1: Core) {
    c1 == c.(reg := c1.reg, sreg := c1.sreg) && forall i: RegNo :: i > 1 ==> c1.reg[i] == c.reg[i]
  }

  lemma ProductOnly(c: Core, d: RegNo, r: RegNo)
    ensures OnlyProduct(c, Effect(Mul(d, r), c)) && OnlyProduct(c, Effect(Muls(d, r), c))
  {
    hide ProductFlags, Signed, Trunc16, Trunc8, High;
  }

  // ----- register pairs -----

  /** Registers other than the pair, memory and the stack pointer stay. */
  predicate OnlyPair(c: Core, c1: Core, p: PairNo) {
    c1 == c.(reg := c1.reg, sreg := c1.sreg) && forall i: RegNo :: i != p && i != p + 1 ==> c1.reg[i] == c.reg[i]
  }

  lemma WordLine(m: Mnemonic, hi: RegText, lo: RegText, e: seq<Token>, k: byte, early: seq<Equate>, late: seq<Equate>,
                 c: Core)
    requires TypeOf(m).ImmWord? && WordPair(hi, lo) && Meaning(e, late) == Known(k) && k <= 63
    ensures Done(m, PairExpr(hi, lo, e), early, late, c)
            == Some(Effect(if m.MAddImmWord? then Adiw(lo as int, k) else Sbiw(lo as int, k), c))
  {
    hide TypeOf, Means, Effect, Done, Meaning;
    PairWordParts(m, hi, lo, e, early, late);
    DoneIs(m, PairExpr(hi, lo, e), early, late, c, if m.MAddImmWord? then Adiw(lo as int, k) else Sbiw(lo as int, k));
  }

  lemma WordTypes()
    ensures TypeOf(MAddImmWord).ImmWord? && TypeOf(MSubtractImmWord).ImmWord?
  {
  }

  /** The pairs that may be written: r9:r8, r11:r10, r13:r12 and r15:r14. */
  lemma WordPairs(hi: RegText, lo: RegText)
    ensures WordPair(hi, lo) <==> (lo == 8 || lo == 10 || lo == 12 || lo == 14) && hi == lo + 1
    ensures EvenPair(hi, lo) <==> WordPair(hi, lo) || ((lo == 0 || lo == 2 || lo == 4 || lo == 6) && hi == lo + 1)
  {
  }

  lemma WordEffects(c: Core, p: PairNo, k: byte)
    requires k <= 63
    ensures var w, c1 := PairAt(c.reg, p), Effect(Adiw(p, k), c);
            && OnlyPair(c, c1, p) && PairAt(c1.reg, p) == (w + k) % 0x1_0000
            && Flag(c1.sreg, CARRY) == (w + k > 0xffff) && Flag(c1.sreg, ZERO) == ((w + k) % 0x1_0000 == 0)
    ensures var w, c1 := PairAt(c.reg, p), Effect(Sbiw(p, k), c);
            OnlyPair(c, c1, p) && PairAt(c1.reg, p) == (w - k) % 0x1_0000
  {
    hide Effect, Flag, PairAt, Signed16;
    AddImmWordIsExact(c, p, k);
    SubtractImmWordSubtracts(c, p, k);
    PairOnly(c, p, k);
    PairFrame(c, p, k);
  }

  lemma PairFrame(c: Core, p: PairNo, k: byte)
    ensures var c1, c2 := Effect(Adiw(p, k), c), Effect(Sbiw(p, k), c);
            c1 == c.(reg := c1.reg, sreg := c1.sreg) && c2 == c.(reg := c2.reg, sreg := c2.sreg)
  {
    hide Put, SumFlags, DiffFlags, Flag, Trunc16, Trunc8, Bit8;
  }

  /** AddImmWord and SubtractImmWord on those pairs, for constants up to 63. */
  lemma WordOpLine(hi: RegText, lo: RegText, e: seq<Token>, k: byte, early: seq<Equate>, late: seq<Equate>, c: Core)
    requires (lo == 8 || lo == 10 || lo == 12 || lo == 14) && hi == lo + 1 && Meaning(e, late) == Known(k) && k <= 63
    ensures var p: PairNo := lo as int;
            var w, s, t := PairAt(c.reg, p), Done(MAddImmWord, PairExpr(hi, lo, e), early, late, c),
                           Done(MSubtractImmWord, PairExpr(hi, lo, e), early, late, c);
            && s.Some? && OnlyPair(c, s.value, p) && PairAt(s.value.reg, p) == (w + k) % 0x1_0000
            && Flag(s.value.sreg, CARRY) == (w + k > 0xffff) && Flag(s.value.sreg, ZERO) == ((w + k) % 0x1_0000 == 0)
            && t.Some? && OnlyPair(c, t.value, p) && PairAt(t.value.reg, p) == (w - k) % 0x1_0000
  {
    hide TypeOf, Done, Effect, Meaning, PairAt, Flag, OnlyPair, WordPair;
    WordTypes();
    WordPairs(hi, lo);
    WordLine(MAddImmWord, hi, lo, e, k, early, late, c);
    WordLine(MSubtractImmWord, hi, lo, e, k, early, late, c);
    WordEffects(c, lo as int, k);
  }

  // ----- moves -----

  lemma MoveEffects(c: Core, d: RegNo, r: RegNo, a: word)
    ensures Effect(Mov(d, r), c) == c.(reg := c.reg[d := c.reg[r]])
    ensures Effect(Lds(d, a), c) == c.(reg := c.reg[d := c.mem[a]])
    ensures Effect(Sts(a, d), c) == c.(mem := c.mem[a := c.reg[d]])
  {
  }

  lemma PairMoveEffect(c: Core, d: PairNo, r: PairNo)
    requires d != r + 1
    ensures Effect(Movw(d, r), c) == c.(reg := c.reg[d := c.reg[r]][d + 1 := c.reg[r + 1]])
  {
  }

  /** Move copies its second register into the first; LoadImm loads a constant. */
  lemma MoveLine(d: RegText, r: RegText, e: seq<Token>, k: byte, early: seq<Equate>, late: seq<Equate>, c: Core)
    requires d < 16 && r < 16 && Meaning(e, late) == Known(k)
    ensures var i: RegNo, j: RegNo := d as int, r as int;
            && Done(MMove, TwoRegs(d, r), early, late, c) == Some(c.(reg := c.reg[i := c.reg[j]]))
            && Done(MLoadImm, RegExpr(d, e), early, late, c) == Some(c.(reg := c.reg[i := k]))
  {
    hide TypeOf, Done, Effect, Meaning, DualMeaning, ByteMeaning;
    var i: RegNo, j: RegNo := d as int, r as int;
    DualTable(MMove, i, j);
    DualLine(MMove, d, r, early, late, c);
    ByteTable(MLoadImm, i, k);
    ByteLine(MLoadImm, d, e, k, early, late, c);
    MoveEffects(c, i, j, 0);
    LoadEffect(c, i, k);
  }

  /** LoadDirect and StoreDirect copy between a register and the cell whose address is written. */
  lemma DirectLine(d: RegText, a: Place, x: word, early: seq<Equate>, late: seq<Equate>, c: Core)
    requires d < 16 && PlaceMeans(a, late, x)
    ensures var i: RegNo := d as int;
            && Done(MLoadDirect, RegAt16(d, a), early, late, c) == Some(c.(reg := c.reg[i := c.mem[x]]))
            && Done(MStoreDirect, RegAt16(d, a), early, late, c) == Some(c.(mem := c.mem[x := c.reg[i]]))
  {
    hide TypeOf, Means, Done, Effect, Meaning;
    var i: RegNo := d as int;
    DirectTypes();
    LoadAtParts(MLoadDirect, d, a, early, late);
    StoreAtParts(MStoreDirect, d, a, early, late);
    DoneIs(MLoadDirect, RegAt16(d, a), early, late, c, Lds(i, x));
    DoneIs(MStoreDirect, RegAt16(d, a), early, late, c, Sts(x, i));
    MoveEffects(c, i, i, x);
  }

  lemma DirectTypes()
    ensures TypeOf(MLoadDirect).LdDir? && TypeOf(MStoreDirect).StrDir?
  {
  }

  /** An address as a number, or as an expression in the complete table. */
  predicate PlaceMeans(a: Place, late: seq<Equate>, x: word) {
    match a
    case Literal(w) => w == x
    case Computed(e) => Meaning(e, late) == Known(x)
  }

  /** MoveWord copies an even pair. */
  lemma PairMoveLine(hi: RegText, lo: RegText, rhi: RegText, rlo: RegText, early: seq<Equate>, late: seq<Equate>,
                     c: Core)
    requires lo < 16 && rlo < 16 && lo % 2 == 0 && rlo % 2 == 0 && hi == lo + 1 && rhi == rlo + 1
    ensures var d: PairNo, r: PairNo := lo as int, rlo as int;
            Done(MMoveWord, TwoPairs(hi, lo, rhi, rlo), early, late, c)
            == Some(c.(reg := c.reg[d := c.reg[r]][d + 1 := c.reg[r + 1]]))
  {
    hide TypeOf, Means, Done, Effect;
    assert TypeOf(MMoveWord).DirWord? by { MoveWordType(); }
    EvenNumbers(lo, rlo);
    PairMoveParts(MMoveWord, hi, lo, rhi, rlo, early, late);
    DoneIs(MMoveWord, TwoPairs(hi, lo, rhi, rlo), early, late, c, Movw(lo as int, rlo as int));
    PairMoveEffect(c, lo as int, rlo as int);
  }

  lemma MoveWordType()
    ensures TypeOf(MMoveWord).DirWord?
  {
  }

  lemma EvenNumbers(lo: RegText, rlo: RegText)
    requires lo < 16 && rlo < 16 && lo % 2 == 0 && rlo % 2 == 0
    ensures lo + 1 < 16 && (lo + 1) & 1 == 1 && rlo + 1 < 16 && (rlo + 1) & 1 == 1
    ensures lo as int < 15 && rlo as int < 15 && lo as int != rlo as int + 1
  {
  }

  // ----- pointers -----

  /** The pair of registers counted up by one modulo 65536; nothing else changes. */
  predicate CountsUp(c: Core, c1: Core, p: PairNo) {
    && c1 == c.(reg := c1.reg) && PairAt(c1.reg, p) == (PairAt(c.reg, p) + 1) % 0x1_0000
    && forall i: RegNo :: i != p && i != p + 1 ==> c1.reg[i] == c.reg[i]
  }

  /** What a pre-decrement makes of the pair: the high byte is counted down where the low one becomes 0. */
  function CountedDown(c: Core, p: PairNo): Core {
    var lo: int, hi: int := c.reg[p], c.reg[p + 1];
    c.(reg := c.reg[p := (lo + 0xff) % 0x100][p + 1 := if lo == 1 then (hi + 0xff) % 0x100 else hi])
  }

  /** A load through a pair: the cell is read first, or after counting down, and the pair is counted up last. */
  predicate Loads(c: Core, c1: Core, d: RegNo, p: PairNo, mode: Mode) {
    var at := PairAt(c.reg, p);
    match mode
    case Plain => c1 == c.(reg := c.reg[d := c.mem[at]])
    case PostInc => CountsUp(c.(reg := c.reg[d := c.mem[at]]), c1, p)
    case PreDec =>
      var c2 := CountedDown(c, p);
      c1 == c2.(reg := c2.reg[d := c.mem[(at + 0xffff) % 0x1_0000]])
    case Ignored => c1 == c
  }

  predicate Stores(c: Core, c1: Core, p: PairNo, mode: Mode, d: RegNo) {
    var at := PairAt(c.reg, p);
    match mode
    case Plain => c1 == c.(mem := c.mem[at := c.reg[d]])
    case PostInc => CountsUp(c.(mem := c.mem[at := c.reg[d]]), c1, p)
    case PreDec =>
      var c2 := CountedDown(c, p);
      c1 == c2.(mem := c.mem[(at + 0xffff) % 0x1_0000 := c2.reg[d]])
    case Ignored => c1 == c
  }

  lemma CountedDownPair(c: Core, p: PairNo)
    ensures CountedDown(c, p) == c.(reg := DecPair(c.reg, p))
  {
    assert CountedDown(c, p).reg == DecPair(c.reg, p);
  }

  lemma LoadEffects(c: Core, d: RegNo, p: PairNo, mode: Mode)
    ensures Loads(c, Effect(Load(d, p, mode), c), d, p, mode)
  {
    hide DecPair, IncPair, CountedDown, PairAt;
    IncPairCounts(c.reg[d := c.mem[PairAt(c.reg, p)]], p);
    CountedDownPair(c, p);
  }

  lemma StoreEffects(c: Core, p: PairNo, mode: Mode, d: RegNo)
    ensures Stores(c, Effect(Store(p, mode, d), c), p, mode, d)
  {
    hide DecPair, IncPair, CountedDown, PairAt;
    IncPairCounts(c.reg, p);
    CountedDownPair(c, p);
  }

  lemma PointerType(m: Mnemonic)
    ensures m.MLoadIndX? || m.MLoadIndY? ==> TypeOf(m).LdInd?
    ensures m.MStoreIndX? || m.MStoreIndY? ==> TypeOf(m).StrInd?
  {
  }

  /** LoadIndX and StoreIndX go through r13:r12, LoadIndY and StoreIndY through r15:r14. */
  lemma PointerLine(d: RegText, mode: Mode, early: seq<Equate>, late: seq<Equate>, c: Core)
    requires d < 16 && !mode.Ignored?
    ensures var x: RegNo := d as int;
            && (var t := Done(MLoadIndX, RegPtr(d, mode), early, late, c); t.Some? && Loads(c, t.value, x, 12, mode))
            && (var t := Done(MLoadIndY, RegPtr(d, mode), early, late, c); t.Some? && Loads(c, t.value, x, 14, mode))
            && (var t := Done(MStoreIndX, RegPtr(d, mode), early, late, c); t.Some? && Stores(c, t.value, 12, mode, x))
            && (var t := Done(MStoreIndY, RegPtr(d, mode), early, late, c); t.Some? && Stores(c, t.value, 14, mode, x))
  {
    hide TypeOf, Means, Done, Effect, Loads, Stores;
    var x: RegNo := d as int;
    PointerType(MLoadIndX);
    PointerType(MLoadIndY);
    PointerType(MStoreIndX);
    PointerType(MStoreIndY);
    LoadPointerParts(MLoadIndX, d, mode, early, late);
    LoadPointerParts(MLoadIndY, d, mode, early, late);
    StorePointerParts(MStoreIndX, d, mode, early, late);
    StorePointerParts(MStoreIndY, d, mode, early, late);
    DoneIs(MLoadIndX, RegPtr(d, mode), early, late, c, Load(x, 12, mode));
    DoneIs(MLoadIndY, RegPtr(d, mode), early, late, c, Load(x, 14, mode));
    DoneIs(MStoreIndX, RegPtr(d, mode), early, late, c, Store(12, mode, x));
    DoneIs(MStoreIndY, RegPtr(d, mode), early, late, c, Store(14, mode, x));
    LoadEffects(c, x, 12, mode);
    LoadEffects(c, x, 14, mode);
    StoreEffects(c, 12, mode, x);
    StoreEffects(c, 14, mode, x);
  }

  // ----- the stack -----

  /** Push stores its register where the stack pointer is and counts that down; Pop does the opposite. */
  lemma StackLine(d: RegText, early: seq<Equate>, late: seq<Equate>, c: Core)
    requires d < 16
    ensures var x: RegNo, top: word := d as int, if c.sp == 0xffff then 0xffff else c.sp + 1;
            && Done(MPush, OneReg(d), early, late, c)
               == Some(c.(mem := c.mem[c.sp := c.reg[x]], sp := (c.sp + 0xffff) % 0x1_0000))
            && Done(MPop, OneReg(d), early, late, c) == Some(c.(reg := c.reg[x := c.mem[top]], sp := top))
  {
    hide Done, Effect, TypeOf, SingleMeaning;
    var x: RegNo := d as int;
    SingleTable(MPush, x);
    SingleLine(MPush, d, early, late, c);
    SingleTable(MPop, x);
    SingleLine(MPop, d, early, late, c);
    StackEffects(c, x);
  }

  lemma StackEffects(c: Core, d: RegNo)
    ensures var top: word := if c.sp == 0xffff then 0xffff else c.sp + 1;
            && Effect(Push(d), c) == c.(mem := c.mem[c.sp := c.reg[d]], sp := (c.sp + 0xffff) % 0x1_0000)
            && Effect(Pop(d), c) == c.(reg := c.reg[d := c.mem[top]], sp := top)
  {
  }

  // ----- single bits and flags -----

  /** The status register with one bit changed. */
  predicate FlagIs(f: bv8, g: bv8, b: Bit, on: bool) {
    forall i: Bit :: Flag(g, i) == if i == b then on else Flag(f, i)
  }

  lemma PutFlag(f: bv8, b: Bit, on: bool)
    ensures FlagIs(f, Put(f, b, on), b, on)
  {
    hide Flag, Put;
    forall i: Bit ensures Flag(Put(f, b, on), i) == if i == b then on else Flag(f, i) { FlagPut(f, b, on, i); }
  }

  lemma FlagEffects(c: Core, b: Bit, d: RegNo)
    ensures var c1 := Effect(Bset(b), c); c1 == c.(sreg := c1.sreg) && FlagIs(c.sreg, c1.sreg, b, true)
    ensures var c1 := Effect(Bclr(b), c); c1 == c.(sreg := c1.sreg) && FlagIs(c.sreg, c1.sreg, b, false)
    ensures var c1 := Effect(Bst(d, b), c);
            c1 == c.(sreg := c1.sreg) && FlagIs(c.sreg, c1.sreg, TRANSFER, TestBit(c.reg[d], b))
  {
    hide FlagIs, Put, TestBit;
    PutFlag(c.sreg, b, true);
    PutFlag(c.sreg, b, false);
    PutFlag(c.sreg, TRANSFER, TestBit(c.reg[d], b));
  }

  lemma BitLoadEffect(c: Core, d: RegNo, b: Bit)
    ensures var c1 := Effect(Bld(d, b), c);
            && c1 == c.(reg := c.reg[d := c1.reg[d]])
            && forall i: Bit :: TestBit(c1.reg[d], i) == if i == b then Flag(c.sreg, TRANSFER) else TestBit(c.reg[d], i)
  {
    hide TestBit, PutBit, Flag;
    var t := Flag(c.sreg, TRANSFER);
    forall i: Bit ensures TestBit(PutBit(c.reg[d], b, t), i) == if i == b then t else TestBit(c.reg[d], i) {
      PutBitRead(c.reg[d], b, t, i);
    }
  }

  lemma StatusBitLine(m: Mnemonic, bit: seq<Token>, b: Bit, early: seq<Equate>, late: seq<Equate>, c: Core)
    requires TypeOf(m).BitType? && Meaning(bit, early) == Known(b)
    ensures Done(m, BitOnly(bit), early, late, c) == Some(Effect(if m.MBitSetSreg? then Bset(b) else Bclr(b), c))
  {
    hide TypeOf, Means, Done, Effect, Meaning;
    StatusBitParts(m, bit, early, late);
    DoneIs(m, BitOnly(bit), early, late, c, if m.MBitSetSreg? then Bset(b) else Bclr(b));
  }

  lemma RegisterBitLine(m: Mnemonic, d: RegText, bit: seq<Token>, b: Bit, early: seq<Equate>, late: seq<Equate>,
                        c: Core)
    requires TypeOf(m).LdstrBit? && d < 16 && Meaning(bit, early) == Known(b)
    ensures var a := BitMeaning(m, d as int, b);
            a.Do? ==> Done(m, RegBit(d, bit), early, late, c) == Some(Effect(a.op, c))
  {
    hide TypeOf, Means, Done, Effect, Meaning, BitMeaning;
    RegisterBitParts(m, d, bit, early, late);
    var a := BitMeaning(m, d as int, b);
    if a.Do? { DoneIs(m, RegBit(d, bit), early, late, c, a.op); }
  }

  lemma BitTable(m: Mnemonic, d: RegNo, b: Bit)
    ensures m.MBitLoad? ==> TypeOf(m).LdstrBit? && BitMeaning(m, d, b) == Do(Bld(d, b))
    ensures m.MBitStoreT? ==> TypeOf(m).LdstrBit? && BitMeaning(m, d, b) == Do(Bst(d, b))
    ensures m.MBitSetSreg? || m.MBitClear? ==> TypeOf(m).BitType?
  {
  }

  /** BitSetSreg and BitClear change the flag with the number that is written, and nothing else. */
  lemma FlagLine(bit: seq<Token>, b: Bit, early: seq<Equate>, late: seq<Equate>, c: Core)
    requires Meaning(bit, early) == Known(b)
    ensures var t := Done(MBitSetSreg, BitOnly(bit), early, late, c);
            t.Some? && t.value == c.(sreg := t.value.sreg) && FlagIs(c.sreg, t.value.sreg, b, true)
    ensures var t := Done(MBitClear, BitOnly(bit), early, late, c);
            t.Some? && t.value == c.(sreg := t.value.sreg) && FlagIs(c.sreg, t.value.sreg, b, false)
  {
    hide TypeOf, Done, Effect, Meaning, FlagIs, BitMeaning;
    BitTable(MBitSetSreg, 0, b);
    BitTable(MBitClear, 0, b);
    StatusBitLine(MBitSetSreg, bit, b, early, late, c);
    StatusBitLine(MBitClear, bit, b, early, late, c);
    FlagEffects(c, b, 0);
  }

  /** BitStoreT copies a bit of a register to T, BitLoad copies T to a bit of a register; all else stays. */
  lemma TransferLine(d: RegText, bit: seq<Token>, b: Bit, early: seq<Equate>, late: seq<Equate>, c: Core)
    requires d < 16 && Meaning(bit, early) == Known(b)
    ensures var x: RegNo, t := d as int, Done(MBitStoreT, RegBit(d, bit), early, late, c);
            && t.Some? && t.value == c.(sreg := t.value.sreg)
            && FlagIs(c.sreg, t.value.sreg, 6, c.reg[x] / Power2(b) % 2 == 1)
    ensures var x: RegNo, t := d as int, Done(MBitLoad, RegBit(d, bit), early, late, c);
            && t.Some? && t.value == c.(reg := c.reg[x := t.value.reg[x]])
            && forall i: Bit :: TestBit(t.value.reg[x], i) == if i == b then Flag(c.sreg, 6) else TestBit(c.reg[x], i)
  {
    hide TypeOf, Done, Effect, Meaning, FlagIs, BitMeaning, TestBit, Flag, Power2;
    var x: RegNo := d as int;
    BitTable(MBitStoreT, x, b);
    BitTable(MBitLoad, x, b);
    RegisterBitLine(MBitStoreT, d, bit, b, early, late, c);
    RegisterBitLine(MBitLoad, d, bit, b, early, late, c);
    FlagEffects(c, b, x);
    BitIsDigit(c.reg[x], b);
    BitLoadEffect(c, x, b);
  }

  // ----- flags by name -----

  /** The flag that a mnemonic is about: C, Z, N, V, S, T and I are bits 0 to 4, 6 and 7 of the status register. */
  function FlagNumber(m: Mnemonic): Bit {
    if m.MSetCarryF? || m.MClearCarryF? || m.MBranchCarrySet? || m.MBranchCarryClr? || m.MBranchLower?
      || m.MBranchSameHigh? then 0
    else if m.MSetZeroF? || m.MClearZeroF? || m.MBranchEqu? || m.MBranchNotEqu? then 1
    else if m.MSetNegF? || m.MClearNegF? || m.MBranchMinus? || m.MBranchPlus? then 2
    else if m.MSetOverflowF? || m.MClearOverflowF? || m.MBranchOverSet? || m.MBranchOverClr? then 3
    else if m.MSetSignF? || m.MClearSignF? || m.MBranchLessThan? || m.MBranchGrEqu? then 4
    else if m.MSetTranF? || m.MClearTranF? || m.MBranchTSet? || m.MBranchTClr? then 6
    else 7
  }

  predicate SetsFlag(m: Mnemonic) {
    m.MSetCarryF? || m.MSetZeroF? || m.MSetNegF? || m.MSetOverflowF? || m.MSetSignF? || m.MSetTranF? || m.MSei?
  }

  predicate ClearsFlag(m: Mnemonic) {
    m.MClearCarryF? || m.MClearZeroF? || m.MClearNegF? || m.MClearOverflowF? || m.MClearSignF? || m.MClearTranF?
    || m.MCli?
  }

  lemma SetsTypes(m: Mnemonic)
    ensures SetsFlag(m) ==> TypeOf(m).Implied?
  {
  }

  lemma ClearsTypes(m: Mnemonic)
    ensures ClearsFlag(m) ==> TypeOf(m).Implied?
  {
  }

  lemma SetsTable(m: Mnemonic)
    requires TypeOf(m).Implied?
    ensures SetsFlag(m) ==> ImpliedMeaning(m) == Do(Bset(FlagNumber(m)))
  {
    hide TypeOf;
  }

  lemma NopTable()
    ensures TypeOf(MNOP).Implied? && ImpliedMeaning(MNOP) == Do(Nop)
  {
  }

  lemma ClearsTable(m: Mnemonic)
    requires TypeOf(m).Implied?
    ensures ClearsFlag(m) ==> ImpliedMeaning(m) == Do(Bclr(FlagNumber(m)))
  {
    hide TypeOf;
  }

  /** The instructions named after a flag change that flag and nothing else; NOP changes nothing. */
  lemma FlagNameLine(m: Mnemonic, early: seq<Equate>, late: seq<Equate>, c: Core)
    ensures SetsFlag(m) || ClearsFlag(m) ==>
              var t := Done(m, NoArg, early, late, c);
              t.Some? && t.value == c.(sreg := t.value.sreg) && FlagIs(c.sreg, t.value.sreg, FlagNumber(m), SetsFlag(m))
    ensures m.MNOP? ==> Done(m, NoArg, early, late, c) == Some(c)
  {
    hide TypeOf, Done, Effect, FlagIs, ImpliedMeaning, FlagNumber;
    SetsTypes(m);
    ClearsTypes(m);
    NopTable();
    if TypeOf(m).Implied? {
      SetsTable(m);
      ClearsTable(m);
      NoArgLine(m, early, late, c);
      FlagEffects(c, FlagNumber(m), 0);
      NopEffect(c);
    }
  }

  lemma NopEffect(c: Core)
    ensures Effect(Nop, c) == c
  {
  }

  // ----- flags that stay -----

  /** H, T and I, bits 5 to 7 of the status register. */
  function HighFlags(f: bv8): bv8 { f & 0xe0 }

  lemma PutKeeps(f: bv8, b: Bit, on: bool)
    requires b < 5
    ensures HighFlags(Put(f, b, on)) == HighFlags(f)
  {
  }

  lemma ResultKeeps(f: bv8, r: byte)
    ensures HighFlags(ResultFlags(f, r)) == HighFlags(f)
  {
    hide HighFlags, Put, Flag;
    var f1 := Put(f, ZERO, r == 0);
    PutKeeps(f, ZERO, r == 0);
    PutKeeps(f1, NEGATIVE, r >= 0x80);
    PutKeeps(Put(f1, NEGATIVE, r >= 0x80), SIGN, (r >= 0x80) != Flag(f, OVERFLOW));
  }

  lemma SumKeeps(f: bv8, w: word, a: byte, b: byte)
    ensures HighFlags(SumFlags(f, w, a, b)) == HighFlags(f)
  {
    hide HighFlags, Put, ResultFlags, SignFlips;
    var v, carry := SignFlips(a, b, Trunc8(w)), Bit8(w) == 1;
    PutKeeps(f, CARRY, carry);
    PutKeeps(Put(f, CARRY, carry), OVERFLOW, v);
    ResultKeeps(Put(Put(f, CARRY, carry), OVERFLOW, v), Trunc8(w));
  }

  lemma DifferenceKeeps(f: bv8, w: word, a: byte, b: byte)
    ensures HighFlags(DiffFlags(f, w, a, b)) == HighFlags(f)
  {
    hide HighFlags, Put, BorrowFlips, Flag, CarryIn;
    var r := Trunc8(w);
    var v := BorrowFlips(a, b, r);
    var f1 := Put(f, OVERFLOW, v);
    var f2 := Put(f1, ZERO, Flag(f, ZERO) && w == 0);
    var f3 := Put(f2, NEGATIVE, r >= 0x80);
    var f4 := Put(f3, SIGN, (r >= 0x80) != v);
    PutKeeps(f, OVERFLOW, v);
    PutKeeps(f1, ZERO, Flag(f, ZERO) && w == 0);
    PutKeeps(f2, NEGATIVE, r >= 0x80);
    PutKeeps(f3, SIGN, (r >= 0x80) != v);
    PutKeeps(f4, CARRY, b + CarryIn(f) > a);
  }

  lemma ShiftKeeps(f: bv8, out: bool, r: byte)
    ensures HighFlags(ShiftFlags(f, out, r)) == HighFlags(f)
  {
    hide HighFlags, Put, ResultFlags, Flag;
    var f1 := ResultFlags(Put(f, CARRY, out), r);
    PutKeeps(f, CARRY, out);
    ResultKeeps(Put(f, CARRY, out), r);
    PutKeeps(f1, OVERFLOW, Flag(f1, OVERFLOW) || (r >= 0x80) != out);
  }

  lemma LogicKeeps(f: bv8, r: byte)
    ensures HighFlags(LogicFlags(f, r)) == HighFlags(f)
  {
    hide HighFlags, Put, ResultFlags;
    PutKeeps(f, OVERFLOW, false);
    ResultKeeps(Put(f, OVERFLOW, false), r);
  }

  lemma ProductKeeps(f: bv8, w: word)
    ensures HighFlags(ProductFlags(f, w)) == HighFlags(f)
  {
    hide HighFlags, Put;
    PutKeeps(f, CARRY, w >= 0x8000);
    PutKeeps(Put(f, CARRY, w >= 0x8000), ZERO, w == 0);
  }

  predicate ChangesHighFlags(o: Op) { o.Bset? || o.Bclr? || o.Bst? }

  /** All instructions but BitStoreT and those that set or clear one flag keep these three. */
  lemma HighFlagsKept(o: Op, c: Core)
    requires !ChangesHighFlags(o)
    ensures HighFlags(Effect(o, c).sreg) == HighFlags(c.sreg)
  {
    hide HighFlags, Put, Flag, ResultFlags, SumFlags, DiffFlags, LogicFlags, ShiftFlags, ProductFlags, BitAnd, BitOr,
      BitXor, PutBit, TestBit, SwapByte, Signed, CarryIn, IncPair, DecPair, Bit8, PopTop, PairAt, High, Join, Trunc8,
      Trunc16;
    forall f: bv8, b: Bit, on: bool | b < 5 ensures HighFlags(Put(f, b, on)) == HighFlags(f) { PutKeeps(f, b, on); }
    forall f: bv8, r: byte ensures HighFlags(ResultFlags(f, r)) == HighFlags(f) { ResultKeeps(f, r); }
    forall f: bv8, w: word, a: byte, b: byte
      ensures HighFlags(SumFlags(f, w, a, b)) == HighFlags(DiffFlags(f, w, a, b)) == HighFlags(f)
    {
      SumKeeps(f, w, a, b);
      DifferenceKeeps(f, w, a, b);
    }
    forall f: bv8, r: byte ensures HighFlags(LogicFlags(f, r)) == HighFlags(f) { LogicKeeps(f, r); }
    forall f: bv8, z: bool, r: byte ensures HighFlags(ShiftFlags(f, z, r)) == HighFlags(f) { ShiftKeeps(f, z, r); }
    forall f: bv8, w: word ensures HighFlags(ProductFlags(f, w)) == HighFlags(f) { ProductKeeps(f, w); }
  }
}
