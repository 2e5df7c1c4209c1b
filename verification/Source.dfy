/**
 Source lines as the assembler reads them, the mnemonic table, and what each mnemonic means for
 the machine, independently of how it is encoded.
 */
module Source {
  import opened Words
  import opened Isa
  import opened Symbols
  import opened Parser

  datatype Mnemonic =
    | MAddWithC | MAdd | MAddImmWord | MAnd | MAndImm | MArithShiftRt | MBitLoad | MBitClear
    | MBranchBitClr | MBranchBitSet | MBranchCarryClr | MBranchCarrySet | MBreak | MBranchEqu
    | MBranchGrEqu | MBrid | MBrie | MBranchLower | MBranchLessThan | MBranchMinus | MBranchNotEqu
    | MBranchPlus | MBranchSameHigh | MBranchTClr | MBranchTSet | MBranchOverClr | MBranchOverSet
    | MBitSetSreg | MBitStoreT | MCall | MClearBitsReg | MClearCarryF | MCli | MClearNegF | MClearReg
    | MClearSignF | MClearTranF | MClearOverflowF | MClearZeroF | MCompliment | MCompare | MCompareCarry
    | MCompareImm | MCompareSkipEqu | MDecrement | MExclusiveOr | MIndCall | MIndJump | MIncrement | MJump
    | MLoadIndX | MLoadIndY | MLoadImm | MLoadDirect | MLogicalShiftRt | MLogicalShiftLt | MMove
    | MMoveWord | MMultiply | MMultiplyS | MNegate | MNOP | MOr | MOrImm | MPop | MPush | MReturn
    | MRotateLeft | MRotateRight | MSubtractWithC | MSubtractImmC | MSubtractImmWord | MSetBitsReg
    | MSkipBitRegClr | MSkipBitRegSet | MSetCarryF | MSei | MSetNegF | MSetAllReg | MSetSignF | MSetTranF
    | MSetOverflowF | MSetZeroF | MStoreIndX | MStoreIndY | MStoreDirect | MSubtract | MSubtractImm | MSwap
    | MTestZero

  /** How the operands are written and encoded (src/instructions.h). */
  datatype OpType =
    | DirSing | DirDual | DirStd | ImmByte | ImmWord | BranchType | BrBit | Dir32 | Implied
    | LdInd | StrInd | LdDir | StrDir | BitType | LdstrBit | DirWord

  // The table of mnemonics, column by column. Its first three rows are the directives .db, .dw and .equ.

  function TypeOf(m: Mnemonic): OpType {
    match m
    case MAddWithC | MAdd | MAnd | MCompare | MCompareCarry | MCompareSkipEqu | MExclusiveOr | MMove
       | MMultiply | MMultiplyS | MOr | MSubtractWithC | MSubtract => DirDual
    case MAddImmWord | MSubtractImmWord => ImmWord
    case MAndImm | MClearBitsReg | MCompareImm | MLoadImm | MOrImm | MSubtractImmC | MSetBitsReg
       | MSubtractImm => ImmByte
    case MArithShiftRt | MCompliment | MDecrement | MIncrement | MLogicalShiftRt | MNegate | MPop
       | MPush | MRotateRight | MSetAllReg | MSwap => DirSing
    case MBitLoad | MBitStoreT | MSkipBitRegClr | MSkipBitRegSet => LdstrBit
    case MBitClear | MBitSetSreg => BitType
    case MBranchBitClr | MBranchBitSet => BrBit
    case MBranchCarryClr | MBranchCarrySet | MBranchEqu | MBranchGrEqu | MBrid | MBrie | MBranchLower
       | MBranchLessThan | MBranchMinus | MBranchNotEqu | MBranchPlus | MBranchSameHigh | MBranchTClr
       | MBranchTSet | MBranchOverClr | MBranchOverSet => BranchType
    case MBreak | MClearCarryF | MCli | MClearNegF | MClearSignF | MClearTranF | MClearOverflowF
       | MClearZeroF | MIndCall | MIndJump | MNOP | MReturn | MSetCarryF | MSei | MSetNegF | MSetSignF
       | MSetTranF | MSetOverflowF | MSetZeroF => Implied
    case MCall | MJump => Dir32
    case MClearReg | MLogicalShiftLt | MRotateLeft | MTestZero => DirStd
    case MLoadIndX | MLoadIndY => LdInd
    case MLoadDirect => LdDir
    case MMoveWord => DirWord
    case MStoreIndX | MStoreIndY => StrInd
    case MStoreDirect => StrDir
  }

  function CodeOf(m: Mnemonic): bv16 {
    match m
    case MAddWithC => 0x1c00
    case MAdd => 0x0c00
    case MAddImmWord => 0x9600
    case MAnd => 0x2000
    case MAndImm => 0x7000
    case MArithShiftRt => 0x9405
    case MBitLoad => 0xf800
    case MBitClear => 0x9488
    case MBranchBitClr => 0xf400
    case MBranchBitSet => 0xf000
    case MBranchCarryClr => 0xf400
    case MBranchCarrySet => 0xf000
    case MBreak => 0x9598
    case MBranchEqu => 0xf001
    case MBranchGrEqu => 0xf404
    case MBrid => 0xf407
    case MBrie => 0xf007
    case MBranchLower => 0xf000
    case MBranchLessThan => 0xf004
    case MBranchMinus => 0xf002
    case MBranchNotEqu => 0xf401
    case MBranchPlus => 0xf402
    case MBranchSameHigh => 0xf400
    case MBranchTClr => 0xf406
    case MBranchTSet => 0xf006
    case MBranchOverClr => 0xf403
    case MBranchOverSet => 0xf003
    case MBitSetSreg => 0x9408
    case MBitStoreT => 0xfa00
    case MCall => 0x940e
    case MClearBitsReg => 0xc000
    case MClearCarryF => 0x9488
    case MCli => 0x94f8
    case MClearNegF => 0x94a8
    case MClearReg => 0x2400
    case MClearSignF => 0x94c8
    case MClearTranF => 0x94e8
    case MClearOverflowF => 0x94b8
    case MClearZeroF => 0x9498
    case MCompliment => 0x9400
    case MCompare => 0x1400
    case MCompareCarry => 0x0400
    case MCompareImm => 0x3000
    case MCompareSkipEqu => 0x1000
    case MDecrement => 0x940a
    case MExclusiveOr => 0x2400
    case MIndCall => 0x9509
    case MIndJump => 0x9409
    case MIncrement => 0x9403
    case MJump => 0x940c
    case MLoadIndX => 0x900c
    case MLoadIndY => 0x9008
    case MLoadImm => 0xe000
    case MLoadDirect => 0x9000
    case MLogicalShiftRt => 0x9406
    case MLogicalShiftLt => 0x0c00
    case MMove => 0x2c00
    case MMoveWord => 0x0100
    case MMultiply => 0x9c00
    case MMultiplyS => 0x0200
    case MNegate => 0x9401
    case MNOP => 0x0000
    case MOr => 0x2800
    case MOrImm => 0x6000
    case MPop => 0x9203
    case MPush => 0x920f
    case MReturn => 0x9508
    case MRotateLeft => 0x1c00
    case MRotateRight => 0x9407
    case MSubtractWithC => 0x0800
    case MSubtractImmC => 0x4000
    case MSubtractImmWord => 0x9700
    case MSetBitsReg => 0x6000
    case MSkipBitRegClr => 0xfc00
    case MSkipBitRegSet => 0xfe00
    case MSetCarryF => 0x9408
    case MSei => 0x9478
    case MSetNegF => 0x9428
    case MSetAllReg => 0xef0f
    case MSetSignF => 0x9448
    case MSetTranF => 0x9468
    case MSetOverflowF => 0x9438
    case MSetZeroF => 0x9418
    case MStoreIndX => 0x920c
    case MStoreIndY => 0x9208
    case MStoreDirect => 0x9200
    case MSubtract => 0x1800
    case MSubtractImm => 0x5000
    case MSwap => 0x9402
    case MTestZero => 0x2000
  }

  /** A register as written: the number after the r, or what get_reg returns for it. */
  type RegText = bv8

  predicate IsReg(d: RegText) { d < 16 }

  /** An address written as a number, or as an expression that waits for the second pass. */
  datatype Place = Literal(w: word) | Computed(e: seq<Token>)

  datatype Arg =
    | NoArg
    | OneReg(d: RegText)
    | TwoRegs(d: RegText, r: RegText)
    | RegExpr(d: RegText, e: seq<Token>)
    | PairExpr(hi: RegText, lo: RegText, e: seq<Token>)
    | TwoPairs(hi: RegText, lo: RegText, rhi: RegText, rlo: RegText)
    | Label(e: seq<Token>)
    | BitLabel(bit: seq<Token>, e: seq<Token>)
    | BitOnly(bit: seq<Token>)
    | RegBit(d: RegText, bit: seq<Token>)
    | At16(a: Place)
    | RegPtr(d: RegText, mode: Mode)
    | RegAt16(d: RegText, a: Place)

  /** The bytes of a .db line; the size of a line is kept in 16 bits. */
  type Block = s: seq<byte> | |s| <= 0xffff witness []

  datatype Body = Blank | Data(bytes: Block) | Ins8(m: Mnemonic, arg: Arg)

  /** One line of a source file. Comments and .def count as blank. */
  datatype Line =
    | Org(a: word)
    | Equ(key: string, value: byte)
    | Text(name: Option<string>, body: Body)

  // ----- what a mnemonic means -----

  /** What an instruction does, with absolute addresses. */
  datatype Action =
    | Do(op: Op)
    | BranchIf(on: bool, b: Bit, target: word)
    | SkipIf(t: Test)
    | CallTo(a: word) | JumpTo(a: word) | CallPair | JumpPair | ReturnNow | Finish

  function DualMeaning(m: Mnemonic, d: RegNo, r: RegNo): (a: Action)
    requires TypeOf(m).DirDual?
    ensures !a.BranchIf?
  {
    match m
    case MAddWithC => Do(Adc(d, r))
    case MAdd => Do(Op.Add(d, r))
    case MAnd => Do(Op.And(d, r))
    case MCompare => Do(Cp(d, r))
    case MCompareCarry => Do(Cpc(d, r))
    case MCompareSkipEqu => SkipIf(Equal(d, r))
    case MExclusiveOr => Do(Eor(d, r))
    case MMove => Do(Mov(d, r))
    case MMultiply => Do(Op.Mul(d, r))
    case MMultiplyS => Do(Muls(d, r))
    case MOr => Do(Op.Or(d, r))
    case MSubtractWithC => Do(Sbc(d, r))
    case MSubtract => Do(Op.Sub(d, r))
  }

  function SingleMeaning(m: Mnemonic, d: RegNo): (a: Action)
    requires TypeOf(m).DirSing?
    ensures !a.BranchIf?
  {
    match m
    case MArithShiftRt => Do(Asr(d))
    case MCompliment => Do(Com(d))
    case MDecrement => Do(Dec(d))
    case MIncrement => Do(Inc(d))
    case MLogicalShiftRt => Do(Lsr(d))
    case MNegate => Do(Neg(d))
    case MPop => Do(Pop(d))
    case MPush => Do(Push(d))
    case MRotateRight => Do(Ror(d))
    case MSetAllReg => Do(Ldi(d, 0xff))
    case MSwap => Do(Swap(d))
  }

  /** Aliases on one register: the instruction takes it for both operands. */
  function DoubledMeaning(m: Mnemonic, d: RegNo): (a: Action)
    requires TypeOf(m).DirStd?
    ensures !a.BranchIf?
  {
    match m
    case MClearReg => Do(Eor(d, d))
    case MLogicalShiftLt => Do(Op.Add(d, d))
    case MRotateLeft => Do(Adc(d, d))
    case MTestZero => Do(Op.And(d, d))
  }

  function ByteMeaning(m: Mnemonic, d: RegNo, k: byte): (a: Action)
    requires TypeOf(m).ImmByte?
    ensures !a.BranchIf?
  {
    match m
    case MAndImm => Do(Andi(d, k))
    case MClearBitsReg => Do(Andi(d, 0xff - k))
    case MCompareImm => Do(Cpi(d, k))
    case MLoadImm => Do(Ldi(d, k))
    case MOrImm => Do(Ori(d, k))
    case MSubtractImmC => Do(Sbci(d, k))
    case MSetBitsReg => Do(Ori(d, k))
    case MSubtractImm => Do(Subi(d, k))
  }

  function BranchMeaning(m: Mnemonic, t: word): (a: Action)
    requires TypeOf(m).BranchType?
    ensures a.BranchIf? && a.target == t
  {
    match m
    case MBranchCarryClr => BranchIf(false, CARRY, t)
    case MBranchCarrySet => BranchIf(true, CARRY, t)
    case MBranchEqu => BranchIf(true, ZERO, t)
    case MBranchGrEqu => BranchIf(false, SIGN, t)
    case MBrid => BranchIf(false, 7, t)
    case MBrie => BranchIf(true, 7, t)
    case MBranchLower => BranchIf(true, CARRY, t)
    case MBranchLessThan => BranchIf(true, SIGN, t)
    case MBranchMinus => BranchIf(true, NEGATIVE, t)
    case MBranchNotEqu => BranchIf(false, ZERO, t)
    case MBranchPlus => BranchIf(false, NEGATIVE, t)
    case MBranchSameHigh => BranchIf(false, CARRY, t)
    case MBranchTClr => BranchIf(false, TRANSFER, t)
    case MBranchTSet => BranchIf(true, TRANSFER, t)
    case MBranchOverClr => BranchIf(false, OVERFLOW, t)
    case MBranchOverSet => BranchIf(true, OVERFLOW, t)
  }

  function BitMeaning(m: Mnemonic, d: RegNo, b: Bit): (a: Action)
    requires TypeOf(m).LdstrBit?
    ensures !a.BranchIf?
  {
    match m
    case MBitLoad => Do(Bld(d, b))
    case MBitStoreT => Do(Bst(d, b))
    case MSkipBitRegClr => SkipIf(BitIs(d, b, false))
    case MSkipBitRegSet => SkipIf(BitIs(d, b, true))
  }

  function ImpliedMeaning(m: Mnemonic): (a: Action)
    requires TypeOf(m).Implied?
    ensures !a.BranchIf?
  {
    match m
    case MBreak => Finish
    case MClearCarryF => Do(Bclr(CARRY))
    case MCli => Do(Bclr(7))
    case MClearNegF => Do(Bclr(NEGATIVE))
    case MClearSignF => Do(Bclr(SIGN))
    case MClearTranF => Do(Bclr(TRANSFER))
    case MClearOverflowF => Do(Bclr(OVERFLOW))
    case MClearZeroF => Do(Bclr(ZERO))
    case MIndCall => CallPair
    case MIndJump => JumpPair
    case MNOP => Do(Nop)
    case MReturn => ReturnNow
    case MSetCarryF => Do(Bset(CARRY))
    case MSei => Do(Bset(7))
    case MSetNegF => Do(Bset(NEGATIVE))
    case MSetSignF => Do(Bset(SIGN))
    case MSetTranF => Do(Bset(TRANSFER))
    case MSetOverflowF => Do(Bset(OVERFLOW))
    case MSetZeroF => Do(Bset(ZERO))
  }

  /** The value of a bit operand, which is evaluated in the first pass. */
  function BitValue(e: seq<Token>, table: seq<Equate>): Option<Bit> {
    match Meaning(e, table)
    case Known(w) => if w <= 7 then Some(w) else None
    case _ => None
  }

  function WordValue(e: seq<Token>, table: seq<Equate>): Option<word> {
    match Meaning(e, table)
    case Known(w) => Some(w)
    case _ => None
  }

  function PlaceValue(a: Place, table: seq<Equate>): Option<word> {
    match a
    case Literal(w) => Some(w)
    case Computed(e) => WordValue(e, table)
  }

  /** An even register from r8 on, and the register above it. */
  predicate WordPair(hi: RegText, lo: RegText) { hi < 16 && lo < 16 && hi == lo + 1 && lo >= 8 && hi & 1 == 1 }

  predicate EvenPair(hi: RegText, lo: RegText) { hi < 16 && lo < 16 && hi == lo + 1 && hi & 1 == 1 }

  /**
   What an instruction means if it is legal: bits are evaluated in the table of the first pass,
   all other expressions in the complete one.
   */
  function Means(m: Mnemonic, arg: Arg, early: seq<Equate>, late: seq<Equate>): Option<Action> {
    match (TypeOf(m), arg)
    case (DirSing, OneReg(d)) => if IsReg(d) then Some(SingleMeaning(m, d as int)) else None
    case (DirDual, TwoRegs(d, r)) => if IsReg(d) && IsReg(r) then Some(DualMeaning(m, d as int, r as int)) else None
    case (DirStd, OneReg(d)) => if IsReg(d) then Some(DoubledMeaning(m, d as int)) else None
    case (ImmByte, RegExpr(d, e)) =>
      var v := WordValue(e, late);
      if IsReg(d) && v.Some? then Some(ByteMeaning(m, d as int, Trunc8(v.value))) else None
    case (ImmWord, PairExpr(hi, lo, e)) =>
      var v := WordValue(e, late);
      if !WordPair(hi, lo) || v.None? || Trunc8(v.value) > 63 then None
      else Some(Do(if m.MAddImmWord? then Adiw(lo as int, Trunc8(v.value)) else Sbiw(lo as int, Trunc8(v.value))))
    case (BranchType, Label(e)) =>
      var v := WordValue(e, late);
      if v.Some? then Some(BranchMeaning(m, v.value)) else None
    case (BrBit, BitLabel(bit, e)) =>
      var b, v := BitValue(bit, early), WordValue(e, late);
      if b.Some? && v.Some? then Some(BranchIf(m.MBranchBitSet?, b.value, v.value)) else None
    case (BitType, BitOnly(bit)) =>
      var b := BitValue(bit, early);
      if b.Some? then Some(Do(if m.MBitSetSreg? then Bset(b.value) else Bclr(b.value))) else None
    case (LdstrBit, RegBit(d, bit)) =>
      var b := BitValue(bit, early);
      if IsReg(d) && b.Some? then Some(BitMeaning(m, d as int, b.value)) else None
    case (Implied, NoArg) => Some(ImpliedMeaning(m))
    case (Dir32, At16(a)) =>
      var v := PlaceValue(a, late);
      if v.Some? then Some(if m.MCall? then CallTo(v.value) else JumpTo(v.value)) else None
    case (LdInd, RegPtr(d, mode)) =>
      if IsReg(d) && !mode.Ignored? then Some(Do(Load(d as int, if m.MLoadIndX? then 12 else 14, mode))) else None
    case (StrInd, RegPtr(d, mode)) =>
      if IsReg(d) && !mode.Ignored? then Some(Do(Store(if m.MStoreIndX? then 12 else 14, mode, d as int))) else None
    case (LdDir, RegAt16(d, a)) =>
      var v := PlaceValue(a, late);
      if IsReg(d) && v.Some? then Some(Do(Lds(d as int, v.value))) else None
    case (StrDir, RegAt16(d, a)) =>
      var v := PlaceValue(a, late);
      if IsReg(d) && v.Some? then Some(Do(Sts(v.value, d as int))) else None
    case (DirWord, TwoPairs(hi, lo, rhi, rlo)) =>
      if EvenPair(hi, lo) && EvenPair(rhi, rlo) then Some(Do(Movw(lo as int, rlo as int))) else None
    case _ => None
  }
}
