/**
 The instruction set as the emulator runs it: selection of a handler by the ordered chain of
 masks, extraction of the fields, and the effect of each handler on the machine.
 */
module Isa {
  import opened Words

  type Regs = r: seq<byte> | |r| == 16 witness seq(16, _ => 0)
  type Mem = m: seq<byte> | |m| == 0x1_0000 witness seq(0x1_0000, _ => 0)

  /** Everything but the instruction pointer. */
  datatype Core = Core(sp: word, reg: Regs, sreg: bv8, mem: Mem)

  datatype Cpu = Cpu(ip: word, core: Core)

  /** How an indirect access updates its pointer; the fourth encoding does nothing at all. */
  datatype Mode = Plain | PostInc | PreDec | Ignored

  /** Instructions that only compute; control falls through to the next instruction. */
  datatype Op =
    | Adc(d: RegNo, r: RegNo) | Add(d: RegNo, r: RegNo) | Adiw(p: PairNo, k: byte)
    | And(d: RegNo, r: RegNo) | Andi(d: RegNo, k: byte) | Asr(d: RegNo)
    | Bclr(b: Bit) | Bld(d: RegNo, b: Bit) | Bset(b: Bit) | Bst(d: RegNo, b: Bit)
    | Com(d: RegNo) | Cp(d: RegNo, r: RegNo) | Cpc(d: RegNo, r: RegNo) | Cpi(d: RegNo, k: byte)
    | Dec(d: RegNo) | Eor(d: RegNo, r: RegNo) | Inc(d: RegNo)
    | Load(d: RegNo, p: PairNo, mode: Mode) | Ldi(d: RegNo, k: byte) | Lds(d: RegNo, a: word)
    | Lsr(d: RegNo) | Mov(d: RegNo, r: RegNo) | Movw(dp: PairNo, rp: PairNo)
    | Mul(d: RegNo, r: RegNo) | Muls(d: RegNo, r: RegNo) | Neg(d: RegNo) | Nop
    | Or(d: RegNo, r: RegNo) | Ori(d: RegNo, k: byte) | Pop(d: RegNo) | Push(d: RegNo)
    | Ror(d: RegNo) | Sbc(d: RegNo, r: RegNo) | Sbci(d: RegNo, k: byte) | Sbiw(p: PairNo, k: byte)
    | Store(p: PairNo, mode: Mode, d: RegNo) | Sts(a: word, d: RegNo)
    | Sub(d: RegNo, r: RegNo) | Subi(d: RegNo, k: byte) | Swap(d: RegNo)

  /** What a skip instruction tests. */
  datatype Test = Equal(d: RegNo, r: RegNo) | BitIs(d: RegNo, b: Bit, on: bool)

  /** A decoded instruction. */
  datatype Instr =
    | Compute(op: Op)
    | Branch(on: bool, b: Bit, k: byte)
    | Skip(test: Test)
    | Call(a: word) | Jump(a: word) | CallInd | JumpInd | Return
    | Break
    | BadMove

  datatype Option<+T> = None | Some(value: T)

  // ----- selecting a handler -----

  datatype Handler =
    | HAdc | HAdd | HBreak | HAdiw | HAnd | HAndi | HAsr | HBclr | HBld | HBranchClr | HBranchSet
    | HBset | HBst | HCbr | HCall | HCom | HCp | HCpc | HCpi | HCpse | HDec | HEor | HIcall | HIjmp
    | HInc | HJmp | HLddX | HLddY | HLdi | HLds | HLsr | HMov | HMovw | HMul | HMuls | HNeg | HNop
    | HOr | HOri | HPop | HPush | HRet | HRor | HSbc | HSbci | HSbiw | HSbrc | HSbrs | HStdX | HStdY
    | HSts | HSub | HSubi | HSwap

  /**
   The chain of tests of `execute`, in its order, without the three that can never succeed:
   Machine.RunState.Choose has all of them.
   */
  function Select(op: bv16): Option<Handler> {
    if op & 0xff00 == 0x1c00 then Some(HAdc)
    else if op & 0xff00 == 0x0c00 then Some(HAdd)
    else if op == 0x9598 then Some(HBreak)
    else if op & 0xff00 == 0x9600 then Some(HAdiw)
    else if op & 0xff00 == 0x2000 then Some(HAnd)
    else if op & 0xf000 == 0x7000 then Some(HAndi)
    else if op & 0xff0f == 0x9405 then Some(HAsr)
    else if op & 0xff8f == 0x9488 then Some(HBclr)
    else if op & 0xff08 == 0xf800 then Some(HBld)
    else if op & 0xfc00 == 0xf400 then Some(HBranchClr)
    else if op & 0xfc00 == 0xf000 then Some(HBranchSet)
    else if op & 0xff8f == 0x9408 then Some(HBset)
    else if op & 0xff08 == 0xfa00 then Some(HBst)
    else if op & 0xf000 == 0xc000 then Some(HCbr)
    else if op == 0x940e then Some(HCall)
    else if op & 0xff0f == 0x9400 then Some(HCom)
    else if op & 0xff00 == 0x1400 then Some(HCp)
    else if op & 0xff00 == 0x0400 then Some(HCpc)
    else if op & 0xf000 == 0x3000 then Some(HCpi)
    else if op & 0xff00 == 0x1000 then Some(HCpse)
    else if op & 0xff0f == 0x940a then Some(HDec)
    else if op & 0xff00 == 0x2400 then Some(HEor)
    else if op == 0x9509 then Some(HIcall)
    else if op == 0x9409 then Some(HIjmp)
    else if op & 0xff0f == 0x9403 then Some(HInc)
    else if op == 0x940c then Some(HJmp)
    else if op & 0xff0c == 0x900c then Some(HLddX)
    else if op & 0xff0c == 0x9008 then Some(HLddY)
    else if op & 0xf000 == 0xe000 then Some(HLdi)
    else if op & 0xff0f == 0x9000 then Some(HLds)
    else if op & 0xff0f == 0x9406 then Some(HLsr)
    else if op & 0xff00 == 0x2c00 then Some(HMov)
    else if op & 0xff00 == 0x0100 then Some(HMovw)
    else if op & 0xff00 == 0x9c00 then Some(HMul)
    else if op & 0xff00 == 0x0200 then Some(HMuls)
    else if op & 0xff0f == 0x9401 then Some(HNeg)
    else if op == 0x0000 then Some(HNop)
    else if op & 0xff00 == 0x2800 then Some(HOr)
    else if op & 0xf000 == 0x6000 then Some(HOri)
    else if op & 0xff0f == 0x9203 then Some(HPop)
    else if op & 0xff0f == 0x920f then Some(HPush)
    else if op == 0x9508 then Some(HRet)
    else if op & 0xff0f == 0x9407 then Some(HRor)
    else if op & 0xff00 == 0x0800 then Some(HSbc)
    else if op & 0xf000 == 0x4000 then Some(HSbci)
    else if op & 0xff00 == 0x9700 then Some(HSbiw)
    else if op & 0xff08 == 0xfc00 then Some(HSbrc)
    else if op & 0xff08 == 0xfe00 then Some(HSbrs)
    else if op & 0xff0c == 0x920c then Some(HStdX)
    else if op & 0xff0c == 0x9208 then Some(HStdY)
    else if op & 0xff0f == 0x9200 then Some(HSts)
    else if op & 0xff00 == 0x1800 then Some(HSub)
    else if op & 0xf000 == 0x5000 then Some(HSubi)
    else if op & 0xff0f == 0x9402 then Some(HSwap)
    else None
  }

  /** The handlers that read a second word. */
  predicate Wide(h: Handler) { h.HCall? || h.HJmp? || h.HLds? || h.HSts? }

  // ----- extracting the fields -----

  function RegR(op: bv16): RegNo { (op & 0x000f) as int }

  function RegD(op: bv16): RegNo { ((op & 0x00f0) >> 4) as int }

  function ImmK(op: bv16): byte { ((op & 0x000f) | ((op & 0x0f00) >> 4)) as int }

  function PairOf(op: bv16): PairNo { (0x08 | ((op >> 3) & 0x06)) as int }

  function WordK(op: bv16): byte { ((op & 0x000f) | ((op & 0x00c0) >> 2)) as int }

  function LowBits(op: bv16): Bit { (op & 0x0007) as int }

  function MidBits(op: bv16): Bit { ((op & 0x0070) >> 4) as int }

  function Disp(op: bv16): byte { ((op & 0x03f8) >> 3) as int }

  function ModeOf(op: bv16): Mode {
    var m := op & 0x0003;
    if m == 0 then Plain else if m == 1 then PostInc else if m == 2 then PreDec else Ignored
  }

  /** cbr complements the immediate and continues as andi. */
  function CbrOp(op: bv16): bv16 { (op & 0xf0f0) | (!op & 0x0f0f) }

  function Fields(h: Handler, op: bv16, op2: word): Instr {
    match h
    case HAdc => Compute(Adc(RegD(op), RegR(op)))
    case HAdd => Compute(Add(RegD(op), RegR(op)))
    case HBreak => Break
    case HAdiw => Compute(Adiw(PairOf(op), WordK(op)))
    case HAnd => Compute(And(RegD(op), RegR(op)))
    case HAndi => Compute(Andi(RegD(op), ImmK(op)))
    case HAsr => Compute(Asr(RegD(op)))
    case HBclr => Compute(Bclr(MidBits(op)))
    case HBld => Compute(Bld(RegD(op), LowBits(op)))
    case HBranchClr => Branch(false, LowBits(op), Disp(op))
    case HBranchSet => Branch(true, LowBits(op), Disp(op))
    case HBset => Compute(Bset(MidBits(op)))
    case HBst => Compute(Bst(RegD(op), LowBits(op)))
    case HCbr => Compute(Andi(RegD(CbrOp(op)), ImmK(CbrOp(op))))
    case HCall => Call(op2)
    case HCom => Compute(Com(RegD(op)))
    case HCp => Compute(Cp(RegD(op), RegR(op)))
    case HCpc => Compute(Cpc(RegD(op), RegR(op)))
    case HCpi => Compute(Cpi(RegD(op), ImmK(op)))
    case HCpse => Skip(Equal(RegD(op), RegR(op)))
    case HDec => Compute(Dec(RegD(op)))
    case HEor => Compute(Eor(RegD(op), RegR(op)))
    case HIcall => CallInd
    case HIjmp => JumpInd
    case HInc => Compute(Inc(RegD(op)))
    case HJmp => Jump(op2)
    case HLddX => Compute(Load(RegD(op), 12, ModeOf(op)))
    case HLddY => Compute(Load(RegD(op), 14, ModeOf(op)))
    case HLdi => Compute(Ldi(RegD(op), ImmK(op)))
    case HLds => Compute(Lds(RegD(op), op2))
    case HLsr => Compute(Lsr(RegD(op)))
    case HMov => Compute(Mov(RegD(op), RegR(op)))
    case HMovw => if RegR(op) > 14 || RegD(op) > 14 then BadMove else Compute(Movw(RegD(op), RegR(op)))
    case HMul => Compute(Mul(RegD(op), RegR(op)))
    case HMuls => Compute(Muls(RegD(op), RegR(op)))
    case HNeg => Compute(Neg(RegD(op)))
    case HNop => Compute(Nop)
    case HOr => Compute(Or(RegD(op), RegR(op)))
    case HOri => Compute(Ori(RegD(op), ImmK(op)))
    case HPop => Compute(Pop(RegD(op)))
    case HPush => Compute(Push(RegD(op)))
    case HRet => Return
    case HRor => Compute(Ror(RegD(op)))
    case HSbc => Compute(Sbc(RegD(op), RegR(op)))
    case HSbci => Compute(Sbci(RegD(op), ImmK(op)))
    case HSbiw => Compute(Sbiw(PairOf(op), WordK(op)))
    case HSbrc => Skip(BitIs(RegD(op), LowBits(op), false))
    case HSbrs => Skip(BitIs(RegD(op), LowBits(op), true))
    case HStdX => Compute(Store(12, ModeOf(op), RegD(op)))
    case HStdY => Compute(Store(14, ModeOf(op), RegD(op)))
    case HSts => Compute(Sts(op2, RegD(op)))
    case HSub => Compute(Sub(RegD(op), RegR(op)))
    case HSubi => Compute(Subi(RegD(op), ImmK(op)))
    case HSwap => Compute(Swap(RegD(op)))
  }

  // ----- the status register -----

  /** Both operands have one sign and the result has the other. */
  predicate SignFlips(a: byte, b: byte, r: byte) {
    (a >= 0x80 && b >= 0x80 && r < 0x80) || (a < 0x80 && b < 0x80 && r >= 0x80)
  }

  /** The operands have different signs and the result does not have the first one's. */
  predicate BorrowFlips(a: byte, b: byte, r: byte) {
    (a >= 0x80 && b < 0x80 && r < 0x80) || (a < 0x80 && b >= 0x80 && r >= 0x80)
  }

  /** check_zsnf: Z and N of a result, and S from N and the present V. */
  function ResultFlags(f: bv8, r: byte): bv8 {
    Put(Put(Put(f, ZERO, r == 0), NEGATIVE, r >= 0x80), SIGN, (r >= 0x80) != Flag(f, OVERFLOW))
  }

  /** check_cv: C from bit 8 of the result, V by the rule for additions. */
  function CarryFlags(f: bv8, result: word, a: byte, b: byte): bv8 {
    Put(Put(f, CARRY, Bit8(result) == 1), OVERFLOW, SignFlips(a, b, Trunc8(result)))
  }

  /** Additions and comparisons: check_cv and then check_zsnf. */
  function SumFlags(f: bv8, result: word, a: byte, b: byte): bv8 {
    ResultFlags(CarryFlags(f, result, a, b), Trunc8(result))
  }

  /** check_subf: Z is never set, and C counts the incoming C whatever the instruction. */
  function DiffFlags(f: bv8, result: word, a: byte, b: byte): bv8 {
    var r := Trunc8(result);
    var v := BorrowFlips(a, b, r);
    var f1 := Put(f, OVERFLOW, v);
    var f2 := Put(f1, ZERO, Flag(f, ZERO) && result == 0);
    var f3 := Put(f2, NEGATIVE, r >= 0x80);
    var f4 := Put(f3, SIGN, (r >= 0x80) != v);
    Put(f4, CARRY, b + CarryIn(f) > a)
  }

  /** V is cleared before the result is examined. */
  function LogicFlags(f: bv8, r: byte): bv8 { ResultFlags(Put(f, OVERFLOW, false), r) }

  /** The shifts: C is the bit shifted out; N xor C is ORed into V after S was computed. */
  function ShiftFlags(f: bv8, out: bool, r: byte): bv8 {
    var f1 := ResultFlags(Put(f, CARRY, out), r);
    Put(f1, OVERFLOW, Flag(f1, OVERFLOW) || (r >= 0x80) != out)
  }

  function CarryIn(f: bv8): Carry { if Flag(f, CARRY) then 1 else 0 }

  function ProductFlags(f: bv8, w: word): bv8 {
    Put(Put(f, CARRY, w >= 0x8000), ZERO, w == 0)
  }

  // ----- pointers and the stack -----

  function At(reg: Regs, d: RegNo): byte { reg[d] }

  function PairAt(reg: Regs, p: PairNo): word {
    Join(reg[p], reg[p + 1])
  }

  function IncPair(reg: Regs, p: PairNo): Regs {
    var lo := Trunc8(At(reg, p) + 1);
    if lo == 0 then reg[p := lo][p + 1 := Trunc8(At(reg, p + 1) + 1)] else reg[p := lo]
  }

  /** dec_reg: the borrow is taken when the decremented byte is 0, not when it wraps. */
  function DecPair(reg: Regs, p: PairNo): Regs {
    var lo := Trunc8(At(reg, p) - 1);
    if lo == 0 then reg[p := lo][p + 1 := Trunc8(At(reg, p + 1) - 1)] else reg[p := lo]
  }

  function PushByte(c: Core, x: byte): Core {
    c.(mem := c.mem[c.sp := x], sp := Trunc16(c.sp - 1))
  }

  /** The stack pointer does not move past 0xffff. */
  function PopTop(sp: word): word { if sp == 0xffff then 0xffff else sp + 1 }

  function PushWord(c: Core, w: word): Core { PushByte(PushByte(c, Trunc8(w)), High(w)) }

  // ----- the effect of an instruction that computes -----

  function Put8(c: Core, d: RegNo, x: byte): Core { c.(reg := c.reg[d := x]) }

  function Result(c: Core, d: RegNo, x: byte, f: bv8): Core { c.(reg := c.reg[d := x], sreg := f) }

  function SumInto(c: Core, d: RegNo, a: byte, b: byte, cin: Carry): Core {
    var w := Trunc16(a + b + cin);
    Result(c, d, Trunc8(w), SumFlags(c.sreg, w, a, b))
  }

  function DiffInto(c: Core, d: RegNo, a: byte, b: byte, cin: Carry): Core {
    var w := Trunc16(a - b - cin);
    Result(c, d, Trunc8(w), DiffFlags(c.sreg, w, a, b))
  }

  function Compare(c: Core, a: byte, b: byte, cin: Carry): Core {
    var w := Trunc16(a - b - cin);
    c.(sreg := SumFlags(c.sreg, w, a, b))
  }

  function LogicInto(c: Core, d: RegNo, x: byte): Core { Result(c, d, x, LogicFlags(c.sreg, x)) }

  function ShiftInto(c: Core, d: RegNo, a: byte, top: byte): Core
    requires top == 0 || top == 0x80
  {
    var x := a / 2 + top;
    Result(c, d, x, ShiftFlags(c.sreg, a % 2 == 1, x))
  }

  /** Increment and decrement: V says that the byte went through the given value. */
  function StepInto(c: Core, d: RegNo, x: byte, v: bool): Core {
    Result(c, d, x, ResultFlags(Put(c.sreg, OVERFLOW, v), x))
  }

  function AddWord(c: Core, p: PairNo, lo: byte, hi: byte, k: byte): Core {
    var w := Trunc16(lo + k);
    var cin := Bit8(w);
    var h := Trunc16(hi + cin);
    var f := SumFlags(c.sreg, h, hi, cin);
    c.(reg := c.reg[p := Trunc8(w)][p + 1 := Trunc8(h)],
       sreg := Put(f, ZERO, Flag(f, ZERO) && Trunc8(w) == 0))
  }

  function SubWord(c: Core, p: PairNo, lo: byte, hi: byte, k: byte): Core {
    var w := Trunc16(lo - k);
    var cin := Bit8(w);
    var h := Trunc16(hi - cin);
    var f := DiffFlags(c.sreg, h, hi, cin);
    c.(reg := c.reg[p := Trunc8(w)][p + 1 := Trunc8(h)],
       sreg := Put(f, ZERO, Flag(f, ZERO) && Trunc8(w) == 0))
  }

  /** Both products go to r1:r0. */
  function Product(c: Core, x: int): Core {
    var w := Trunc16(x);
    c.(reg := c.reg[0 := Trunc8(w)][1 := High(w)], sreg := ProductFlags(c.sreg, w))
  }

  function Negated(c: Core, d: RegNo, a: byte): Core {
    var x := if a == 0x80 then a else Trunc8(0x100 - a);
    Result(c, d, x, ResultFlags(Put(Put(c.sreg, OVERFLOW, x == 0x80), CARRY, x != 0), x))
  }

  function LoadFrom(c: Core, d: RegNo, p: PairNo, mode: Mode): Core {
    var index := PairAt(c.reg, p);
    match mode
    case Plain => Put8(c, d, c.mem[index])
    case PostInc =>
      var c1 := Put8(c, d, c.mem[index]);
      c1.(reg := IncPair(c1.reg, p))
    case PreDec => Put8(c.(reg := DecPair(c.reg, p)), d, c.mem[Trunc16(index - 1)])
    case Ignored => c
  }

  function StoreTo(c: Core, p: PairNo, mode: Mode, d: RegNo): Core {
    var index := PairAt(c.reg, p);
    match mode
    case Plain => c.(mem := c.mem[index := c.reg[d]])
    case PostInc => c.(mem := c.mem[index := c.reg[d]], reg := IncPair(c.reg, p))
    case PreDec =>
      var reg := DecPair(c.reg, p);
      c.(mem := c.mem[Trunc16(index - 1) := reg[d]], reg := reg)
    case Ignored => c
  }

  /** The low nibble is moved up and ORed with the high one, which is not moved down. */
  function SwapByte(x: byte): byte { (((x as bv8) << 4) | ((x as bv8) & 0xf0)) as int }

  function Effect(o: Op, c: Core): Core {
    var reg, f := c.reg, c.sreg;
    match o
    case Adc(d, r) => SumInto(c, d, reg[d], reg[r], CarryIn(f))
    case Add(d, r) => SumInto(c, d, reg[d], reg[r], 0)
    case Adiw(p, k) => AddWord(c, p, reg[p], reg[p + 1], k)
    case And(d, r) => LogicInto(c, d, BitAnd(reg[d], reg[r]))
    case Andi(d, k) => LogicInto(c, d, BitAnd(reg[d], k))
    case Asr(d) => ShiftInto(c, d, reg[d], if reg[d] >= 0x80 then 0x80 else 0)
    case Bclr(b) => c.(sreg := Put(f, b, false))
    case Bld(d, b) => Put8(c, d, PutBit(reg[d], b, Flag(f, TRANSFER)))
    case Bset(b) => c.(sreg := Put(f, b, true))
    case Bst(d, b) => c.(sreg := Put(f, TRANSFER, TestBit(reg[d], b)))
    case Com(d) => Result(c, d, 0xff - At(reg, d), LogicFlags(Put(f, CARRY, true), 0xff - At(reg, d)))
    case Cp(d, r) => Compare(c, reg[d], reg[r], 0)
    case Cpc(d, r) => Compare(c, reg[d], reg[r], CarryIn(f))
    case Cpi(d, k) => Compare(c, reg[d], k, 0)
    case Dec(d) => StepInto(c, d, Trunc8(At(reg, d) - 1), reg[d] == 0x80)
    case Eor(d, r) => LogicInto(c, d, BitXor(reg[d], reg[r]))
    case Inc(d) => StepInto(c, d, Trunc8(At(reg, d) + 1), reg[d] == 0x7f)
    case Load(d, p, mode) => LoadFrom(c, d, p, mode)
    case Ldi(d, k) => Put8(c, d, k)
    case Lds(d, a) => Put8(c, d, c.mem[a])
    case Lsr(d) => ShiftInto(c, d, reg[d], 0)
    case Mov(d, r) => Put8(c, d, reg[r])
    case Movw(d, r) => Put8(Put8(c, d, reg[r]), d + 1, reg[d := reg[r]][r + 1])
    case Mul(d, r) => Product(c, At(reg, d) * At(reg, r))
    case Muls(d, r) => Product(c, Signed(reg[d]) * Signed(reg[r]))
    case Neg(d) => Negated(c, d, reg[d])
    case Nop => c
    case Or(d, r) => LogicInto(c, d, BitOr(reg[d], reg[r]))
    case Ori(d, k) => LogicInto(c, d, BitOr(reg[d], k))
    case Pop(d) => Put8(c.(sp := PopTop(c.sp)), d, c.mem[PopTop(c.sp)])
    case Push(d) => PushByte(c, reg[d])
    case Ror(d) => ShiftInto(c, d, reg[d], if Flag(f, CARRY) then 0x80 else 0)
    case Sbc(d, r) => DiffInto(c, d, reg[d], reg[r], CarryIn(f))
    case Sbci(d, k) => DiffInto(c, d, reg[d], k, CarryIn(f))
    case Sbiw(p, k) => SubWord(c, p, reg[p], reg[p + 1], k)
    case Store(p, mode, d) => StoreTo(c, p, mode, d)
    case Sts(a, d) => c.(mem := c.mem[a := reg[d]])
    case Sub(d, r) => DiffInto(c, d, reg[d], reg[r], 0)
    case Subi(d, k) => DiffInto(c, d, reg[d], k, 0)
    case Swap(d) => Put8(c, d, SwapByte(reg[d]))
  }

  /** A handler that falls through, from the given instruction pointer on. */
  function Ran(s: Cpu, o: Op, size: word): Cpu { Cpu(Trunc16(s.ip + size), Effect(o, s.core)) }

  /** The flags left by the test of a skip. */
  function TestEffect(t: Test, c: Core): Core {
    match t
    case Equal(d, r) => Compare(c, c.reg[d], c.reg[r], 0)
    case BitIs(_, _, _) => c
  }

  predicate Skips(t: Test, c: Core) {
    match t
    case Equal(d, r) => Flag(TestEffect(t, c).sreg, ZERO)
    case BitIs(d, b, on) => TestBit(c.reg[d], b) == on
  }

  // ----- the fetch and execute loop -----

  datatype Outcome =
    | Running(s: Cpu)
    | Halted(s: Cpu)        // a handler returned 1
    | Quit(s: Cpu)          // the user broke off
    | Unrecognized(s: Cpu)  // no mask matched
    | Wild                  // a read outside the 64K memory

  function WordAt(m: Mem, a: word): Option<bv16> {
    if a == 0xffff then None
    else Some(((m[a] as bv8) as bv16) | (((m[a + 1] as bv8) as bv16) << 8))
  }

  /** Are the two bytes there the first half of a four-byte instruction? */
  predicate Is32(op: bv16) {
    op == 0x940e || op == 0x940c || op & 0xff0f == 0x9200 || op & 0xff0f == 0x9000
  }

  datatype Fetched = Got(i: Instr, size: word) | NoHandler | OffEnd

  function Fetch(m: Mem, ip: word): Fetched {
    match WordAt(m, ip)
    case None => OffEnd
    case Some(op) =>
      match Select(op)
      case None => NoHandler
      case Some(h) =>
        if !Wide(h) then Got(Fields(h, op, 0), 2)
        else if ip + 3 > 0xffff then OffEnd
        else Got(Fields(h, op, Join(m[ip + 2], m[ip + 3])), 4)
  }

  /** The displacement is counted in bytes from the branch itself, in two's complement on 7 bits. */
  function BranchTo(ip: word, k: byte): word {
    if k % 0x80 >= 0x40 then Trunc16(ip + k % 0x80 - 0x80) else Trunc16(ip + k % 0x80)
  }

  /** After the test, over the next instruction if it asks so; None is a read outside the memory. */
  function Skipped(s: Cpu, t: Test): Option<Cpu> {
    var c, next := TestEffect(t, s.core), Trunc16(s.ip + 2);
    if !Skips(t, s.core) then Some(Cpu(next, c))
    else
      match WordAt(c.mem, next)
      case None => None
      case Some(op) => Some(Cpu(Trunc16(next + if Is32(op) then 4 else 2), c))
  }

  function Called(s: Cpu, size: word, a: word): Cpu { Cpu(a, PushWord(s.core, Trunc16(s.ip + size))) }

  function Returned(s: Cpu): Cpu {
    var p := PopTop(s.core.sp);
    var q := PopTop(p);
    Cpu(Join(s.core.mem[q], s.core.mem[p]), s.core.(sp := q))
  }

  function Branched(s: Cpu, on: bool, b: Bit, k: byte): Cpu {
    s.(ip := if Flag(s.core.sreg, b) == on then BranchTo(s.ip, k) else Trunc16(s.ip + 2))
  }

  function Perform(s: Cpu, i: Instr, size: word): Outcome {
    match i
    case Compute(o) => Running(Ran(s, o, size))
    case Branch(on, b, k) => Running(Branched(s, on, b, k))
    case Skip(t) => (match Skipped(s, t) case None => Wild case Some(s1) => Running(s1))
    case Call(a) => Running(Called(s, size, a))
    case Jump(a) => Running(s.(ip := a))
    case CallInd => Running(Called(s, size, PairAt(s.core.reg, 14)))
    case JumpInd => Running(s.(ip := PairAt(s.core.reg, 14)))
    case Return => Running(Returned(s))
    case Break => Halted(s.(ip := Trunc16(s.ip + size)))
    case BadMove => Halted(s)
  }

  function Step(s: Cpu): Outcome {
    match Fetch(s.core.mem, s.ip)
    case OffEnd => Wild
    case NoHandler => Unrecognized(s)
    case Got(i, size) => Perform(s, i, size)
  }

  /** What the outside world does after an instruction: store a key, random bytes and an input port. */
  datatype Event = Tick(key: Option<byte>, random: word, port: Option<byte>) | Stop

  const KEY: word := 0xe000
  const RANDOM: word := 0xe004
  const PORT: word := 0xe102

  function StoreEvent(m: Mem, e: Event): Mem
    requires e.Tick?
  {
    var m1 := if e.key.Some? then m[KEY := e.key.value] else m;
    var m2 := m1[RANDOM := Trunc8(e.random)][RANDOM + 1 := High(e.random)];
    if e.port.Some? then m2[PORT := e.port.value] else m2
  }

  /** One turn of the loop. */
  function Cycle(s: Cpu, e: Event): Outcome {
    match Step(s)
    case Running(s1) =>
      if e.Stop? then Quit(s1) else Running(s1.(core := s1.core.(mem := StoreEvent(s1.core.mem, e))))
    case other => other
  }

  /** As many turns as there are events, or fewer if the loop is left. */
  function Run(s: Cpu, events: seq<Event>): Outcome
    decreases |events|
  {
    if events == [] then Running(s)
    else
      hide Cycle;
      var t := Cycle(s, events[0]);
      if t.Running? then Run(t.s, events[1..]) else t
  }
}
