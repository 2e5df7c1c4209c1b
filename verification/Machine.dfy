/**
 The emulator as it runs: the registers and the memory are updated in place by one method per
 handler, and the loop fetches, dispatches and lets the outside world store its inputs.
 */
module Machine {
  import opened Words
  import opened Isa

  /** check_subf up to its last test, which still sees the incoming C. */
  lemma DiffFlagsBeforeCarry(f: bv8, result: word, a: byte, b: byte)
    ensures var r := Trunc8(result);
            var v := BorrowFlips(a, b, r);
            var f1 := Put(f, OVERFLOW, v);
            var f2 := if result != 0 then Put(f1, ZERO, false) else f1;
            var f3 := Put(Put(f2, NEGATIVE, r >= 0x80), SIGN, (r >= 0x80) != Flag(f2, OVERFLOW));
            CarryIn(f3) == CarryIn(f) && DiffFlags(f, result, a, b) == Put(f3, CARRY, b + CarryIn(f) > a)
  {
  }

  /** V |= N ^ C, after C and the flags of the shifted byte are in place. */
  lemma OrShiftOverflow(f: bv8, out: bool, x: byte)
    requires Flag(f, CARRY) == out && Flag(f, NEGATIVE) == (x >= 0x80)
    ensures f | (((f ^ (f << 2)) & 4) << 1) == Put(f, OVERFLOW, Flag(f, OVERFLOW) || (x >= 0x80) != out)
  {
  }

  /** The field of a branch as a number of bytes: forwards, or backwards in two's complement. */
  lemma BackwardBits(op: bv16)
    ensures Disp(op) < 0x80
    ensures var k := Disp(op) as bv8;
            k as int == Disp(op) && (k & 0x40 != 0) == (Disp(op) >= 0x40)
            && (k & 0x40 != 0 ==> (!(k | 0xc0)) as int == 0x7f - Disp(op))
  {
    ByteRoundTrip(Disp(op));
    BackwardByte(Disp(op) as bv8);
  }

  lemma BackwardByte(k: bv8)
    ensures (k & 0x40 != 0) == (k as int % 0x80 >= 0x40)
    ensures k < 0x80 && k & 0x40 != 0 ==> (!(k | 0xc0)) as int == 0x7f - k as int
  {
  }

  /** What a handler returns and leaves behind, as an outcome: 1 stops the loop. */
  predicate Reports(o: Outcome, err: Option<int>, s: Cpu) {
    match o
    case Running(s1) => err == Some(0) && s == s1
    case Halted(s1) => err == Some(1) && s == s1
    case Wild => err == None
    case _ => false
  }

  /** Why the loop was left, if it was. */
  datatype Status = Going | Stopped | Broken | Refused | Strayed

  predicate Ends(o: Outcome, status: Status, s: Cpu) {
    match o
    case Running(s1) => status == Going && s == s1
    case Halted(s1) => status == Stopped && s == s1
    case Quit(s1) => status == Broken && s == s1
    case Unrecognized(s1) => status == Refused && s == s1
    case Wild => status == Strayed
  }

  /** The handlers that add, compare or multiply. */
  predicate Summing(h: Handler) {
    h.HAdc? || h.HAdd? || h.HAdiw? || h.HCp? || h.HCpc? || h.HCpi? || h.HMul? || h.HMuls?
  }

  /** The handlers that subtract or count. */
  predicate Differing(h: Handler) {
    h.HDec? || h.HInc? || h.HNeg? || h.HSbc? || h.HSbci? || h.HSbiw? || h.HSub? || h.HSubi?
  }

  /** The handlers that combine bytes bit by bit. */
  predicate Logical(h: Handler) {
    h.HAnd? || h.HAndi? || h.HCbr? || h.HCom? || h.HEor? || h.HOr? || h.HOri? || h.HSwap?
  }

  /** The handlers that shift, or work on one bit. */
  predicate Shifting(h: Handler) {
    h.HAsr? || h.HBclr? || h.HBld? || h.HBset? || h.HBst? || h.HLsr? || h.HRor?
  }

  /** The handlers that put a byte into a register. */
  predicate Loading(h: Handler) { h.HLddX? || h.HLddY? || h.HLdi? || h.HLds? || h.HMov? || h.HPop? }

  /** The handlers that put a byte into memory. */
  predicate Storing(h: Handler) { h.HPush? || h.HStdX? || h.HStdY? || h.HSts? }

  /** Handlers of one word do not look at a second. */
  lemma NarrowHandler(h: Handler, op: bv16, op2: word)
    requires !Wide(h)
    ensures Fields(h, op, op2) == Fields(h, op, 0)
  {
    hide RegD, RegR, ImmK, PairOf, WordK, LowBits, MidBits, Disp, ModeOf, CbrOp;
  }

  class RunState {
    var ip: word
    var sp: word
    var sreg: bv8
    const reg: array<byte>
    const prog: array<byte>

    ghost predicate Valid() { reg.Length == 16 && prog.Length == 0x1_0000 && reg != prog }

    ghost function View(): Cpu
      requires Valid()
      reads this, reg, prog
    {
      Cpu(ip, Core(sp, reg[..], sreg, prog[..]))
    }

    /** All registers are zero; the loaded program is the memory. */
    constructor (memory: array<byte>)
      requires memory.Length == 0x1_0000
      ensures Valid() && fresh(reg) && prog == memory
      ensures View() == Cpu(0, Core(0, seq(16, _ => 0), 0, memory[..]))
    {
      ip, sp, sreg, prog := 0, 0, 0, memory;
      var r := new byte[16](_ => 0);
      reg := r;
      new;
      assert reg[..] == seq(16, _ => 0);
    }

    // ----- assignments, and the helpers of run_misc.c -----

    method SetReg(d: RegNo, x: byte)
      requires Valid()
      modifies reg
      ensures Valid() && View() == old(View()).(core := Put8(old(View()).core, d, x))
    {
      reg[d] := x;
    }

    method Poke(a: word, x: byte)
      requires Valid()
      modifies prog
      ensures Valid() && View() == old(View()).(core := old(View()).core.(mem := old(prog[..])[a := x]))
    {
      prog[a] := x;
    }

    /** sreg |= 1 << b, or sreg &= ~(1 << b) */
    method PutFlag(b: Bit, on: bool)
      modifies this`sreg
      ensures sreg == Put(old(sreg), b, on)
    {
      if on { sreg := sreg | Mask(b); } else { sreg := sreg & !Mask(b); }
    }

    /** The test of check_cv on bit 7 of the operands and the result. */
    method SumOverflow(a: byte, b: byte, r: byte) returns (v: bool)
      ensures v == SignFlips(a, b, r)
    {
      TopBit(a);
      TopBit(b);
      TopBit(r);
      var x, y, z := a as bv8, b as bv8, r as bv8;
      v := ((x & y & !z) | (!x & !y & z)) & 0x80 != 0;
    }

    /** The test of check_subf on bit 7 of the operands and the result. */
    method DiffOverflow(a: byte, b: byte, r: byte) returns (v: bool)
      ensures v == BorrowFlips(a, b, r)
    {
      TopBit(a);
      TopBit(b);
      TopBit(r);
      var x, y, z := a as bv8, b as bv8, r as bv8;
      v := ((x & !y & !z) | (!x & y & z)) & 0x80 != 0;
    }

    /** N of the byte, and S from N and V. */
    method PutNegativeAndSign(r: byte)
      modifies this`sreg
      ensures sreg == Put(Put(old(sreg), NEGATIVE, r >= 0x80), SIGN, (r >= 0x80) != Flag(old(sreg), OVERFLOW))
    {
      TopBit(r);
      PutFlag(NEGATIVE, (r as bv8) & 0x80 != 0);
      PutFlag(SIGN, ((sreg & Mask(NEGATIVE)) ^ ((sreg & Mask(OVERFLOW)) >> 1)) != 0);
    }

    method CheckZsnf(r: byte)
      modifies this`sreg
      ensures sreg == ResultFlags(old(sreg), r)
    {
      PutFlag(ZERO, r == 0);
      PutNegativeAndSign(r);
    }

    method CheckCv(result: word, a: byte, b: byte)
      modifies this`sreg
      ensures sreg == CarryFlags(old(sreg), result, a, b)
    {
      PutFlag(CARRY, Bit8(result) == 1);
      var v := SumOverflow(a, b, Trunc8(result));
      PutFlag(OVERFLOW, v);
    }

    method CheckSubf(result: word, a: byte, b: byte)
      modifies this`sreg
      ensures sreg == DiffFlags(old(sreg), result, a, b)
    {
      hide Put, Flag, Trunc8, BorrowFlips, CarryIn, DiffFlags;
      var v := DiffOverflow(a, b, Trunc8(result));
      PutFlag(OVERFLOW, v);
      if result != 0 { PutFlag(ZERO, false); }
      PutNegativeAndSign(Trunc8(result));
      DiffFlagsBeforeCarry(old(sreg), result, a, b);
      var c := CarryBit();
      PutFlag(CARRY, b + c > a);
    }

    /** sreg & C, as a number */
    method CarryBit() returns (c: Carry)
      ensures c == CarryIn(sreg)
    {
      c := (sreg & 1) as int;
    }

    method PushVal(x: byte)
      requires Valid()
      modifies this`sp, prog
      ensures Valid() && View() == old(View()).(core := PushByte(old(View()).core, x))
    {
      Poke(sp, x);
      sp := Trunc16(sp - 1);
      if sp == 0xf000 { sp := 0xf000; }
    }

    method PopVal() returns (x: byte)
      requires Valid()
      modifies this`sp
      ensures Valid() && sp == PopTop(old(sp)) && x == prog[sp]
    {
      sp := Trunc16(sp + 1);
      if sp == 0 { sp := 0xffff; }
      x := prog[sp];
    }

    method IncReg(rg: PairNo)
      requires Valid()
      modifies reg
      ensures Valid() && View() == old(View()).(core := old(View()).core.(reg := IncPair(old(reg[..]), rg)))
    {
      var x: byte := reg[rg];
      reg[rg] := Trunc8(x + 1);
      if reg[rg] == 0 {
        var y: byte := reg[rg + 1];
        reg[rg + 1] := Trunc8(y + 1);
      }
    }

    method DecReg(rg: PairNo)
      requires Valid()
      modifies reg
      ensures Valid() && View() == old(View()).(core := old(View()).core.(reg := DecPair(old(reg[..]), rg)))
    {
      var x: byte := reg[rg];
      reg[rg] := Trunc8(x - 1);
      if reg[rg] == 0 {
        var y: byte := reg[rg + 1];
        reg[rg + 1] := Trunc8(y - 1);
      }
    }

    /** Is the next instruction four bytes long? None stands for a read outside the memory. */
    method Check32() returns (wide: Option<bool>)
      requires Valid()
      ensures wide == match WordAt(prog[..], ip) case None => None case Some(op) => Some(Is32(op))
    {
      if ip == 0xffff { return None; }
      var op := FetchWord(ip);
      wide := Some(Is32(op));
    }

    /** prog[a] | prog[a + 1] << 8 */
    method FetchWord(a: word) returns (op: bv16)
      requires Valid() && a < 0xffff
      ensures WordAt(prog[..], a) == Some(op)
    {
      op := ((prog[a] as bv8) as bv16) | (((prog[a + 1] as bv8) as bv16) << 8);
    }

    // ----- handlers -----

    /** The bit that a right shift drops. */
    method ShiftedOut(a: byte) returns (out: bool)
      ensures out == (a % 2 == 1)
    {
      LowBit(a);
      out := (a as bv8) & 1 != 0;
    }

    /** The end of the shifts: C and the flags of the result, and then V |= N ^ C. */
    method CheckShift(out: bool, x: byte)
      modifies this`sreg
      ensures sreg == ShiftFlags(old(sreg), out, x)
    {
      PutFlag(CARRY, out);
      CheckZsnf(x);
      OrShiftOverflow(sreg, out, x);
      sreg := sreg | (((sreg ^ (sreg << 2)) & 4) << 1);
    }

    /** Z of a pair: the flag of the high byte is kept only if the low byte is zero. */
    method CheckLowByte(lo: byte)
      modifies this`sreg
      ensures sreg == Put(old(sreg), ZERO, Flag(old(sreg), ZERO) && lo == 0)
    {
      if lo != 0 && Flag(sreg, ZERO) { PutFlag(ZERO, false); }
    }

    /** The switch on the two low bits that lddx and lddy share. */
    method LoadIndirect(rg: RegNo, p: PairNo, mode: Mode)
      requires Valid()
      modifies reg
      ensures Valid() && View() == old(View()).(core := LoadFrom(old(View()).core, rg, p, mode))
    {
      hide IncPair, DecPair, Join, Trunc16;
      var index: word := PairAt(reg[..], p);
      match mode {
        case Plain => SetReg(rg, prog[index]);
        case PostInc =>
          SetReg(rg, prog[index]);
          IncReg(p);
        case PreDec =>
          DecReg(p);
          SetReg(rg, prog[Trunc16(index - 1)]);
        case Ignored =>
      }
    }

    /** The switch on the two low bits that stdx and stdy share. */
    method StoreIndirect(p: PairNo, mode: Mode, rg: RegNo)
      requires Valid()
      modifies reg, prog
      ensures Valid() && View() == old(View()).(core := StoreTo(old(View()).core, p, mode, rg))
    {
      hide IncPair, DecPair, Join, Trunc16;
      var index: word := PairAt(reg[..], p);
      match mode {
        case Plain => Poke(index, reg[rg]);
        case PostInc =>
          Poke(index, reg[rg]);
          IncReg(p);
        case PreDec =>
          DecReg(p);
          Poke(Trunc16(index - 1), reg[rg]);
        case Ignored =>
      }
    }

    /** C is bit 15 of a product, Z says that it is zero. */
    method PutProductFlags(w: word)
      modifies this`sreg
      ensures sreg == ProductFlags(old(sreg), w)
    {
      PutFlag(CARRY, High(w) >= 0x80);
      PutFlag(ZERO, Trunc8(w) == 0 && High(w) == 0);
    }

    method Adc(op: bv16) returns (err: int)
      requires Valid()
      modifies this, reg, prog
      ensures Valid() && err == 0
      ensures View() == Ran(old(View()), Isa.Op.Adc(RegD(op), RegR(op)), 2)
    {
      hide RegD, RegR, CarryFlags, ResultFlags;
      var c := CarryBit();
      var r, d := RegR(op), RegD(op);
      var a: byte, b: byte := reg[d], reg[r];
      var result := Trunc16(a + b + c);
      CheckCv(result, a, b);
      SetReg(d, Trunc8(result));
      CheckZsnf(Trunc8(result));
      ip := Trunc16(ip + 2);
      err := 0;
    }

    method Add(op: bv16) returns (err: int)
      requires Valid()
      modifies this, reg, prog
      ensures Valid() && err == 0
      ensures View() == Ran(old(View()), Isa.Op.Add(RegD(op), RegR(op)), 2)
    {
      hide RegD, RegR, CarryFlags, ResultFlags;
      var r, d := RegR(op), RegD(op);
      var a: byte, b: byte := reg[d], reg[r];
      var result := Trunc16(a + b);
      CheckCv(result, a, b);
      SetReg(d, Trunc8(result));
      CheckZsnf(Trunc8(result));
      ip := Trunc16(ip + 2);
      err := 0;
    }

    method Adiw(op: bv16) returns (err: int)
      requires Valid()
      modifies this, reg, prog
      ensures Valid() && err == 0
      ensures View() == Ran(old(View()), Isa.Op.Adiw(PairOf(op), WordK(op)), 2)
    {
      hide Bit8, PairOf, WordK, Trunc8, Trunc16, Put, CarryFlags, ResultFlags;
      var rg: int, val: byte := PairOf(op), WordK(op);
      var lo: byte, hi: byte := reg[rg], reg[rg + 1];
      var result := Trunc16(lo + val);
      var c := Bit8(result);
      var low := Trunc8(result);
      SetReg(rg, low);
      result := Trunc16(hi + c);
      CheckCv(result, hi, c);
      SetReg(rg + 1, Trunc8(result));
      CheckZsnf(Trunc8(result));
      CheckLowByte(low);
      ip := Trunc16(ip + 2);
      err := 0;
    }

    method And(op: bv16) returns (err: int)
      requires Valid()
      modifies this, reg, prog
      ensures Valid() && err == 0
      ensures View() == Ran(old(View()), Isa.Op.And(RegD(op), RegR(op)), 2)
    {
      hide RegD, RegR, Put, ResultFlags;
      var r, d := RegR(op), RegD(op);
      var a: byte, b: byte := reg[d], reg[r];
      var x := BitAnd(a, b);
      SetReg(d, x);
      PutFlag(OVERFLOW, false);
      CheckZsnf(x);
      ip := Trunc16(ip + 2);
      err := 0;
    }

    method Andi(op: bv16) returns (err: int)
      requires Valid()
      modifies this, reg, prog
      ensures Valid() && err == 0
      ensures View() == Ran(old(View()), Isa.Op.Andi(RegD(op), ImmK(op)), 2)
    {
      hide RegD, ImmK, Put, ResultFlags;
      var d, k := RegD(op), ImmK(op);
      var a: byte := reg[d];
      var x := BitAnd(a, k);
      SetReg(d, x);
      PutFlag(OVERFLOW, false);
      CheckZsnf(x);
      ip := Trunc16(ip + 2);
      err := 0;
    }

    method Asr(op: bv16) returns (err: int)
      requires Valid()
      modifies this, reg, prog
      ensures Valid() && err == 0
      ensures View() == Ran(old(View()), Isa.Op.Asr(RegD(op)), 2)
    {
      hide RegD, Put, ShiftFlags;
      var d := RegD(op);
      var a: byte := reg[d];
      var out := ShiftedOut(a);
      var x: byte := a / 2 + (if a >= 0x80 then 0x80 else 0);
      SetReg(d, x);
      CheckShift(out, x);
      ip := Trunc16(ip + 2);
      err := 0;
    }

    method Bclr(op: bv16) returns (err: int)
      requires Valid()
      modifies this, reg, prog
      ensures Valid() && err == 0
      ensures View() == Ran(old(View()), Isa.Op.Bclr(MidBits(op)), 2)
    {
      hide Put;
      PutFlag(MidBits(op), false);
      ip := Trunc16(ip + 2);
      err := 0;
    }

    method Bld(op: bv16) returns (err: int)
      requires Valid()
      modifies this, reg, prog
      ensures Valid() && err == 0
      ensures View() == Ran(old(View()), Isa.Op.Bld(RegD(op), LowBits(op)), 2)
    {
      hide RegD;
      var d := RegD(op);
      var a: byte := reg[d];
      SetReg(d, PutBit(a, LowBits(op), Flag(sreg, TRANSFER)));
      ip := Trunc16(ip + 2);
      err := 0;
    }

    method Bset(op: bv16) returns (err: int)
      requires Valid()
      modifies this, reg, prog
      ensures Valid() && err == 0
      ensures View() == Ran(old(View()), Isa.Op.Bset(MidBits(op)), 2)
    {
      hide Put;
      PutFlag(MidBits(op), true);
      ip := Trunc16(ip + 2);
      err := 0;
    }

    method Bst(op: bv16) returns (err: int)
      requires Valid()
      modifies this, reg, prog
      ensures Valid() && err == 0
      ensures View() == Ran(old(View()), Isa.Op.Bst(RegD(op), LowBits(op)), 2)
    {
      hide RegD, Put;
      var d := RegD(op);
      var a: byte := reg[d];
      PutFlag(TRANSFER, TestBit(a, LowBits(op)));
      ip := Trunc16(ip + 2);
      err := 0;
    }

    method Com(op: bv16) returns (err: int)
      requires Valid()
      modifies this, reg, prog
      ensures Valid() && err == 0
      ensures View() == Ran(old(View()), Isa.Op.Com(RegD(op)), 2)
    {
      hide RegD, Put, ResultFlags;
      var d := RegD(op);
      var a: byte := reg[d];
      var x: byte := 0xff - a;
      SetReg(d, x);
      PutFlag(CARRY, true);
      PutFlag(OVERFLOW, false);
      CheckZsnf(x);
      ip := Trunc16(ip + 2);
      err := 0;
    }

    method Cp(op: bv16) returns (err: int)
      requires Valid()
      modifies this, reg, prog
      ensures Valid() && err == 0
      ensures View() == Ran(old(View()), Isa.Op.Cp(RegD(op), RegR(op)), 2)
    {
      hide RegD, RegR, CarryFlags, ResultFlags;
      var r, d := RegR(op), RegD(op);
      var a: byte, b: byte := reg[d], reg[r];
      var result := Trunc16(a - b);
      CheckCv(result, a, b);
      CheckZsnf(Trunc8(result));
      ip := Trunc16(ip + 2);
      err := 0;
    }

    method Cpc(op: bv16) returns (err: int)
      requires Valid()
      modifies this, reg, prog
      ensures Valid() && err == 0
      ensures View() == Ran(old(View()), Isa.Op.Cpc(RegD(op), RegR(op)), 2)
    {
      hide RegD, RegR, CarryFlags, ResultFlags;
      var c := CarryBit();
      var r, d := RegR(op), RegD(op);
      var a: byte, b: byte := reg[d], reg[r];
      var result := Trunc16(a - b - c);
      CheckCv(result, a, b);
      CheckZsnf(Trunc8(result));
      ip := Trunc16(ip + 2);
      err := 0;
    }

    method Cpi(op: bv16) returns (err: int)
      requires Valid()
      modifies this, reg, prog
      ensures Valid() && err == 0
      ensures View() == Ran(old(View()), Isa.Op.Cpi(RegD(op), ImmK(op)), 2)
    {
      hide RegD, ImmK, CarryFlags, ResultFlags;
      var d, k := RegD(op), ImmK(op);
      var a: byte := reg[d];
      var result := Trunc16(a - k);
      CheckCv(result, a, k);
      CheckZsnf(Trunc8(result));
      ip := Trunc16(ip + 2);
      err := 0;
    }

    method Dec(op: bv16) returns (err: int)
      requires Valid()
      modifies this, reg, prog
      ensures Valid() && err == 0
      ensures View() == Ran(old(View()), Isa.Op.Dec(RegD(op)), 2)
    {
      hide RegD, Put, ResultFlags;
      var d := RegD(op);
      var a: byte := reg[d];
      PutFlag(OVERFLOW, a == 0x80);
      SetReg(d, Trunc8(a - 1));
      CheckZsnf(Trunc8(a - 1));
      ip := Trunc16(ip + 2);
      err := 0;
    }

    method Eor(op: bv16) returns (err: int)
      requires Valid()
      modifies this, reg, prog
      ensures Valid() && err == 0
      ensures View() == Ran(old(View()), Isa.Op.Eor(RegD(op), RegR(op)), 2)
    {
      hide RegD, RegR, Put, ResultFlags;
      var r, d := RegR(op), RegD(op);
      var a: byte, b: byte := reg[d], reg[r];
      var x := BitXor(a, b);
      SetReg(d, x);
      PutFlag(OVERFLOW, false);
      CheckZsnf(x);
      ip := Trunc16(ip + 2);
      err := 0;
    }

    method Inc(op: bv16) returns (err: int)
      requires Valid()
      modifies this, reg, prog
      ensures Valid() && err == 0
      ensures View() == Ran(old(View()), Isa.Op.Inc(RegD(op)), 2)
    {
      hide RegD, Put, ResultFlags;
      var d := RegD(op);
      var a: byte := reg[d];
      PutFlag(OVERFLOW, a == 0x7f);
      SetReg(d, Trunc8(a + 1));
      CheckZsnf(Trunc8(a + 1));
      ip := Trunc16(ip + 2);
      err := 0;
    }

    method Lddx(op: bv16) returns (err: int)
      requires Valid()
      modifies this, reg, prog
      ensures Valid() && err == 0
      ensures View() == Ran(old(View()), Isa.Op.Load(RegD(op), 12, ModeOf(op)), 2)
    {
      hide RegD;
      LoadIndirect(RegD(op), 12, ModeOf(op));
      ip := Trunc16(ip + 2);
      err := 0;
    }

    method Lddy(op: bv16) returns (err: int)
      requires Valid()
      modifies this, reg, prog
      ensures Valid() && err == 0
      ensures View() == Ran(old(View()), Isa.Op.Load(RegD(op), 14, ModeOf(op)), 2)
    {
      hide RegD;
      LoadIndirect(RegD(op), 14, ModeOf(op));
      ip := Trunc16(ip + 2);
      err := 0;
    }

    method Ldi(op: bv16) returns (err: int)
      requires Valid()
      modifies this, reg, prog
      ensures Valid() && err == 0
      ensures View() == Ran(old(View()), Isa.Op.Ldi(RegD(op), ImmK(op)), 2)
    {
      hide RegD, ImmK;
      SetReg(RegD(op), ImmK(op));
      ip := Trunc16(ip + 2);
      err := 0;
    }

    method Lds(op: bv16, op2: word) returns (err: int)
      requires Valid()
      modifies this, reg, prog
      ensures Valid() && err == 0
      ensures View() == Ran(old(View()), Isa.Op.Lds(RegD(op), op2), 4)
    {
      hide RegD;
      SetReg(RegD(op), prog[op2]);
      ip := Trunc16(ip + 4);
      err := 0;
    }

    method Lsr(op: bv16) returns (err: int)
      requires Valid()
      modifies this, reg, prog
      ensures Valid() && err == 0
      ensures View() == Ran(old(View()), Isa.Op.Lsr(RegD(op)), 2)
    {
      hide RegD, Put, ShiftFlags;
      var d := RegD(op);
      var a: byte := reg[d];
      var out := ShiftedOut(a);
      var x: byte := a / 2;
      SetReg(d, x);
      CheckShift(out, x);
      ip := Trunc16(ip + 2);
      err := 0;
    }

    method Mov(op: bv16) returns (err: int)
      requires Valid()
      modifies this, reg, prog
      ensures Valid() && err == 0
      ensures View() == Ran(old(View()), Isa.Op.Mov(RegD(op), RegR(op)), 2)
    {
      hide RegD, RegR;
      var r, d := RegR(op), RegD(op);
      var a: byte, b: byte := reg[d], reg[r];
      SetReg(d, b);
      ip := Trunc16(ip + 2);
      err := 0;
    }

    method Mul(op: bv16) returns (err: int)
      requires Valid()
      modifies this, reg, prog
      ensures Valid() && err == 0
      ensures View() == Ran(old(View()), Isa.Op.Mul(RegD(op), RegR(op)), 2)
    {
      hide RegD, RegR;
      var r, d := RegR(op), RegD(op);
      var a: byte, b: byte := reg[d], reg[r];
      var result := Trunc16(a * b);
      SetReg(0, Trunc8(result));
      SetReg(1, High(result));
      PutProductFlags(result);
      ip := Trunc16(ip + 2);
      err := 0;
    }

    method Muls(op: bv16) returns (err: int)
      requires Valid()
      modifies this, reg, prog
      ensures Valid() && err == 0
      ensures View() == Ran(old(View()), Isa.Op.Muls(RegD(op), RegR(op)), 2)
    {
      hide RegD, RegR;
      var r, d := RegR(op), RegD(op);
      var a: byte, b: byte := reg[d], reg[r];
      var result := Trunc16(Signed(a) * Signed(b));
      SetReg(0, Trunc8(result));
      SetReg(1, High(result));
      PutProductFlags(result);
      ip := Trunc16(ip + 2);
      err := 0;
    }

    method Neg(op: bv16) returns (err: int)
      requires Valid()
      modifies this, reg, prog
      ensures Valid() && err == 0
      ensures View() == Ran(old(View()), Isa.Op.Neg(RegD(op)), 2)
    {
      hide RegD, Put, ResultFlags;
      var d := RegD(op);
      var a: byte := reg[d];
      var x: byte := a;
      if a != 0x80 { x := Trunc8(0x100 - a); }
      SetReg(d, x);
      PutFlag(OVERFLOW, x == 0x80);
      PutFlag(CARRY, x != 0);
      CheckZsnf(x);
      ip := Trunc16(ip + 2);
      err := 0;
    }

    method Nop(op: bv16) returns (err: int)
      requires Valid()
      modifies this, reg, prog
      ensures Valid() && err == 0
      ensures View() == Ran(old(View()), Isa.Op.Nop, 2)
    {
      ip := Trunc16(ip + 2);
      err := 0;
    }

    method Or(op: bv16) returns (err: int)
      requires Valid()
      modifies this, reg, prog
      ensures Valid() && err == 0
      ensures View() == Ran(old(View()), Isa.Op.Or(RegD(op), RegR(op)), 2)
    {
      hide RegD, RegR, Put, ResultFlags;
      var r, d := RegR(op), RegD(op);
      var a: byte, b: byte := reg[d], reg[r];
      var x := BitOr(a, b);
      SetReg(d, x);
      PutFlag(OVERFLOW, false);
      CheckZsnf(x);
      ip := Trunc16(ip + 2);
      err := 0;
    }

    method Ori(op: bv16) returns (err: int)
      requires Valid()
      modifies this, reg, prog
      ensures Valid() && err == 0
      ensures View() == Ran(old(View()), Isa.Op.Ori(RegD(op), ImmK(op)), 2)
    {
      hide RegD, ImmK, Put, ResultFlags;
      var d, k := RegD(op), ImmK(op);
      var a: byte := reg[d];
      var x := BitOr(a, k);
      SetReg(d, x);
      PutFlag(OVERFLOW, false);
      CheckZsnf(x);
      ip := Trunc16(ip + 2);
      err := 0;
    }

    method Pop(op: bv16) returns (err: int)
      requires Valid()
      modifies this, reg, prog
      ensures Valid() && err == 0
      ensures View() == Ran(old(View()), Isa.Op.Pop(RegD(op)), 2)
    {
      hide RegD;
      var x := PopVal();
      SetReg(RegD(op), x);
      ip := Trunc16(ip + 2);
      err := 0;
    }

    method Push(op: bv16) returns (err: int)
      requires Valid()
      modifies this, reg, prog
      ensures Valid() && err == 0
      ensures View() == Ran(old(View()), Isa.Op.Push(RegD(op)), 2)
    {
      hide RegD;
      var d := RegD(op);
      var a: byte := reg[d];
      PushVal(a);
      ip := Trunc16(ip + 2);
      err := 0;
    }

    method Ror(op: bv16) returns (err: int)
      requires Valid()
      modifies this, reg, prog
      ensures Valid() && err == 0
      ensures View() == Ran(old(View()), Isa.Op.Ror(RegD(op)), 2)
    {
      hide RegD, Put, ShiftFlags;
      var d := RegD(op);
      var a: byte := reg[d];
      var out := ShiftedOut(a);
      var c := CarryBit();
      var x: byte := a / 2 + (if c == 1 then 0x80 else 0);
      SetReg(d, x);
      CheckShift(out, x);
      ip := Trunc16(ip + 2);
      err := 0;
    }

    method Sbc(op: bv16) returns (err: int)
      requires Valid()
      modifies this, reg, prog
      ensures Valid() && err == 0
      ensures View() == Ran(old(View()), Isa.Op.Sbc(RegD(op), RegR(op)), 2)
    {
      hide RegD, RegR, DiffFlags;
      var c := CarryBit();
      var r, d := RegR(op), RegD(op);
      var a: byte, b: byte := reg[d], reg[r];
      var result := Trunc16(a - b - c);
      CheckSubf(result, a, b);
      SetReg(d, Trunc8(result));
      ip := Trunc16(ip + 2);
      err := 0;
    }

    method Sbci(op: bv16) returns (err: int)
      requires Valid()
      modifies this, reg, prog
      ensures Valid() && err == 0
      ensures View() == Ran(old(View()), Isa.Op.Sbci(RegD(op), ImmK(op)), 2)
    {
      hide RegD, ImmK, DiffFlags;
      var c := CarryBit();
      var d, k := RegD(op), ImmK(op);
      var a: byte := reg[d];
      var result := Trunc16(a - k - c);
      CheckSubf(result, a, k);
      SetReg(d, Trunc8(result));
      ip := Trunc16(ip + 2);
      err := 0;
    }

    method Sbiw(op: bv16) returns (err: int)
      requires Valid()
      modifies this, reg, prog
      ensures Valid() && err == 0
      ensures View() == Ran(old(View()), Isa.Op.Sbiw(PairOf(op), WordK(op)), 2)
    {
      hide Bit8, PairOf, WordK, Trunc8, Trunc16, Put, DiffFlags;
      var rg: int, val: byte := PairOf(op), WordK(op);
      var lo: byte, hi: byte := reg[rg], reg[rg + 1];
      var result := Trunc16(lo - val);
      var c := Bit8(result);
      var low := Trunc8(result);
      SetReg(rg, low);
      result := Trunc16(hi - c);
      CheckSubf(result, hi, c);
      SetReg(rg + 1, Trunc8(result));
      CheckLowByte(low);
      ip := Trunc16(ip + 2);
      err := 0;
    }

    method Stdx(op: bv16) returns (err: int)
      requires Valid()
      modifies this, reg, prog
      ensures Valid() && err == 0
      ensures View() == Ran(old(View()), Isa.Op.Store(12, ModeOf(op), RegD(op)), 2)
    {
      hide RegD;
      StoreIndirect(12, ModeOf(op), RegD(op));
      ip := Trunc16(ip + 2);
      err := 0;
    }

    method Stdy(op: bv16) returns (err: int)
      requires Valid()
      modifies this, reg, prog
      ensures Valid() && err == 0
      ensures View() == Ran(old(View()), Isa.Op.Store(14, ModeOf(op), RegD(op)), 2)
    {
      hide RegD;
      StoreIndirect(14, ModeOf(op), RegD(op));
      ip := Trunc16(ip + 2);
      err := 0;
    }

    method Sts(op: bv16, op2: word) returns (err: int)
      requires Valid()
      modifies this, reg, prog
      ensures Valid() && err == 0
      ensures View() == Ran(old(View()), Isa.Op.Sts(op2, RegD(op)), 4)
    {
      hide RegD;
      Poke(op2, reg[RegD(op)]);
      ip := Trunc16(ip + 4);
      err := 0;
    }

    method Sub(op: bv16) returns (err: int)
      requires Valid()
      modifies this, reg, prog
      ensures Valid() && err == 0
      ensures View() == Ran(old(View()), Isa.Op.Sub(RegD(op), RegR(op)), 2)
    {
      hide RegD, RegR, DiffFlags;
      var r, d := RegR(op), RegD(op);
      var a: byte, b: byte := reg[d], reg[r];
      var result := Trunc16(a - b);
      CheckSubf(result, a, b);
      SetReg(d, Trunc8(result));
      ip := Trunc16(ip + 2);
      err := 0;
    }

    method Subi(op: bv16) returns (err: int)
      requires Valid()
      modifies this, reg, prog
      ensures Valid() && err == 0
      ensures View() == Ran(old(View()), Isa.Op.Subi(RegD(op), ImmK(op)), 2)
    {
      hide RegD, ImmK, DiffFlags;
      var d, k := RegD(op), ImmK(op);
      var a: byte := reg[d];
      var result := Trunc16(a - k);
      CheckSubf(result, a, k);
      SetReg(d, Trunc8(result));
      ip := Trunc16(ip + 2);
      err := 0;
    }

    method Swap(op: bv16) returns (err: int)
      requires Valid()
      modifies this, reg, prog
      ensures Valid() && err == 0
      ensures View() == Ran(old(View()), Isa.Op.Swap(RegD(op)), 2)
    {
      hide RegD;
      var d := RegD(op);
      var a: byte := reg[d];
      SetReg(d, SwapByte(a));
      ip := Trunc16(ip + 2);
      err := 0;
    }

    /** Complements the immediate and goes on as andi. */
    method Cbr(op: bv16) returns (err: int)
      requires Valid()
      modifies this, reg, prog
      ensures Valid() && err == 0
      ensures View() == Ran(old(View()), Isa.Op.Andi(RegD(CbrOp(op)), ImmK(CbrOp(op))), 2)
    {
      var k := !op & 0x0f0f;
      err := Andi((op & 0xf0f0) | k);
    }

    /** Refuses pairs that do not exist. */
    method Movw(op: bv16) returns (err: int)
      requires Valid()
      modifies this, reg, prog
      ensures Valid()
      ensures if RegR(op) > 14 || RegD(op) > 14 then err == 1 && View() == old(View())
              else err == 0 && View() == Ran(old(View()), Isa.Op.Movw(RegD(op), RegR(op)), 2)
    {
      hide RegD, RegR;
      var r: int, d: int := RegR(op), RegD(op);
      if r > 14 || d > 14 { return 1; }
      SetReg(d, reg[r]);
      SetReg(d + 1, reg[r + 1]);
      ip := Trunc16(ip + 2);
      err := 0;
    }

    method Branchs(op: bv16) returns (err: int)
      requires Valid()
      modifies this, reg, prog
      ensures Valid() && err == 0
      ensures View() == Branched(old(View()), true, LowBits(op), Disp(op))
    {
      hide Disp, Flag, LowBits;
      BackwardBits(op);
      var k := Disp(op) as bv8;
      if Flag(sreg, LowBits(op)) {
        if k & 0x40 != 0 {
          ip := Trunc16(ip - ((!(k | 0xc0)) as int + 1));
        } else {
          ip := Trunc16(ip + k as int);
        }
      } else {
        ip := Trunc16(ip + 2);
      }
      err := 0;
    }

    method Branchc(op: bv16) returns (err: int)
      requires Valid()
      modifies this, reg, prog
      ensures Valid() && err == 0
      ensures View() == Branched(old(View()), false, LowBits(op), Disp(op))
    {
      hide Disp, Flag, LowBits;
      BackwardBits(op);
      var k := Disp(op) as bv8;
      if !Flag(sreg, LowBits(op)) {
        if k & 0x40 != 0 {
          ip := Trunc16(ip - ((!(k | 0xc0)) as int + 1));
        } else {
          ip := Trunc16(ip + k as int);
        }
      } else {
        ip := Trunc16(ip + 2);
      }
      err := 0;
    }

    method Abrk(op: bv16) returns (err: int)
      requires Valid()
      modifies this, reg, prog
      ensures Valid() && err == 1
      ensures View() == old(View()).(ip := Trunc16(old(ip) + 2))
    {
      ip := Trunc16(ip + 2);
      err := 1;
    }

    method Call(op: bv16, op2: word) returns (err: int)
      requires Valid()
      modifies this, reg, prog
      ensures Valid() && err == 0
      ensures View() == Called(old(View()), 4, op2)
    {
      ip := Trunc16(ip + 4);
      PushVal(Trunc8(ip));
      PushVal(High(ip));
      ip := op2;
      err := 0;
    }

    /** The address of the call is r15:r14. */
    method Icall(op: bv16) returns (err: int)
      requires Valid()
      modifies this, reg, prog
      ensures Valid() && err == 0
      ensures View() == Called(old(View()), 2, PairAt(old(View()).core.reg, 14))
    {
      ip := Trunc16(ip + 2);
      PushVal(Trunc8(ip));
      PushVal(High(ip));
      ip := Join(reg[14], reg[15]);
      err := 0;
    }

    method Jmp(op: bv16, op2: word) returns (err: int)
      requires Valid()
      modifies this, reg, prog
      ensures Valid() && err == 0
      ensures View() == old(View()).(ip := op2)
    {
      ip := op2;
      err := 0;
    }

    method Ijmp(op: bv16) returns (err: int)
      requires Valid()
      modifies this, reg, prog
      ensures Valid() && err == 0
      ensures View() == old(View()).(ip := PairAt(old(View()).core.reg, 14))
    {
      ip := Join(reg[14], reg[15]);
      err := 0;
    }

    method Ret(op: bv16) returns (err: int)
      requires Valid()
      modifies this, reg, prog
      ensures Valid() && err == 0
      ensures View() == Returned(old(View()))
    {
      var h := PopVal();
      var l := PopVal();
      ip := Join(l, h);
      err := 0;
    }

    /** None stands for a read outside the memory, in the three skips. */
    method Cpse(op: bv16) returns (err: Option<int>)
      requires Valid()
      modifies this, reg, prog
      ensures Valid()
      ensures match Skipped(old(View()), Isa.Test.Equal(RegD(op), RegR(op)))
              case None => err == None
              case Some(s) => err == Some(0) && View() == s
    {
      hide WordAt, Put, Flag, RegD, RegR, Is32, SumFlags;
      var e := Cp(op);
      if !Flag(sreg, ZERO) { return Some(0); }
      var wide := Check32();
      if wide == None { return None; }
      if wide.value { ip := Trunc16(ip + 2); }
      ip := Trunc16(ip + 2);
      err := Some(0);
    }

    method Sbrc(op: bv16) returns (err: Option<int>)
      requires Valid()
      modifies this, reg, prog
      ensures Valid()
      ensures match Skipped(old(View()), Isa.Test.BitIs(RegD(op), LowBits(op), false))
              case None => err == None
              case Some(s) => err == Some(0) && View() == s
    {
      hide TestBit, WordAt, RegD, LowBits, Is32;
      if !TestBit(reg[RegD(op)], LowBits(op)) {
        ip := Trunc16(ip + 2);
        var wide := Check32();
        if wide == None { return None; }
        if wide.value { ip := Trunc16(ip + 2); }
      }
      ip := Trunc16(ip + 2);
      err := Some(0);
    }

    method Sbrs(op: bv16) returns (err: Option<int>)
      requires Valid()
      modifies this, reg, prog
      ensures Valid()
      ensures match Skipped(old(View()), Isa.Test.BitIs(RegD(op), LowBits(op), true))
              case None => err == None
              case Some(s) => err == Some(0) && View() == s
    {
      hide TestBit, WordAt, RegD, LowBits, Is32;
      if TestBit(reg[RegD(op)], LowBits(op)) {
        ip := Trunc16(ip + 2);
        var wide := Check32();
        if wide == None { return None; }
        if wide.value { ip := Trunc16(ip + 2); }
      }
      ip := Trunc16(ip + 2);
      err := Some(0);
    }

    // ----- the loop -----

    /**
     The chain of tests of the loop, in its order and with the tests of lsl, sbr and ser, which cannot
     succeed where they stand.
     */
    method Choose(op: bv16) returns (h: Option<Handler>)
      ensures h == Select(op)
    {
      h := None;
      if op & 0xff00 == 0x1c00 {
        h := Some(HAdc);
      } else if op & 0xff00 == 0x0c00 {
        h := Some(HAdd);
      } else if op == 0x9598 {
        h := Some(HBreak);
      } else if op & 0xff00 == 0x9600 {
        h := Some(HAdiw);
      } else if op & 0xff00 == 0x2000 {
        h := Some(HAnd);
      } else if op & 0xf000 == 0x7000 {
        h := Some(HAndi);
      } else if op & 0xff0f == 0x9405 {
        h := Some(HAsr);
      } else if op & 0xff8f == 0x9488 {
        h := Some(HBclr);
      } else if op & 0xff08 == 0xf800 {
        h := Some(HBld);
      } else if op & 0xfc00 == 0xf400 {
        h := Some(HBranchClr);
      } else if op & 0xfc00 == 0xf000 {
        h := Some(HBranchSet);
      } else if op & 0xff8f == 0x9408 {
        h := Some(HBset);
      } else if op & 0xff08 == 0xfa00 {
        h := Some(HBst);
      } else if op & 0xf000 == 0xc000 {
        h := Some(HCbr);
      } else if op == 0x940e {
        h := Some(HCall);
      } else if op & 0xff0f == 0x9400 {
        h := Some(HCom);
      } else if op & 0xff00 == 0x1400 {
        h := Some(HCp);
      } else if op & 0xff00 == 0x0400 {
        h := Some(HCpc);
      } else if op & 0xf000 == 0x3000 {
        h := Some(HCpi);
      } else if op & 0xff00 == 0x1000 {
        h := Some(HCpse);
      } else if op & 0xff0f == 0x940a {
        h := Some(HDec);
      } else if op & 0xff00 == 0x2400 {
        h := Some(HEor);
      } else if op == 0x9509 {
        h := Some(HIcall);
      } else if op == 0x9409 {
        h := Some(HIjmp);
      } else if op & 0xff0f == 0x9403 {
        h := Some(HInc);
      } else if op == 0x940c {
        h := Some(HJmp);
      } else if op & 0xff0c == 0x900c {
        h := Some(HLddX);
      } else if op & 0xff0c == 0x9008 {
        h := Some(HLddY);
      } else if op & 0xf000 == 0xe000 {
        h := Some(HLdi);
      } else if op & 0xff0f == 0x9000 {
        h := Some(HLds);
      } else if op & 0xff00 == 0x0c00 {
        // lsl: caught by add.
        assert false;
      } else if op & 0xff0f == 0x9406 {
        h := Some(HLsr);
      } else if op & 0xff00 == 0x2c00 {
        h := Some(HMov);
      } else if op & 0xff00 == 0x0100 {
        h := Some(HMovw);
      } else if op & 0xff00 == 0x9c00 {
        h := Some(HMul);
      } else if op & 0xff00 == 0x0200 {
        h := Some(HMuls);
      } else if op & 0xff0f == 0x9401 {
        h := Some(HNeg);
      } else if op == 0x0000 {
        h := Some(HNop);
      } else if op & 0xff00 == 0x2800 {
        h := Some(HOr);
      } else if op & 0xf000 == 0x6000 {
        h := Some(HOri);
      } else if op & 0xff0f == 0x9203 {
        h := Some(HPop);
      } else if op & 0xff0f == 0x920f {
        h := Some(HPush);
      } else if op == 0x9508 {
        h := Some(HRet);
      } else if op & 0xff0f == 0x9407 {
        h := Some(HRor);
      } else if op & 0xff00 == 0x0800 {
        h := Some(HSbc);
      } else if op & 0xf000 == 0x4000 {
        h := Some(HSbci);
      } else if op & 0xff00 == 0x9700 {
        h := Some(HSbiw);
      } else if op & 0xf000 == 0x6000 {
        // sbr: caught by ori.
        assert false;
      } else if op & 0xff08 == 0xfc00 {
        h := Some(HSbrc);
      } else if op & 0xff08 == 0xfe00 {
        h := Some(HSbrs);
      } else if op & 0xff0f == 0xef0f {
        // ser: caught by ldi.
        assert false;
      } else if op & 0xff0c == 0x920c {
        h := Some(HStdX);
      } else if op & 0xff0c == 0x9208 {
        h := Some(HStdY);
      } else if op & 0xff0f == 0x9200 {
        h := Some(HSts);
      } else if op & 0xff00 == 0x1800 {
        h := Some(HSub);
      } else if op & 0xf000 == 0x5000 {
        h := Some(HSubi);
      } else if op & 0xff0f == 0x9402 {
        h := Some(HSwap);
      }
    }

    /** Calls the selected handler; a handler that reads outside the memory gives no result. */
    method Dispatch(h: Handler, op: bv16, op2: word) returns (err: Option<int>)
      requires Valid()
      modifies this, reg, prog
      ensures Valid()
      ensures Reports(Perform(old(View()), Fields(h, op, op2), if Wide(h) then 4 else 2), err, View())
    {
      hide View, Valid, Ran, Branched, Called, Returned, Skipped, Fields;
      var e := 0;
      if !Wide(h) { NarrowHandler(h, op, op2); }
      if Summing(h) {
        e := DispatchSumming(h, op);
      } else if Differing(h) {
        e := DispatchDiffering(h, op);
      } else if Logical(h) {
        e := DispatchLogical(h, op);
      } else if Shifting(h) {
        e := DispatchShifting(h, op);
      } else if Loading(h) {
        e := DispatchLoading(h, op, op2);
      } else if Storing(h) {
        e := DispatchStoring(h, op, op2);
      } else {
        err := DispatchControl(h, op, op2);
        return;
      }
      err := Some(e);
    }

    method DispatchControl(h: Handler, op: bv16, op2: word) returns (err: Option<int>)
      requires Valid()
      requires !Summing(h) && !Differing(h) && !Logical(h) && !Shifting(h) && !Loading(h) && !Storing(h)
      modifies this, reg, prog
      ensures Valid()
      ensures Reports(Perform(old(View()), Fields(h, op, op2), if Wide(h) then 4 else 2), err, View())
    {
      hide Ran, Branched, Called, Returned, Skipped, RegD, RegR, LowBits, Disp;
      var e := 0;
      match h {
        case HBreak => e := Abrk(op); return Some(e);
        case HBranchClr => e := Branchc(op); return Some(e);
        case HBranchSet => e := Branchs(op); return Some(e);
        case HCall => e := Call(op, op2); return Some(e);
        case HCpse => err := Cpse(op); return;
        case HIcall => e := Icall(op); return Some(e);
        case HIjmp => e := Ijmp(op); return Some(e);
        case HJmp => e := Jmp(op, op2); return Some(e);
        case HMovw => e := Movw(op); return Some(e);
        case HNop => e := Nop(op); return Some(e);
        case HRet => e := Ret(op); return Some(e);
        case HSbrc => err := Sbrc(op); return;
        case HSbrs => err := Sbrs(op); return;
      }
    }

    method DispatchSumming(h: Handler, op: bv16) returns (err: int)
      requires Valid() && Summing(h)
      modifies this, reg, prog
      ensures Valid() && err == 0
      ensures var i := Fields(h, op, 0);
              i.Compute? && View() == Ran(old(View()), i.op, 2)
    {
      hide View, Valid, Ran, RegD, RegR, ImmK, PairOf, WordK, CbrOp, ModeOf, MidBits, LowBits;
      match h {
        case HAdc => err := Adc(op); return;
        case HAdd => err := Add(op); return;
        case HAdiw => err := Adiw(op); return;
        case HCp => err := Cp(op); return;
        case HCpc => err := Cpc(op); return;
        case HCpi => err := Cpi(op); return;
        case HMul => err := Mul(op); return;
        case HMuls => err := Muls(op); return;
      }
    }

    method DispatchDiffering(h: Handler, op: bv16) returns (err: int)
      requires Valid() && Differing(h)
      modifies this, reg, prog
      ensures Valid() && err == 0
      ensures var i := Fields(h, op, 0);
              i.Compute? && View() == Ran(old(View()), i.op, 2)
    {
      hide View, Valid, Ran, RegD, RegR, ImmK, PairOf, WordK, CbrOp, ModeOf, MidBits, LowBits;
      match h {
        case HDec => err := Dec(op); return;
        case HInc => err := Inc(op); return;
        case HNeg => err := Neg(op); return;
        case HSbc => err := Sbc(op); return;
        case HSbci => err := Sbci(op); return;
        case HSbiw => err := Sbiw(op); return;
        case HSub => err := Sub(op); return;
        case HSubi => err := Subi(op); return;
      }
    }

    method DispatchLogical(h: Handler, op: bv16) returns (err: int)
      requires Valid() && Logical(h)
      modifies this, reg, prog
      ensures Valid() && err == 0
      ensures var i := Fields(h, op, 0);
              i.Compute? && View() == Ran(old(View()), i.op, 2)
    {
      hide View, Valid, Ran, RegD, RegR, ImmK, PairOf, WordK, CbrOp, ModeOf, MidBits, LowBits;
      match h {
        case HAnd => err := And(op); return;
        case HAndi => err := Andi(op); return;
        case HCbr => err := Cbr(op); return;
        case HCom => err := Com(op); return;
        case HEor => err := Eor(op); return;
        case HOr => err := Or(op); return;
        case HOri => err := Ori(op); return;
        case HSwap => err := Swap(op); return;
      }
    }

    method DispatchShifting(h: Handler, op: bv16) returns (err: int)
      requires Valid() && Shifting(h)
      modifies this, reg, prog
      ensures Valid() && err == 0
      ensures var i := Fields(h, op, 0);
              i.Compute? && View() == Ran(old(View()), i.op, 2)
    {
      hide View, Valid, Ran, RegD, RegR, ImmK, PairOf, WordK, CbrOp, ModeOf, MidBits, LowBits;
      match h {
        case HAsr => err := Asr(op); return;
        case HBclr => err := Bclr(op); return;
        case HBld => err := Bld(op); return;
        case HBset => err := Bset(op); return;
        case HBst => err := Bst(op); return;
        case HLsr => err := Lsr(op); return;
        case HRor => err := Ror(op); return;
      }
    }

    method DispatchLoading(h: Handler, op: bv16, op2: word) returns (err: int)
      requires Valid() && Loading(h)
      modifies this, reg, prog
      ensures Valid() && err == 0
      ensures var i := Fields(h, op, op2);
              i.Compute? && View() == Ran(old(View()), i.op, if Wide(h) then 4 else 2)
    {
      hide View, Valid, Ran, RegD, RegR, ImmK, PairOf, WordK, CbrOp, ModeOf, MidBits, LowBits;
      match h {
        case HLddX => err := Lddx(op); return;
        case HLddY => err := Lddy(op); return;
        case HLdi => err := Ldi(op); return;
        case HLds => err := Lds(op, op2); return;
        case HMov => err := Mov(op); return;
        case HPop => err := Pop(op); return;
      }
    }

    method DispatchStoring(h: Handler, op: bv16, op2: word) returns (err: int)
      requires Valid() && Storing(h)
      modifies this, reg, prog
      ensures Valid() && err == 0
      ensures var i := Fields(h, op, op2);
              i.Compute? && View() == Ran(old(View()), i.op, if Wide(h) then 4 else 2)
    {
      hide View, Valid, Ran, RegD, RegR, ImmK, PairOf, WordK, CbrOp, ModeOf, MidBits, LowBits;
      match h {
        case HPush => err := Push(op); return;
        case HStdX => err := Stdx(op); return;
        case HStdY => err := Stdy(op); return;
        case HSts => err := Sts(op, op2); return;
      }
    }

    /** One turn of the loop. */
    method Turn(e: Event) returns (status: Status)
      requires Valid()
      modifies this, reg, prog
      ensures Valid() && Ends(Cycle(old(View()), e), status, View())
    {
      hide Perform, Select, Fields, StoreEvent;
      if ip == 0xffff { return Strayed; }
      var op := FetchWord(ip);
      var h := Choose(op);
      if h == None { return Refused; }
      var op2: word := 0;
      if Wide(h.value) {
        if ip > 0xfffc { return Strayed; }
        op2 := Join(prog[ip + 2], prog[ip + 3]);
      }
      var err := Dispatch(h.value, op, op2);
      if err == None { return Strayed; }
      if err.value > 0 { return Stopped; }
      if e.Stop? { return Broken; }
      RunIo(e);
      status := Going;
    }

    /** The bytes that run_io stores. */
    method RunIo(e: Event)
      requires Valid() && e.Tick?
      modifies prog
      ensures Valid() && View() == old(View()).(core := old(View()).core.(mem := StoreEvent(old(prog[..]), e)))
    {
      if e.key.Some? { Poke(KEY, e.key.value); }
      Poke(RANDOM, Trunc8(e.random));
      Poke(RANDOM + 1, High(e.random));
      if e.port.Some? { Poke(PORT, e.port.value); }
    }

    /** The loop, watched for as many turns as there are events. */
    method Execute(events: seq<Event>) returns (status: Status)
      requires Valid()
      modifies this, reg, prog
      ensures Valid()
      ensures var start := old(View()).(core := old(View()).core.(sp := 0xffff));
              Ends(Run(start, events), status, View())
    {
      hide Cycle;
      sp := 0xffff;
      status := Going;
      var n := 0;
      ghost var start := View();
      while n < |events| && status == Going
        invariant Valid() && n <= |events|
        invariant status == Going ==> Run(View(), events[n..]) == Run(start, events)
        invariant status != Going ==> Ends(Run(start, events), status, View())
      {
        status := Turn(events[n]);
        n := n + 1;
      }
    }
  }
}
