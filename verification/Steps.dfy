/** What the lines of an assembled program do: where control goes, and when a line cannot be executed. */
module Steps {
  import opened Words
  import opened Isa
  import opened Frames
  import opened Arithmetic
  import opened Bytes
  import opened Stack
  import opened Symbols
  import opened Parser
  import opened Source
  import opened Encoder
  import opened Agreement
  import opened Correct
  import opened Assembler
  import opened Image
  import opened Simulation
  import opened Manual
  import Control

  // ----- lines that compute -----

  /** A line that computes goes on to the next one with what its instruction leaves, unless it gets stuck. */
  lemma LineDone(p: Program, i: nat, m: Mnemonic, arg: Arg, c: Core)
    requires AddressesFit(p) && LineHas(p, i, m, arg) && Done(m, arg, Equates(p, i), Table(p), c).Some?
    ensures var t := SrcStep(p, Src(i, c));
            t == Stuck || t == Onward(p, i, Done(m, arg, Equates(p, i), Table(p), c).value)
  {
    hide Means, Effect, HitsCode, Equates, Table, Address, AddressesFit;
  }

  lemma NoCells(p: Program)
    ensures !HitsCode(p, {})
  {
  }

  // ----- branches -----

  lemma BranchTable(m: Mnemonic, target: word)
    requires TypeOf(m).BranchType?
    ensures BranchMeaning(m, target) == BranchIf(BranchesOnSet(m), FlagNumber(m), target)
  {
  }

  /** The branches that are taken when their flag is set; the others are taken when it is clear. */
  predicate BranchesOnSet(m: Mnemonic) {
    m.MBranchCarrySet? || m.MBranchLower? || m.MBranchEqu? || m.MBranchMinus? || m.MBranchOverSet? || m.MBranchLessThan?
    || m.MBranchTSet? || m.MBrie? || m.MBranchBitSet?
  }

  /** A branch by name goes to its label exactly if its flag is as its name says, and on to the next line otherwise. */
  lemma BranchLine(p: Program, i: nat, m: Mnemonic, e: seq<Token>, target: word, c: Core)
    requires AddressesFit(p) && LineHas(p, i, m, Arg.Label(e)) && TypeOf(m).BranchType?
    requires Meaning(e, Table(p)) == Known(target)
    ensures SrcStep(p, Src(i, c))
            == if Flag(c.sreg, FlagNumber(m)) == BranchesOnSet(m) then Enter(p, target, c) else Onward(p, i, c)
  {
    hide Means, Meaning, Table, Equates, Address, AddressesFit, TypeOf, BranchMeaning, BranchesOnSet, FlagNumber, Enter,
      Onward, Flag;
    BranchLabelParts(m, e, Equates(p, i), Table(p));
    BranchTable(m, target);
  }

  lemma BitBranchTypes()
    ensures TypeOf(MBranchBitSet).BrBit? && TypeOf(MBranchBitClr).BrBit?
  {
  }

  /** The same for a flag by number. */
  lemma BitBranchLine(p: Program, i: nat, m: Mnemonic, bit: seq<Token>, b: Bit, e: seq<Token>, target: word, c: Core)
    requires AddressesFit(p) && LineHas(p, i, m, BitLabel(bit, e)) && (m.MBranchBitSet? || m.MBranchBitClr?)
    requires Meaning(bit, Equates(p, i)) == Known(b) && Meaning(e, Table(p)) == Known(target)
    ensures SrcStep(p, Src(i, c))
            == if Flag(c.sreg, b) == m.MBranchBitSet? then Enter(p, target, c) else Onward(p, i, c)
  {
    hide Means, Meaning, Table, Equates, Address, AddressesFit, TypeOf, Enter, Onward, Flag;
    BitBranchTypes();
    BitBranchParts(m, bit, e, Equates(p, i), Table(p));
  }

  /** What a branch by name tells of two bytes after they were compared without a borrow. */
  function Tells(m: Mnemonic, a: byte, b: byte): bool
    requires AsksUnsigned(m)
  {
    match m
    case MBranchEqu => a == b
    case MBranchNotEqu => a != b
    case MBranchLower | MBranchCarrySet => a < b
    case MBranchSameHigh | MBranchCarryClr => a >= b
    case MBranchMinus => (a - b) % 0x100 >= 0x80
    case MBranchPlus => (a - b) % 0x100 < 0x80
  }

  predicate AsksUnsigned(m: Mnemonic) {
    m.MBranchEqu? || m.MBranchNotEqu? || m.MBranchLower? || m.MBranchCarrySet? || m.MBranchSameHigh?
    || m.MBranchCarryClr? || m.MBranchMinus? || m.MBranchPlus?
  }

  lemma AsksByName(m: Mnemonic)
    ensures AsksUnsigned(m) || m.MBranchLessThan? || m.MBranchGrEqu? ==> TypeOf(m).BranchType?
  {
  }

  /** A branch after a comparison goes to its label exactly if the two bytes compare as its name says. */
  lemma BranchAfterCompare(p: Program, i: nat, m: Mnemonic, e: seq<Token>, target: word, c0: Core, c: Core, a: byte,
                           b: byte)
    requires AddressesFit(p) && LineHas(p, i, m, Arg.Label(e)) && AsksUnsigned(m) && Compares(c0, c, a, b, 0)
    requires Meaning(e, Table(p)) == Known(target)
    ensures SrcStep(p, Src(i, c)) == if Tells(m, a, b) then Enter(p, target, c) else Onward(p, i, c)
  {
    hide SrcStep, Meaning, Table, Address, AddressesFit, TypeOf, Enter, Onward, Flag;
    AsksByName(m);
    BranchLine(p, i, m, e, target, c);
  }

  /** BranchLessThan and BranchGrEqu after a subtraction compare the operands as signed numbers. */
  lemma BranchAfterSubtract(p: Program, i: nat, m: Mnemonic, e: seq<Token>, target: word, c0: Core, c: Core, d: RegNo,
                            a: byte, b: byte)
    requires AddressesFit(p) && LineHas(p, i, m, Arg.Label(e)) && (m.MBranchLessThan? || m.MBranchGrEqu?)
    requires Subtracts(c0, c, d, a, b, 0) && Meaning(e, Table(p)) == Known(target)
    ensures SrcStep(p, Src(i, c))
            == if (Signed(a) < Signed(b)) == m.MBranchLessThan? then Enter(p, target, c) else Onward(p, i, c)
  {
    hide SrcStep, Meaning, Table, Address, AddressesFit, TypeOf, Enter, Onward, Flag, Signed;
    AsksByName(m);
    BranchLine(p, i, m, e, target, c);
  }

  // ----- skips -----

  /** A skip passes over the line after it, and goes on behind that one, with c as it stands. */
  function SkipOver(p: Program, i: nat, over: bool, c: Core): SrcOutcome
    requires i < |p|
  {
    match Next(p, i)
    case None => Stuck
    case Some(j) => if over then Onward(p, j, c) else Going(Src(j, c))
  }

  lemma SkipStep(p: Program, i: nat, t: Test, c: Core)
    requires AddressesFit(p) && IsInstr(p, i) && ActionAt(p, i) == Some(SkipIf(t))
    ensures SrcStep(p, Src(i, c)) == SkipOver(p, i, Skips(t, c), TestEffect(t, c))
  {
    hide ActionAt, Address, AddressesFit, Onward, Next, Skips, TestEffect;
  }

  lemma SkipType(m: Mnemonic)
    ensures m.MCompareSkipEqu? ==> TypeOf(m).DirDual?
    ensures m.MSkipBitRegClr? || m.MSkipBitRegSet? ==> TypeOf(m).LdstrBit?
  {
  }

  lemma SkipTable(m: Mnemonic, d: RegNo, r: RegNo, b: Bit)
    ensures m.MCompareSkipEqu? ==> TypeOf(m).DirDual? && DualMeaning(m, d, r) == SkipIf(Equal(d, r))
    ensures m.MSkipBitRegClr? ==> TypeOf(m).LdstrBit? && BitMeaning(m, d, b) == SkipIf(BitIs(d, b, false))
    ensures m.MSkipBitRegSet? ==> TypeOf(m).LdstrBit? && BitMeaning(m, d, b) == SkipIf(BitIs(d, b, true))
  {
    hide TypeOf;
    SkipType(m);
  }

  /** CompareSkipEqu compares, and skips exactly if the registers are equal. */
  lemma EqualSkipLine(p: Program, i: nat, d: RegText, r: RegText, c: Core)
    requires AddressesFit(p) && LineHas(p, i, MCompareSkipEqu, TwoRegs(d, r)) && d < 16 && r < 16
    ensures var x: RegNo, y: RegNo := d as int, r as int;
            var c1 := Effect(Cp(x, y), c);
            && SrcStep(p, Src(i, c)) == SkipOver(p, i, c.reg[x] == c.reg[y], c1)
            && Compares(c, c1, c.reg[x], c.reg[y], 0)
  {
    hide Means, Table, Equates, Address, AddressesFit, TypeOf, DualMeaning, SkipOver, SrcStep, Skips, Effect, Compares,
      TestEffect;
    var x: RegNo, y: RegNo := d as int, r as int;
    SkipTable(MCompareSkipEqu, x, y, 0);
    TwoRegistersParts(MCompareSkipEqu, d, r, Equates(p, i), Table(p));
    SkipStep(p, i, Equal(x, y), c);
    EqualTest(c, x, y);
  }

  /** The test of CompareSkipEqu, in numbers. */
  lemma EqualTest(c: Core, d: RegNo, r: RegNo)
    ensures TestEffect(Equal(d, r), c) == Effect(Cp(d, r), c) && Compares(c, Effect(Cp(d, r), c), c.reg[d], c.reg[r], 0)
    ensures Skips(Equal(d, r), c) <==> c.reg[d] == c.reg[r]
  {
    hide Compare, Flag;
    CompareIsExact(c, c.reg[d], c.reg[r], 0);
    CompareOnlyFlags(c, c.reg[d], c.reg[r], 0);
  }

  lemma BitSkipAction(p: Program, i: nat, m: Mnemonic, d: RegText, bit: seq<Token>, b: Bit)
    requires AddressesFit(p) && LineHas(p, i, m, RegBit(d, bit)) && (m.MSkipBitRegClr? || m.MSkipBitRegSet?) && d < 16
    requires Meaning(bit, Equates(p, i)) == Known(b)
    ensures ActionAt(p, i) == Some(SkipIf(BitIs(d as int, b, m.MSkipBitRegSet?)))
  {
    hide Means, Meaning, Table, Equates, Address, AddressesFit, TypeOf, BitMeaning;
    SkipTable(m, d as int, 0, b);
    RegisterBitParts(m, d, bit, Equates(p, i), Table(p));
  }

  /** SkipBitRegClr and SkipBitRegSet skip exactly if that bit of the register is 0, and 1; they change nothing. */
  lemma BitSkipLine(p: Program, i: nat, m: Mnemonic, d: RegText, bit: seq<Token>, b: Bit, c: Core)
    requires AddressesFit(p) && LineHas(p, i, m, RegBit(d, bit)) && (m.MSkipBitRegClr? || m.MSkipBitRegSet?) && d < 16
    requires Meaning(bit, Equates(p, i)) == Known(b)
    ensures var x: RegNo := d as int;
            SrcStep(p, Src(i, c))
            == SkipOver(p, i, c.reg[x] / Power2(b) % 2 == (if m.MSkipBitRegSet? then 1 else 0), c)
  {
    hide ActionAt, Meaning, Address, AddressesFit, SkipOver, SrcStep, TestBit, Power2;
    var x: RegNo := d as int;
    BitSkipAction(p, i, m, d, bit, b);
    SkipStep(p, i, BitIs(x, b, m.MSkipBitRegSet?), c);
    BitIsDigit(c.reg[x], b);
  }

  /**
   The same on the machine: behind the skip, or over the instruction there, by two bytes or by four; nothing
   is said of a skip that looks past the memory.
   */
  lemma SkippedExactly(s: Cpu, d: RegNo, r: RegNo, b: Bit, on: bool)
    ensures var next, over := Trunc16(s.ip + 2), Skipped(s, Equal(d, r));
            over.Some? ==>
              && Compares(s.core, over.value.core, s.core.reg[d], s.core.reg[r], 0)
              && (if s.core.reg[d] == s.core.reg[r] then over.value.ip in {Trunc16(next + 2), Trunc16(next + 4)}
                  else over.value.ip == next)
    ensures var next, over := Trunc16(s.ip + 2), Skipped(s, BitIs(d, b, on));
            over.Some? ==>
              && over.value.core == s.core
              && (if s.core.reg[d] / Power2(b) % 2 == (if on then 1 else 0) then
                    over.value.ip in {Trunc16(next + 2), Trunc16(next + 4)}
                  else over.value.ip == next)
  {
    hide TestBit, Power2, Compare, Flag, WordAt, Is32, Compares;
    EqualTest(s.core, d, r);
    BitIsDigit(s.core.reg[d], b);
  }

  // ----- calls, jumps and the end -----

  /** What a call leaves: the return address on the stack, its low byte first. */
  function WithReturn(c: Core, ret: word): Core {
    var below: word := (c.sp + 0xffff) % 0x1_0000;
    c.(mem := c.mem[c.sp := ret % 0x100][below := ret / 0x100], sp := (c.sp + 0xfffe) % 0x1_0000)
  }

  lemma PushedWord(c: Core, ret: word)
    ensures PushWord(c, ret) == WithReturn(c, ret)
    ensures CallWrites(c.sp) == {c.sp, (c.sp + 0xffff) % 0x1_0000}
  {
    assert Trunc16(c.sp - 1) == (c.sp + 0xffff) % 0x1_0000;
  }

  lemma JumpTypes(m: Mnemonic)
    ensures m.MCall? || m.MJump? ==> TypeOf(m).Dir32?
    ensures m.MIndCall? || m.MIndJump? || m.MReturn? || m.MBreak? ==> TypeOf(m).Implied?
  {
  }

  lemma JumpTable(m: Mnemonic)
    requires TypeOf(m).Implied?
    ensures m.MIndCall? ==> ImpliedMeaning(m) == CallPair
    ensures m.MIndJump? ==> ImpliedMeaning(m) == JumpPair
    ensures m.MReturn? ==> ImpliedMeaning(m) == ReturnNow
    ensures m.MBreak? ==> ImpliedMeaning(m) == Finish
  {
    hide TypeOf;
  }

  lemma JumpSizes(p: Program, i: nat, m: Mnemonic, arg: Arg)
    requires LineHas(p, i, m, arg)
    ensures m.MCall? ==> Size(p[i]) == 4
    ensures m.MIndCall? ==> Size(p[i]) == 2
  {
  }

  /** Call and Jump go to the address that is written; Call leaves the address behind its four bytes. */
  lemma JumpLine(p: Program, i: nat, m: Mnemonic, a: Place, x: word, c: Core)
    requires AddressesFit(p) && LineHas(p, i, m, At16(a)) && (m.MCall? || m.MJump?) && PlaceMeans(a, Table(p), x)
    ensures m.MJump? ==> SrcStep(p, Src(i, c)) == Enter(p, x, c)
    ensures m.MCall? ==>
              SrcStep(p, Src(i, c)) == if HitsCode(p, {c.sp, (c.sp + 0xffff) % 0x1_0000}) then Stuck
                                       else Enter(p, x, WithReturn(c, (Address(p, i) + 4) % 0x1_0000))
  {
    hide Means, Meaning, Table, Equates, Address, AddressesFit, TypeOf, Enter, HitsCode, Size, CallWrites, WithReturn,
      PushWord;
    JumpTypes(m);
    LongJumpParts(m, a, Equates(p, i), Table(p));
    JumpSizes(p, i, m, At16(a));
    PushedWord(c, (Address(p, i) + 4) % 0x1_0000);
  }

  /** IndCall and IndJump go to the address in r15:r14. */
  lemma IndirectLine(p: Program, i: nat, m: Mnemonic, c: Core)
    requires AddressesFit(p) && LineHas(p, i, m, NoArg) && (m.MIndCall? || m.MIndJump?)
    ensures var x: word := c.reg[14] as int + 0x100 * c.reg[15] as int;
            && (m.MIndJump? ==> SrcStep(p, Src(i, c)) == Enter(p, x, c))
            && (m.MIndCall? ==>
                  SrcStep(p, Src(i, c)) == if HitsCode(p, {c.sp, (c.sp + 0xffff) % 0x1_0000}) then Stuck
                                           else Enter(p, x, WithReturn(c, (Address(p, i) + 2) % 0x1_0000)))
  {
    hide Means, Table, Equates, Address, AddressesFit, TypeOf, Enter, HitsCode, Size, CallWrites, WithReturn, PushWord,
      ImpliedMeaning;
    JumpTypes(m);
    NoOperandParts(m, Equates(p, i), Table(p));
    JumpTable(m);
    JumpSizes(p, i, m, NoArg);
    PushedWord(c, (Address(p, i) + 2) % 0x1_0000);
  }

  /**
   Return takes two bytes off the stack and goes to the address that they make; the stack pointer stays at 0xffff
   when it gets there. Break ends the run.
   */
  lemma EndLine(p: Program, i: nat, m: Mnemonic, c: Core)
    requires AddressesFit(p) && LineHas(p, i, m, NoArg)
    ensures m.MReturn? ==>
              var hi: word := if c.sp == 0xffff then 0xffff else c.sp + 1;
              var lo: word := if hi == 0xffff then 0xffff else hi + 1;
              SrcStep(p, Src(i, c)) == Enter(p, c.mem[lo] as int + 0x100 * c.mem[hi] as int, c.(sp := lo))
    ensures m.MBreak? ==> SrcStep(p, Src(i, c)) == Ended(Src(i, c))
  {
    hide Means, Table, Equates, Address, AddressesFit, TypeOf, Enter, HitsCode, ImpliedMeaning;
    JumpTypes(m);
    if m.MReturn? || m.MBreak? {
      NoOperandParts(m, Equates(p, i), Table(p));
      JumpTable(m);
    }
  }

  // ----- falling through, and the cells of the code -----

  /** Control falls from line k to an instruction exactly if only empty lines, and no .org, lie between. */
  lemma {:induction false} FallsTo(p: Program, k: nat, j: nat)
    requires k <= |p|
    ensures Fall(p, k) == Some(j)
            <==> k <= j < |p| && IsInstr(p, j) && (forall x :: k <= x <= j ==> !SetsAddress(p[x]))
                 && forall x :: k <= x < j ==> Size(p[x]) == 0
    decreases |p| - k
  {
    hide SetsAddress, Size;
    if k < |p| {
      FallsTo(p, k + 1, j);
      if IsInstr(p, k) { InstrSize(p, k); }
    }
  }

  /** Cells hit the code exactly if one of them lies within the bytes of an instruction. */
  lemma HitsExactly(p: Program, cells: set<word>)
    ensures !HitsCode(p, cells)
            <==> forall i: nat, a: word :: i < |p| && IsInstr(p, i) && a in cells ==>
                   a < Address(p, i) || a >= Address(p, i) + Size(p[i])
  {
    hide Address, Size;
    if !HitsCode(p, cells) {
      forall i: nat, a: word | i < |p| && IsInstr(p, i) && a in cells
        ensures a < Address(p, i) || a >= Address(p, i) + Size(p[i])
      {
        assert !Covers(p, i, a);
      }
    }
  }

  // ----- when a line cannot be executed -----

  /** The machine would not go on at the start of an instruction, or there is none to skip. */
  predicate Blocked(p: Program, i: Instr, s: Cpu, t: Outcome) {
    || (t.Running? && LineAt(p, t.s.ip, 0).None?)
    || (i.Skip? && LineAt(p, Trunc16(s.ip + 2), 0).None?)
  }

  ghost predicate StuckAsTold(p: Program, i: Instr, s: Cpu, t: Outcome, o: SrcOutcome) {
    o.Stuck? <==> HitsCode(p, InstrWrites(i, s.core)) || Blocked(p, i, s, t)
  }

  lemma OnwardStuck(p: Program, i: nat, c: Core)
    requires Assembles(p) && CodeLast(p) && IsInstr(p, i)
    ensures Onward(p, i, c).Stuck? <==> LineAt(p, Trunc16(Address(p, i) + Size(p[i])), 0).None?
  {
    hide Address, Size, LineFits, CodeLast;
    ReturnAddressLine(p, i);
  }

  lemma EntersItself(p: Program, i: nat)
    requires Assembles(p) && CodeLast(p) && IsInstr(p, i)
    ensures LineAt(p, Address(p, i), 0) == Some(i)
  {
    hide Address, LineFits, CodeLast;
    OnlyLineAt(p, i, 0);
  }

  lemma SkipStuck(p: Program, i: nat, c: Core, t: Test)
    requires Assembles(p) && CodeLast(p) && InBounds(p) && IsInstr(p, i) && CodeIn(p, c.mem) && Size(p[i]) == 2
    ensures var s := Cpu(Address(p, i), c);
            StuckAsTold(p, Skip(t), s, Perform(s, Skip(t), 2), SrcAct(p, i, c, SkipIf(t)))
  {
    hide Address, Size, CodeIn, LineFits, InBounds, CodeLast, TestEffect, Skips, Next, LineAt, Onward, WordAt, Is32,
      Matches, Skipped;
    var s, c1 := Cpu(Address(p, i), c), TestEffect(t, c);
    NoCells(p);
    EntersItself(p, i);
    ReturnAddressLine(p, i);
    SkipMatches(p, i, c, t);
    match Next(p, i)
    case None =>
    case Some(j) =>
      EntersItself(p, j);
      SkippedIp(p, i, j, c, t);
      if Skips(t, c) { OnwardStuck(p, j, c1); }
  }

  lemma SkippedIp(p: Program, i: nat, j: nat, c: Core, t: Test)
    requires Assembles(p) && InBounds(p) && IsInstr(p, i) && CodeIn(p, c.mem) && Size(p[i]) == 2
    requires Next(p, i) == Some(j)
    ensures var u := Skipped(Cpu(Address(p, i), c), t);
            u.Some? && u.value.ip == if Skips(t, c) then Trunc16(Address(p, j) + Size(p[j])) else Address(p, j)
  {
    hide Address, Size, CodeIn, LineFits, InMemory, TestEffect, Skips, WordAt, Is32, Fetch, Realizes, ActionAt,
      LineBytes, Next;
    TestKeepsMemory(t, c);
    NextAddress(p, i);
    CodeLine(p, j, c.mem);
    FetchLine(p, j, c.mem);
    InstrSize(p, j);
  }

  lemma ActStuck(p: Program, i: nat, c: Core, instr: Instr, action: Source.Action)
    requires Assembles(p) && CodeLast(p) && InBounds(p) && IsInstr(p, i) && CodeIn(p, c.mem)
    requires Realizes(instr, action, Address(p, i)) && (instr.Branch? || instr.Skip? ==> Size(p[i]) == 2)
    ensures var s := Cpu(Address(p, i), c);
            StuckAsTold(p, instr, s, Perform(s, instr, Size(p[i])), SrcAct(p, i, c, action))
  {
    hide Address, Size, CodeIn, LineFits, InBounds, CodeLast, Effect, Flag, BranchTo, Written, CallWrites, HitsCode,
      LineAt, Next, Onward, Skipped, TestEffect, Skips, PushWord, PairAt;
    NoCells(p);
    EntersItself(p, i);
    OnwardStuck(p, i, c);
    match action
    case Do(o) => OnwardStuck(p, i, Effect(o, c));
    case SkipIf(t) => SkipStuck(p, i, c, t);
    case _ =>
  }

  /**
   A line gets stuck exactly if its instruction would write where an instruction stands, or if the machine would not
   go on at the start of one; a skip also if there is no instruction to skip.
   */
  lemma StuckExactly(p: Program, s: Src)
    requires Assembles(p) && CodeLast(p) && InBounds(p) && IsInstr(p, s.line) && CodeIn(p, s.core.mem)
    ensures InstrAt(CpuOf(p, s)).Some?
    ensures var i := InstrAt(CpuOf(p, s)).value;
            StuckAsTold(p, i, CpuOf(p, s), Step(CpuOf(p, s)), SrcStep(p, s))
  {
    hide LineFits, CodeIn, CodeLast, Address, Size, SrcAct, Perform, StuckAsTold, ActionAt, Fetch, Realizes;
    Control.InstrOfLine(p, s);
    var i := InstrAt(CpuOf(p, s)).value;
    if i.Branch? || i.Skip? { OneWord(s.core.mem, Address(p, s.line)); }
    ActStuck(p, s.line, s.core, i, ActionAt(p, s.line).value);
  }

  // ----- what is accepted -----

  /** The target is at most 64 bytes before the address or 63 behind it, modulo 65536. */
  predicate InReach(at: word, target: word) { (target - at + 64) % 0x1_0000 < 128 }

  lemma ReachIs(at: word, target: word)
    ensures -64 <= Displacement(target, at) <= 63 <==> InReach(at, target)
  {
  }

  /** The instruction of the line is legal, and its label in reach if it is a branch. */
  predicate LegalHere(p: Program, i: nat)
    requires AddressesFit(p) && IsInstr(p, i)
  {
    var a := ActionAt(p, i);
    a.Some? && (a.value.BranchIf? ==> InReach(Address(p, i), a.value.target))
  }

  lemma LineAccepted(p: Program, i: nat)
    requires AddressesFit(p) && IsInstr(p, i)
    ensures LineFits(p, i) <==> LegalHere(p, i)
  {
    hide Encode, Means, Address, Table, Equates, Displacement, InReach, Codes;
    EncodeAgrees(p[i].body.m, p[i].body.arg, Equates(p, i), Table(p), Address(p, i));
    var a := ActionAt(p, i);
    if a.Some? && a.value.BranchIf? { ReachIs(Address(p, i), a.value.target); }
  }

  /**
   A source is accepted exactly if no address is above 65535, every instruction is legal, and every branch has its
   label within 64 bytes before it and 63 behind it.
   */
  lemma AcceptedExactly(p: Program)
    ensures Assembles(p)
            <==> (forall i :: 0 <= i < |p| ==> Address(p, i) <= 0xffff)
                 && AddressesFit(p) && forall i :: 0 <= i < |p| && IsInstr(p, i) ==> LegalHere(p, i)
  {
    hide LineFits, LegalHere, Address;
    if AddressesFit(p) {
      forall i | 0 <= i < |p| ensures LineFits(p, i) <==> (IsInstr(p, i) ==> LegalHere(p, i)) {
        if IsInstr(p, i) { LineAccepted(p, i); } else { OtherLinesFit(p, i); }
      }
    }
  }

  lemma OtherLinesFit(p: Program, i: nat)
    requires AddressesFit(p) && i < |p| && !IsInstr(p, i)
    ensures LineFits(p, i)
  {
  }

  /** And no other limit on addresses: a byte may stand at 65535, but no line behind it. */
  lemma LastAddress(p: Program)
    requires p == [Org(0xffff), Text(None, Data([1]))]
    ensures Assembles(p) && !Assembles(p + [Text(None, Blank)])
  {
    assert Address(p, 0) == 0xffff && Address(p, 1) == 0xffff;
    var q := p + [Text(None, Blank)];
    assert Address(q, 0) == 0xffff && Address(q, 1) == 0xffff;
    assert Address(q, 2) == 0x1_0000;
  }
}
