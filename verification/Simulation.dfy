/**
 The assembled image runs as its source reads. A source-level run keeps a line number instead of
 an address; it is stuck when control leaves the instruction lines or code is overwritten.
 */
module Simulation {
  import opened Words
  import opened Isa
  import opened Frames
  import opened Symbols
  import opened Parser
  import opened Source
  import opened Encoder
  import opened Assembler
  import opened Agreement
  import opened Correct
  import opened Image

  // ----- runs of the source -----

  /** Where control falls through to from line k on within a segment: over empty lines, but not into data. */
  function Fall(p: Program, k: nat): (r: Option<nat>)
    requires k <= |p|
    ensures r.Some? ==> k <= r.value && IsInstr(p, r.value)
    decreases |p| - k
  {
    if k == |p| || SetsAddress(p[k]) then None
    else if IsInstr(p, k) then Some(k)
    else if Size(p[k]) == 0 then Fall(p, k + 1)
    else None
  }

  /** The first instruction line from k on with the address. */
  function LineAt(p: Program, a: word, k: nat): (r: Option<nat>)
    requires k <= |p|
    ensures r.Some? ==> IsInstr(p, r.value) && Address(p, r.value) == a
    decreases |p| - k
  {
    if k == |p| then None
    else if IsInstr(p, k) && Address(p, k) == a then Some(k)
    else LineAt(p, a, k + 1)
  }

  datatype Src = Src(line: nat, core: Core)

  datatype SrcOutcome = Going(s: Src) | Ended(s: Src) | Left(s: Src) | Stuck

  /** The line after line i in its segment, or any other that starts at the address after it. */
  function Next(p: Program, i: nat): (r: Option<nat>)
    requires i < |p|
    ensures r.Some? ==> IsInstr(p, r.value)
  {
    if Fall(p, i + 1).Some? then Fall(p, i + 1) else LineAt(p, Trunc16(Address(p, i) + Size(p[i])), 0)
  }

  function Onward(p: Program, i: nat, c: Core): SrcOutcome
    requires i < |p|
  {
    match Next(p, i)
    case None => Stuck
    case Some(j) => Going(Src(j, c))
  }

  function Enter(p: Program, a: word, c: Core): SrcOutcome {
    match LineAt(p, a, 0)
    case None => Stuck
    case Some(j) => Going(Src(j, c))
  }

  predicate Covers(p: Program, i: nat, a: word) { IsInstr(p, i) && Address(p, i) <= a < Address(p, i) + Size(p[i]) }

  /** One of the cells belongs to an instruction. */
  ghost predicate HitsCode(p: Program, cells: set<word>) {
    exists i: nat, a: word :: a in cells && Covers(p, i, a)
  }

  function ActionAt(p: Program, i: nat): Option<Action>
    requires AddressesFit(p) && IsInstr(p, i)
  {
    Means(p[i].body.m, p[i].body.arg, Equates(p, i), Table(p))
  }

  ghost function CallLine(p: Program, i: nat, c: Core, a: word): SrcOutcome
    requires AddressesFit(p) && IsInstr(p, i)
  {
    if HitsCode(p, CallWrites(c.sp)) then Stuck
    else Enter(p, a, PushWord(c, Trunc16(Address(p, i) + Size(p[i]))))
  }

  /** One instruction of the source. */
  ghost function SrcAct(p: Program, i: nat, c: Core, action: Action): SrcOutcome
    requires AddressesFit(p) && IsInstr(p, i)
  {
    match action
    case Do(o) => if HitsCode(p, Written(o, c)) then Stuck else Onward(p, i, Effect(o, c))
    case BranchIf(on, b, target) => if Flag(c.sreg, b) == on then Enter(p, target, c) else Onward(p, i, c)
    case SkipIf(t) =>
      (match Next(p, i)
       case None => Stuck
       case Some(j) =>
         if Skips(t, c) then Onward(p, j, TestEffect(t, c)) else Going(Src(j, TestEffect(t, c))))
    case CallTo(a) => CallLine(p, i, c, a)
    case CallPair => CallLine(p, i, c, PairAt(c.reg, 14))
    case JumpTo(a) => Enter(p, a, c)
    case JumpPair => Enter(p, PairAt(c.reg, 14), c)
    case ReturnNow =>
      var r := Returned(Cpu(0, c));
      Enter(p, r.ip, r.core)
    case Finish => Ended(Src(i, c))
  }

  ghost function SrcStep(p: Program, s: Src): (t: SrcOutcome)
    requires AddressesFit(p) && IsInstr(p, s.line)
    ensures t.Going? ==> IsInstr(p, t.s.line)
  {
    hide Means, HitsCode, Effect, TestEffect, Skips, Flag, Written, CallWrites, PushWord, Returned, PairAt, Address,
      Size;
    match ActionAt(p, s.line)
    case None => Stuck
    case Some(a) => SrcAct(p, s.line, s.core, a)
  }

  ghost function SrcCycle(p: Program, s: Src, e: Event): (t: SrcOutcome)
    requires AddressesFit(p) && IsInstr(p, s.line)
    ensures t.Going? ==> IsInstr(p, t.s.line)
  {
    hide SrcStep, HitsCode, EventWrites, StoreEvent;
    match SrcStep(p, s)
    case Going(s1) =>
      if e.Stop? then Left(s1)
      else if HitsCode(p, EventWrites(e)) then Stuck
      else Going(s1.(core := s1.core.(mem := StoreEvent(s1.core.mem, e))))
    case other => other
  }

  ghost function SrcRun(p: Program, s: Src, events: seq<Event>): (t: SrcOutcome)
    requires AddressesFit(p) && IsInstr(p, s.line)
    ensures t.Going? ==> IsInstr(p, t.s.line)
    decreases |events|
  {
    hide SrcCycle;
    if events == [] then Going(s)
    else
      var t := SrcCycle(p, s, events[0]);
      if t.Going? then SrcRun(p, t.s, events[1..]) else t
  }

  // ----- lines and addresses -----

  /** Every instruction is whole in memory. */
  predicate InBounds(p: Program) {
    forall i :: 0 <= i < |p| && IsInstr(p, i) ==> Address(p, i) + Size(p[i]) <= 0x1_0000
  }

  /** Falling through takes control to the address after the line. */
  lemma {:induction false} FallAddress(p: Program, i: nat, k: nat)
    requires i < k <= |p| && SameSegment(p, i, k - 1) && SumOfSizes(p, i, k) == Size(p[i]) && Fall(p, k).Some?
    ensures Address(p, Fall(p, k).value) == Address(p, i) + Size(p[i])
    decreases |p| - k
  {
    hide Size, Address;
    PrefixSum(p, i, k);
    if !IsInstr(p, k) { FallAddress(p, i, k + 1); }
  }

  lemma NextAddress(p: Program, i: nat)
    requires AddressesFit(p) && i < |p| && Next(p, i).Some?
    ensures Address(p, Next(p, i).value) == Trunc16(Address(p, i) + Size(p[i]))
  {
    hide Size, Address;
    if Fall(p, i + 1).Some? {
      assert SumOfSizes(p, i, i) == 0;
      FallAddress(p, i, i + 1);
    }
  }

  lemma InstrSize(p: Program, i: nat)
    requires IsInstr(p, i)
    ensures Size(p[i]) == 2 || Size(p[i]) == 4
  {
    hide TypeOf;
  }

  /** No other instruction shares the address of a line, so that jumping there enters the line. */
  lemma {:induction false} OnlyLineAt(p: Program, i: nat, k: nat)
    requires CodeLast(p) && IsInstr(p, i) && Address(p, i) <= 0xffff && k <= i
    ensures LineAt(p, Address(p, i), k) == Some(i)
    decreases i - k
  {
    hide Size, Address;
    if k < i {
      if IsInstr(p, k) {
        assert LastThere(p, k) && Clear(p, k, i);
        InstrSize(p, k);
        InstrSize(p, i);
      }
      OnlyLineAt(p, i, k + 1);
    }
  }

  /** A call resumes, when its return address is popped, at the line after it. */
  lemma ReturnAddressLine(p: Program, i: nat)
    requires Assembles(p) && CodeLast(p) && IsInstr(p, i)
    ensures LineAt(p, Trunc16(Address(p, i) + Size(p[i])), 0) == Next(p, i)
  {
    hide Size, Address, LineFits, CodeLast;
    if Fall(p, i + 1).Some? {
      NextAddress(p, i);
      OnlyLineAt(p, Fall(p, i + 1).value, 0);
    }
  }

  // ----- fetching a line -----

  lemma ByteReadBack(v: bv8, x: bv16)
    requires x == v as bv16
    ensures x as int < 0x100 && (x as int) as bv8 == v
  {
    SameNumber(v, x);
  }

  lemma LowReadBack(op: bv16)
    ensures (LowByte(op) as bv8) as bv16 == op & 0x00ff
  {
    ByteReadBack((op & 0x00ff) as bv8, op & 0x00ff);
  }

  lemma HighReadBack(op: bv16)
    ensures (HighByte(op) as bv8) as bv16 == op >> 8
  {
    ByteReadBack((op >> 8) as bv8, op >> 8);
  }

  lemma HalvesMakeWord(op: bv16)
    ensures (op & 0x00ff) | ((op >> 8) << 8) == op
  {
  }

  /** The two bytes of a word give the word back. */
  lemma WordReadBack(m: Mem, a: word, op: bv16)
    requires a < 0xffff && m[a] == LowByte(op) && m[a + 1] == HighByte(op)
    ensures WordAt(m, a) == Some(op)
  {
    hide LowByte, HighByte;
    LowReadBack(op);
    HighReadBack(op);
    HalvesMakeWord(op);
  }

  lemma EncodedSize(m: Mnemonic, arg: Arg, early: seq<Equate>, late: seq<Equate>, at: word)
    ensures var c := Encode(m, arg, early, late, at); c.Some? ==> c.value.size == if IsWide(TypeOf(m)) then 4 else 2
  {
    hide TypeOf, GetOperand, Meaning, Displacement, DispField, ImmField, WordField, Merge;
    CodedSize(m, arg, early);
  }

  lemma CodeSize(p: Program, i: nat)
    requires Assembles(p) && IsInstr(p, i)
    ensures CodeAt(p, i).Some? && CodeAt(p, i).value.size == Size(p[i])
  {
    hide TypeOf, Encode, Address, Table, Equates;
    assert LineFits(p, i);
    EncodedSize(p[i].body.m, p[i].body.arg, Equates(p, i), Table(p), Address(p, i));
  }

  /**
   The views of a line's length agree: the size of the first pass, the bytes written, what a
   handler advances over, and what check_32 skips. The decoded instruction is the meaning of the line.
   */
  lemma FetchLine(p: Program, i: nat, m: Mem)
    requires Assembles(p) && IsInstr(p, i) && InMemory(p, i, m) && Address(p, i) + Size(p[i]) <= 0x1_0000
    ensures ActionAt(p, i).Some? && Fetch(m, Address(p, i)).Got?
    ensures var f := Fetch(m, Address(p, i));
            f.size == Size(p[i]) == |LineBytes(p, i)| && Realizes(f.i, ActionAt(p, i).value, Address(p, i))
    ensures WordAt(m, Address(p, i)).Some? && Is32(WordAt(m, Address(p, i)).value) == (Size(p[i]) == 4)
  {
    hide Encode, Means, Select, Fields, Is32, Realizes, Address, Size, WordAt, InMemory, LineBytes, Wide, LineFits,
      CodeAt, ActionAt, Fetch;
    LineFetched(p, i, m);
    LineCoded(p, i);
    LineLength(p, i);
  }

  lemma LineCoded(p: Program, i: nat)
    requires Assembles(p) && IsInstr(p, i)
    ensures CodeAt(p, i).Some? && ActionAt(p, i).Some?
    ensures Codes(CodeAt(p, i).value.opcode, CodeAt(p, i).value.extra, Size(p[i]), ActionAt(p, i).value, Address(p, i))
  {
    hide Encode, Means, Codes, Reaches, Address, Size, Equates, Table;
    assert LineFits(p, i);
    CodeSize(p, i);
    EncodeAgrees(p[i].body.m, p[i].body.arg, Equates(p, i), Table(p), Address(p, i));
  }

  lemma LineWords(p: Program, i: nat, m: Mem)
    requires Assembles(p) && IsInstr(p, i) && InMemory(p, i, m) && Address(p, i) + Size(p[i]) <= 0x1_0000
    requires CodeAt(p, i).Some?
    ensures Address(p, i) + 1 <= 0xffff && WordAt(m, Address(p, i)) == Some(CodeAt(p, i).value.opcode)
    ensures Size(p[i]) == 4 ==>
              Address(p, i) + 3 <= 0xffff
              && Join(m[Address(p, i) + 2], m[Address(p, i) + 3]) == CodeAt(p, i).value.extra
  {
    hide Encode, TypeOf, Address, LowByte, HighByte, WordAt, CodeAt, Trunc8, High, Join;
    var bytes := LineBytes(p, i);
    var c := CodeAt(p, i).value;
    InstrSize(p, i);
    LineLength(p, i);
    assert bytes[0] == LowByte(c.opcode) && bytes[1] == HighByte(c.opcode);
    assert m[Address(p, i) + 0] == bytes[0] && m[Address(p, i) + 1] == bytes[1];
    WordReadBack(m, Address(p, i), c.opcode);
    if Size(p[i]) == 4 {
      assert bytes[2] == Trunc8(c.extra) && bytes[3] == High(c.extra);
      assert m[Address(p, i) + 2] == bytes[2] && m[Address(p, i) + 3] == bytes[3];
      JoinHalves(c.extra);
    }
  }

  lemma LineFetched(p: Program, i: nat, m: Mem)
    requires Assembles(p) && IsInstr(p, i) && InMemory(p, i, m) && Address(p, i) + Size(p[i]) <= 0x1_0000
    ensures Address(p, i) <= 0xffff && Fetch(m, Address(p, i)).Got? && ActionAt(p, i).Some?
    ensures var f := Fetch(m, Address(p, i));
            f.size == Size(p[i]) && Realizes(f.i, ActionAt(p, i).value, Address(p, i))
    ensures WordAt(m, Address(p, i)).Some? && Is32(WordAt(m, Address(p, i)).value) == (Size(p[i]) == 4)
  {
    hide Encode, Means, Select, Fields, Is32, Realizes, Address, Size, WordAt, InMemory, LineBytes, Wide, LineFits,
      CodeAt, ActionAt, Join;
    LineCoded(p, i);
    LineWords(p, i, m);
    if Size(p[i]) == 2 { NarrowFields(CodeAt(p, i).value.opcode, CodeAt(p, i).value.extra); }
  }

  /** A handler that reads one word does not look at a second. */
  lemma NarrowFields(op: bv16, extra: word)
    requires Select(op).Some? && !Wide(Select(op).value)
    ensures Fields(Select(op).value, op, extra) == Fields(Select(op).value, op, 0)
  {
    hide Select, RegD, RegR, ImmK, PairOf, WordK, LowBits, MidBits, Disp, ModeOf, CbrOp;
  }

  // ----- simulation -----

  /** Every instruction stands in memory. */
  ghost predicate CodeIn(p: Program, m: Mem)
    requires Assembles(p)
  {
    hide InMemory;
    forall i :: 0 <= i < |p| && IsInstr(p, i) ==> InMemory(p, i, m)
  }

  function CpuOf(p: Program, s: Src): Cpu
    requires AddressesFit(p) && IsInstr(p, s.line)
  {
    Cpu(Address(p, s.line), s.core)
  }

  /** The machine is where the source says; once the source is stuck, nothing is said. */
  predicate Matches(p: Program, t: SrcOutcome, o: Outcome)
    requires AddressesFit(p)
  {
    match t
    case Going(s) => IsInstr(p, s.line) && o == Running(CpuOf(p, s))
    case Ended(s) => IsInstr(p, s.line) && o == Halted(Cpu(Trunc16(Address(p, s.line) + Size(p[s.line])), s.core))
    case Left(s) => IsInstr(p, s.line) && o == Quit(CpuOf(p, s))
    case Stuck => true
  }

  /** Both agree, and the code is still in place. */
  ghost predicate InStep(p: Program, t: SrcOutcome, o: Outcome)
    requires Assembles(p)
  {
    Matches(p, t, o) && (t.Going? ==> CodeIn(p, t.s.core.mem))
  }

  lemma CodeStays(p: Program, m: Mem, m': Mem, cells: set<word>)
    requires Assembles(p) && CodeIn(p, m) && SameBut(m, m', cells) && !HitsCode(p, cells)
    ensures CodeIn(p, m')
  {
    hide LineFits, InMemory, SameBut, HitsCode;
    forall i | 0 <= i < |p| && IsInstr(p, i) ensures InMemory(p, i, m') {
      assert InMemory(p, i, m);
      LineStays(p, i, m, m', cells);
    }
  }

  lemma LineStays(p: Program, i: nat, m: Mem, m': Mem, cells: set<word>)
    requires Assembles(p) && IsInstr(p, i) && InMemory(p, i, m) && SameBut(m, m', cells) && !HitsCode(p, cells)
    ensures InMemory(p, i, m')
  {
    hide LineFits, LineBytes, Address, Size, Contains, SameBut;
    LineLength(p, i);
    forall a: word | Address(p, i) <= a < Address(p, i) + |LineBytes(p, i)| ensures a !in cells {
      assert Covers(p, i, a);
    }
    ContainsStays(m, m', Address(p, i), LineBytes(p, i), cells);
  }

  lemma ContainsStays(m: Mem, m': Mem, a: nat, bytes: seq<byte>, cells: set<word>)
    requires Contains(m, a, bytes) && SameBut(m, m', cells)
    requires forall x: word :: a <= x < a + |bytes| ==> x !in cells
    ensures Contains(m', a, bytes)
  {
    var here, there := m[a..a + |bytes|], m'[a..a + |bytes|];
    forall k | 0 <= k < |bytes| ensures there[k] == here[k] {
      var x: word := a + k;
      assert x !in cells;
    }
  }

  lemma OnwardMatches(p: Program, i: nat, c: Core)
    requires Assembles(p) && IsInstr(p, i) && CodeIn(p, c.mem)
    ensures InStep(p, Onward(p, i, c), Running(Cpu(Trunc16(Address(p, i) + Size(p[i])), c)))
  {
    hide Address, Size, CodeIn, LineFits;
    if Next(p, i).Some? { NextAddress(p, i); }
  }

  lemma EnterMatches(p: Program, a: word, c: Core)
    requires Assembles(p) && CodeIn(p, c.mem)
    ensures InStep(p, Enter(p, a, c), Running(Cpu(a, c)))
  {
    hide Address, Size, CodeIn, LineFits;
  }

  lemma ComputeMatches(p: Program, i: nat, c: Core, o: Op)
    requires Assembles(p) && IsInstr(p, i) && CodeIn(p, c.mem)
    ensures InStep(p, SrcAct(p, i, c, Do(o)), Running(Ran(Cpu(Address(p, i), c), o, Size(p[i]))))
  {
    hide Address, Size, CodeIn, LineFits, Effect, Written, HitsCode, InStep, Onward, Matches;
    if HitsCode(p, Written(o, c)) {
      StuckMatches(p, Running(Ran(Cpu(Address(p, i), c), o, Size(p[i]))));
    } else {
      EffectWrites(o, c);
      CodeStays(p, c.mem, Effect(o, c).mem, Written(o, c));
      OnwardMatches(p, i, Effect(o, c));
    }
  }

  lemma StuckMatches(p: Program, o: Outcome)
    requires Assembles(p)
    ensures InStep(p, Stuck, o)
  {
  }

  lemma CallMatches(p: Program, i: nat, c: Core, a: word)
    requires Assembles(p) && IsInstr(p, i) && CodeIn(p, c.mem)
    ensures InStep(p, CallLine(p, i, c, a), Running(Called(Cpu(Address(p, i), c), Size(p[i]), a)))
  {
    hide Address, Size, CodeIn, LineFits, CallWrites, PushWord, HitsCode, InStep, Enter, Matches;
    var s := Cpu(Address(p, i), c);
    if HitsCode(p, CallWrites(c.sp)) {
      StuckMatches(p, Running(Called(s, Size(p[i]), a)));
    } else {
      CallWritesTwo(s, Size(p[i]), a);
      CodeStays(p, c.mem, Called(s, Size(p[i]), a).core.mem, CallWrites(c.sp));
      EnterMatches(p, a, Called(s, Size(p[i]), a).core);
    }
  }

  /** A skip leaves memory alone, so that check_32 looks at the line after it. */
  lemma SkipMatches(p: Program, i: nat, c: Core, t: Test)
    requires Assembles(p) && IsInstr(p, i) && CodeIn(p, c.mem) && InBounds(p) && Size(p[i]) == 2
    ensures InStep(p, SrcAct(p, i, c, SkipIf(t)), Perform(Cpu(Address(p, i), c), Skip(t), 2))
  {
    hide Address, Size, CodeIn, LineFits, InMemory, TestEffect, Skips, InStep, Onward, Matches, WordAt, Is32, Fetch,
      Realizes, ActionAt, LineBytes;
    var s := Cpu(Address(p, i), c);
    var c1 := TestEffect(t, c);
    TestKeepsMemory(t, c);
    match Next(p, i)
    case None => StuckMatches(p, Perform(s, Skip(t), 2));
    case Some(j) =>
      NextAddress(p, i);
      if Skips(t, c) {
        assert InMemory(p, j, c.mem) by { CodeLine(p, j, c.mem); }
        FetchLine(p, j, c.mem);
        InstrSize(p, j);
        OnwardMatches(p, j, c1);
      } else {
        OnwardMatches(p, i, c1);
        OnwardIs(p, i, c1);
      }
  }

  lemma CodeLine(p: Program, i: nat, m: Mem)
    requires Assembles(p) && CodeIn(p, m) && IsInstr(p, i)
    ensures InMemory(p, i, m)
  {
    hide LineFits, InMemory;
  }

  lemma OnwardIs(p: Program, i: nat, c: Core)
    requires i < |p| && Next(p, i).Some?
    ensures Onward(p, i, c) == Going(Src(Next(p, i).value, c))
  {
  }

  lemma TestKeepsMemory(t: Test, c: Core)
    ensures TestEffect(t, c) == c.(sreg := TestEffect(t, c).sreg)
  {
    hide SumFlags;
  }

  lemma BranchMatches(p: Program, i: nat, c: Core, on: bool, b: Bit, k: byte)
    requires Assembles(p) && IsInstr(p, i) && CodeIn(p, c.mem) && Size(p[i]) == 2
    ensures InStep(p, SrcAct(p, i, c, BranchIf(on, b, BranchTo(Address(p, i), k))),
                   Perform(Cpu(Address(p, i), c), Branch(on, b, k), 2))
  {
    hide Address, Size, CodeIn, LineFits, InStep, Onward, Enter, Matches, Flag, BranchTo;
    OnwardMatches(p, i, c);
    EnterMatches(p, BranchTo(Address(p, i), k), c);
  }

  lemma ActMatches(p: Program, i: nat, c: Core, instr: Instr, action: Action)
    requires Assembles(p) && IsInstr(p, i) && CodeIn(p, c.mem) && InBounds(p) && Realizes(instr, action, Address(p, i))
    requires (instr.Branch? || instr.Skip?) ==> Size(p[i]) == 2
    ensures InStep(p, SrcAct(p, i, c, action), Perform(Cpu(Address(p, i), c), instr, Size(p[i])))
  {
    hide Address, Size, CodeIn, LineFits, InStep, Onward, Enter, Matches, Flag, BranchTo, Effect, Written, HitsCode,
      Skipped,
      CallLine, Called, Fall, LineAt, TestEffect, Skips, PairAt, InBounds, Branched, Ran;
    match action
    case Do(o) => ComputeMatches(p, i, c, o);
    case BranchIf(on, b, target) => BranchMatches(p, i, c, on, b, instr.k);
    case SkipIf(t) => SkipMatches(p, i, c, t);
    case CallTo(a) => CallMatches(p, i, c, a);
    case CallPair => CallMatches(p, i, c, PairAt(c.reg, 14));
    case JumpTo(a) => EnterMatches(p, a, c);
    case JumpPair => EnterMatches(p, PairAt(c.reg, 14), c);
    case ReturnNow => ReturnMatches(p, i, c);
    case Finish => FinishMatches(p, i, c);
  }

  lemma ReturnMatches(p: Program, i: nat, c: Core)
    requires Assembles(p) && IsInstr(p, i) && CodeIn(p, c.mem)
    ensures InStep(p, SrcAct(p, i, c, ReturnNow), Running(Returned(Cpu(Address(p, i), c))))
  {
    hide Address, Size, CodeIn, LineFits, InStep, Enter, Matches, Join, PopTop;
    EnterMatches(p, Returned(Cpu(0, c)).ip, Returned(Cpu(0, c)).core);
  }

  lemma FinishMatches(p: Program, i: nat, c: Core)
    requires Assembles(p) && IsInstr(p, i)
    ensures InStep(p, SrcAct(p, i, c, Finish), Halted(Cpu(Trunc16(Address(p, i) + Size(p[i])), c)))
  {
    hide Address, Size, CodeIn, LineFits;
  }

  /** Branches and skips are one word long. */
  lemma OneWord(m: Mem, ip: word)
    requires Fetch(m, ip).Got? && (Fetch(m, ip).i.Branch? || Fetch(m, ip).i.Skip?)
    ensures Fetch(m, ip).size == 2
  {
    hide Select, WordAt, RegD, RegR, ImmK, PairOf, WordK, LowBits, MidBits, Disp, ModeOf, CbrOp, Join;
  }

  /** One instruction of the machine is one line of the source. */
  lemma StepMatches(p: Program, s: Src)
    requires Assembles(p) && InBounds(p) && IsInstr(p, s.line) && CodeIn(p, s.core.mem)
    ensures InStep(p, SrcStep(p, s), Step(CpuOf(p, s)))
  {
    hide LineFits, CodeIn, InMemory, Address, Size, SrcAct, Perform, InStep, ActionAt, Fetch, WordAt, Is32, Realizes,
      LineBytes;
    var i, m, at := s.line, s.core.mem, Address(p, s.line);
    CodeLine(p, i, m);
    FetchLine(p, i, m);
    if Fetch(m, at).i.Branch? || Fetch(m, at).i.Skip? { OneWord(m, at); }
    ActMatches(p, i, s.core, Fetch(m, at).i, ActionAt(p, i).value);
  }

  /** One turn of the loop, with what the outside world does after the instruction. */
  lemma CycleMatches(p: Program, s: Src, e: Event)
    requires Assembles(p) && InBounds(p) && IsInstr(p, s.line) && CodeIn(p, s.core.mem)
    ensures InStep(p, SrcCycle(p, s, e), Cycle(CpuOf(p, s), e))
  {
    hide LineFits, CodeIn, InMemory, Address, Size, SrcStep, Step, StoreEvent, EventWrites, HitsCode;
    StepMatches(p, s);
    var t := SrcStep(p, s);
    if t.Going? && e.Tick? && !HitsCode(p, EventWrites(e)) {
      EventWritesFew(t.s.core.mem, e);
      CodeStays(p, t.s.core.mem, StoreEvent(t.s.core.mem, e), EventWrites(e));
    }
  }

  /** Runs of any length: the byte-level run simulates the source-level run until that is stuck. */
  lemma {:induction false} RunMatches(p: Program, s: Src, events: seq<Event>)
    requires Assembles(p) && InBounds(p) && IsInstr(p, s.line) && CodeIn(p, s.core.mem)
    ensures InStep(p, SrcRun(p, s, events), Run(CpuOf(p, s), events))
    decreases |events|
  {
    hide LineFits, CodeIn, Address, Size, SrcCycle, Cycle, InBounds;
    if events != [] {
      CycleMatches(p, s, events[0]);
      if SrcCycle(p, s, events[0]).Going? {
        RunMatches(p, SrcCycle(p, s, events[0]).s, events[1..]);
      }
    }
  }

  // ----- from the source to the running image -----

  predicate CodeOffScreen(p: Program) { forall i :: 0 <= i < |p| && IsInstr(p, i) ==> OffScreen(p, i) }

  /** The machine as execute starts it on the loaded image, over what was in memory before. */
  function Boot(p: Program, junk: Mem): Cpu
    requires Assembles(p)
  {
    Cpu(0, Core(0xffff, seq(16, _ => 0), 0, Loaded(FileOf(p, |p|), junk)))
  }

  lemma BootHasCode(p: Program, junk: Mem)
    requires Assembles(p) && CodeApart(p) && CodeOffScreen(p)
    ensures InBounds(p) && CodeIn(p, Boot(p, junk).core.mem)
  {
    hide LineFits, InMemory, CodeApart, FileOf, Loaded, Address, Size;
    CodeApartIsLast(p);
    forall i | 0 <= i < |p| && IsInstr(p, i) ensures InMemory(p, i, Boot(p, junk).core.mem) {
      ReadBack(p, i, junk);
    }
  }

  /** The run of an assembled, written and loaded program is the run of its source, from the line at address 0. */
  lemma ImageRunsAsSource(p: Program, junk: Mem, events: seq<Event>)
    requires Assembles(p) && CodeApart(p) && CodeOffScreen(p) && LineAt(p, 0, 0).Some?
    ensures Matches(p, SrcRun(p, Src(LineAt(p, 0, 0).value, Boot(p, junk).core), events), Run(Boot(p, junk), events))
  {
    hide LineFits, CodeApart, CodeOffScreen, CodeIn, InBounds, Matches, Address, SrcRun, Loaded, FileOf;
    BootHasCode(p, junk);
    RunMatches(p, Src(LineAt(p, 0, 0).value, Boot(p, junk).core), events);
  }

  lemma {:induction false} SrcRunPrefix(p: Program, s: Src, events: seq<Event>, k: nat)
    requires AddressesFit(p) && IsInstr(p, s.line) && k <= |events|
    ensures SrcRun(p, s, events[..k]).Stuck? ==> SrcRun(p, s, events).Stuck?
    decreases k
  {
    hide SrcCycle, AddressesFit;
    if k > 0 {
      assert events[..k][0] == events[0] && events[..k][1..] == events[1..][..k - 1];
      if SrcCycle(p, s, events[0]).Going? { SrcRunPrefix(p, SrcCycle(p, s, events[0]).s, events[1..], k - 1); }
    }
  }

  /** As long as the source is not stuck, the machine stands at the start of an instruction after every turn. */
  lemma InstructionBoundaries(p: Program, junk: Mem, events: seq<Event>, k: nat)
    requires Assembles(p) && CodeApart(p) && CodeOffScreen(p) && LineAt(p, 0, 0).Some? && k <= |events|
    requires !SrcRun(p, Src(LineAt(p, 0, 0).value, Boot(p, junk).core), events).Stuck?
    ensures var o := Run(Boot(p, junk), events[..k]);
            !o.Wild? && !o.Unrecognized?
            && (o.Running? ==> exists i :: 0 <= i < |p| && IsInstr(p, i) && Address(p, i) == o.s.ip)
  {
    hide LineFits, CodeApart, CodeOffScreen, Address, SrcRun, Boot, LineAt;
    SrcRunPrefix(p, Src(LineAt(p, 0, 0).value, Boot(p, junk).core), events, k);
    ImageRunsAsSource(p, junk, events[..k]);
    var t := SrcRun(p, Src(LineAt(p, 0, 0).value, Boot(p, junk).core), events[..k]);
    if t.Going? { assert IsInstr(p, t.s.line); }
  }
}
