/**
 The assembler and the emulator describe one encoding: whatever is assembled from a legal line,
 the chain of masks decodes to the meaning of its mnemonic.
 */
module Agreement {
  import opened Words
  import opened Isa
  import opened Source
  import opened Encoder

  /** The instruction does what the action says when it stands at the address. */
  predicate Realizes(i: Instr, a: Action, at: word) {
    match a
    case Do(o) => i == Compute(o)
    case BranchIf(on, b, target) => i.Branch? && i.on == on && i.b == b && BranchTo(at, i.k) == target
    case SkipIf(t) => i == Skip(t)
    case CallTo(x) => i == Call(x)
    case JumpTo(x) => i == Jump(x)
    case CallPair => i == CallInd
    case JumpPair => i == JumpInd
    case ReturnNow => i == Return
    case Finish => i == Break
  }

  /**
   The words decode to the action, and the views of the length agree: what the handler fetches,
   what check_32 says, and that the opcode is not the mark of an empty line.
   */
  predicate Codes(op: bv16, extra: word, size: word, a: Action, at: word) {
    && Select(op).Some?
    && Realizes(Fields(Select(op).value, op, extra), a, at)
    && size == (if Wide(Select(op).value) then 4 else 2)
    && Is32(op) == (size == 4)
    && op != NOCODE
  }

  lemma SameNumber(d: bv8, x: bv16)
    requires x == d as bv16
    ensures x as int == d as int
  {
  }

  /** The register fields of an opcode whose low byte is free. */
  lemma RegBits(base: bv16, d: bv8, r: bv8)
    requires base & 0x00ff == 0 && d < 16 && r < 16
    ensures var op := Merge(Merge(base, Field4(d)), r as bv16);
            (op & 0x00f0) >> 4 == d as bv16 && op & 0x000f == r as bv16 && op & 0xff00 == base
  {
  }

  lemma RegFields(base: bv16, d: bv8, r: bv8)
    requires base & 0x00ff == 0 && d < 16 && r < 16
    ensures var op := Merge(Merge(base, Field4(d)), r as bv16);
            RegD(op) == d as int && RegR(op) == r as int && op & 0xff00 == base
  {
    hide Merge, Field4;
    var op := Merge(Merge(base, Field4(d)), r as bv16);
    RegBits(base, d, r);
    SameNumber(d, (op & 0x00f0) >> 4);
    SameNumber(r, op & 0x000f);
  }

  lemma CodesFrom(op: bv16, h: Handler, extra: word, a: Action, at: word)
    requires Select(op) == Some(h) && Is32(op) == Wide(h) && op != NOCODE
    requires Realizes(Fields(h, op, extra), a, at)
    ensures Codes(op, extra, if Wide(h) then 4 else 2, a, at)
  {
    hide Select, Is32, Fields, Realizes, Wide;
  }

  // ----- two registers -----

  function DualHandler(m: Mnemonic): Handler
    requires TypeOf(m).DirDual?
  {
    match m
    case MAddWithC => HAdc
    case MAdd => HAdd
    case MAnd => HAnd
    case MCompare => HCp
    case MCompareCarry => HCpc
    case MCompareSkipEqu => HCpse
    case MExclusiveOr => HEor
    case MMove => HMov
    case MMultiply => HMul
    case MMultiplyS => HMuls
    case MOr => HOr
    case MSubtractWithC => HSbc
    case MSubtract => HSub
  }

  lemma DualSelects1(m: Mnemonic, op: bv16)
    requires m.MAddWithC? || m.MAdd? || m.MAnd? || m.MCompare? || m.MCompareCarry?
    requires op & 0xff00 == CodeOf(m)
    ensures Select(op) == Some(DualHandler(m)) && !Is32(op) && op != NOCODE
  {
    match m
    case MAddWithC => assert op & 0xff00 == 0x1c00;
    case MAdd => assert op & 0xff00 == 0x0c00;
    case MAnd => assert op & 0xff00 == 0x2000;
    case MCompare => assert op & 0xff00 == 0x1400;
    case MCompareCarry => assert op & 0xff00 == 0x0400;
  }

  lemma DualSelects2(m: Mnemonic, op: bv16)
    requires m.MCompareSkipEqu? || m.MExclusiveOr? || m.MMove? || m.MMultiply? || m.MMultiplyS?
    requires op & 0xff00 == CodeOf(m)
    ensures Select(op) == Some(DualHandler(m)) && !Is32(op) && op != NOCODE
  {
    match m
    case MCompareSkipEqu => assert op & 0xff00 == 0x1000;
    case MExclusiveOr => assert op & 0xff00 == 0x2400;
    case MMove => assert op & 0xff00 == 0x2c00;
    case MMultiply => assert op & 0xff00 == 0x9c00;
    case MMultiplyS => assert op & 0xff00 == 0x0200;
  }

  lemma DualSelects3(m: Mnemonic, op: bv16)
    requires m.MOr? || m.MSubtractWithC? || m.MSubtract?
    requires op & 0xff00 == CodeOf(m)
    ensures Select(op) == Some(DualHandler(m)) && !Is32(op) && op != NOCODE
  {
    match m
    case MOr => assert op & 0xff00 == 0x2800;
    case MSubtractWithC => assert op & 0xff00 == 0x0800;
    case MSubtract => assert op & 0xff00 == 0x1800;
  }

  lemma DualSelects(m: Mnemonic, op: bv16)
    requires TypeOf(m).DirDual? && op & 0xff00 == CodeOf(m)
    ensures Select(op) == Some(DualHandler(m)) && !Is32(op) && op != NOCODE
  {
    hide Select, Is32;
    match m
    case MAddWithC | MAdd | MAnd | MCompare | MCompareCarry => DualSelects1(m, op);
    case MCompareSkipEqu | MExclusiveOr | MMove | MMultiply | MMultiplyS => DualSelects2(m, op);
    case MOr | MSubtractWithC | MSubtract => DualSelects3(m, op);
  }

  lemma DualBase(m: Mnemonic)
    requires TypeOf(m).DirDual?
    ensures CodeOf(m) & 0x00ff == 0
  {
  }

  lemma DualRealized(m: Mnemonic, op: bv16, at: word)
    requires TypeOf(m).DirDual?
    ensures Realizes(Fields(DualHandler(m), op, 0), DualMeaning(m, RegD(op), RegR(op)), at) && !Wide(DualHandler(m))
  {
    hide RegD, RegR, ImmK, PairOf, WordK, LowBits, MidBits, Disp, ModeOf, CbrOp;
  }

  lemma DualCodes(m: Mnemonic, d: RegNo, r: RegNo, op: bv16, at: word)
    requires TypeOf(m).DirDual? && op & 0xff00 == CodeOf(m) && RegD(op) == d && RegR(op) == r
    ensures Codes(op, 0, 2, DualMeaning(m, d, r), at)
  {
    hide TypeOf, CodeOf, Select, Is32, Fields, Realizes, Wide, DualHandler, DualMeaning, RegD, RegR;
    DualSelects(m, op);
    DualRealized(m, op, at);
    CodesFrom(op, DualHandler(m), 0, DualMeaning(m, d, r), at);
  }

  lemma DualAgrees(m: Mnemonic, d: bv8, r: bv8, at: word)
    requires TypeOf(m).DirDual? && d < 16 && r < 16
    ensures Codes(Merge(Merge(CodeOf(m), Field4(d)), r as bv16), 0, 2, DualMeaning(m, d as int, r as int), at)
  {
    hide TypeOf, CodeOf, Field4, Merge, Codes, DualMeaning, RegD, RegR;
    var op := Merge(Merge(CodeOf(m), Field4(d)), r as bv16);
    DualBase(m);
    RegFields(CodeOf(m), d, r);
    DualCodes(m, d as int, r as int, op, at);
  }

  // ----- one register -----

  function SingleHandler(m: Mnemonic): Handler
    requires TypeOf(m).DirSing?
  {
    match m
    case MArithShiftRt => HAsr
    case MCompliment => HCom
    case MDecrement => HDec
    case MIncrement => HInc
    case MLogicalShiftRt => HLsr
    case MNegate => HNeg
    case MPop => HPop
    case MPush => HPush
    case MRotateRight => HRor
    case MSetAllReg => HLdi
    case MSwap => HSwap
  }

  lemma SingleSelects1(m: Mnemonic, op: bv16)
    requires m.MArithShiftRt? || m.MCompliment? || m.MDecrement? || m.MIncrement?
    requires op & 0xff0f == CodeOf(m)
    ensures Select(op) == Some(SingleHandler(m)) && !Is32(op) && op != NOCODE
  {
    match m
    case MArithShiftRt => assert op & 0xff0f == 0x9405;
    case MCompliment => assert op & 0xff0f == 0x9400;
    case MDecrement => assert op & 0xff0f == 0x940a;
    case MIncrement => assert op & 0xff0f == 0x9403;
  }

  lemma SingleSelects2(m: Mnemonic, op: bv16)
    requires m.MLogicalShiftRt? || m.MNegate? || m.MPop? || m.MPush?
    requires op & 0xff0f == CodeOf(m)
    ensures Select(op) == Some(SingleHandler(m)) && !Is32(op) && op != NOCODE
  {
    match m
    case MLogicalShiftRt => assert op & 0xff0f == 0x9406;
    case MNegate => assert op & 0xff0f == 0x9401;
    case MPop => assert op & 0xff0f == 0x9203;
    case MPush => assert op & 0xff0f == 0x920f;
  }

  lemma SingleSelects3(m: Mnemonic, op: bv16)
    requires m.MRotateRight? || m.MSetAllReg? || m.MSwap?
    requires op & 0xff0f == CodeOf(m)
    ensures Select(op) == Some(SingleHandler(m)) && !Is32(op) && op != NOCODE
  {
    match m
    case MRotateRight => assert op & 0xff0f == 0x9407;
    case MSetAllReg => assert op & 0xff0f == 0xef0f;
    case MSwap => assert op & 0xff0f == 0x9402;
  }

  lemma SingleSelects(m: Mnemonic, op: bv16)
    requires TypeOf(m).DirSing? && op & 0xff0f == CodeOf(m)
    ensures Select(op) == Some(SingleHandler(m)) && !Is32(op) && op != NOCODE
  {
    hide Select, Is32;
    match m
    case MArithShiftRt | MCompliment | MDecrement | MIncrement => SingleSelects1(m, op);
    case MLogicalShiftRt | MNegate | MPop | MPush => SingleSelects2(m, op);
    case MRotateRight | MSetAllReg | MSwap => SingleSelects3(m, op);
  }

  lemma SingleBase(m: Mnemonic)
    requires TypeOf(m).DirSing?
    ensures CodeOf(m) & 0x00f0 == 0
  {
  }

  /** The register field of an opcode whose middle nibble is free. */
  lemma SingleBits(base: bv16, d: bv8)
    requires base & 0x00f0 == 0 && d < 16
    ensures var op := Merge(base, Field4(d));
            (op & 0x00f0) >> 4 == d as bv16 && op & 0xff0f == base
            && (base == 0xef0f ==> (op & 0x000f) | ((op & 0x0f00) >> 4) == 0xff)
  {
  }

  lemma RegField(base: bv16, d: bv8)
    requires base & 0x00f0 == 0 && d < 16
    ensures var op := Merge(base, Field4(d));
            RegD(op) == d as int && op & 0xff0f == base && (base == 0xef0f ==> ImmK(op) == 0xff)
  {
    hide Merge, Field4;
    var op := Merge(base, Field4(d));
    SingleBits(base, d);
    SameNumber(d, (op & 0x00f0) >> 4);
  }

  lemma SingleBaseOf(m: Mnemonic)
    requires TypeOf(m).DirSing?
    ensures m.MSetAllReg? ==> CodeOf(m) == 0xef0f
  {
  }

  lemma SingleRealized(m: Mnemonic, op: bv16, at: word)
    requires TypeOf(m).DirSing? && (m.MSetAllReg? ==> ImmK(op) == 0xff)
    ensures Realizes(Fields(SingleHandler(m), op, 0), SingleMeaning(m, RegD(op)), at) && !Wide(SingleHandler(m))
  {
    hide RegD, ImmK, RegR, PairOf, WordK, LowBits, MidBits, Disp, ModeOf, CbrOp;
  }

  lemma SingleCodes(m: Mnemonic, d: RegNo, op: bv16, at: word)
    requires TypeOf(m).DirSing? && op & 0xff0f == CodeOf(m) && RegD(op) == d && (m.MSetAllReg? ==> ImmK(op) == 0xff)
    ensures Codes(op, 0, 2, SingleMeaning(m, d), at)
  {
    hide TypeOf, CodeOf, Select, Is32, Fields, Realizes, Wide, SingleHandler, SingleMeaning, RegD, ImmK;
    SingleSelects(m, op);
    SingleRealized(m, op, at);
    CodesFrom(op, SingleHandler(m), 0, SingleMeaning(m, d), at);
  }

  lemma SingleAgrees(m: Mnemonic, d: bv8, at: word)
    requires TypeOf(m).DirSing? && d < 16
    ensures Codes(Merge(CodeOf(m), Field4(d)), 0, 2, SingleMeaning(m, d as int), at)
  {
    hide TypeOf, CodeOf, Field4, Merge, Codes, SingleMeaning, RegD, ImmK;
    var op := Merge(CodeOf(m), Field4(d));
    SingleBaseOf(m);
    SingleBase(m);
    RegField(CodeOf(m), d);
    SingleCodes(m, d as int, op, at);
  }

  // ----- one register used twice -----

  function DoubledHandler(m: Mnemonic): Handler
    requires TypeOf(m).DirStd?
  {
    match m
    case MClearReg => HEor
    case MLogicalShiftLt => HAdd
    case MRotateLeft => HAdc
    case MTestZero => HAnd
  }

  lemma DoubledSelects(m: Mnemonic, op: bv16)
    requires TypeOf(m).DirStd? && op & 0xff00 == CodeOf(m)
    ensures Select(op) == Some(DoubledHandler(m)) && !Is32(op) && op != NOCODE
  {
    match m
    case MClearReg => assert op & 0xff00 == 0x2400;
    case MLogicalShiftLt => assert op & 0xff00 == 0x0c00;
    case MRotateLeft => assert op & 0xff00 == 0x1c00;
    case MTestZero => assert op & 0xff00 == 0x2000;
  }

  lemma DoubledBase(m: Mnemonic)
    requires TypeOf(m).DirStd?
    ensures CodeOf(m) & 0x00ff == 0
  {
  }

  lemma DoubledRealized(m: Mnemonic, op: bv16, at: word)
    requires TypeOf(m).DirStd? && RegD(op) == RegR(op)
    ensures Realizes(Fields(DoubledHandler(m), op, 0), DoubledMeaning(m, RegD(op)), at) && !Wide(DoubledHandler(m))
  {
    hide RegD, RegR;
  }

  lemma DoubledCodes(m: Mnemonic, d: RegNo, op: bv16, at: word)
    requires TypeOf(m).DirStd? && op & 0xff00 == CodeOf(m) && RegD(op) == d && RegR(op) == d
    ensures Codes(op, 0, 2, DoubledMeaning(m, d), at)
  {
    hide TypeOf, CodeOf, Select, Is32, Fields, Realizes, Wide, DoubledHandler, DoubledMeaning, RegD, RegR;
    DoubledSelects(m, op);
    DoubledRealized(m, op, at);
    CodesFrom(op, DoubledHandler(m), 0, DoubledMeaning(m, d), at);
  }

  lemma DoubledAgrees(m: Mnemonic, d: bv8, at: word)
    requires TypeOf(m).DirStd? && d < 16
    ensures Codes(Merge(Merge(CodeOf(m), Field4(d)), d as bv16), 0, 2, DoubledMeaning(m, d as int), at)
  {
    hide TypeOf, CodeOf, Field4, Merge, Codes, DoubledMeaning, RegD, RegR;
    var op := Merge(Merge(CodeOf(m), Field4(d)), d as bv16);
    DoubledBase(m);
    RegFields(CodeOf(m), d, d);
    DoubledCodes(m, d as int, op, at);
  }

  // ----- a register and a byte -----

  function ByteHandler(m: Mnemonic): Handler
    requires TypeOf(m).ImmByte?
  {
    match m
    case MAndImm => HAndi
    case MClearBitsReg => HCbr
    case MCompareImm => HCpi
    case MLoadImm => HLdi
    case MOrImm => HOri
    case MSubtractImmC => HSbci
    case MSetBitsReg => HOri
    case MSubtractImm => HSubi
  }

  lemma ByteSelects1(m: Mnemonic, op: bv16)
    requires m.MAndImm? || m.MClearBitsReg? || m.MCompareImm? || m.MLoadImm?
    requires op & 0xf000 == CodeOf(m)
    ensures Select(op) == Some(ByteHandler(m)) && !Is32(op) && op != NOCODE
  {
    match m
    case MAndImm => assert op & 0xf000 == 0x7000;
    case MClearBitsReg => assert op & 0xf000 == 0xc000;
    case MCompareImm => assert op & 0xf000 == 0x3000;
    case MLoadImm => assert op & 0xf000 == 0xe000;
  }

  lemma ByteSelects2(m: Mnemonic, op: bv16)
    requires m.MOrImm? || m.MSubtractImmC? || m.MSetBitsReg? || m.MSubtractImm?
    requires op & 0xf000 == CodeOf(m)
    ensures Select(op) == Some(ByteHandler(m)) && !Is32(op) && op != NOCODE
  {
    match m
    case MOrImm => assert op & 0xf000 == 0x6000;
    case MSubtractImmC => assert op & 0xf000 == 0x4000;
    case MSetBitsReg => assert op & 0xf000 == 0x6000;
    case MSubtractImm => assert op & 0xf000 == 0x5000;
  }

  lemma ByteSelects(m: Mnemonic, op: bv16)
    requires TypeOf(m).ImmByte? && op & 0xf000 == CodeOf(m)
    ensures Select(op) == Some(ByteHandler(m)) && !Is32(op) && op != NOCODE
  {
    hide Select, Is32;
    match m
    case MAndImm | MClearBitsReg | MCompareImm | MLoadImm => ByteSelects1(m, op);
    case MOrImm | MSubtractImmC | MSetBitsReg | MSubtractImm => ByteSelects2(m, op);
  }

  lemma ByteBase(m: Mnemonic)
    requires TypeOf(m).ImmByte?
    ensures CodeOf(m) & 0x0fff == 0
  {
  }

  /** The fields of an immediate instruction; cbr complements the byte and keeps the register. */
  lemma ByteBits(base: bv16, d: bv8, k: bv8)
    requires base & 0x0fff == 0 && d < 16
    ensures var op := Merge(Merge(base, Field4(d)), ImmField(k));
            && (op & 0x00f0) >> 4 == d as bv16
            && (op & 0x000f) | ((op & 0x0f00) >> 4) == k as bv16
            && op & 0xf000 == base
  {
  }

  lemma CbrBits(base: bv16, d: bv8, k: bv8)
    requires base & 0x0fff == 0 && d < 16
    ensures var op := CbrOp(Merge(Merge(base, Field4(d)), ImmField(k)));
            (op & 0x00f0) >> 4 == d as bv16 && (op & 0x000f) | ((op & 0x0f00) >> 4) == (!k) as bv16
  {
  }

  lemma RegDIs(op: bv16, d: bv8)
    requires (op & 0x00f0) >> 4 == d as bv16
    ensures RegD(op) == d as int
  {
    SameNumber(d, (op & 0x00f0) >> 4);
  }

  lemma ImmKIs(op: bv16, k: bv8)
    requires (op & 0x000f) | ((op & 0x0f00) >> 4) == k as bv16
    ensures ImmK(op) == k as int
  {
    SameNumber(k, (op & 0x000f) | ((op & 0x0f00) >> 4));
  }

  lemma ByteFields(base: bv16, d: bv8, k: bv8)
    requires base & 0x0fff == 0 && d < 16
    ensures var op := Merge(Merge(base, Field4(d)), ImmField(k));
            RegD(op) == d as int && ImmK(op) == k as int && op & 0xf000 == base
  {
    hide Merge, Field4, ImmField, RegD, ImmK;
    var op := Merge(Merge(base, Field4(d)), ImmField(k));
    ByteBits(base, d, k);
    RegDIs(op, d);
    ImmKIs(op, k);
  }

  lemma CbrFields(base: bv16, d: bv8, k: bv8)
    requires base & 0x0fff == 0 && d < 16
    ensures var c := CbrOp(Merge(Merge(base, Field4(d)), ImmField(k)));
            RegD(c) == d as int && ImmK(c) == 0xff - k as int
  {
    hide Merge, Field4, ImmField, CbrOp, RegD, ImmK;
    var c := CbrOp(Merge(Merge(base, Field4(d)), ImmField(k)));
    CbrBits(base, d, k);
    RegDIs(c, d);
    ImmKIs(c, !k);
    Complement(k);
  }

  lemma ByteRealized(m: Mnemonic, op: bv16, d: RegNo, k: byte, at: word)
    requires TypeOf(m).ImmByte?
    requires if m.MClearBitsReg? then RegD(CbrOp(op)) == d && ImmK(CbrOp(op)) == 0xff - k
             else RegD(op) == d && ImmK(op) == k
    ensures Realizes(Fields(ByteHandler(m), op, 0), ByteMeaning(m, d, k), at) && !Wide(ByteHandler(m))
  {
    hide RegD, ImmK, CbrOp;
  }

  lemma ByteCodes(m: Mnemonic, d: RegNo, k: byte, op: bv16, at: word)
    requires TypeOf(m).ImmByte? && op & 0xf000 == CodeOf(m)
    requires if m.MClearBitsReg? then RegD(CbrOp(op)) == d && ImmK(CbrOp(op)) == 0xff - k
             else RegD(op) == d && ImmK(op) == k
    ensures Codes(op, 0, 2, ByteMeaning(m, d, k), at)
  {
    hide TypeOf, CodeOf, Select, Is32, Fields, Realizes, Wide, ByteHandler, ByteMeaning, RegD, ImmK, CbrOp;
    ByteSelects(m, op);
    ByteRealized(m, op, d, k, at);
    CodesFrom(op, ByteHandler(m), 0, ByteMeaning(m, d, k), at);
  }

  lemma ByteAgrees(m: Mnemonic, d: bv8, k: bv8, at: word)
    requires TypeOf(m).ImmByte? && d < 16
    ensures Codes(Merge(Merge(CodeOf(m), Field4(d)), ImmField(k)), 0, 2, ByteMeaning(m, d as int, k as int), at)
  {
    hide TypeOf, CodeOf, Field4, Merge, Codes, ByteMeaning, RegD, ImmK, CbrOp, ImmField;
    var op := Merge(Merge(CodeOf(m), Field4(d)), ImmField(k));
    ByteBase(m);
    ByteFields(CodeOf(m), d, k);
    CbrFields(CodeOf(m), d, k);
    ByteCodes(m, d as int, k as int, op, at);
  }

  // ----- a register and a bit -----

  function BitHandler(m: Mnemonic): Handler
    requires TypeOf(m).LdstrBit?
  {
    match m
    case MBitLoad => HBld
    case MBitStoreT => HBst
    case MSkipBitRegClr => HSbrc
    case MSkipBitRegSet => HSbrs
  }

  lemma BitSelects(m: Mnemonic, op: bv16)
    requires TypeOf(m).LdstrBit? && op & 0xff08 == CodeOf(m)
    ensures Select(op) == Some(BitHandler(m)) && !Is32(op) && op != NOCODE
  {
    match m
    case MBitLoad => assert op & 0xff08 == 0xf800;
    case MBitStoreT => assert op & 0xff08 == 0xfa00;
    case MSkipBitRegClr => assert op & 0xff08 == 0xfc00;
    case MSkipBitRegSet => assert op & 0xff08 == 0xfe00;
  }

  lemma BitBase(m: Mnemonic)
    requires TypeOf(m).LdstrBit?
    ensures CodeOf(m) & 0x00ff == 0
  {
  }

  lemma BitRealized(m: Mnemonic, op: bv16, at: word)
    requires TypeOf(m).LdstrBit?
    ensures Realizes(Fields(BitHandler(m), op, 0), BitMeaning(m, RegD(op), LowBits(op)), at) && !Wide(BitHandler(m))
  {
    hide RegD, LowBits;
  }

  lemma BitCodes(m: Mnemonic, d: RegNo, b: Bit, op: bv16, at: word)
    requires TypeOf(m).LdstrBit? && op & 0xff08 == CodeOf(m) && RegD(op) == d && LowBits(op) == b
    ensures Codes(op, 0, 2, BitMeaning(m, d, b), at)
  {
    hide TypeOf, CodeOf, Select, Is32, Fields, Realizes, Wide, BitHandler, BitMeaning, RegD, LowBits;
    BitSelects(m, op);
    BitRealized(m, op, at);
    CodesFrom(op, BitHandler(m), 0, BitMeaning(m, d, b), at);
  }

  lemma BitAgrees(m: Mnemonic, d: bv8, b: Bit, at: word)
    requires TypeOf(m).LdstrBit? && d < 16
    ensures Codes(Merge(Merge(CodeOf(m), Field4(d)), Nibble(b) as bv16), 0, 2, BitMeaning(m, d as int, b), at)
  {
    hide TypeOf, CodeOf, Field4, Merge, Codes, BitMeaning, RegD, LowBits, Nibble;
    var op := Merge(Merge(CodeOf(m), Field4(d)), Nibble(b) as bv16);
    BitBase(m);
    BitFields(CodeOf(m), d, Nibble(b));
    BitCodes(m, d as int, b, op, at);
  }

  lemma BitBits(base: bv16, d: bv8, b: bv8)
    requires base & 0x00ff == 0 && d < 16 && b < 8
    ensures var op := Merge(Merge(base, Field4(d)), b as bv16);
            (op & 0x00f0) >> 4 == d as bv16 && op & 0x0007 == b as bv16 && op & 0xff08 == base
  {
  }

  lemma SmallByte(b: bv8)
    requires b as int < 8
    ensures b < 8
  {
  }

  lemma BitFields(base: bv16, d: bv8, b: bv8)
    requires base & 0x00ff == 0 && d < 16 && b as int < 8
    ensures var op := Merge(Merge(base, Field4(d)), b as bv16);
            RegD(op) == d as int && LowBits(op) == b as int && op & 0xff08 == base
  {
    hide Merge, Field4;
    var op := Merge(Merge(base, Field4(d)), b as bv16);
    SmallByte(b);
    BitBits(base, d, b);
    SameNumber(d, (op & 0x00f0) >> 4);
    SameNumber(b, op & 0x0007);
  }

  // ----- branches -----

  /** The displacement and the bit of a branch whose displacement field is free. */
  lemma BranchBits(base: bv16, k: bv8)
    requires base & 0x03f8 == 0 && k < 0x80
    ensures var op := Merge(base, DispField(k));
            (op & 0x03f8) >> 3 == k as bv16 && op & 0x0007 == base & 0x0007 && op & 0xfc00 == base & 0xfc00
  {
  }

  lemma BranchSelects(op: bv16)
    requires op & 0xfc00 == 0xf400 || op & 0xfc00 == 0xf000
    ensures Select(op) == Some(if op & 0xfc00 == 0xf000 then HBranchSet else HBranchClr) && !Is32(op) && op != NOCODE
  {
    if op & 0xfc00 == 0xf000 {} else {}
  }

  /** Every displacement that is in range leads from the branch to its target. */
  lemma BranchReaches(target: word, at: word)
    requires -64 <= Displacement(target, at) <= 63
    ensures BranchTo(at, Displacement(target, at) % 0x80) == target
  {
    var k := Displacement(target, at);
    if k < 0 { assert k % 0x80 == k + 0x80; } else { assert k % 0x80 == k; }
  }

  /**
   A branch with any base opcode, flag and addresses: accepted with a displacement from -64 to 63,
   it sends the emulator to the target when taken, and to the next instruction when not.
   */
  lemma BranchCodes(base: bv16, on: bool, b: Bit, target: word, at: word)
    requires base & 0xfff8 == (if on then 0xf000 else 0xf400) && (base & 0x0007) as int == b
    requires -64 <= Displacement(target, at) <= 63
    ensures Codes(Merge(base, DispField((Displacement(target, at) % 0x80) as bv8)), 0, 2, BranchIf(on, b, target), at)
  {
    hide Select, Is32, Fields, DispField, Displacement, BranchTo;
    var k := Displacement(target, at) % 0x80;
    var op := Merge(base, DispField(k as bv8));
    BranchFields(base, k);
    BranchSelects(op);
    BranchReaches(target, at);
    BranchRealized(op, on, at);
    hide Merge;
    CodesFrom(op, if on then HBranchSet else HBranchClr, 0, BranchIf(on, b, target), at);
  }

  lemma BranchFieldsOf(base: bv16, k: bv8)
    requires base & 0x03f8 == 0 && k < 0x80
    ensures var op := Merge(base, DispField(k));
            LowBits(op) == (base & 0x0007) as int && Disp(op) == k as int && op & 0xfc00 == base & 0xfc00
  {
    hide Merge, DispField;
    var op := Merge(base, DispField(k));
    BranchBits(base, k);
    SameNumber(k, (op & 0x03f8) >> 3);
  }

  lemma BranchFields(base: bv16, k: byte)
    requires base & 0x03f8 == 0 && k < 0x80
    ensures var op := Merge(base, DispField(k as bv8));
            LowBits(op) == (base & 0x0007) as int && Disp(op) == k && op & 0xfc00 == base & 0xfc00
  {
    hide Merge, DispField, LowBits, Disp;
    SmallNumber(k);
    BranchFieldsOf(base, k as bv8);
  }

  lemma BranchRealized(op: bv16, on: bool, at: word)
    ensures Realizes(Fields(if on then HBranchSet else HBranchClr, op, 0),
                     BranchIf(on, LowBits(op), BranchTo(at, Disp(op))), at)
  {
    hide LowBits, Disp, BranchTo;
  }

  lemma BranchAgrees(m: Mnemonic, target: word, at: word)
    requires TypeOf(m).BranchType? && -64 <= Displacement(target, at) <= 63
    ensures Codes(Merge(CodeOf(m), DispField((Displacement(target, at) % 0x80) as bv8)), 0, 2,
                  BranchMeaning(m, target), at)
  {
    hide Codes, Merge, DispField, Displacement;
    var a := BranchMeaning(m, target);
    BranchBase(m, target);
    BranchCodes(CodeOf(m), a.on, a.b, target, at);
  }

  lemma BranchMask(m: Mnemonic, target: word)
    requires TypeOf(m).BranchType?
    ensures CodeOf(m) & 0xfff8 == if BranchMeaning(m, target).on then 0xf000 else 0xf400
  {
  }

  lemma BranchBit(m: Mnemonic, target: word)
    requires TypeOf(m).BranchType?
    ensures (CodeOf(m) & 0x0007) as int == BranchMeaning(m, target).b
  {
  }

  lemma BranchBase(m: Mnemonic, target: word)
    requires TypeOf(m).BranchType?
    ensures var a := BranchMeaning(m, target);
            a.BranchIf? && a.target == target
            && CodeOf(m) & 0xfff8 == (if a.on then 0xf000 else 0xf400) && (CodeOf(m) & 0x0007) as int == a.b
  {
    hide CodeOf, BranchMeaning, TypeOf;
    BranchMask(m, target);
    BranchBit(m, target);
  }

  /** A branch on a bit given as an operand. */
  lemma BitBranchAgrees(m: Mnemonic, b: Bit, target: word, at: word)
    requires TypeOf(m).BrBit? && -64 <= Displacement(target, at) <= 63
    ensures Codes(Merge(Merge(CodeOf(m), Nibble(b) as bv16), DispField((Displacement(target, at) % 0x80) as bv8)), 0, 2,
                  BranchIf(m.MBranchBitSet?, b, target), at)
  {
    hide Codes, DispField, Displacement, Nibble;
    BitBranchBase(m, Nibble(b));
    hide Merge;
    BranchCodes(Merge(CodeOf(m), Nibble(b) as bv16), m.MBranchBitSet?, b, target, at);
  }

  lemma BitBranchBase(m: Mnemonic, b: bv8)
    requires TypeOf(m).BrBit? && b as int < 8
    ensures var op := Merge(CodeOf(m), b as bv16);
            op & 0xfff8 == (if m.MBranchBitSet? then 0xf000 else 0xf400) && (op & 0x0007) as int == b as int
  {
    SmallByte(b);
    var op := Merge(CodeOf(m), b as bv16);
    assert m.MBranchBitSet? || m.MBranchBitClr?;
    SameNumber(b, op & 0x0007);
  }

  // ----- bits of the status register -----

  lemma StatusBitSelects(on: bool, op: bv16)
    requires op & 0xff8f == (if on then 0x9408 else 0x9488)
    ensures Select(op) == Some(if on then HBset else HBclr) && !Is32(op) && op != NOCODE
  {
    if on {} else {}
  }

  lemma StatusBitFields(base: bv16, b: bv8)
    requires base & 0x0070 == 0 && b as int < 8
    ensures var op := Merge(base, (b as bv16) << 4);
            MidBits(op) == b as int && op & 0xff8f == base & 0xff8f
  {
    SmallByte(b);
    var op := Merge(base, (b as bv16) << 4);
    SameNumber(b, (op & 0x0070) >> 4);
  }

  lemma StatusBitAgrees(m: Mnemonic, b: Bit, at: word)
    requires TypeOf(m).BitType?
    ensures Codes(Merge(CodeOf(m), (Nibble(b) as bv16) << 4), 0, 2, Do(if m.MBitSetSreg? then Bset(b) else Bclr(b)), at)
  {
    hide Select, Is32, Nibble, MidBits;
    var op := Merge(CodeOf(m), (Nibble(b) as bv16) << 4);
    assert m.MBitSetSreg? || m.MBitClear?;
    StatusBitFields(CodeOf(m), Nibble(b));
    hide Merge;
    StatusBitSelects(m.MBitSetSreg?, op);
  }

  // ----- no operands -----

  /** The bit of the status register that a mnemonic without operands sets or clears. */
  lemma FlagCode(m: Mnemonic, on: bool)
    requires TypeOf(m).Implied? && (CodeOf(m) & 0xff8f == if on then 0x9408 else 0x9488) && !m.MBreak?
    ensures ImpliedMeaning(m) == Do(if on then Bset(MidBits(CodeOf(m))) else Bclr(MidBits(CodeOf(m))))
  {
  }

  lemma FlagRealized(on: bool, op: bv16, at: word)
    ensures Realizes(Fields(if on then HBset else HBclr, op, 0), Do(if on then Bset(MidBits(op))
            else Bclr(MidBits(op))), at)
  {
    hide MidBits;
  }

  lemma FlagAgrees(m: Mnemonic, on: bool, at: word)
    requires TypeOf(m).Implied? && (CodeOf(m) & 0xff8f == if on then 0x9408 else 0x9488) && !m.MBreak?
    ensures Codes(CodeOf(m), 0, 2, ImpliedMeaning(m), at)
  {
    hide CodeOf, TypeOf, ImpliedMeaning, Select, Is32, Fields, Realizes, MidBits;
    FlagCode(m, on);
    StatusBitSelects(on, CodeOf(m));
    FlagRealized(on, CodeOf(m), at);
    CodesFrom(CodeOf(m), if on then HBset else HBclr, 0, ImpliedMeaning(m), at);
  }

  lemma ExactSelects(op: bv16)
    ensures op == 0x9598 ==> Select(op) == Some(HBreak)
    ensures op == 0x9509 ==> Select(op) == Some(HIcall)
    ensures op == 0x9409 ==> Select(op) == Some(HIjmp)
    ensures op == 0x0000 ==> Select(op) == Some(HNop)
    ensures op == 0x9508 ==> Select(op) == Some(HRet)
  {
  }

  lemma ExactCode(m: Mnemonic)
    ensures (m.MBreak? ==> CodeOf(m) == 0x9598) && (m.MIndCall? ==> CodeOf(m) == 0x9509)
    ensures (m.MIndJump? ==> CodeOf(m) == 0x9409) && (m.MNOP? ==> CodeOf(m) == 0x0000)
    ensures m.MReturn? ==> CodeOf(m) == 0x9508
  {
  }

  lemma ExactRealized(op: bv16, at: word)
    ensures Realizes(Fields(HBreak, op, 0), Finish, at) && Realizes(Fields(HIcall, op, 0), CallPair, at)
    ensures Realizes(Fields(HIjmp, op, 0), JumpPair, at)
  {
    hide RegD, RegR, ImmK, PairOf, WordK, LowBits, MidBits, Disp, ModeOf, CbrOp;
  }

  lemma MoreExactRealized(op: bv16, at: word)
    ensures Realizes(Fields(HNop, op, 0), Do(Nop), at) && Realizes(Fields(HRet, op, 0), ReturnNow, at)
  {
    hide RegD, RegR, ImmK, PairOf, WordK, LowBits, MidBits, Disp, ModeOf, CbrOp;
  }

  lemma ExactAgrees(m: Mnemonic, at: word)
    requires m.MBreak? || m.MIndCall? || m.MIndJump? || m.MNOP? || m.MReturn?
    ensures Codes(CodeOf(m), 0, 2, ImpliedMeaning(m), at)
  {
    hide Select, Fields, Realizes, Is32, CodeOf;
    ExactCode(m);
    ExactSelects(CodeOf(m));
    ExactRealized(CodeOf(m), at);
    MoreExactRealized(CodeOf(m), at);
    ExactIsShort(CodeOf(m));
  }

  lemma ExactIsShort(op: bv16)
    requires op == 0x9598 || op == 0x9509 || op == 0x9409 || op == 0x0000 || op == 0x9508
    ensures !Is32(op) && op != NOCODE
  {
  }

  lemma ImpliedAgrees(m: Mnemonic, at: word)
    requires TypeOf(m).Implied?
    ensures Codes(CodeOf(m), 0, 2, ImpliedMeaning(m), at)
  {
    if m.MBreak? || m.MIndCall? || m.MIndJump? || m.MNOP? || m.MReturn? {
      hide Codes, CodeOf, ImpliedMeaning;
      ExactAgrees(m, at);
    } else if m.MSetCarryF? || m.MSei? || m.MSetNegF? || m.MSetSignF? || m.MSetTranF? || m.MSetOverflowF?
      || m.MSetZeroF? {
      hide Codes, CodeOf, ImpliedMeaning;
      FlagSetBase(m);
      FlagAgrees(m, true, at);
    } else {
      hide Codes, CodeOf, ImpliedMeaning;
      FlagClearBase(m);
      FlagAgrees(m, false, at);
    }
  }

  lemma FlagSetCodes(m: Mnemonic)
    ensures (m.MSetCarryF? ==> CodeOf(m) == 0x9408) && (m.MSetZeroF? ==> CodeOf(m) == 0x9418)
  {
  }

  lemma FlagSetSignCodes(m: Mnemonic)
    ensures (m.MSetNegF? ==> CodeOf(m) == 0x9428) && (m.MSetOverflowF? ==> CodeOf(m) == 0x9438)
  {
  }

  lemma FlagSetMoreCodes(m: Mnemonic)
    ensures (m.MSetSignF? ==> CodeOf(m) == 0x9448) && (m.MSetTranF? ==> CodeOf(m) == 0x9468)
    ensures m.MSei? ==> CodeOf(m) == 0x9478
  {
  }

  lemma FlagClearCodes(m: Mnemonic)
    ensures (m.MClearCarryF? ==> CodeOf(m) == 0x9488) && (m.MClearZeroF? ==> CodeOf(m) == 0x9498)
    ensures (m.MClearNegF? ==> CodeOf(m) == 0x94a8) && (m.MClearOverflowF? ==> CodeOf(m) == 0x94b8)
    ensures (m.MClearSignF? ==> CodeOf(m) == 0x94c8) && (m.MClearTranF? ==> CodeOf(m) == 0x94e8)
    ensures m.MCli? ==> CodeOf(m) == 0x94f8
  {
  }

  lemma FlagSetBase(m: Mnemonic)
    requires m.MSetCarryF? || m.MSei? || m.MSetNegF? || m.MSetSignF? || m.MSetTranF? || m.MSetOverflowF? || m.MSetZeroF?
    ensures CodeOf(m) & 0xff8f == 0x9408
  {
    hide CodeOf;
    FlagSetCodes(m);
    FlagSetSignCodes(m);
    FlagSetMoreCodes(m);
  }

  lemma FlagClearBase(m: Mnemonic)
    requires m.MClearCarryF? || m.MCli? || m.MClearNegF? || m.MClearSignF? || m.MClearTranF? || m.MClearOverflowF?
             || m.MClearZeroF?
    ensures CodeOf(m) & 0xff8f == 0x9488
  {
    hide CodeOf;
    FlagClearCodes(m);
  }

  // ----- addresses -----

  lemma JumpAgrees(m: Mnemonic, a: word, at: word)
    requires TypeOf(m).Dir32?
    ensures Codes(CodeOf(m), a, 4, if m.MCall? then CallTo(a) else JumpTo(a), at)
  {
    match m
    case MCall => assert Select(0x940e) == Some(HCall);
    case MJump => assert Select(0x940c) == Some(HJmp);
  }

  lemma DirectSelects(load: bool, op: bv16)
    requires op & 0xff0f == (if load then 0x9000 else 0x9200)
    ensures Select(op) == Some(if load then HLds else HSts) && Is32(op) && op != NOCODE
  {
    if load {} else {}
  }

  lemma LoadDirectAgrees(d: bv8, a: word, at: word)
    requires d < 16
    ensures Codes(Merge(0x9000, Field4(d)), a, 4, Do(Lds(d as int, a)), at)
  {
    hide Select, Is32, Field4, Merge, RegD;
    RegField(0x9000, d);
    DirectSelects(true, Merge(0x9000, Field4(d)));
  }

  lemma StoreDirectAgrees(d: bv8, a: word, at: word)
    requires d < 16
    ensures Codes(Merge(0x9200, Field4(d)), a, 4, Do(Sts(a, d as int)), at)
  {
    hide Select, Is32, Field4, Merge, RegD;
    RegField(0x9200, d);
    DirectSelects(false, Merge(0x9200, Field4(d)));
  }

  // ----- pointers -----

  lemma PointerBits(base: bv16, d: bv8, mode: bv16)
    requires base & 0x00f3 == 0 && d < 16 && mode < 3
    ensures var op := Merge(Merge(base, Field4(d)), mode);
            (op & 0x00f0) >> 4 == d as bv16 && op & 0x0003 == mode && op & 0xff0c == base & 0xff0c
  {
  }

  lemma PointerFields(base: bv16, d: bv8, mode: Mode)
    requires base & 0x00f3 == 0 && d < 16 && !mode.Ignored?
    ensures var op := Merge(Merge(base, Field4(d)), ModeField(mode));
            RegD(op) == d as int && ModeOf(op) == mode && op & 0x0003 != 3 && op & 0xff0c == base & 0xff0c
  {
    hide Merge, Field4;
    var op := Merge(Merge(base, Field4(d)), ModeField(mode));
    PointerBits(base, d, ModeField(mode));
    SameNumber(d, (op & 0x00f0) >> 4);
  }

  lemma PointerSelects(op: bv16)
    requires op & 0x0003 != 3
    ensures !Is32(op) || (op & 0xff0c != 0x900c && op & 0xff0c != 0x9008
                          && op & 0xff0c != 0x920c && op & 0xff0c != 0x9208)
    ensures op & 0xff0c == 0x900c ==> Select(op) == Some(HLddX)
    ensures op & 0xff0c == 0x9008 ==> Select(op) == Some(HLddY)
    ensures op & 0xff0c == 0x920c ==> Select(op) == Some(HStdX)
    ensures op & 0xff0c == 0x9208 ==> Select(op) == Some(HStdY)
  {
  }

  lemma PointerRealized(x: bool, op: bv16, at: word)
    ensures Realizes(Fields(if x then HLddX else HLddY, op, 0), Do(Load(RegD(op), if x then 12
            else 14, ModeOf(op))), at)
    ensures Realizes(Fields(if x then HStdX else HStdY, op, 0), Do(Store(if x then 12
            else 14, ModeOf(op), RegD(op))), at)
  {
    hide RegD, ModeOf;
  }

  lemma LoadPointerAgrees(m: Mnemonic, d: bv8, mode: Mode, at: word)
    requires TypeOf(m).LdInd? && d < 16 && !mode.Ignored?
    ensures Codes(Merge(Merge(CodeOf(m), Field4(d)), ModeField(mode)), 0, 2,
                  Do(Load(d as int, if m.MLoadIndX? then 12 else 14, mode)), at)
  {
    hide Select, Is32, Field4, Merge, RegD, ModeOf, ModeField, Fields, Realizes;
    var op := Merge(Merge(CodeOf(m), Field4(d)), ModeField(mode));
    assert m.MLoadIndX? || m.MLoadIndY?;
    PointerFields(CodeOf(m), d, mode);
    PointerSelects(op);
    PointerRealized(m.MLoadIndX?, op, at);
  }

  lemma StorePointerAgrees(m: Mnemonic, d: bv8, mode: Mode, at: word)
    requires TypeOf(m).StrInd? && d < 16 && !mode.Ignored?
    ensures Codes(Merge(Merge(CodeOf(m), Field4(d)), ModeField(mode)), 0, 2,
                  Do(Store(if m.MStoreIndX? then 12 else 14, mode, d as int)), at)
  {
    hide Select, Is32, Field4, Merge, RegD, ModeOf, ModeField, Fields, Realizes;
    var op := Merge(Merge(CodeOf(m), Field4(d)), ModeField(mode));
    assert m.MStoreIndX? || m.MStoreIndY?;
    PointerFields(CodeOf(m), d, mode);
    PointerSelects(op);
    PointerRealized(m.MStoreIndX?, op, at);
  }

  // ----- register pairs -----

  lemma WordBits(base: bv16, lo: bv8, k: bv8)
    requires base & 0x00ff == 0 && 8 <= lo < 16 && lo & 1 == 0 && k < 0x40
    ensures var op := Merge(Merge(base, ((lo & 0x06) as bv16) << 3), WordField(k));
            0x08 | ((op >> 3) & 0x06) == lo as bv16 && (op & 0x000f) | ((op & 0x00c0) >> 2) == k as bv16
              && op & 0xff00 == base
  {
  }

  lemma WordFieldsOf(base: bv16, lo: bv8, k: bv8)
    requires base & 0x00ff == 0 && 8 <= lo < 16 && lo & 1 == 0 && k < 0x40
    ensures var op := Merge(Merge(base, ((lo & 0x06) as bv16) << 3), WordField(k));
            PairOf(op) == lo as int && WordK(op) == k as int && op & 0xff00 == base
  {
    hide Merge, WordField;
    var op := Merge(Merge(base, ((lo & 0x06) as bv16) << 3), WordField(k));
    WordBits(base, lo, k);
    SameNumber(lo, 0x08 | ((op >> 3) & 0x06));
    SameNumber(k, (op & 0x000f) | ((op & 0x00c0) >> 2));
  }

  lemma EvenLow(hi: bv8, lo: bv8)
    requires WordPair(hi, lo)
    ensures 8 <= lo < 16 && lo & 1 == 0
  {
  }

  /** The byte as a bit-vector, and its bound. */
  lemma SmallNumber(k: byte)
    ensures (k as bv8) as int == k && (k < 0x40 ==> k as bv8 < 0x40) && (k < 0x80 ==> k as bv8 < 0x80)
  {
    ByteRoundTrip(k);
    Bounded(k as bv8);
  }

  lemma Bounded(v: bv8)
    ensures (v as int < 0x40 ==> v < 0x40) && (v as int < 0x80 ==> v < 0x80)
  {
  }

  lemma WordFields(base: bv16, hi: bv8, lo: bv8, k: byte)
    requires base & 0x00ff == 0 && WordPair(hi, lo) && k < 0x40
    ensures var op := Merge(Merge(base, ((lo & 0x06) as bv16) << 3), WordField(k as bv8));
            PairOf(op) == lo as int && WordK(op) == k && op & 0xff00 == base
  {
    hide Merge, WordField, PairOf, WordK, WordPair;
    EvenLow(hi, lo);
    SmallNumber(k);
    WordFieldsOf(base, lo, k as bv8);
  }

  lemma WordSelects(op: bv16)
    ensures op & 0xff00 == 0x9600 ==> Select(op) == Some(HAdiw) && !Is32(op) && op != NOCODE
    ensures op & 0xff00 == 0x9700 ==> Select(op) == Some(HSbiw) && !Is32(op) && op != NOCODE
    ensures op & 0xff00 == 0x0100 ==> Select(op) == Some(HMovw) && !Is32(op) && op != NOCODE
  {
  }

  lemma WordAgrees(m: Mnemonic, hi: bv8, lo: bv8, k: byte, at: word)
    requires TypeOf(m).ImmWord? && WordPair(hi, lo) && k < 0x40
    ensures Codes(Merge(Merge(CodeOf(m), ((lo & 0x06) as bv16) << 3), WordField(k as bv8)), 0, 2,
                  Do(if m.MAddImmWord? then Adiw(lo as int, k) else Sbiw(lo as int, k)), at)
  {
    hide Select, Is32, Merge, WordField, PairOf, WordK;
    var op := Merge(Merge(CodeOf(m), ((lo & 0x06) as bv16) << 3), WordField(k as bv8));
    assert m.MAddImmWord? || m.MSubtractImmWord?;
    WordFields(CodeOf(m), hi, lo, k);
    WordSelects(op);
  }

  lemma PairMoveAgrees(m: Mnemonic, lo: bv8, rlo: bv8, at: word)
    requires TypeOf(m).DirWord? && lo < 15 && rlo < 15
    ensures Codes(Merge(Merge(CodeOf(m), Field4(lo)), rlo as bv16), 0, 2, Do(Movw(lo as int, rlo as int)), at)
  {
    hide Select, Is32, Merge, Field4, RegD, RegR;
    var op := Merge(Merge(CodeOf(m), Field4(lo)), rlo as bv16);
    RegFields(CodeOf(m), lo, rlo);
    WordSelects(op);
  }
}
