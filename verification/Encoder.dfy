/** get_operand and the patches of the second pass: from an instruction line to its words. */
module Encoder {
  import opened Words
  import opened Isa
  import opened Symbols
  import opened Parser
  import opened Source

  datatype Patch = NoPatch | PatchBranch | PatchDir32 | PatchImmByte | PatchImmWord

  /** An opcode, the size of the line, the second word, and the expression that is still to be filled in. */
  datatype Coded = Coded(opcode: bv16, size: word, extra: word, patch: Patch, e: seq<Token>)

  const NOCODE: bv16 := 0xffff

  function Short(opcode: bv16): Coded { Coded(opcode, 2, 0, NoPatch, []) }

  function Later(opcode: bv16, patch: Patch, e: seq<Token>): Coded { Coded(opcode, 2, 0, patch, e) }

  function Long(opcode: bv16, a: Place): Coded {
    match a
    case Literal(w) => Coded(opcode, 4, w, NoPatch, [])
    case Computed(e) => Coded(opcode, 4, 0, PatchDir32, e)
  }

  /** Fields are ORed into the opcode. */
  function Merge(opcode: bv16, field: bv16): bv16 { opcode | field }

  /** d << 4 */
  function Field4(d: bv8): bv16 { (d as bv16) << 4 }

  /** A bit number as a field; evaluated now, because it cannot be patched. */
  function BitField(bit: seq<Token>, table: seq<Equate>): Option<bv16> {
    match BitValue(bit, table)
    case None => None
    case Some(b) => Some(Nibble(b) as bv16)
  }

  function ModeField(mode: Mode): bv16 { if mode.PostInc? then 1 else if mode.PreDec? then 2 else 0 }

  /** get_operand: None for any of its errors. */
  function GetOperand(m: Mnemonic, arg: Arg, table: seq<Equate>): Option<Coded> {
    var opcode := CodeOf(m);
    match (TypeOf(m), arg)
    case (DirSing, OneReg(d)) => if d > 15 then None else Some(Short(Merge(opcode, Field4(d))))
    case (DirDual, TwoRegs(d, r)) =>
      if d > 15 || r > 15 then None
      else Some(Short(Merge(Merge(opcode, Field4(d)), r as bv16)))
    case (DirStd, OneReg(d)) => if d > 15 then None else Some(Short(Merge(Merge(opcode, Field4(d)), d as bv16)))
    case (ImmByte, RegExpr(d, e)) => if d > 15 then None else Some(Later(Merge(opcode, Field4(d)), PatchImmByte, e))
    case (ImmWord, PairExpr(hi, lo, e)) =>
      if hi > 15 || lo > 15 || hi != lo + 1 || lo < 8 || hi & 1 == 0 then None
      else Some(Later(Merge(opcode, ((lo & 0x06) as bv16) << 3), PatchImmWord, e))
    case (BranchType, Label(e)) => Some(Later(opcode, PatchBranch, e))
    case (BrBit, BitLabel(bit, e)) =>
      (match BitField(bit, table) case None => None case Some(b) => Some(Later(Merge(opcode, b), PatchBranch, e)))
    case (BitType, BitOnly(bit)) =>
      (match BitField(bit, table) case None => None case Some(b) => Some(Short(Merge(opcode, b << 4))))
    case (LdstrBit, RegBit(d, bit)) =>
      if d > 15 then None
      else
        (match BitField(bit, table)
         case None => None
         case Some(b) => Some(Short(Merge(Merge(opcode, Field4(d)), b))))
    case (Implied, NoArg) => Some(Short(opcode))
    case (Dir32, At16(a)) => Some(Long(opcode, a))
    case (LdInd, RegPtr(d, mode)) =>
      if d > 15 || mode.Ignored? then None else Some(Short(Merge(Merge(opcode, Field4(d)), ModeField(mode))))
    case (StrInd, RegPtr(d, mode)) =>
      if d > 15 || mode.Ignored? then None else Some(Short(Merge(Merge(opcode, Field4(d)), ModeField(mode))))
    case (LdDir, RegAt16(d, a)) => if d > 15 then None else Some(Long(Merge(opcode, Field4(d)), a))
    case (StrDir, RegAt16(d, a)) => if d > 15 then None else Some(Long(Merge(opcode, Field4(d)), a))
    case (DirWord, TwoPairs(hi, lo, rhi, rlo)) =>
      if hi > 15 || lo > 15 || hi != lo + 1 || hi & 1 == 0 || rhi > 15 || rlo > 15 || rhi != rlo + 1
        || rhi & 1 == 0 then None
      else Some(Short(Merge(Merge(opcode, Field4(lo)), rlo as bv16)))
    case _ => None
  }

  /** The displacement of a branch, as a 16-bit difference taken as a signed number. */
  function Displacement(target: word, at: word): int { Signed16(Trunc16(target - at)) }

  /** A byte spread over the two nibbles of an immediate. */
  function ImmField(k: bv8): bv16 { (((k as bv16) << 4) & 0x0f00) | ((k as bv16) & 0x000f) }

  function DispField(k: bv8): bv16 { (k as bv16) << 3 }

  function WordField(k: bv8): bv16 { (((k as bv16) << 2) & 0x00c0) | ((k as bv16) & 0x000f) }

  /** Fills in the value of the expression; the range check of a word immediate sees the low byte only. */
  function ApplyPatch(c: Coded, value: word, at: word): Option<Coded> {
    match c.patch
    case NoPatch => Some(c)
    case PatchBranch =>
      var k := Displacement(value, at);
      if k > 63 || k < -64 then None
      else Some(c.(opcode := Merge(c.opcode, DispField((k % 0x80) as bv8))))
    case PatchDir32 => Some(c.(extra := value))
    case PatchImmByte => Some(c.(opcode := Merge(c.opcode, ImmField(Trunc8(value) as bv8))))
    case PatchImmWord =>
      if Trunc8(value) > 63 then None
      else Some(c.(opcode := Merge(c.opcode, WordField(Trunc8(value) as bv8))))
  }

  /** Both passes over one instruction line at the given address. */
  function Encode(m: Mnemonic, arg: Arg, early: seq<Equate>, late: seq<Equate>, at: word): Option<Coded> {
    match GetOperand(m, arg, early)
    case None => None
    case Some(c) =>
      if c.patch.NoPatch? then Some(c)
      else
        match Meaning(c.e, late)
        case Known(w) => ApplyPatch(c, w, at)
        case _ => None
  }
}
