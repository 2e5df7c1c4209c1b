/** get_operand as it runs: the fields of a line are filled in place. */
module Operand {
  import opened Words
  import opened Symbols
  import opened Parser
  import opened Source
  import opened Encoder
  import Correct

  class LineRecord {
    var ty: OpType
    var opcode: bv16
    var size: word
    var extra: word
    var patch: Patch
    var e: seq<Token>

    function Code(): Coded
      reads this
    {
      Coded(opcode, size, extra, patch, e)
    }

    /** The line as getopcode leaves it. */
    constructor (m: Mnemonic)
      ensures ty == TypeOf(m) && Code() == Coded(CodeOf(m), 0, 0, NoPatch, [])
    {
      ty, opcode, size, extra, patch, e := TypeOf(m), CodeOf(m), 0, 0, NoPatch, [];
    }

    /** The operand is left for the second pass. */
    method Wait(patch: Patch, e: seq<Token>)
      modifies this`patch, this`e
      ensures this.patch == patch && this.e == e
    {
      this.patch, this.e := patch, e;
    }

    /** An address as a number or as an expression. */
    method PutAddress(a: Place)
      modifies this`patch, this`e, this`extra
      ensures Coded(opcode, 4, extra, patch, e)
              == Long(opcode, a).(patch := if a.Literal? then old(patch) else PatchDir32,
                                  e := if a.Literal? then old(e) else a.e)
    {
      match a
      case Literal(w) => extra := w;
      case Computed(e) =>
        extra := 0;
        Wait(PatchDir32, e);
    }

    method GetOperand(ghost m: Mnemonic, arg: Arg, table: seq<Equate>) returns (ok: bool)
      requires ty == TypeOf(m) && Code() == Coded(CodeOf(m), 0, 0, NoPatch, [])
      modifies this
      ensures ok == Encoder.GetOperand(m, arg, table).Some?
      ensures ok ==> ty == TypeOf(m) && Code() == Encoder.GetOperand(m, arg, table).value
    {
      hide TypeOf, CodeOf, Encoder.GetOperand;
      match ty
      case DirSing | DirDual | DirStd | Implied => ok := GetRegisters(m, arg, table);
      case DirWord => ok := GetPairs(m, arg, table);
      case LdInd | StrInd => ok := GetPointer(m, arg, table);
      case ImmByte | ImmWord | BranchType => ok := GetLater(m, arg, table);
      case BrBit | BitType | LdstrBit => ok := GetBit(m, arg, table);
      case Dir32 | LdDir | StrDir => ok := GetAddress(m, arg, table);
    }

    method GetRegisters(ghost m: Mnemonic, arg: Arg, ghost table: seq<Equate>) returns (ok: bool)
      requires ty == TypeOf(m) && Code() == Coded(CodeOf(m), 0, 0, NoPatch, [])
      requires ty.DirSing? || ty.DirDual? || ty.DirStd? || ty.Implied?
      modifies this
      ensures ok == Encoder.GetOperand(m, arg, table).Some?
      ensures ok ==> ty == TypeOf(m) && Code() == Encoder.GetOperand(m, arg, table).value
    {
      hide TypeOf, CodeOf, Merge, Field4, Encoder.GetOperand, Means;
      match (ty, arg) {
        case (DirSing, OneReg(d)) =>
          Correct.OneRegisterParts(m, d, table, table);
          if d > 15 { return false; }
          opcode := Merge(opcode, Field4(d));
        case (DirDual, TwoRegs(d, r)) =>
          Correct.TwoRegistersParts(m, d, r, table, table);
          if d > 15 || r > 15 { return false; }
          opcode := Merge(Merge(opcode, Field4(d)), r as bv16);
        case (DirStd, OneReg(d)) =>
          Correct.SameRegisterParts(m, d, table, table);
          if d > 15 { return false; }
          opcode := Merge(Merge(opcode, Field4(d)), d as bv16);
        case (Implied, NoArg) =>
          Correct.NoOperandParts(m, table, table);
        case _ =>
          Correct.WrongToCode(m, arg, table);
          return false;
      }
      size := 2;
      ok := true;
    }

    method GetPairs(ghost m: Mnemonic, arg: Arg, ghost table: seq<Equate>) returns (ok: bool)
      requires ty == TypeOf(m) && Code() == Coded(CodeOf(m), 0, 0, NoPatch, []) && ty.DirWord?
      modifies this
      ensures ok == Encoder.GetOperand(m, arg, table).Some?
      ensures ok ==> ty == TypeOf(m) && Code() == Encoder.GetOperand(m, arg, table).value
    {
      hide TypeOf, CodeOf, Merge, Field4, Encoder.GetOperand, Means;
      if !arg.TwoPairs? {
        Correct.WrongToCode(m, arg, table);
        return false;
      }
      Correct.PairMoveParts(m, arg.hi, arg.lo, arg.rhi, arg.rlo, table, table);
      if arg.hi > 15 || arg.lo > 15 || arg.hi != arg.lo + 1 || arg.hi & 1 == 0 { return false; }
      if arg.rhi > 15 || arg.rlo > 15 || arg.rhi != arg.rlo + 1 || arg.rhi & 1 == 0 { return false; }
      opcode := Merge(Merge(opcode, Field4(arg.lo)), arg.rlo as bv16);
      size := 2;
      ok := true;
    }

    method GetPointer(ghost m: Mnemonic, arg: Arg, ghost table: seq<Equate>) returns (ok: bool)
      requires ty == TypeOf(m) && Code() == Coded(CodeOf(m), 0, 0, NoPatch, [])
      requires ty.LdInd? || ty.StrInd?
      modifies this
      ensures ok == Encoder.GetOperand(m, arg, table).Some?
      ensures ok ==> ty == TypeOf(m) && Code() == Encoder.GetOperand(m, arg, table).value
    {
      hide TypeOf, CodeOf, Merge, Field4, Encoder.GetOperand, Means;
      if !arg.RegPtr? {
        Correct.WrongToCode(m, arg, table);
        return false;
      }
      if ty.LdInd? {
        Correct.LoadPointerParts(m, arg.d, arg.mode, table, table);
      } else {
        Correct.StorePointerParts(m, arg.d, arg.mode, table, table);
      }
      if arg.d > 15 { return false; }
      var mask := 0x00;
      match arg.mode {
        case Plain =>
        case PostInc => mask := 0x01;
        case PreDec => mask := 0x02;
        case Ignored => return false;
      }
      opcode := Merge(Merge(opcode, Field4(arg.d)), mask);
      size := 2;
      ok := true;
    }

    method GetLater(ghost m: Mnemonic, arg: Arg, ghost table: seq<Equate>) returns (ok: bool)
      requires ty == TypeOf(m) && Code() == Coded(CodeOf(m), 0, 0, NoPatch, [])
      requires ty.ImmByte? || ty.ImmWord? || ty.BranchType?
      modifies this
      ensures ok == Encoder.GetOperand(m, arg, table).Some?
      ensures ok ==> ty == TypeOf(m) && Code() == Encoder.GetOperand(m, arg, table).value
    {
      hide TypeOf, CodeOf, Merge, Field4, Encoder.GetOperand, Means;
      match (ty, arg) {
        case (ImmByte, RegExpr(d, e)) =>
          Correct.RegisterByteParts(m, d, e, table, table);
          if d > 15 { return false; }
          Wait(PatchImmByte, e);
          opcode := Merge(opcode, Field4(d));
        case (ImmWord, PairExpr(hi, lo, e)) =>
          Correct.PairWordParts(m, hi, lo, e, table, table);
          if hi > 15 || lo > 15 || hi != lo + 1 || lo < 8 || hi & 1 == 0 { return false; }
          Wait(PatchImmWord, e);
          opcode := Merge(opcode, ((lo & 0x06) as bv16) << 3);
        case (BranchType, Label(e)) =>
          Correct.BranchLabelParts(m, e, table, table);
          Wait(PatchBranch, e);
        case _ =>
          Correct.WrongToCode(m, arg, table);
          return false;
      }
      size := 2;
      ok := true;
    }

    /** The value of a bit operand is needed now, because it cannot be patched. */
    method GetBit(ghost m: Mnemonic, arg: Arg, table: seq<Equate>) returns (ok: bool)
      requires ty == TypeOf(m) && Code() == Coded(CodeOf(m), 0, 0, NoPatch, [])
      requires ty.BrBit? || ty.BitType? || ty.LdstrBit?
      modifies this
      ensures ok == Encoder.GetOperand(m, arg, table).Some?
      ensures ok ==> ty == TypeOf(m) && Code() == Encoder.GetOperand(m, arg, table).value
    {
      hide TypeOf, CodeOf, Merge, Field4, Meaning, Nibble, Encoder.GetOperand, Means;
      match (ty, arg) {
        case (BrBit, BitLabel(bit, e)) =>
          Correct.BitBranchParts(m, bit, e, table, table);
          var v := GetExpr(bit, table);
          if !v.Known? || v.w > 7 { return false; }
          Wait(PatchBranch, e);
          opcode := Merge(opcode, Nibble(v.w) as bv16);
        case (BitType, BitOnly(bit)) =>
          Correct.StatusBitParts(m, bit, table, table);
          var v := GetExpr(bit, table);
          if !v.Known? || v.w > 7 { return false; }
          opcode := Merge(opcode, (Nibble(v.w) as bv16) << 4);
        case (LdstrBit, RegBit(d, bit)) =>
          Correct.RegisterBitParts(m, d, bit, table, table);
          if d > 15 { return false; }
          var v := GetExpr(bit, table);
          if !v.Known? || v.w > 7 { return false; }
          opcode := Merge(Merge(opcode, Field4(d)), Nibble(v.w) as bv16);
        case _ =>
          Correct.WrongToCode(m, arg, table);
          return false;
      }
      size := 2;
      ok := true;
    }

    method GetAddress(ghost m: Mnemonic, arg: Arg, ghost table: seq<Equate>) returns (ok: bool)
      requires ty == TypeOf(m) && Code() == Coded(CodeOf(m), 0, 0, NoPatch, [])
      requires ty.Dir32? || ty.LdDir? || ty.StrDir?
      modifies this
      ensures ok == Encoder.GetOperand(m, arg, table).Some?
      ensures ok ==> ty == TypeOf(m) && Code() == Encoder.GetOperand(m, arg, table).value
    {
      hide TypeOf, CodeOf, Merge, Field4, Encoder.GetOperand, Means;
      match (ty, arg) {
        case (Dir32, At16(a)) =>
          Correct.LongJumpParts(m, a, table, table);
          PutAddress(a);
        case (LdDir, RegAt16(d, a)) =>
          Correct.LoadAtParts(m, d, a, table, table);
          if d > 15 { return false; }
          PutAddress(a);
          opcode := Merge(opcode, Field4(d));
        case (StrDir, RegAt16(d, a)) =>
          Correct.StoreAtParts(m, d, a, table, table);
          PutAddress(a);
          if d > 15 { return false; }
          opcode := Merge(opcode, Field4(d));
        case _ =>
          Correct.WrongToCode(m, arg, table);
          return false;
      }
      size := 4;
      ok := true;
    }
  }
}
