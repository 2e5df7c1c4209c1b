/** One line of the assembler, end to end: what is accepted, and that it means what the mnemonic says. */
module Correct {
  import opened Words
  import opened Isa
  import opened TinyExpr
  import opened Grammar
  import Descent
  import opened Symbols
  import opened Parser
  import opened Source
  import opened Encoder
  import opened Agreement

  lemma DirectBase(m: Mnemonic)
    ensures TypeOf(m).LdDir? ==> CodeOf(m) == 0x9000
    ensures TypeOf(m).StrDir? ==> CodeOf(m) == 0x9200
  {
  }

  /** A branch must reach its target; nothing else depends on where the instruction stands. */
  predicate Reaches(a: Action, at: word) { a.BranchIf? ==> -64 <= Displacement(a.target, at) <= 63 }

  /** The line is accepted exactly when it is legal and reaches its target, and then its words code its meaning. */
  predicate Agreed(m: Mnemonic, arg: Arg, early: seq<Equate>, late: seq<Equate>, at: word) {
    var c, a := Encode(m, arg, early, late, at), Means(m, arg, early, late);
    && (c.Some? <==> a.Some? && Reaches(a.value, at))
    && (c.Some? ==> Codes(c.value.opcode, c.value.extra, c.value.size, a.value, at))
  }

  /** A line without an expression is settled in the first pass. */
  lemma Settled(m: Mnemonic, arg: Arg, early: seq<Equate>, late: seq<Equate>, at: word)
    requires var c, a := GetOperand(m, arg, early), Means(m, arg, early, late);
             && c.Some? == a.Some?
             && (c.Some? ==> c.value.patch.NoPatch? && !a.value.BranchIf?
                             && Codes(c.value.opcode, c.value.extra, c.value.size, a.value, at))
    ensures Agreed(m, arg, early, late, at)
  {
    hide GetOperand, Means, Codes;
  }

  lemma OneRegisterParts(m: Mnemonic, d: bv8, early: seq<Equate>, late: seq<Equate>)
    requires TypeOf(m).DirSing?
    ensures GetOperand(m, OneReg(d), early) == if IsReg(d) then Some(Short(Merge(CodeOf(m), Field4(d)))) else None
    ensures Means(m, OneReg(d), early, late) == if IsReg(d) then Some(SingleMeaning(m, d as int)) else None
  {
    hide CodeOf, TypeOf, Field4, Merge, ModeField, Nibble, BitValue, SingleMeaning, DualMeaning, DoubledMeaning,
      ByteMeaning, BranchMeaning, BitMeaning, ImpliedMeaning;
  }

  lemma OneRegister(m: Mnemonic, d: bv8, early: seq<Equate>, late: seq<Equate>, at: word)
    requires TypeOf(m).DirSing?
    ensures Agreed(m, OneReg(d), early, late, at)
  {
    hide Agreed, Codes, GetOperand, Means, CodeOf, TypeOf, Field4, Merge, ModeField, Nibble, BitValue, SingleMeaning,
      DualMeaning, DoubledMeaning, ByteMeaning, BranchMeaning, BitMeaning, ImpliedMeaning;
    OneRegisterParts(m, d, early, late);
    if IsReg(d) { SingleAgrees(m, d, at); }
    Settled(m, OneReg(d), early, late, at);
  }

  lemma TwoRegistersParts(m: Mnemonic, d: bv8, r: bv8, early: seq<Equate>, late: seq<Equate>)
    requires TypeOf(m).DirDual?
    ensures GetOperand(m, TwoRegs(d, r), early)
            == if IsReg(d) && IsReg(r) then Some(Short(Merge(Merge(CodeOf(m), Field4(d)), r as bv16))) else None
    ensures Means(m, TwoRegs(d, r), early, late)
            == if IsReg(d) && IsReg(r) then Some(DualMeaning(m, d as int, r as int)) else None
  {
    hide CodeOf, TypeOf, Field4, Merge, ModeField, Nibble, BitValue, SingleMeaning, DualMeaning, DoubledMeaning,
      ByteMeaning, BranchMeaning, BitMeaning, ImpliedMeaning;
  }

  lemma TwoRegisters(m: Mnemonic, d: bv8, r: bv8, early: seq<Equate>, late: seq<Equate>, at: word)
    requires TypeOf(m).DirDual?
    ensures Agreed(m, TwoRegs(d, r), early, late, at)
  {
    hide Agreed, Codes, GetOperand, Means, CodeOf, TypeOf, Field4, Merge, ModeField, Nibble, BitValue, SingleMeaning,
      DualMeaning, DoubledMeaning, ByteMeaning, BranchMeaning, BitMeaning, ImpliedMeaning;
    TwoRegistersParts(m, d, r, early, late);
    if IsReg(d) && IsReg(r) { DualAgrees(m, d, r, at); }
    Settled(m, TwoRegs(d, r), early, late, at);
  }

  lemma SameRegisterParts(m: Mnemonic, d: bv8, early: seq<Equate>, late: seq<Equate>)
    requires TypeOf(m).DirStd?
    ensures GetOperand(m, OneReg(d), early)
            == if IsReg(d) then Some(Short(Merge(Merge(CodeOf(m), Field4(d)), d as bv16))) else None
    ensures Means(m, OneReg(d), early, late) == if IsReg(d) then Some(DoubledMeaning(m, d as int)) else None
  {
    hide CodeOf, TypeOf, Field4, Merge, ModeField, Nibble, BitValue, SingleMeaning, DualMeaning, DoubledMeaning,
      ByteMeaning, BranchMeaning, BitMeaning, ImpliedMeaning;
  }

  lemma SameRegister(m: Mnemonic, d: bv8, early: seq<Equate>, late: seq<Equate>, at: word)
    requires TypeOf(m).DirStd?
    ensures Agreed(m, OneReg(d), early, late, at)
  {
    hide Agreed, Codes, GetOperand, Means, CodeOf, TypeOf, Field4, Merge, ModeField, Nibble, BitValue, SingleMeaning,
      DualMeaning, DoubledMeaning, ByteMeaning, BranchMeaning, BitMeaning, ImpliedMeaning;
    SameRegisterParts(m, d, early, late);
    if IsReg(d) { DoubledAgrees(m, d, at); }
    Settled(m, OneReg(d), early, late, at);
  }

  lemma StatusBitParts(m: Mnemonic, bit: seq<Token>, early: seq<Equate>, late: seq<Equate>)
    requires TypeOf(m).BitType?
    ensures GetOperand(m, BitOnly(bit), early)
            == if BitValue(bit, early).Some? then
                 Some(Short(Merge(CodeOf(m), (Nibble(BitValue(bit, early).value) as bv16) << 4)))
               else None
    ensures Means(m, BitOnly(bit), early, late)
            == if BitValue(bit, early).Some? then
                 Some(Do(if m.MBitSetSreg? then Bset(BitValue(bit, early).value) else Bclr(BitValue(bit, early).value)))
               else None
  {
    hide CodeOf, TypeOf, Field4, Merge, ModeField, Nibble, BitValue, SingleMeaning, DualMeaning, DoubledMeaning,
      ByteMeaning, BranchMeaning, BitMeaning, ImpliedMeaning;
  }

  lemma StatusBit(m: Mnemonic, bit: seq<Token>, early: seq<Equate>, late: seq<Equate>, at: word)
    requires TypeOf(m).BitType?
    ensures Agreed(m, BitOnly(bit), early, late, at)
  {
    hide Agreed, Codes, GetOperand, Means, CodeOf, TypeOf, Field4, Merge, ModeField, Nibble, BitValue, SingleMeaning,
      DualMeaning, DoubledMeaning, ByteMeaning, BranchMeaning, BitMeaning, ImpliedMeaning;
    StatusBitParts(m, bit, early, late);
    if BitValue(bit, early).Some? { StatusBitAgrees(m, BitValue(bit, early).value, at); }
    Settled(m, BitOnly(bit), early, late, at);
  }

  lemma RegisterBitParts(m: Mnemonic, d: bv8, bit: seq<Token>, early: seq<Equate>, late: seq<Equate>)
    requires TypeOf(m).LdstrBit?
    ensures GetOperand(m, RegBit(d, bit), early)
            == if IsReg(d) && BitValue(bit, early).Some? then
                 Some(Short(Merge(Merge(CodeOf(m), Field4(d)), Nibble(BitValue(bit, early).value) as bv16)))
               else None
    ensures Means(m, RegBit(d, bit), early, late)
            == if IsReg(d) && BitValue(bit, early).Some? then Some(BitMeaning(m, d as int, BitValue(bit, early).value))
               else None
  {
    hide CodeOf, TypeOf, Field4, Merge, ModeField, Nibble, BitValue, SingleMeaning, DualMeaning, DoubledMeaning,
      ByteMeaning, BranchMeaning, BitMeaning, ImpliedMeaning;
  }

  lemma RegisterBit(m: Mnemonic, d: bv8, bit: seq<Token>, early: seq<Equate>, late: seq<Equate>, at: word)
    requires TypeOf(m).LdstrBit?
    ensures Agreed(m, RegBit(d, bit), early, late, at)
  {
    hide Agreed, Codes, GetOperand, Means, CodeOf, TypeOf, Field4, Merge, ModeField, Nibble, BitValue, SingleMeaning,
      DualMeaning, DoubledMeaning, ByteMeaning, BranchMeaning, BitMeaning, ImpliedMeaning;
    RegisterBitParts(m, d, bit, early, late);
    if IsReg(d) && BitValue(bit, early).Some? { BitAgrees(m, d, BitValue(bit, early).value, at); }
    Settled(m, RegBit(d, bit), early, late, at);
  }

  lemma LoadPointerParts(m: Mnemonic, d: bv8, mode: Mode, early: seq<Equate>, late: seq<Equate>)
    requires TypeOf(m).LdInd?
    ensures GetOperand(m, RegPtr(d, mode), early)
            == if IsReg(d) && !mode.Ignored? then Some(Short(Merge(Merge(CodeOf(m), Field4(d)), ModeField(mode))))
               else None
    ensures Means(m, RegPtr(d, mode), early, late)
            == if IsReg(d) && !mode.Ignored? then Some(Do(Load(d as int, if m.MLoadIndX? then 12 else 14, mode)))
               else None
  {
    hide CodeOf, TypeOf, Field4, Merge, ModeField, Nibble, BitValue, SingleMeaning, DualMeaning, DoubledMeaning,
      ByteMeaning, BranchMeaning, BitMeaning, ImpliedMeaning;
  }

  lemma LoadPointer(m: Mnemonic, d: bv8, mode: Mode, early: seq<Equate>, late: seq<Equate>, at: word)
    requires TypeOf(m).LdInd?
    ensures Agreed(m, RegPtr(d, mode), early, late, at)
  {
    hide Agreed, Codes, GetOperand, Means, CodeOf, TypeOf, Field4, Merge, ModeField, Nibble, BitValue, SingleMeaning,
      DualMeaning, DoubledMeaning, ByteMeaning, BranchMeaning, BitMeaning, ImpliedMeaning;
    LoadPointerParts(m, d, mode, early, late);
    if IsReg(d) && !mode.Ignored? { LoadPointerAgrees(m, d, mode, at); }
    Settled(m, RegPtr(d, mode), early, late, at);
  }

  lemma StorePointerParts(m: Mnemonic, d: bv8, mode: Mode, early: seq<Equate>, late: seq<Equate>)
    requires TypeOf(m).StrInd?
    ensures GetOperand(m, RegPtr(d, mode), early)
            == if IsReg(d) && !mode.Ignored? then Some(Short(Merge(Merge(CodeOf(m), Field4(d)), ModeField(mode))))
               else None
    ensures Means(m, RegPtr(d, mode), early, late)
            == if IsReg(d) && !mode.Ignored? then Some(Do(Store(if m.MStoreIndX? then 12 else 14, mode, d as int)))
               else None
  {
    hide CodeOf, TypeOf, Field4, Merge, ModeField, Nibble, BitValue, SingleMeaning, DualMeaning, DoubledMeaning,
      ByteMeaning, BranchMeaning, BitMeaning, ImpliedMeaning;
  }

  lemma StorePointer(m: Mnemonic, d: bv8, mode: Mode, early: seq<Equate>, late: seq<Equate>, at: word)
    requires TypeOf(m).StrInd?
    ensures Agreed(m, RegPtr(d, mode), early, late, at)
  {
    hide Agreed, Codes, GetOperand, Means, CodeOf, TypeOf, Field4, Merge, ModeField, Nibble, BitValue, SingleMeaning,
      DualMeaning, DoubledMeaning, ByteMeaning, BranchMeaning, BitMeaning, ImpliedMeaning;
    StorePointerParts(m, d, mode, early, late);
    if IsReg(d) && !mode.Ignored? { StorePointerAgrees(m, d, mode, at); }
    Settled(m, RegPtr(d, mode), early, late, at);
  }

  lemma NoOperandParts(m: Mnemonic, early: seq<Equate>, late: seq<Equate>)
    requires TypeOf(m).Implied?
    ensures GetOperand(m, NoArg, early) == Some(Short(CodeOf(m)))
            && Means(m, NoArg, early, late) == Some(ImpliedMeaning(m))
  {
    hide CodeOf, TypeOf, Field4, Merge, ModeField, Nibble, BitValue, SingleMeaning, DualMeaning, DoubledMeaning,
      ByteMeaning, BranchMeaning, BitMeaning, ImpliedMeaning;
  }

  lemma NoOperand(m: Mnemonic, early: seq<Equate>, late: seq<Equate>, at: word)
    requires TypeOf(m).Implied?
    ensures Agreed(m, NoArg, early, late, at)
  {
    hide Agreed, Codes, GetOperand, Means, CodeOf, TypeOf, Field4, Merge, ModeField, Nibble, BitValue, SingleMeaning,
      DualMeaning, DoubledMeaning, ByteMeaning, BranchMeaning, BitMeaning, ImpliedMeaning;
    NoOperandParts(m, early, late);
    ImpliedAgrees(m, at);
    Settled(m, NoArg, early, late, at);
  }

  lemma PairMoveParts(m: Mnemonic, hi: bv8, lo: bv8, rhi: bv8, rlo: bv8, early: seq<Equate>, late: seq<Equate>)
    requires TypeOf(m).DirWord?
    ensures GetOperand(m, TwoPairs(hi, lo, rhi, rlo), early)
            == if EvenPair(hi, lo) && EvenPair(rhi, rlo) then
                 Some(Short(Merge(Merge(CodeOf(m), Field4(lo)), rlo as bv16)))
               else None
    ensures Means(m, TwoPairs(hi, lo, rhi, rlo), early, late)
            == if EvenPair(hi, lo) && EvenPair(rhi, rlo) then Some(Do(Movw(lo as int, rlo as int))) else None
  {
    hide CodeOf, TypeOf, Field4, Merge, SingleMeaning, DualMeaning, DoubledMeaning, ByteMeaning, BranchMeaning,
      BitMeaning, ImpliedMeaning;
  }

  lemma PairMove(m: Mnemonic, hi: bv8, lo: bv8, rhi: bv8, rlo: bv8, early: seq<Equate>, late: seq<Equate>, at: word)
    requires TypeOf(m).DirWord?
    ensures Agreed(m, TwoPairs(hi, lo, rhi, rlo), early, late, at)
  {
    hide Agreed, Codes, GetOperand, Means, CodeOf, TypeOf, Field4, Merge;
    PairMoveParts(m, hi, lo, rhi, rlo, early, late);
    if EvenPair(hi, lo) && EvenPair(rhi, rlo) { PairMoveAgrees(m, lo, rlo, at); }
    Settled(m, TwoPairs(hi, lo, rhi, rlo), early, late, at);
  }

  lemma RegisterByteParts(m: Mnemonic, d: bv8, e: seq<Token>, early: seq<Equate>, late: seq<Equate>)
    requires TypeOf(m).ImmByte?
    ensures GetOperand(m, RegExpr(d, e), early)
            == if IsReg(d) then Some(Later(Merge(CodeOf(m), Field4(d)), PatchImmByte, e)) else None
    ensures Means(m, RegExpr(d, e), early, late)
            == if !IsReg(d) || WordValue(e, late).None? then None
               else Some(ByteMeaning(m, d as int, Trunc8(WordValue(e, late).value)))
  {
    hide CodeOf, TypeOf, WordValue, Merge, Field4, Trunc8, SingleMeaning, DualMeaning, DoubledMeaning, ByteMeaning,
      BranchMeaning,
      BitMeaning, ImpliedMeaning;
  }

  lemma RegisterByte(m: Mnemonic, d: bv8, e: seq<Token>, early: seq<Equate>, late: seq<Equate>, at: word)
    requires TypeOf(m).ImmByte?
    ensures Agreed(m, RegExpr(d, e), early, late, at)
  {
    hide Codes, CodeOf, TypeOf, Field4, Merge, ImmField, WordValue, GetOperand, Encode, Means, Trunc8, ByteMeaning;
    RegisterByteParts(m, d, e, early, late);
    if IsReg(d) {
      PatchedLater(m, RegExpr(d, e), early, late, at, Later(Merge(CodeOf(m), Field4(d)), PatchImmByte, e));
      if WordValue(e, late).Some? {
        var k := Trunc8(WordValue(e, late).value);
        ByteRoundTrip(k);
        ByteAgrees(m, d, k as bv8, at);
      }
    } else {
      NotCoded(m, RegExpr(d, e), early, late, at);
    }
  }

  lemma PairWordParts(m: Mnemonic, hi: bv8, lo: bv8, e: seq<Token>, early: seq<Equate>, late: seq<Equate>)
    requires TypeOf(m).ImmWord?
    ensures GetOperand(m, PairExpr(hi, lo, e), early)
            == if WordPair(hi, lo) then
                 Some(Later(Merge(CodeOf(m), ((lo & 0x06) as bv16) << 3), PatchImmWord, e))
               else None
    ensures Means(m, PairExpr(hi, lo, e), early, late)
            == if !WordPair(hi, lo) || WordValue(e, late).None? || Trunc8(WordValue(e, late).value) > 63 then None
               else Some(Do(if m.MAddImmWord? then Adiw(lo as int, Trunc8(WordValue(e, late).value))
                            else Sbiw(lo as int, Trunc8(WordValue(e, late).value))))
  {
    hide CodeOf, TypeOf, WordValue, Merge, Trunc8, SingleMeaning, DualMeaning, DoubledMeaning, ByteMeaning,
      BranchMeaning, BitMeaning, ImpliedMeaning;
  }

  lemma PairWord(m: Mnemonic, hi: bv8, lo: bv8, e: seq<Token>, early: seq<Equate>, late: seq<Equate>, at: word)
    requires TypeOf(m).ImmWord?
    ensures Agreed(m, PairExpr(hi, lo, e), early, late, at)
  {
    hide Codes, CodeOf, TypeOf, Merge, WordField, WordValue, GetOperand, Encode, Means, Trunc8, SingleMeaning,
      DualMeaning, DoubledMeaning, ByteMeaning, BranchMeaning, BitMeaning, ImpliedMeaning;
    PairWordParts(m, hi, lo, e, early, late);
    if WordPair(hi, lo) {
      var base := Merge(CodeOf(m), ((lo & 0x06) as bv16) << 3);
      PatchedLater(m, PairExpr(hi, lo, e), early, late, at, Later(base, PatchImmWord, e));
      if WordValue(e, late).Some? && Trunc8(WordValue(e, late).value) <= 63 {
        WordAgrees(m, hi, lo, Trunc8(WordValue(e, late).value), at);
      }
    } else {
      NotCoded(m, PairExpr(hi, lo, e), early, late, at);
    }
  }

  /** The patch of a line that waits for an expression. */
  lemma PatchedLater(m: Mnemonic, arg: Arg, early: seq<Equate>, late: seq<Equate>, at: word, c: Coded)
    requires GetOperand(m, arg, early) == Some(c) && !c.patch.NoPatch?
    ensures Encode(m, arg, early, late, at)
            == match WordValue(c.e, late) case None => None case Some(w) => ApplyPatch(c, w, at)
  {
    hide GetOperand, Meaning, ApplyPatch;
  }

  /** The patch of a branch: refused if out of range. */
  lemma BranchPatched(m: Mnemonic, arg: Arg, early: seq<Equate>, late: seq<Equate>, at: word, base: bv16, e: seq<Token>)
    requires GetOperand(m, arg, early) == Some(Later(base, PatchBranch, e))
    ensures var c, v := Encode(m, arg, early, late, at), WordValue(e, late);
            && (c.Some? <==> v.Some? && -64 <= Displacement(v.value, at) <= 63)
            && (c.Some? ==>
                  c.value.size == 2 && c.value.extra == 0
                  && c.value.opcode == Merge(base, DispField((Displacement(v.value, at) % 0x80) as bv8)))
  {
    hide GetOperand, WordValue, Encode, Merge, DispField, Displacement;
    PatchedLater(m, arg, early, late, at, Later(base, PatchBranch, e));
  }

  lemma BranchLabelParts(m: Mnemonic, e: seq<Token>, early: seq<Equate>, late: seq<Equate>)
    requires TypeOf(m).BranchType?
    ensures GetOperand(m, Label(e), early) == Some(Later(CodeOf(m), PatchBranch, e))
    ensures Means(m, Label(e), early, late)
            == match WordValue(e, late) case None => None case Some(w) => Some(BranchMeaning(m, w))
  {
    hide CodeOf, TypeOf, WordValue, SingleMeaning, DualMeaning, DoubledMeaning, ByteMeaning, BranchMeaning,
      BitMeaning, ImpliedMeaning;
  }

  lemma BranchLabel(m: Mnemonic, e: seq<Token>, early: seq<Equate>, late: seq<Equate>, at: word)
    requires TypeOf(m).BranchType?
    ensures Agreed(m, Label(e), early, late, at)
  {
    hide Codes, CodeOf, TypeOf, Merge, DispField, Displacement, WordValue, GetOperand, Encode, Means, BranchMeaning;
    BranchLabelParts(m, e, early, late);
    BranchPatched(m, Label(e), early, late, at, CodeOf(m), e);
    if WordValue(e, late).Some? {
      var w := WordValue(e, late).value;
      if -64 <= Displacement(w, at) <= 63 { BranchAgrees(m, w, at); }
    }
  }

  lemma BitBranchParts(m: Mnemonic, bit: seq<Token>, e: seq<Token>, early: seq<Equate>, late: seq<Equate>)
    requires TypeOf(m).BrBit?
    ensures GetOperand(m, BitLabel(bit, e), early)
            == match BitValue(bit, early) case None => None
                 case Some(b) => Some(Later(Merge(CodeOf(m), Nibble(b) as bv16), PatchBranch, e))
    ensures Means(m, BitLabel(bit, e), early, late)
            == if BitValue(bit, early).None? || WordValue(e, late).None? then None
               else Some(BranchIf(m.MBranchBitSet?, BitValue(bit, early).value, WordValue(e, late).value))
  {
    hide CodeOf, TypeOf, BitValue, WordValue, Merge, Nibble, SingleMeaning, DualMeaning, DoubledMeaning, ByteMeaning,
      BranchMeaning, BitMeaning, ImpliedMeaning;
  }

  lemma BitBranch(m: Mnemonic, bit: seq<Token>, e: seq<Token>, early: seq<Equate>, late: seq<Equate>, at: word)
    requires TypeOf(m).BrBit?
    ensures Agreed(m, BitLabel(bit, e), early, late, at)
  {
    hide Codes, CodeOf, TypeOf, Merge, DispField, Displacement, BitValue, WordValue, Nibble, GetOperand, Encode, Means;
    BitBranchParts(m, bit, e, early, late);
    if BitValue(bit, early).Some? {
      var b := BitValue(bit, early).value;
      BranchPatched(m, BitLabel(bit, e), early, late, at, Merge(CodeOf(m), Nibble(b) as bv16), e);
      if WordValue(e, late).Some? && -64 <= Displacement(WordValue(e, late).value, at) <= 63 {
        BitBranchAgrees(m, b, WordValue(e, late).value, at);
      }
    } else {
      NotCoded(m, BitLabel(bit, e), early, late, at);
    }
  }

  lemma NotCoded(m: Mnemonic, arg: Arg, early: seq<Equate>, late: seq<Equate>, at: word)
    requires GetOperand(m, arg, early) == None
    ensures Encode(m, arg, early, late, at) == None
  {
    hide GetOperand;
  }

  /** A second word is known at once, or patched when the table is complete. */
  lemma LongCoded(m: Mnemonic, arg: Arg, early: seq<Equate>, late: seq<Equate>, at: word, opcode: bv16, a: Place)
    requires GetOperand(m, arg, early) == Some(Long(opcode, a))
    ensures var c, v := Encode(m, arg, early, late, at), PlaceValue(a, late);
            && c.Some? == v.Some?
            && (c.Some? ==>
                  c.value.opcode == opcode && c.value.extra == v.value && c.value.size == 4)
  {
    hide GetOperand, WordValue, Encode;
    match a
    case Literal(w) => LiteralCoded(m, arg, early, late, at);
    case Computed(e) => PatchedLater(m, arg, early, late, at, Long(opcode, a));
  }

  lemma LiteralCoded(m: Mnemonic, arg: Arg, early: seq<Equate>, late: seq<Equate>, at: word)
    requires GetOperand(m, arg, early).Some? && GetOperand(m, arg, early).value.patch.NoPatch?
    ensures Encode(m, arg, early, late, at) == GetOperand(m, arg, early)
  {
    hide GetOperand;
  }

  lemma LongJumpParts(m: Mnemonic, a: Place, early: seq<Equate>, late: seq<Equate>)
    requires TypeOf(m).Dir32?
    ensures GetOperand(m, At16(a), early) == Some(Long(CodeOf(m), a))
    ensures Means(m, At16(a), early, late)
            == match PlaceValue(a, late) case None => None case Some(w) => Some(if m.MCall? then CallTo(w)
               else JumpTo(w))
  {
    hide Long, PlaceValue, CodeOf, TypeOf, Field4, Merge, Meaning, SingleMeaning, DualMeaning, DoubledMeaning,
      ByteMeaning, BranchMeaning,
      BitMeaning, ImpliedMeaning;
  }

  lemma LongJump(m: Mnemonic, a: Place, early: seq<Equate>, late: seq<Equate>, at: word)
    requires TypeOf(m).Dir32?
    ensures Agreed(m, At16(a), early, late, at)
  {
    hide Codes, CodeOf, TypeOf, GetOperand, Encode, Means, Long, PlaceValue;
    LongJumpParts(m, a, early, late);
    LongCoded(m, At16(a), early, late, at, CodeOf(m), a);
    if PlaceValue(a, late).Some? { JumpAgrees(m, PlaceValue(a, late).value, at); }
  }

  lemma LoadAtParts(m: Mnemonic, d: bv8, a: Place, early: seq<Equate>, late: seq<Equate>)
    requires TypeOf(m).LdDir?
    ensures GetOperand(m, RegAt16(d, a), early) == if IsReg(d) then Some(Long(Merge(CodeOf(m), Field4(d)), a)) else None
    ensures Means(m, RegAt16(d, a), early, late)
            == if IsReg(d) && PlaceValue(a, late).Some? then Some(Do(Lds(d as int, PlaceValue(a, late).value)))
               else None
  {
    hide Long, PlaceValue, CodeOf, TypeOf, Field4, Merge, Meaning, SingleMeaning, DualMeaning, DoubledMeaning,
      ByteMeaning, BranchMeaning,
      BitMeaning, ImpliedMeaning;
  }

  lemma LoadAt(m: Mnemonic, d: bv8, a: Place, early: seq<Equate>, late: seq<Equate>, at: word)
    requires TypeOf(m).LdDir?
    ensures Agreed(m, RegAt16(d, a), early, late, at)
  {
    hide Codes, CodeOf, TypeOf, Merge, Field4, GetOperand, Encode, Means, Long, PlaceValue;
    DirectBase(m);
    LoadAtParts(m, d, a, early, late);
    if IsReg(d) {
      LongCoded(m, RegAt16(d, a), early, late, at, Merge(CodeOf(m), Field4(d)), a);
      if PlaceValue(a, late).Some? { LoadDirectAgrees(d, PlaceValue(a, late).value, at); }
    } else {
      NotCoded(m, RegAt16(d, a), early, late, at);
    }
  }

  lemma StoreAtParts(m: Mnemonic, d: bv8, a: Place, early: seq<Equate>, late: seq<Equate>)
    requires TypeOf(m).StrDir?
    ensures GetOperand(m, RegAt16(d, a), early) == if IsReg(d) then Some(Long(Merge(CodeOf(m), Field4(d)), a)) else None
    ensures Means(m, RegAt16(d, a), early, late)
            == if IsReg(d) && PlaceValue(a, late).Some? then Some(Do(Sts(PlaceValue(a, late).value, d as int)))
               else None
  {
    hide Long, PlaceValue, CodeOf, TypeOf, Field4, Merge, Meaning, SingleMeaning, DualMeaning, DoubledMeaning,
      ByteMeaning, BranchMeaning,
      BitMeaning, ImpliedMeaning;
  }

  lemma StoreAt(m: Mnemonic, d: bv8, a: Place, early: seq<Equate>, late: seq<Equate>, at: word)
    requires TypeOf(m).StrDir?
    ensures Agreed(m, RegAt16(d, a), early, late, at)
  {
    hide Codes, CodeOf, TypeOf, Merge, Field4, GetOperand, Encode, Means, Long, PlaceValue;
    DirectBase(m);
    StoreAtParts(m, d, a, early, late);
    if IsReg(d) {
      LongCoded(m, RegAt16(d, a), early, late, at, Merge(CodeOf(m), Field4(d)), a);
      if PlaceValue(a, late).Some? { StoreDirectAgrees(d, PlaceValue(a, late).value, at); }
    } else {
      NotCoded(m, RegAt16(d, a), early, late, at);
    }
  }

  /** The operands have the shape of the type. */
  predicate Shaped(ty: OpType, arg: Arg) {
    match ty
    case DirSing => arg.OneReg?
    case DirDual => arg.TwoRegs?
    case DirStd => arg.OneReg?
    case BitType => arg.BitOnly?
    case LdstrBit => arg.RegBit?
    case Implied => arg.NoArg?
    case LdInd => arg.RegPtr?
    case StrInd => arg.RegPtr?
    case DirWord => arg.TwoPairs?
    case ImmByte => arg.RegExpr?
    case ImmWord => arg.PairExpr?
    case BranchType => arg.Label?
    case BrBit => arg.BitLabel?
    case Dir32 => arg.At16?
    case LdDir => arg.RegAt16?
    case StrDir => arg.RegAt16?
  }

  lemma WrongOperands(m: Mnemonic, arg: Arg, early: seq<Equate>, late: seq<Equate>, at: word)
    requires !Shaped(TypeOf(m), arg)
    ensures Agreed(m, arg, early, late, at)
  {
    hide TypeOf, Shaped, GetOperand, Means, Encode;
    WrongToCode(m, arg, early);
    WrongToMean(m, arg, early, late);
    NotCoded(m, arg, early, late, at);
  }

  lemma WrongToCode(m: Mnemonic, arg: Arg, early: seq<Equate>)
    requires !Shaped(TypeOf(m), arg)
    ensures GetOperand(m, arg, early) == None
  {
    hide TypeOf, CodeOf;
  }

  lemma WrongToMean(m: Mnemonic, arg: Arg, early: seq<Equate>, late: seq<Equate>)
    requires !Shaped(TypeOf(m), arg)
    ensures Means(m, arg, early, late) == None
  {
    hide TypeOf;
  }

  /** For every mnemonic and all operands: accepted if and only if legal, and then coded as meant. */
  lemma EncodeAgrees(m: Mnemonic, arg: Arg, early: seq<Equate>, late: seq<Equate>, at: word)
    ensures Agreed(m, arg, early, late, at)
  {
    if !Shaped(TypeOf(m), arg) {
      WrongOperands(m, arg, early, late, at);
      return;
    }
    hide Agreed, TypeOf;
    match TypeOf(m)
    case DirSing => OneRegister(m, arg.d, early, late, at);
    case DirDual => TwoRegisters(m, arg.d, arg.r, early, late, at);
    case DirStd => SameRegister(m, arg.d, early, late, at);
    case BitType => StatusBit(m, arg.bit, early, late, at);
    case LdstrBit => RegisterBit(m, arg.d, arg.bit, early, late, at);
    case Implied => NoOperand(m, early, late, at);
    case LdInd => LoadPointer(m, arg.d, arg.mode, early, late, at);
    case StrInd => StorePointer(m, arg.d, arg.mode, early, late, at);
    case DirWord => PairMove(m, arg.hi, arg.lo, arg.rhi, arg.rlo, early, late, at);
    case ImmByte => RegisterByte(m, arg.d, arg.e, early, late, at);
    case ImmWord => PairWord(m, arg.hi, arg.lo, arg.e, early, late, at);
    case BranchType => BranchLabel(m, arg.e, early, late, at);
    case BrBit => BitBranch(m, arg.bit, arg.e, early, late, at);
    case Dir32 => LongJump(m, arg.a, early, late, at);
    case LdDir => LoadAt(m, arg.d, arg.a, early, late, at);
    case StrDir => StoreAt(m, arg.d, arg.a, early, late, at);
  }

  // ----- bit operands -----

  /** The bit that an instruction works on. */
  function BitUsed(i: Instr): Option<int> {
    match i
    case Compute(Bld(_, b)) => Some(b)
    case Compute(Bst(_, b)) => Some(b)
    case Compute(Bset(b)) => Some(b)
    case Compute(Bclr(b)) => Some(b)
    case Skip(BitIs(_, b, _)) => Some(b)
    case Branch(_, b, _) => Some(b)
    case _ => None
  }

  lemma BitInMeaning(m: Mnemonic, d: RegNo, b: Bit, i: Instr, at: word)
    requires TypeOf(m).LdstrBit? && Realizes(i, BitMeaning(m, d, b), at)
    ensures BitUsed(i) == Some(b)
  {
  }

  /** A bit operand may be 0 to 7, and the decoded instruction works on just that bit. */
  lemma RegisterBitUsed(m: Mnemonic, d: bv8, bit: seq<Token>, early: seq<Equate>, late: seq<Equate>, at: word)
    requires TypeOf(m).LdstrBit?
    ensures var c, v := Encode(m, RegBit(d, bit), early, late, at), Meaning(bit, early);
            && (c.Some? <==> d < 16 && v.Known? && v.w <= 7)
            && (c.Some? ==>
                  Select(c.value.opcode).Some?
                  && BitUsed(Fields(Select(c.value.opcode).value, c.value.opcode, c.value.extra)) == Some(v.w))
  {
    hide TypeOf, CodeOf, Meaning, Encode, Means, GetOperand, Select, Fields, Is32, BitMeaning, BitUsed, Realizes, Wide,
      Reaches;
    RegisterBitParts(m, d, bit, early, late);
    RegisterBit(m, d, bit, early, late, at);
    var c := Encode(m, RegBit(d, bit), early, late, at);
    if c.Some? {
      var b, h := BitValue(bit, early).value, Select(c.value.opcode).value;
      BitInMeaning(m, d as int, b, Fields(h, c.value.opcode, c.value.extra), at);
    }
    if IsReg(d) && BitValue(bit, early).Some? { BitNeverBranches(m, d as int, BitValue(bit, early).value, at); }
  }

  lemma BitNeverBranches(m: Mnemonic, d: RegNo, b: Bit, at: word)
    requires TypeOf(m).LdstrBit?
    ensures Reaches(BitMeaning(m, d, b), at)
  {
    hide TypeOf;
  }

  /** The same for the flags of the status register, by number. */
  lemma StatusBitUsed(m: Mnemonic, bit: seq<Token>, early: seq<Equate>, late: seq<Equate>, at: word)
    requires TypeOf(m).BitType?
    ensures var c, v := Encode(m, BitOnly(bit), early, late, at), Meaning(bit, early);
            && (c.Some? <==> v.Known? && v.w <= 7)
            && (c.Some? ==>
                  Select(c.value.opcode).Some?
                  && BitUsed(Fields(Select(c.value.opcode).value, c.value.opcode, c.value.extra)) == Some(v.w))
  {
    hide TypeOf, CodeOf, Meaning, Encode, Means, GetOperand, Select, Fields, Is32, Wide;
    StatusBitParts(m, bit, early, late);
    StatusBit(m, bit, early, late, at);
  }

  /** And for branches on a flag by number. */
  lemma BranchBitUsed(m: Mnemonic, bit: seq<Token>, e: seq<Token>, early: seq<Equate>, late: seq<Equate>, at: word)
    requires TypeOf(m).BrBit?
    ensures var c, v, t := Encode(m, BitLabel(bit, e), early, late, at), Meaning(bit, early), Meaning(e, late);
            && (c.Some? <==> v.Known? && v.w <= 7 && t.Known? && -64 <= Displacement(t.w, at) <= 63)
            && (c.Some? ==>
                  Select(c.value.opcode).Some?
                  && BitUsed(Fields(Select(c.value.opcode).value, c.value.opcode, c.value.extra)) == Some(v.w))
  {
    hide TypeOf, CodeOf, Meaning, Encode, Means, GetOperand, Select, Fields, Is32, Wide, Displacement, BranchTo;
    BitBranchParts(m, bit, e, early, late);
    BitBranch(m, bit, e, early, late, at);
  }

  // ----- the range check of word immediates -----

  predicate AddsWord(i: Instr, k: int) { i.Compute? && ((i.op.Adiw? && i.op.k == k) || (i.op.Sbiw? && i.op.k == k)) }

  /**
   The check sees the low byte of the value only, so that a value above 63 can be accepted; the
   emulator then adds something else. It adds what was written exactly when that is at most 63.
   */
  lemma WordImmediate(m: Mnemonic, hi: bv8, lo: bv8, e: seq<Token>, early: seq<Equate>, late: seq<Equate>, at: word)
    requires TypeOf(m).ImmWord? && WordPair(hi, lo) && WordValue(e, late).Some?
    ensures var w, c := WordValue(e, late).value, Encode(m, PairExpr(hi, lo, e), early, late, at);
            && (c.Some? <==> Trunc8(w) <= 63)
            && (c.Some? ==>
                  Select(c.value.opcode).Some?
                  && (AddsWord(Fields(Select(c.value.opcode).value, c.value.opcode, c.value.extra), w) <==> w <= 63))
  {
    hide CodeOf, TypeOf, WordValue, Encode, Means, GetOperand, Select, Fields, Is32, WordPair;
    PairWord(m, hi, lo, e, early, late, at);
    PairWordParts(m, hi, lo, e, early, late);
  }

  /** 256 passes for 0. */
  lemma WordImmediateTruncated(early: seq<Equate>, late: seq<Equate>, at: word)
    ensures Meaning([TNumber(256)], late) == Known(256)
    ensures Means(MAddImmWord, PairExpr(9, 8, [TNumber(256)]), early, late) == Some(Do(Adiw(8, 0)))
    ensures Encode(MAddImmWord, PairExpr(9, 8, [TNumber(256)]), early, late, at).Some?
  {
    NumberMeans(256, late);
    hide Meaning, CodeOf, Means, GetOperand, Encode;
    PairWordParts(MAddImmWord, 9, 8, [TNumber(256)], early, late);
    PairWord(MAddImmWord, 9, 8, [TNumber(256)], early, late, at);
  }

  // ----- byte immediates -----

  predicate TakesByte(o: Op) { o.Andi? || o.Cpi? || o.Ldi? || o.Ori? || o.Sbci? || o.Subi? }

  /** The constant of the line in the instruction; ClearBitsReg is an and with its complement. */
  function ByteUsed(m: Mnemonic, o: Op): int
    requires TakesByte(o)
  {
    if m.MClearBitsReg? then 0xff - o.k as int else o.k
  }

  lemma ByteInMeaning(m: Mnemonic, d: RegNo, k: byte)
    requires TypeOf(m).ImmByte?
    ensures var a := ByteMeaning(m, d, k); a.Do? && TakesByte(a.op) && ByteUsed(m, a.op) == k
  {
  }

  /**
   Byte immediates are not checked at all: every value is accepted, and the emulator uses the written one
   exactly when it is at most 255.
   */
  lemma ByteImmediate(m: Mnemonic, d: bv8, e: seq<Token>, early: seq<Equate>, late: seq<Equate>, at: word)
    requires TypeOf(m).ImmByte? && IsReg(d) && WordValue(e, late).Some?
    ensures var w, c := WordValue(e, late).value, Encode(m, RegExpr(d, e), early, late, at);
            && c.Some? && Select(c.value.opcode).Some?
            && var i := Fields(Select(c.value.opcode).value, c.value.opcode, c.value.extra);
            && i.Compute? && TakesByte(i.op) && (ByteUsed(m, i.op) == w <==> w <= 0xff)
  {
    hide CodeOf, TypeOf, WordValue, Encode, Means, GetOperand, Select, Fields, Is32, ByteMeaning, ByteUsed, TakesByte;
    RegisterByte(m, d, e, early, late, at);
    RegisterByteParts(m, d, e, early, late);
    ByteInMeaning(m, d as int, Trunc8(WordValue(e, late).value));
  }

  lemma LoadImmMeans()
    ensures TypeOf(MLoadImm).ImmByte? && ByteMeaning(MLoadImm, 0, 44) == Do(Ldi(0, 44))
  {
  }

  /** LoadImm of 300 loads 44. */
  lemma ByteImmediateTruncated(early: seq<Equate>, late: seq<Equate>, at: word)
    ensures Meaning([TNumber(300)], late) == Known(300)
    ensures Means(MLoadImm, RegExpr(0, [TNumber(300)]), early, late) == Some(Do(Ldi(0, 44)))
    ensures Encode(MLoadImm, RegExpr(0, [TNumber(300)]), early, late, at).Some?
  {
    hide TypeOf, Meaning, CodeOf, Means, GetOperand, Encode, Select, Fields, Merge, Field4, ByteUsed, TakesByte,
      ByteMeaning;
    NumberMeans(300, late);
    LoadImmMeans();
    RegisterByteParts(MLoadImm, 0, [TNumber(300)], early, late);
    ByteImmediate(MLoadImm, 0, [TNumber(300)], early, late, at);
  }

  lemma NumberMeans(v: int32, table: seq<Equate>)
    ensures Meaning([TNumber(v)], table) == Known(Trunc16(v))
  {
    assert [TNumber(v)][1..] == [];
    CutWhole([TNumber(v)]);
    assert Lex([TNumber(v)], table) == [Number(v)];
    assert Descent.ParsePower([Number(v)], 1, false) == Descent.Done(Const(v), []);
    assert Descent.ParseTerm([Number(v)]) == Descent.Done(Const(v), []);
    assert Descent.ParseSum([Number(v)]) == Descent.Done(Const(v), []);
    assert Descent.ParseList([Number(v)]) == Descent.Done(Const(v), []);
  }
}
