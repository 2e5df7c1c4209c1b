/** The words that the repository's own listing gives for the instructions of its first example program. */
module Listing {
  import opened Words
  import opened Isa
  import opened Symbols
  import opened Parser
  import opened Source
  import opened Encoder
  import opened Correct

  /** The line at the address is assembled into the opcode, and the second word where there is one. */
  predicate Gives(m: Mnemonic, arg: Arg, late: seq<Equate>, at: word, opcode: bv16, second: Option<word>) {
    var c := Encode(m, arg, [], late, at);
    && c.Some? && c.value.opcode == opcode
    && (match second case None => c.value.size == 2 case Some(w) => c.value.size == 4 && c.value.extra == w)
  }

  lemma LoadGives(d: RegText, e: seq<Token>, k: byte, late: seq<Equate>, at: word)
    requires d < 16 && Meaning(e, late) == Known(k)
    ensures Gives(MLoadImm, RegExpr(d, e), late, at, 0xe000 | (d as bv16 << 4) | ImmField(k as bv8), None)
  {
    hide TypeOf, Meaning, GetOperand, Means, ImmField;
    LoadImmIs();
    RegisterByteParts(MLoadImm, d, e, [], late);
    PatchedLater(MLoadImm, RegExpr(d, e), [], late, at, Later(Merge(0xe000, Field4(d)), PatchImmByte, e));
  }

  lemma LoadImmIs()
    ensures TypeOf(MLoadImm).ImmByte? && CodeOf(MLoadImm) == 0xe000
  {
  }

  /** LoadImm with the registers and constants of the program. */
  lemma LoadsListed(e: seq<Token>, late: seq<Equate>, at: word)
    ensures Meaning(e, late) == Known(0x00) ==> Gives(MLoadImm, RegExpr(12, e), late, at, 0xe0c0, None)
    ensures Meaning(e, late) == Known(0xc0) ==> Gives(MLoadImm, RegExpr(13, e), late, at, 0xecd0, None)
    ensures Meaning(e, late) == Known(0x00) ==> Gives(MLoadImm, RegExpr(5, e), late, at, 0xe050, None)
    ensures Meaning(e, late) == Known(0xff) ==> Gives(MLoadImm, RegExpr(3, e), late, at, 0xef3f, None)
    ensures Meaning(e, late) == Known(0x01) ==> Gives(MLoadImm, RegExpr(4, e), late, at, 0xe041, None)
    ensures Meaning(e, late) == Known(0x2f) ==> Gives(MLoadImm, RegExpr(11, e), late, at, 0xe2bf, None)
    ensures Meaning(e, late) == Known(0x2d) ==> Gives(MLoadImm, RegExpr(11, e), late, at, 0xe2bd, None)
    ensures Meaning(e, late) == Known(0x5c) ==> Gives(MLoadImm, RegExpr(11, e), late, at, 0xe5bc, None)
    ensures Meaning(e, late) == Known(0x7c) ==> Gives(MLoadImm, RegExpr(11, e), late, at, 0xe7bc, None)
    ensures Meaning(e, late) == Known(0x20) ==> Gives(MLoadImm, RegExpr(0, e), late, at, 0xe200, None)
    ensures Meaning(e, late) == Known(0x80) ==> Gives(MLoadImm, RegExpr(3, e), late, at, 0xe830, None)
  {
    hide Meaning, Gives;
    if Meaning(e, late) == Known(0x00) { LoadGives(12, e, 0x00, late, at); }
    if Meaning(e, late) == Known(0xc0) { LoadGives(13, e, 0xc0, late, at); }
    if Meaning(e, late) == Known(0x00) { LoadGives(5, e, 0x00, late, at); }
    if Meaning(e, late) == Known(0xff) { LoadGives(3, e, 0xff, late, at); }
    if Meaning(e, late) == Known(0x01) { LoadGives(4, e, 0x01, late, at); }
    if Meaning(e, late) == Known(0x2f) { LoadGives(11, e, 0x2f, late, at); }
    if Meaning(e, late) == Known(0x2d) { LoadGives(11, e, 0x2d, late, at); }
    if Meaning(e, late) == Known(0x5c) { LoadGives(11, e, 0x5c, late, at); }
    if Meaning(e, late) == Known(0x7c) { LoadGives(11, e, 0x7c, late, at); }
    if Meaning(e, late) == Known(0x20) { LoadGives(0, e, 0x20, late, at); }
    if Meaning(e, late) == Known(0x80) { LoadGives(3, e, 0x80, late, at); }
  }

  /** A line whose words are known in the first pass. */
  lemma SettledGives(m: Mnemonic, arg: Arg, late: seq<Equate>, at: word, opcode: bv16)
    requires GetOperand(m, arg, []) == Some(Short(opcode))
    ensures Gives(m, arg, late, at, opcode, None)
  {
    hide GetOperand;
  }

  lemma RegisterCodes(m: Mnemonic)
    ensures m.MPush? ==> TypeOf(m).DirSing? && CodeOf(m) == 0x920f
    ensures m.MPop? ==> TypeOf(m).DirSing? && CodeOf(m) == 0x9203
    ensures m.MDecrement? ==> TypeOf(m).DirSing? && CodeOf(m) == 0x940a
  {
  }

  lemma PairCodes(m: Mnemonic)
    ensures m.MAdd? ==> TypeOf(m).DirDual? && CodeOf(m) == 0x0c00
    ensures m.MAddWithC? ==> TypeOf(m).DirDual? && CodeOf(m) == 0x1c00
    ensures m.MMove? ==> TypeOf(m).DirDual? && CodeOf(m) == 0x2c00
  {
  }

  lemma OtherCodes(m: Mnemonic)
    ensures m.MBreak? ==> TypeOf(m).Implied? && CodeOf(m) == 0x9598
    ensures m.MReturn? ==> TypeOf(m).Implied? && CodeOf(m) == 0x9508
    ensures m.MStoreIndX? ==> TypeOf(m).StrInd? && CodeOf(m) == 0x920c
  {
  }

  lemma TargetCodes(m: Mnemonic)
    ensures m.MCall? ==> TypeOf(m).Dir32? && CodeOf(m) == 0x940e
    ensures m.MJump? ==> TypeOf(m).Dir32? && CodeOf(m) == 0x940c
    ensures m.MBranchEqu? ==> TypeOf(m).BranchType? && CodeOf(m) == 0xf001
    ensures m.MBranchNotEqu? ==> TypeOf(m).BranchType? && CodeOf(m) == 0xf401
  {
  }

  /** Push, Pop and Decrement of r3. */
  lemma RegistersListed(late: seq<Equate>, at: word)
    ensures Gives(MPush, OneReg(3), late, at, 0x923f, None)
    ensures Gives(MPop, OneReg(3), late, at, 0x9233, None)
    ensures Gives(MDecrement, OneReg(3), late, at, 0x943a, None)
  {
    hide TypeOf, CodeOf, GetOperand, Means, Gives;
    RegisterCodes(MPush);
    RegisterCodes(MPop);
    RegisterCodes(MDecrement);
    OneRegisterParts(MPush, 3, [], late);
    OneRegisterParts(MPop, 3, [], late);
    OneRegisterParts(MDecrement, 3, [], late);
    SettledGives(MPush, OneReg(3), late, at, 0x923f);
    SettledGives(MPop, OneReg(3), late, at, 0x9233);
    SettledGives(MDecrement, OneReg(3), late, at, 0x943a);
  }

  /** Add r12,r4, AddWithC r13,r5 and Move r0,r11. */
  lemma PairsListed(late: seq<Equate>, at: word)
    ensures Gives(MAdd, TwoRegs(12, 4), late, at, 0x0cc4, None)
    ensures Gives(MAddWithC, TwoRegs(13, 5), late, at, 0x1cd5, None)
    ensures Gives(MMove, TwoRegs(0, 11), late, at, 0x2c0b, None)
  {
    hide TypeOf, CodeOf, GetOperand, Means, Gives;
    PairCodes(MAdd);
    PairCodes(MAddWithC);
    PairCodes(MMove);
    TwoRegistersParts(MAdd, 12, 4, [], late);
    TwoRegistersParts(MAddWithC, 13, 5, [], late);
    TwoRegistersParts(MMove, 0, 11, [], late);
    SettledGives(MAdd, TwoRegs(12, 4), late, at, 0x0cc4);
    SettledGives(MAddWithC, TwoRegs(13, 5), late, at, 0x1cd5);
    SettledGives(MMove, TwoRegs(0, 11), late, at, 0x2c0b);
  }

  /** Break, Return and StoreIndX X,r0. */
  lemma OthersListed(late: seq<Equate>, at: word)
    ensures Gives(MBreak, NoArg, late, at, 0x9598, None) && Gives(MReturn, NoArg, late, at, 0x9508, None)
    ensures Gives(MStoreIndX, RegPtr(0, Plain), late, at, 0x920c, None)
  {
    hide TypeOf, CodeOf, GetOperand, Means, Gives;
    OtherCodes(MBreak);
    OtherCodes(MReturn);
    OtherCodes(MStoreIndX);
    NoOperandParts(MBreak, [], late);
    NoOperandParts(MReturn, [], late);
    StorePointerParts(MStoreIndX, 0, Plain, [], late);
    SettledGives(MBreak, NoArg, late, at, 0x9598);
    SettledGives(MReturn, NoArg, late, at, 0x9508);
    SettledGives(MStoreIndX, RegPtr(0, Plain), late, at, 0x920c);
  }

  /** Calls and jumps, wherever they stand: the second word is the address. */
  lemma JumpsGive(e: seq<Token>, x: word, late: seq<Equate>, at: word)
    requires Meaning(e, late) == Known(x)
    ensures Gives(MCall, At16(Computed(e)), late, at, 0x940e, Some(x))
    ensures Gives(MJump, At16(Computed(e)), late, at, 0x940c, Some(x))
  {
    hide TypeOf, CodeOf, GetOperand, Means, Meaning;
    TargetCodes(MCall);
    TargetCodes(MJump);
    LongJumpParts(MCall, Computed(e), [], late);
    LongJumpParts(MJump, Computed(e), [], late);
    LongCoded(MCall, At16(Computed(e)), [], late, at, 0x940e, Computed(e));
    LongCoded(MJump, At16(Computed(e)), [], late, at, 0x940c, Computed(e));
  }

  /** BranchEqu to 0x46 at 0x40. */
  lemma EqualBranchListed(e: seq<Token>, late: seq<Equate>)
    requires Meaning(e, late) == Known(0x46)
    ensures Gives(MBranchEqu, Arg.Label(e), late, 0x40, 0xf031, None)
  {
    hide TypeOf, CodeOf, GetOperand, Means, Meaning;
    TargetCodes(MBranchEqu);
    BranchLabelParts(MBranchEqu, e, [], late);
    BranchPatched(MBranchEqu, Arg.Label(e), [], late, 0x40, 0xf001, e);
  }

  /** BranchNotEqu back to 0x56 at 0x58. */
  lemma BackBranchListed(e: seq<Token>, late: seq<Equate>)
    requires Meaning(e, late) == Known(0x56)
    ensures Gives(MBranchNotEqu, Arg.Label(e), late, 0x58, 0xf7f1, None)
  {
    hide TypeOf, CodeOf, GetOperand, Means, Meaning;
    TargetCodes(MBranchNotEqu);
    BranchLabelParts(MBranchNotEqu, e, [], late);
    BranchPatched(MBranchNotEqu, Arg.Label(e), [], late, 0x58, 0xf401, e);
  }
}
