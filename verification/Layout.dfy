/** The bytes of the file and of the memory, in numbers: where each of them comes from, and what changes them. */
module Layout {
  import opened Words
  import opened Isa
  import opened Source
  import opened Encoder
  import opened Assembler
  import opened Image
  import opened Simulation

  // ----- the file -----

  lemma WordBytes(op: bv16)
    ensures LowByte(op) as int + 0x100 * HighByte(op) as int == op as int
  {
  }

  /** The file of every accepted program starts with basm and four zeros. */
  lemma HeaderBytes(p: Program)
    requires Assembles(p)
    ensures |FileOf(p, |p|)| >= 8
    ensures FileOf(p, |p|)[..8] == ['b' as byte, 'a' as byte, 's' as byte, 'm' as byte, 0, 0, 0, 0]
  {
    hide LineBytes, Assembles;
    HeaderSurvives(p, |p|);
  }

  /** The opcode of an instruction stands eight bytes behind its address, low byte first; the second word follows. */
  lemma InstructionInFile(p: Program, i: nat)
    requires Assembles(p) && IsInstr(p, i) && LastThere(p, i)
    ensures var f, at, c := FileOf(p, |p|), Address(p, i) + 8, CodeAt(p, i);
            && c.Some? && at + Size(p[i]) <= |f|
            && f[at] as int + 0x100 * f[at + 1] as int == c.value.opcode as int
            && (Size(p[i]) == 4 ==> f[at + 2] as int + 0x100 * f[at + 3] as int == c.value.extra)
  {
    hide Encode, TypeOf, Address, FileOf, LowByte, HighByte, LastThere, LineFits, Table, Equates;
    LineSurvives(p, i, |p|);
    LineLength(p, i);
    InstrSize(p, i);
    CodeSize(p, i);
    var f, at, bytes, c := FileOf(p, |p|), Address(p, i) + 8, LineBytes(p, i), CodeAt(p, i).value;
    assert f[at + 0] == bytes[0] && f[at + 1] == bytes[1];
    assert bytes[0] == LowByte(c.opcode) && bytes[1] == HighByte(c.opcode);
    WordBytes(c.opcode);
    if Size(p[i]) == 4 {
      assert f[at + 2] == bytes[2] && f[at + 3] == bytes[3];
      assert bytes[2] == Trunc8(c.extra) && bytes[3] == High(c.extra);
      JoinHalves(c.extra);
    }
  }

  // ----- the memory -----

  /** What load makes of the memory, cell by cell. */
  lemma LoadedByCell(file: seq<byte>, junk: Mem, a: word)
    ensures |file| < 8 || file[..5] != ['b' as byte, 'a' as byte, 's' as byte, 'm' as byte, 0] ==>
              Loaded(file, junk)[a] == junk[a]
    ensures |file| >= 8 && file[..5] == ['b' as byte, 'a' as byte, 's' as byte, 'm' as byte, 0] ==>
              Loaded(file, junk)[a] == if |file| > 0x1_0007 then file[a + 8]
                                       else if 0xc000 <= a <= 0xd7ff then 0
                                       else if a + 8 < |file| then file[a + 8]
                                       else junk[a]
  {
  }

  /** Data off the screen stands in memory at its address, byte by byte, in the order in which it was written. */
  lemma DataInMemory(p: Program, i: nat, name: Option<string>, bytes: Block, junk: Mem, k: nat)
    requires Assembles(p) && i < |p| && p[i] == Text(name, Data(bytes)) && LastThere(p, i) && k < |bytes|
    requires Address(p, i) + |bytes| <= 0xc000 || (0xd800 <= Address(p, i) && Address(p, i) + |bytes| <= 0x1_0000)
    ensures Loaded(FileOf(p, |p|), junk)[Address(p, i) + k] == bytes[k]
  {
    hide Assembles, Address, FileOf, Loaded, LastThere;
    ReadBack(p, i, junk);
    assert LineBytes(p, i) == bytes;
    var m := Loaded(FileOf(p, |p|), junk);
    assert m[Address(p, i)..Address(p, i) + |bytes|][k] == bytes[k];
  }

  /** The emulator starts at address 0 with an empty stack, all registers 0 and all flags clear. */
  lemma BootState(p: Program, junk: Mem)
    requires Assembles(p)
    ensures var s := Boot(p, junk);
            && s.ip == 0 && s.core.sp == 0xffff && s.core.sreg == 0
            && (forall d: RegNo :: s.core.reg[d] == 0) && s.core.mem == Loaded(FileOf(p, |p|), junk)
  {
    hide Assembles, FileOf, Loaded;
  }

  // ----- inputs -----

  /** After an instruction the outside world stores a key, two random bytes, the low one first, and an input port. */
  lemma EventByCell(m: Mem, e: Event, a: word)
    requires e.Tick?
    ensures StoreEvent(m, e)[a]
            == if a == 0xe000 && e.key.Some? then e.key.value
               else if a == 0xe004 then e.random % 0x100
               else if a == 0xe005 then e.random / 0x100
               else if a == 0xe102 && e.port.Some? then e.port.value
               else m[a]
  {
  }

  /** One turn: the instruction, and then the inputs; or the wish to stop, which leaves everything else as it is. */
  lemma TurnByCell(s: Cpu, e: Event, a: word)
    requires Step(s).Running?
    ensures var t, s1 := Cycle(s, e), Step(s).s;
            && (e.Stop? ==> t == Quit(s1))
            && (e.Tick? ==> t.Running? && t.s.ip == s1.ip && t.s.core == s1.core.(mem := t.s.core.mem)
                            && t.s.core.mem[a] == StoreEvent(s1.core.mem, e)[a])
  {
    hide Step, StoreEvent;
  }
}
