/** A program small enough to follow by hand, from its two lines to the halted machine. */
module Example {
  import opened Words
  import opened Isa
  import opened Frames
  import opened Source
  import opened Assembler
  import opened Correct
  import opened Image
  import opened Simulation

  const NOTHING: Program := [Text(None, Ins8(MNOP, NoArg)), Text(None, Ins8(MBreak, NoArg))]

  lemma Layout()
    ensures Address(NOTHING, 0) == 0 && Address(NOTHING, 1) == 2 && Size(NOTHING[0]) == 2 && Size(NOTHING[1]) == 2
    ensures AddressesFit(NOTHING) && CodeApart(NOTHING) && CodeOffScreen(NOTHING)
    ensures LineAt(NOTHING, 0, 0) == Some(0) && Fall(NOTHING, 1) == Some(1)
  {
    assert Address(NOTHING, 1) == Address(NOTHING, 0) + Size(NOTHING[0]);
  }

  lemma Accepted()
    ensures Assembles(NOTHING)
    ensures ActionAt(NOTHING, 0) == Some(Do(Nop)) && ActionAt(NOTHING, 1) == Some(Finish)
  {
    Layout();
    hide Address, Size, Equates, Table;
    forall i | 0 <= i < 2 ensures LineFits(NOTHING, i) {
      NoOperandParts(NOTHING[i].body.m, Equates(NOTHING, i), Table(NOTHING));
      NoOperand(NOTHING[i].body.m, Equates(NOTHING, i), Table(NOTHING), Address(NOTHING, i));
    }
    NoOperandParts(MNOP, Equates(NOTHING, 0), Table(NOTHING));
    NoOperandParts(MBreak, Equates(NOTHING, 1), Table(NOTHING));
  }

  /** Neither instruction lies in a cell of the outside world. */
  lemma InputsMissCode(e: Event)
    requires e.Tick?
    ensures !HitsCode(NOTHING, EventWrites(e))
  {
    Layout();
    hide Address, Size;
    forall i: nat, a: word | a in EventWrites(e) ensures !Covers(NOTHING, i, a) {
      assert a >= 0xe000;
    }
  }

  lemma NothingHitsNothing()
    ensures !HitsCode(NOTHING, {})
  {
  }

  lemma FirstStep(c: Core)
    requires AddressesFit(NOTHING)
    ensures SrcStep(NOTHING, Src(0, c)) == Going(Src(1, c))
  {
    Layout();
    Accepted();
    NothingHitsNothing();
    hide Address, Size, ActionAt, HitsCode, Assembles, Fall, LineAt, CodeApart, CodeOffScreen;
    assert Written(Nop, c) == {};
  }

  lemma SecondStep(c: Core)
    requires AddressesFit(NOTHING)
    ensures SrcStep(NOTHING, Src(1, c)) == Ended(Src(1, c))
  {
    Layout();
    Accepted();
    hide Address, Size, ActionAt, HitsCode, Assembles, Fall, LineAt, CodeApart, CodeOffScreen;
  }

  /** The source falls from the first line to the second and ends there. */
  lemma SourceEnds(c: Core, e: Event, last: Event)
    requires e.Tick? && AddressesFit(NOTHING)
    ensures SrcRun(NOTHING, Src(0, c), [e, last]) == Ended(Src(1, c.(mem := StoreEvent(c.mem, e))))
  {
    hide StoreEvent, EventWrites, HitsCode, SrcStep, AddressesFit;
    var c1 := c.(mem := StoreEvent(c.mem, e));
    FirstStep(c);
    InputsMissCode(e);
    SecondStep(c1);
    assert SrcCycle(NOTHING, Src(0, c), e) == Going(Src(1, c1));
    assert SrcCycle(NOTHING, Src(1, c1), last) == Ended(Src(1, c1));
    assert [e, last][1..] == [last];
    assert SrcRun(NOTHING, Src(1, c1), [last]) == Ended(Src(1, c1));
  }

  /** So the machine, booted on the image over any memory, halts behind the second instruction. */
  lemma MachineHalts(junk: Mem, e: Event, last: Event)
    requires e.Tick? && Assembles(NOTHING)
    ensures var c := Boot(NOTHING, junk).core;
            Run(Boot(NOTHING, junk), [e, last]) == Halted(Cpu(4, c.(mem := StoreEvent(c.mem, e))))
  {
    Layout();
    SourceEnds(Boot(NOTHING, junk).core, e, last);
    hide Assembles, CodeApart, CodeOffScreen, LineAt, SrcRun, Run, Boot, Address, StoreEvent;
    ImageRunsAsSource(NOTHING, junk, [e, last]);
  }
}
