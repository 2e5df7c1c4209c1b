/**
 Arithmetic inside runs: a carry chain whose instructions are executed anywhere in a run, with other
 instructions and inputs in between, and the signed comparison of two assembled lines.
 */
module InRuns {
  import opened Words
  import opened Isa
  import opened Arithmetic
  import opened Chains
  import opened Frames
  import opened Symbols
  import opened Parser
  import opened Source
  import opened Assembler
  import opened Image
  import opened Simulation
  import opened Vectors
  import AddressSplit
  import Agreement
  import CopyLoop

  // ----- a chain in a run -----

  /** An instruction of the chain: the turn of the run in which it is executed, and its registers. */
  datatype Spot = Spot(turn: nat, d: RegNo, r: RegNo)

  ghost predicate Gets(s: Cpu, events: seq<Event>, turn: nat) { turn <= |events| && Run(s, events[..turn]).Running? }

  /** The state before a turn of the run. */
  ghost function Before(s: Cpu, events: seq<Event>, turn: nat): Core {
    hide Run;
    if Gets(s, events, turn) then Run(s, events[..turn]).s.core else s.core
  }

  /** The turn executes the instruction. */
  ghost predicate Executes(s: Cpu, events: seq<Event>, turn: nat, o: Op) {
    hide Fetch, Run;
    && turn < |events| && events[turn].Tick? && Gets(s, events, turn)
    && var t := Run(s, events[..turn]).s;
    Fetch(t.core.mem, t.ip) == Got(Compute(o), 2)
  }

  lemma LastTurn(s: Cpu, e: Event)
    ensures Run(s, [e]) == Cycle(s, e)
  {
    hide Cycle;
    var t := Cycle(s, e);
    if t.Running? { assert [e][1..] == [] && Run(t.s, []) == Outcome.Running(t.s); }
  }

  lemma OneTurnMore(s: Cpu, events: seq<Event>, turn: nat)
    requires turn < |events| && Run(s, events[..turn]).Running?
    ensures Run(s, events[..turn + 1]) == Cycle(Run(s, events[..turn]).s, events[turn])
  {
    hide Cycle, Run;
    var more := events[..turn + 1];
    assert more[..turn] == events[..turn] && more[turn..] == [events[turn]];
    CopyLoop.RunSplit(s, more, turn);
    LastTurn(Run(s, events[..turn]).s, events[turn]);
  }

  /** What the outside world stores after an instruction touches memory only. */
  lemma TurnComputes(s: Cpu, events: seq<Event>, turn: nat, o: Op)
    requires Executes(s, events, turn, o)
    ensures var c, c1 := Before(s, events, turn), Before(s, events, turn + 1);
            Gets(s, events, turn + 1) && c1 == Effect(o, c).(mem := c1.mem)
  {
    hide Fetch, Effect, StoreEvent, Run;
    OneTurnMore(s, events, turn);
  }

  /** The chain stands in the run: every link is executed, and finds the carry that the one before it left. */
  ghost predicate InRun(k: Kind, s: Cpu, events: seq<Event>, spots: seq<Spot>) {
    && (forall j :: 0 <= j < |spots| ==> Executes(s, events, spots[j].turn, Link(k, spots[j].d, spots[j].r)))
    && forall j :: 0 <= j < |spots| - 1 ==>
         CarryIn(Before(s, events, spots[j + 1].turn).sreg) == CarryIn(Before(s, events, spots[j].turn + 1).sreg)
  }

  /** The registers and the states that the links find. */
  ghost function Found(s: Cpu, events: seq<Event>, spots: seq<Spot>): seq<Digit> {
    hide Before;
    if spots == [] then []
    else [Digit(spots[0].d, spots[0].r, Before(s, events, spots[0].turn))] + Found(s, events, spots[1..])
  }

  /** The number that they leave, the least significant byte first. */
  ghost function LeftBehind(s: Cpu, events: seq<Event>, spots: seq<Spot>): nat {
    hide Before;
    if spots == [] then 0
    else Before(s, events, spots[0].turn + 1).reg[spots[0].d] as int + 0x100 * LeftBehind(s, events, spots[1..])
  }

  lemma {:induction false} FoundAt(s: Cpu, events: seq<Event>, spots: seq<Spot>)
    ensures |Found(s, events, spots)| == |spots|
    ensures forall j :: 0 <= j < |spots| ==>
              Found(s, events, spots)[j] == Digit(spots[j].d, spots[j].r, Before(s, events, spots[j].turn))
  {
    hide Before;
    if spots != [] { FoundAt(s, events, spots[1..]); }
  }

  lemma LinkTurn(k: Kind, s: Cpu, events: seq<Event>, t: Spot)
    requires Executes(s, events, t.turn, Link(k, t.d, t.r))
    ensures var c, c1 := After(k, Digit(t.d, t.r, Before(s, events, t.turn))), Before(s, events, t.turn + 1);
            c1 == c.(mem := c1.mem)
  {
    hide Executes, Before, Effect, Gets;
    TurnComputes(s, events, t.turn, Link(k, t.d, t.r));
  }

  lemma FoundHanded(k: Kind, s: Cpu, events: seq<Event>, spots: seq<Spot>)
    requires InRun(k, s, events, spots)
    ensures Handed(k, Found(s, events, spots))
  {
    hide Executes, Before, After, CarryIn, Found;
    var ts := Found(s, events, spots);
    FoundAt(s, events, spots);
    forall j | 0 <= j < |ts| - 1 ensures CarryIn(ts[j + 1].c.sreg) == CarryIn(After(k, ts[j]).sreg) {
      assert Executes(s, events, spots[j].turn, Link(k, spots[j].d, spots[j].r));
      LinkTurn(k, s, events, spots[j]);
    }
  }

  lemma {:induction false} FoundOutcome(k: Kind, s: Cpu, events: seq<Event>, spots: seq<Spot>)
    requires forall j :: 0 <= j < |spots| ==> Executes(s, events, spots[j].turn, Link(k, spots[j].d, spots[j].r))
    ensures ResultNum(k, Found(s, events, spots)) == LeftBehind(s, events, spots)
  {
    hide Executes, Before, After;
    if spots != [] {
      LinkTurn(k, s, events, spots[0]);
      var more := spots[1..];
      forall j | 0 <= j < |more| ensures Executes(s, events, more[j].turn, Link(k, more[j].d, more[j].r)) {
        assert more[j] == spots[j + 1];
      }
      FoundOutcome(k, s, events, more);
      assert Found(s, events, spots)[1..] == Found(s, events, more);
    }
  }

  /**
   A carry chain of any length in any run, with any inputs: the bytes that its links find, those that they leave,
   and the carries before and after it are those of the sum, the difference or the comparison.
   */
  lemma ChainInRun(k: Kind, s: Cpu, events: seq<Event>, spots: seq<Spot>)
    requires spots != [] && InRun(k, s, events, spots)
    ensures var ts, last := Found(s, events, spots), spots[|spots| - 1].turn;
            ChainResult(k, LeftNum(ts), RightNum(ts), CarryIn(Before(s, events, spots[0].turn).sreg),
                        LeftBehind(s, events, spots), CarryIn(Before(s, events, last + 1).sreg), Pow(|spots|))
  {
    hide Executes, Before, After, CarryIn, Found, LeftBehind, LeftNum, RightNum, ResultNum, ChainResult, Handed;
    var ts, t := Found(s, events, spots), spots[|spots| - 1];
    FoundAt(s, events, spots);
    FoundHanded(k, s, events, spots);
    FoundOutcome(k, s, events, spots);
    LinkTurn(k, s, events, t);
    VectorChain(k, ts);
  }

  /** In particular AddWithC adds modulo 256^n. */
  lemma SumInRun(s: Cpu, events: seq<Event>, spots: seq<Spot>)
    requires spots != [] && InRun(Adding, s, events, spots)
    ensures var ts, last := Found(s, events, spots), spots[|spots| - 1].turn;
            var sum := LeftNum(ts) + RightNum(ts) + CarryIn(Before(s, events, spots[0].turn).sreg);
            && LeftBehind(s, events, spots) == sum % Pow(|spots|)
            && (CarryIn(Before(s, events, last + 1).sreg) == 1) == (sum >= Pow(|spots|))
  {
    hide Executes, Before, After, CarryIn, Found, LeftBehind, LeftNum, RightNum, InRun;
    var ts, last := Found(s, events, spots), spots[|spots| - 1].turn;
    ChainInRun(Adding, s, events, spots);
    LeftBehindBounded(s, events, spots);
    CarryOfSum(LeftBehind(s, events, spots), CarryIn(Before(s, events, last + 1).sreg), Pow(|spots|),
               LeftNum(ts) + RightNum(ts) + CarryIn(Before(s, events, spots[0].turn).sreg));
  }

  lemma LeftBehindBounded(s: Cpu, events: seq<Event>, spots: seq<Spot>)
    requires InRun(Adding, s, events, spots)
    ensures LeftBehind(s, events, spots) < Pow(|spots|)
  {
    hide Executes, Before, After, CarryIn, Found, LeftBehind, LeftNum, RightNum, ResultNum;
    FoundOutcome(Adding, s, events, spots);
    FoundAt(s, events, spots);
    NumsBounded(Adding, Found(s, events, spots));
  }

  // ----- the signed comparison, as assembled -----

  /** Subtract, and then a branch if the first register was less than the second. */
  predicate ComparesSigned(p: Program, i: nat, d: RegText, r: RegText, e: seq<Token>) {
    && LineHas(p, i, MSubtract, TwoRegs(d, r)) && LineHas(p, i + 1, MBranchLessThan, Arg.Label(e))
    && IsReg(d) && IsReg(r)
  }

  lemma SubtractMeans(d: RegText, r: RegText, early: seq<Equate>, late: seq<Equate>)
    requires IsReg(d) && IsReg(r)
    ensures Means(MSubtract, TwoRegs(d, r), early, late) == Some(Do(Op.Sub(d as int, r as int)))
  {
  }

  lemma LessMeans(e: seq<Token>, target: word, early: seq<Equate>, late: seq<Equate>)
    requires Meaning(e, late) == Known(target)
    ensures Means(MBranchLessThan, Arg.Label(e), early, late) == Some(BranchIf(true, SIGN, target))
  {
    hide Meaning;
  }

  lemma ComparisonActions(p: Program, i: nat, d: RegText, r: RegText, e: seq<Token>, target: word)
    requires Assembles(p) && ComparesSigned(p, i, d, r, e) && Meaning(e, Table(p)) == Known(target)
    ensures ActionAt(p, i) == Some(Do(Op.Sub(d as int, r as int)))
    ensures ActionAt(p, i + 1) == Some(BranchIf(true, SIGN, target))
  {
    hide Means, Meaning, LineFits, Address, Table, Equates;
    SubtractMeans(d, r, Equates(p, i), Table(p));
    LessMeans(e, target, Equates(p, i + 1), Table(p));
  }

  lemma ComparisonAddresses(p: Program, i: nat, d: RegText, r: RegText, e: seq<Token>)
    requires AddressesFit(p) && ComparesSigned(p, i, d, r, e)
    ensures Size(p[i]) == 2 && Size(p[i + 1]) == 2 && Address(p, i + 1) == Trunc16(Address(p, i) + 2)
  {
    hide Size, SetsAddress;
    CopyLoop.ShortLine(p, i, MSubtract, TwoRegs(d, r));
    CopyLoop.ShortLine(p, i + 1, MBranchLessThan, Arg.Label(e));
    assert Address(p, i + 1) == Address(p, i) + 2;
  }

  lemma BranchLineTurn(p: Program, i: nat, on: bool, b: Bit, target: word, c: Core, e: Event)
    requires Assembles(p) && InBounds(p) && IsInstr(p, i) && CodeIn(p, c.mem) && e.Tick? && Size(p[i]) == 2
    requires ActionAt(p, i) == Some(BranchIf(on, b, target))
    ensures Cycle(Cpu(Address(p, i), c), e)
            == Outcome.Running(Cpu(if Flag(c.sreg, b) == on then target else Trunc16(Address(p, i) + 2),
                                   c.(mem := StoreEvent(c.mem, e))))
  {
    hide LineFits, Address, Size, ActionAt, Fetch, StoreEvent, Flag, BranchTo, CodeIn, InBounds;
    CopyLoop.LineIs(p, i, c.mem);
  }

  lemma ComputeLineTurn(p: Program, i: nat, o: Op, c: Core, e: Event)
    requires Assembles(p) && InBounds(p) && IsInstr(p, i) && CodeIn(p, c.mem) && e.Tick?
    requires ActionAt(p, i) == Some(Do(o)) && Effect(o, c).mem == c.mem
    ensures Cycle(Cpu(Address(p, i), c), e)
            == Outcome.Running(Cpu(Trunc16(Address(p, i) + Size(p[i])), Effect(o, c).(mem := StoreEvent(c.mem, e))))
  {
    hide LineFits, Address, Size, ActionAt, Fetch, StoreEvent, Effect, CodeIn, InBounds;
    CopyLoop.LineIs(p, i, c.mem);
  }

  /**
   The two lines, assembled and executed with inputs stored after each: control goes to the label exactly if the
   first register is less than the second as signed numbers.
   */
  lemma SignedComparisonRuns(p: Program, i: nat, d: RegText, r: RegText, e: seq<Token>, target: word, c: Core,
                             in1: Event, in2: Event)
    requires Assembles(p) && InBounds(p) && CodeIn(p, c.mem) && ComparesSigned(p, i, d, r, e)
    requires Meaning(e, Table(p)) == Known(target)
    requires in1.Tick? && in2.Tick? && !HitsCode(p, EventWrites(in1))
    ensures var t := Run(Cpu(Address(p, i), c), [in1, in2]);
            && t.Running?
            && t.s.ip == (if Signed(c.reg[d as int]) < Signed(c.reg[r as int]) then target
                          else Trunc16(Address(p, i + 1) + 2))
            && t.s.core.reg == Effect(Op.Sub(d as int, r as int), c).reg
  {
    hide LineFits, Address, Size, ActionAt, Meaning, Table, Cycle, Run, StoreEvent, EventWrites, HitsCode, CodeIn,
      InBounds, Effect, Flag, Signed, Trunc16, Trunc8;
    var o := Op.Sub(d as int, r as int);
    ComparisonActions(p, i, d, r, e, target);
    ComparisonAddresses(p, i, d, r, e);
    OthersKeepMemory(o, c);
    ComputeLineTurn(p, i, o, c, in1);
    var c1 := Effect(o, c).(mem := StoreEvent(c.mem, in1));
    EventWritesFew(c.mem, in1);
    CodeStays(p, c.mem, c1.mem, EventWrites(in1));
    BranchLineTurn(p, i + 1, true, SIGN, target, c1, in2);
    SubtractIsExact(c, d as int, r as int, false);
    AddressSplit.TwoTurns(Cpu(Address(p, i), c), Cpu(Address(p, i + 1), c1),
                          Cycle(Cpu(Address(p, i + 1), c1), in2).s, in1, in2);
  }
}
