/** The byte stack: it refines an abstract stack, and a return matches its call. */
module Stack {
  import opened Words
  import opened Isa
  import opened Frames

  // ----- refinement of an abstract stack -----

  datatype StackOp = Pushing(x: byte) | Popping

  /** The cells above the stack pointer hold the stack, its bottom at 0xffff. */
  predicate Holds(c: Core, stack: seq<byte>) {
    |stack| <= 0xffff && c.sp == 0xffff - |stack| && forall i :: 0 <= i < |stack| ==> c.mem[0xffff - i] == stack[i]
  }

  /** push_val or pop_val, and the byte popped. */
  function Act(a: StackOp, c: Core): (Core, Option<byte>) {
    match a
    case Pushing(x) => (PushByte(c, x), None)
    case Popping => (c.(sp := PopTop(c.sp)), Some(c.mem[PopTop(c.sp)]))
  }

  function RunActions(actions: seq<StackOp>, c: Core): (Core, seq<byte>) {
    if actions == [] then (c, [])
    else
      var (c1, out) := Act(actions[0], c);
      var (c2, outs) := RunActions(actions[1..], c1);
      (c2, if out.Some? then [out.value] + outs else outs)
  }

  /** Popping the empty stack yields no particular byte and leaves it empty. */
  function Abstract(actions: seq<StackOp>, stack: seq<byte>): (seq<byte>, seq<Option<byte>>) {
    if actions == [] then (stack, [])
    else
      match actions[0]
      case Pushing(x) => Abstract(actions[1..], stack + [x])
      case Popping =>
        var (rest, top) := if stack == [] then ([], None) else (stack[..|stack| - 1], Some(stack[|stack| - 1]));
        var (end, outs) := Abstract(actions[1..], rest);
        (end, [top] + outs)
  }

  /** The depth stays within the 65535 bytes that the stack pointer can count. */
  predicate Fits(actions: seq<StackOp>, depth: nat) {
    depth <= 0xffff && (actions == [] || Fits(actions[1..], match actions[0]
      case Pushing(_) => depth + 1
      case Popping => if depth == 0 then 0 else depth - 1))
  }

  predicate Agrees(outs: seq<byte>, expected: seq<Option<byte>>) {
    |outs| == |expected| && forall i :: 0 <= i < |outs| && expected[i].Some? ==> outs[i] == expected[i].value
  }

  lemma PushHolds(x: byte, c: Core, stack: seq<byte>)
    requires Holds(c, stack) && |stack| < 0xffff
    ensures Holds(PushByte(c, x), stack + [x])
  {
    assert Trunc16(c.sp - 1) == c.sp - 1;
  }

  lemma PopHolds(c: Core, stack: seq<byte>)
    requires Holds(c, stack)
    ensures Holds(c.(sp := PopTop(c.sp)), if stack == [] then [] else stack[..|stack| - 1])
    ensures stack != [] ==> c.mem[PopTop(c.sp)] == stack[|stack| - 1]
  {
  }

  lemma AgreesMore(out: byte, outs: seq<byte>, top: Option<byte>, expected: seq<Option<byte>>)
    requires Agrees(outs, expected) && (top.Some? ==> out == top.value)
    ensures Agrees([out] + outs, [top] + expected)
  {
  }

  /** Any sequence of pushes and pops that fits behaves as on the abstract stack: last in, first out. */
  lemma {:induction false} Refines(actions: seq<StackOp>, c: Core, stack: seq<byte>)
    requires Holds(c, stack) && Fits(actions, |stack|)
    ensures Holds(RunActions(actions, c).0, Abstract(actions, stack).0)
    ensures Agrees(RunActions(actions, c).1, Abstract(actions, stack).1)
  {
    hide Holds, PushByte, PopTop;
    if actions == [] {
      assert Agrees([], []);
    } else {
      var rest := actions[1..];
      hide Agrees;
      match actions[0]
      case Pushing(x) =>
        FitsNext(actions, stack);
        PushHolds(x, c, stack);
        Refines(rest, PushByte(c, x), stack + [x]);
      case Popping =>
        PopHolds(c, stack);
        var c1 := c.(sp := PopTop(c.sp));
        var below := if stack == [] then [] else stack[..|stack| - 1];
        var top := if stack == [] then None else Some(stack[|stack| - 1]);
        Refines(rest, c1, below);
        AgreesMore(c.mem[PopTop(c.sp)], RunActions(rest, c1).1, top, Abstract(rest, below).1);
    }
  }

  lemma FitsNext(actions: seq<StackOp>, stack: seq<byte>)
    requires actions != [] && actions[0].Pushing? && Fits(actions, |stack|)
    ensures |stack| < 0xffff
  {
    assert Fits(actions[1..], |stack| + 1);
  }

  /** From the initial stack pointer the abstract stack is empty. */
  lemma RefinesFromStart(actions: seq<StackOp>, c: Core)
    requires c.sp == 0xffff && Fits(actions, 0)
    ensures Holds(RunActions(actions, c).0, Abstract(actions, []).0)
    ensures Agrees(RunActions(actions, c).1, Abstract(actions, []).1)
  {
    Refines(actions, c, []);
  }

  /** One push more and the stack pointer is again that of the empty stack. */
  lemma OverflowLooksEmpty(c: Core, stack: seq<byte>, x: byte)
    requires Holds(c, stack) && |stack| == 0xffff
    ensures PushByte(c, x).sp == 0xffff
    ensures Act(Popping, PushByte(c, x)) == (PushByte(c, x), Some(stack[0]))
  {
    assert PushByte(c, x).mem[0xffff] == stack[0];
  }

  // ----- the instructions Push and Pop -----

  /** What they work on: the registers, the stack, and the byte that popping the empty stack finds at 0xffff. */
  datatype View = View(reg: Regs, stack: seq<byte>, bottom: byte)

  predicate IsStackOp(o: Op) { o.Push? || o.Pop? }

  function ViewAfter(o: Op, v: View): View
    requires IsStackOp(o)
  {
    match o
    case Push(d) => View(v.reg, v.stack + [v.reg[d]], if v.stack == [] then v.reg[d] else v.bottom)
    case Pop(d) =>
      if v.stack == [] then v.(reg := v.reg[d := v.bottom])
      else View(v.reg[d := v.stack[|v.stack| - 1]], v.stack[..|v.stack| - 1], v.bottom)
  }

  predicate Shows(c: Core, v: View) { Holds(c, v.stack) && c.reg == v.reg && c.mem[0xffff] == v.bottom }

  /** Push puts its register on top; Pop moves the top into its register and changes no other. */
  lemma InstructionRefines(o: Op, c: Core, v: View)
    requires IsStackOp(o) && Shows(c, v) && (o.Push? ==> |v.stack| < 0xffff)
    ensures Shows(Effect(o, c), ViewAfter(o, v)) && Effect(o, c).sreg == c.sreg
  {
    match o
    case Push(d) => PushHolds(c.reg[d], c, v.stack);
    case Pop(d) => PopHolds(c, v.stack);
  }

  predicate AllStackOps(ops: seq<Op>) { forall k :: 0 <= k < |ops| ==> IsStackOp(ops[k]) }

  function Effects(ops: seq<Op>, c: Core): Core {
    hide Effect;
    if ops == [] then c else Effects(ops[1..], Effect(ops[0], c))
  }

  function ViewAfterAll(ops: seq<Op>, v: View): View
    requires AllStackOps(ops)
  {
    if ops == [] then v else ViewAfterAll(ops[1..], ViewAfter(ops[0], v))
  }

  /** No push finds the stack full. */
  predicate NeverFull(ops: seq<Op>, v: View)
    requires AllStackOps(ops)
  {
    ops == [] || ((ops[0].Push? ==> |v.stack| < 0xffff) && NeverFull(ops[1..], ViewAfter(ops[0], v)))
  }

  /** Any sequence of Push and Pop is last in, first out, from registers to registers. */
  lemma {:induction false} InstructionsRefine(ops: seq<Op>, c: Core, v: View)
    requires AllStackOps(ops) && Shows(c, v) && NeverFull(ops, v)
    ensures Shows(Effects(ops, c), ViewAfterAll(ops, v))
  {
    hide Shows, Effect, ViewAfter, IsStackOp;
    if ops != [] {
      InstructionRefines(ops[0], c, v);
      InstructionsRefine(ops[1..], Effect(ops[0], c), ViewAfter(ops[0], v));
    }
  }

  /** The run executes the instructions one after the other; the outside world stores below the stack. */
  predicate Performs(s: Cpu, events: seq<Event>, ops: seq<Op>, v: View)
    requires |ops| == |events| && AllStackOps(ops)
    decreases |events|
  {
    hide Fetch, Cycle, EventWrites;
    events == []
    || (&& events[0].Tick? && Fetch(s.core.mem, s.ip) == Got(Compute(ops[0]), 2) && Cycle(s, events[0]).Running?
        && (forall a :: a in EventWrites(events[0]) ==> a <= 0xffff - |ViewAfter(ops[0], v).stack|)
        && Performs(Cycle(s, events[0]).s, events[1..], ops[1..], ViewAfter(ops[0], v)))
  }

  lemma EventShows(c: Core, v: View, e: Event)
    requires Shows(c, v) && e.Tick? && forall a :: a in EventWrites(e) ==> a <= 0xffff - |v.stack|
    ensures Shows(c.(mem := StoreEvent(c.mem, e)), v)
  {
    hide StoreEvent, EventWrites;
    EventWritesFew(c.mem, e);
    assert 0xffff !in EventWrites(e) by { EventsBelow(e); }
  }

  lemma EventsBelow(e: Event)
    requires e.Tick?
    ensures forall a :: a in EventWrites(e) ==> a < 0xffff
  {
  }

  /** So it is on the running machine, with inputs stored after every instruction. */
  lemma {:induction false} PerformedInOrder(s: Cpu, events: seq<Event>, ops: seq<Op>, v: View)
    requires |ops| == |events| && AllStackOps(ops) && Shows(s.core, v) && NeverFull(ops, v)
    requires Performs(s, events, ops, v)
    ensures Run(s, events).Running? && Shows(Run(s, events).s.core, ViewAfterAll(ops, v))
    decreases |events|
  {
    hide Shows, Effect, ViewAfter, IsStackOp, Fetch, StoreEvent, EventWrites;
    if events != [] {
      var c := Effect(ops[0], s.core);
      InstructionRefines(ops[0], s.core, v);
      EventShows(c, ViewAfter(ops[0], v), events[0]);
      PerformedInOrder(Cycle(s, events[0]).s, events[1..], ops[1..], ViewAfter(ops[0], v));
    }
  }

  // ----- calls and returns -----

  function InstrAt(s: Cpu): Option<Instr> {
    hide Fetch;
    match Fetch(s.core.mem, s.ip)
    case Got(i, _) => Some(i)
    case _ => None
  }

  /** The frame of a call made with stack pointer f: the two bytes of the return address. */
  function Frame(f: word): set<word>
    requires f >= 2
  {
    {f, f - 1}
  }

  /** An explicit store into the frame; pushes and calls are judged by the stack pointer instead. */
  predicate StoresInto(i: Instr, c: Core, cells: set<word>) { i.Compute? && !(Stored(i.op, c) !! cells) }

  /** One turn that stays above the frame and does not store into it. */
  predicate Careful(f: word, s: Cpu, e: Event)
    requires f >= 2
  {
    hide Cycle, StoresInto, EventWrites, InstrAt;
    && Cycle(s, e).Running?
    && InstrAt(s).Some? && !StoresInto(InstrAt(s).value, s.core, Frame(f))
    && e.Tick? && EventWrites(e) !! Frame(f)
  }

  /** A run whose stack pointer stays at f - 2 or below, and that does not store into the frame. */
  predicate Keeps(f: word, s: Cpu, events: seq<Event>)
    requires f >= 2
    decreases |events|
  {
    hide Cycle, Careful;
    s.core.sp <= f - 2
    && (events == [] || (Careful(f, s, events[0]) && Cycle(s, events[0]).Running?
                         && Keeps(f, Cycle(s, events[0]).s, events[1..])))
  }

  // ----- runs that leave cells alone -----

  /** The cells that an instruction writes, by a store, a push or a call. */
  function InstrWrites(i: Instr, c: Core): set<word> {
    match i
    case Compute(o) => Written(o, c)
    case Call(_) => CallWrites(c.sp)
    case CallInd => CallWrites(c.sp)
    case _ => {}
  }

  predicate SameIn(cells: set<word>, m: Mem, m': Mem) { forall a :: a in cells ==> m'[a] == m[a] }

  /** One turn in which neither the instruction nor the outside world writes into the cells. */
  predicate Spares(cells: set<word>, s: Cpu, e: Event) {
    hide Cycle, InstrWrites, EventWrites, InstrAt;
    && Cycle(s, e).Running? && e.Tick?
    && InstrAt(s).Some? && InstrWrites(InstrAt(s).value, s.core) !! cells && EventWrites(e) !! cells
  }

  predicate SparesAll(cells: set<word>, s: Cpu, events: seq<Event>)
    decreases |events|
  {
    hide Cycle, Spares;
    events == [] || (Spares(cells, s, events[0]) && Cycle(s, events[0]).Running?
                     && SparesAll(cells, Cycle(s, events[0]).s, events[1..]))
  }

  lemma StepWrites(s: Cpu)
    requires Step(s).Running? && InstrAt(s).Some?
    ensures SameBut(s.core.mem, Step(s).s.core.mem, InstrWrites(InstrAt(s).value, s.core))
  {
    hide Fetch, Effect, Written, Skipped, Called, CallWrites;
    match Fetch(s.core.mem, s.ip)
    case Got(i, size) =>
      match i {
        case Compute(o) => EffectWrites(o, s.core);
        case Call(a) => CallWritesTwo(s, size, a);
        case CallInd => CallWritesTwo(s, size, PairAt(s.core.reg, 14));
        case Skip(t) => SkippedKeepsMemory(s, t);
        case _ =>
      }
  }

  lemma SkippedKeepsMemory(s: Cpu, t: Test)
    requires Skipped(s, t).Some?
    ensures Skipped(s, t).value.core == s.core.(sreg := Skipped(s, t).value.core.sreg)
  {
    hide WordAt, Flag, SumFlags, TestBit, Trunc16;
  }

  lemma TurnSpares(cells: set<word>, s: Cpu, e: Event)
    requires Spares(cells, s, e)
    ensures SameIn(cells, s.core.mem, Cycle(s, e).s.core.mem)
  {
    hide Step, InstrWrites, InstrAt, StoreEvent, EventWrites;
    StepWrites(s);
    EventWritesFew(Step(s).s.core.mem, e);
  }

  /** Such a run leaves the cells as they were, however long it is. */
  lemma {:induction false} RunSpares(cells: set<word>, s: Cpu, events: seq<Event>)
    requires SparesAll(cells, s, events)
    ensures Run(s, events).Running? && SameIn(cells, s.core.mem, Run(s, events).s.core.mem)
    decreases |events|
  {
    hide Cycle, Spares;
    if events != [] {
      TurnSpares(cells, s, events[0]);
      RunSpares(cells, Cycle(s, events[0]).s, events[1..]);
    }
  }

  /** An instruction below the frame that does not store into it spares the return address. */
  lemma CarefulSpares(f: word, s: Cpu, e: Event)
    requires f >= 2 && s.core.sp <= f - 2 && Careful(f, s, e) && Cycle(s, e).s.core.sp <= f - 2
    ensures Spares(Frame(f), s, e)
  {
    hide Fetch, Effect, Stored, Skipped, StoreEvent, EventWrites, Join, Trunc8, High;
    match Fetch(s.core.mem, s.ip)
    case Got(i, size) => if i.Call? || i.CallInd? { assert s.core.sp >= 1; }
  }

  lemma {:induction false} RunKeepsFrame(f: word, s: Cpu, events: seq<Event>)
    requires f >= 2 && Keeps(f, s, events)
    ensures SparesAll(Frame(f), s, events)
    ensures Run(s, events).Running? && SameIn(Frame(f), s.core.mem, Run(s, events).s.core.mem)
    decreases |events|
  {
    hide Cycle, Careful, Spares, Run;
    if events != [] {
      CarefulSpares(f, s, events[0]);
      RunKeepsFrame(f, Cycle(s, events[0]).s, events[1..]);
    }
    RunSpares(Frame(f), s, events);
  }

  // ----- calls and what follows them -----

  /** The return address of a call: the instruction after it. */
  function ReturnAddress(s: Cpu): word {
    hide InstrAt;
    Trunc16(s.ip + if InstrAt(s).Some? && InstrAt(s).value.Call? then 4 else 2)
  }

  predicate IsCall(i: Option<Instr>) { i.Some? && (i.value.Call? || i.value.CallInd?) }

  /** A call leaves its return address in the frame, below which the stack goes on. */
  lemma CallMakesFrame(s: Cpu, e: Event)
    requires s.core.sp >= 2 && IsCall(InstrAt(s)) && e.Tick? && EventWrites(e) !! Frame(s.core.sp)
    ensures var f, t := s.core.sp, Cycle(s, e);
            && t.Running? && t.s.core.sp == f - 2
            && t.s.core.mem[f] == Trunc8(ReturnAddress(s)) && t.s.core.mem[f - 1] == High(ReturnAddress(s))
  {
    hide StoreEvent, EventWrites, Trunc8, High, Step, ReturnAddress, IsCall, InstrAt;
    CallStep(s);
    EventWritesFew(Step(s).s.core.mem, e);
  }

  lemma CallStep(s: Cpu)
    requires s.core.sp >= 2 && IsCall(InstrAt(s))
    ensures var f, t := s.core.sp, Step(s);
            && t.Running? && t.s.core.sp == f - 2
            && t.s.core.mem[f] == Trunc8(ReturnAddress(s)) && t.s.core.mem[f - 1] == High(ReturnAddress(s))
  {
    hide Fetch, Trunc8, High, Trunc16, Called, Ran, Branched, Skipped, Returned, PairAt;
    CallSize(s.core.mem, s.ip);
    match Fetch(s.core.mem, s.ip)
    case Got(i, size) => CalledFrame(s, size, if i.Call? then i.a else PairAt(s.core.reg, 14));
  }

  lemma CalledFrame(s: Cpu, size: word, a: word)
    requires s.core.sp >= 2
    ensures var f, t := s.core.sp, Called(s, size, a);
            && t.core.sp == f - 2 && t.core.mem[f] == Trunc8(Trunc16(s.ip + size))
            && t.core.mem[f - 1] == High(Trunc16(s.ip + size))
  {
    hide Trunc8, High;
  }

  lemma CallSize(m: Mem, ip: word)
    requires Fetch(m, ip).Got?
    ensures var i := Fetch(m, ip).i;
            (i.Call? ==> Fetch(m, ip).size == 4) && (i.CallInd? ==> Fetch(m, ip).size == 2)
  {
    hide Select, WordAt, RegD, RegR, ImmK, PairOf, WordK, LowBits, MidBits, Disp, ModeOf, CbrOp, Join;
  }

  /** A return finds what the call left, once the stack pointer is back below the frame. */
  lemma ReturnStep(s: Cpu, f: word, a: word)
    requires f >= 2 && s.core.sp == f - 2 && InstrAt(s) == Some(Return)
    requires s.core.mem[f] == Trunc8(a) && s.core.mem[f - 1] == High(a)
    ensures Step(s) == Running(Cpu(a, s.core.(sp := f)))
  {
    hide Fetch;
  }

  /** A return executed at the depth where the call left off resumes after the call, if the frame was spared. */
  lemma SparedReturn(s: Cpu, e: Event, body: seq<Event>)
    requires s.core.sp >= 2 && IsCall(InstrAt(s)) && e.Tick? && EventWrites(e) !! Frame(s.core.sp)
    requires Cycle(s, e).Running? && SparesAll(Frame(s.core.sp), Cycle(s, e).s, body)
    requires Run(Cycle(s, e).s, body).Running?
    requires var s2 := Run(Cycle(s, e).s, body).s;
             InstrAt(s2) == Some(Return) && s2.core.sp == s.core.sp - 2
    ensures var s2 := Run(Cycle(s, e).s, body).s;
            Step(s2) == Running(Cpu(ReturnAddress(s), s2.core.(sp := s.core.sp)))
  {
    hide Cycle, Step, InstrAt, EventWrites, IsCall, ReturnAddress, Run;
    CallMakesFrame(s, e);
    RunSpares(Frame(s.core.sp), Cycle(s, e).s, body);
    ReturnStep(Run(Cycle(s, e).s, body).s, s.core.sp, ReturnAddress(s));
  }

  /**
   The frame is spared, whatever happens in between, as long as the stack pointer stays below it and
   nothing is stored into it.
   */
  lemma MatchedReturn(s: Cpu, e: Event, body: seq<Event>)
    requires s.core.sp >= 2 && IsCall(InstrAt(s)) && e.Tick? && EventWrites(e) !! Frame(s.core.sp)
    requires Cycle(s, e).Running? && Keeps(s.core.sp, Cycle(s, e).s, body)
    requires Run(Cycle(s, e).s, body).Running?
    requires var s2 := Run(Cycle(s, e).s, body).s;
             InstrAt(s2) == Some(Return) && s2.core.sp == s.core.sp - 2
    ensures var s2 := Run(Cycle(s, e).s, body).s;
            Step(s2) == Running(Cpu(ReturnAddress(s), s2.core.(sp := s.core.sp)))
  {
    hide Cycle, Step, InstrAt, EventWrites, IsCall, ReturnAddress, Run, Keeps, SparesAll;
    RunKeepsFrame(s.core.sp, Cycle(s, e).s, body);
    SparedReturn(s, e, body);
  }

  lemma PushTurn(s: Cpu, e: Event, d: RegNo)
    requires s.core.sp >= 1 && InstrAt(s) == Some(Compute(Push(d))) && e.Tick? && s.core.sp !in EventWrites(e)
    ensures var t := Cycle(s, e); t.Running? && t.s.core.mem[s.core.sp] == s.core.reg[d]
  {
    hide Fetch, StoreEvent, EventWrites;
    EventWritesFew(Effect(Push(d), s.core).mem, e);
  }

  lemma PopStep(s: Cpu, d: RegNo)
    requires s.core.sp < 0xffff && InstrAt(s) == Some(Compute(Pop(d)))
    ensures var f := s.core.sp + 1;
            Step(s).Running? && Step(s).s.core == s.core.(sp := f, reg := s.core.reg[d := s.core.mem[f]])
  {
    hide Fetch;
  }

  /**
   A Pop at the depth where a Push was made gives its byte back, whatever happens in between, as long as
   nothing else is written where it was put.
   */
  lemma MatchedPop(s: Cpu, e: Event, d: RegNo, body: seq<Event>, d': RegNo)
    requires s.core.sp >= 1 && InstrAt(s) == Some(Compute(Push(d))) && e.Tick? && s.core.sp !in EventWrites(e)
    requires Cycle(s, e).Running? && SparesAll({s.core.sp}, Cycle(s, e).s, body)
    requires Run(Cycle(s, e).s, body).Running?
    requires var s2 := Run(Cycle(s, e).s, body).s;
             InstrAt(s2) == Some(Compute(Pop(d'))) && s2.core.sp == s.core.sp - 1
    ensures var s2 := Run(Cycle(s, e).s, body).s;
            Step(s2).Running?
            && Step(s2).s.core == s2.core.(sp := s.core.sp, reg := s2.core.reg[d' := s.core.reg[d]])
  {
    hide Cycle, Step, InstrAt, EventWrites, Run;
    PushTurn(s, e, d);
    RunSpares({s.core.sp}, Cycle(s, e).s, body);
    PopStep(Run(Cycle(s, e).s, body).s, d');
  }
}
