/**
 The copy loop of the game: load through Y, store through X, count down, branch back
 (examples/shootit.asm, label drwslp). It is judged on the machine, with the outside world storing
 its inputs between any two instructions.
 */
module CopyLoop {
  import opened Words
  import opened Isa
  import opened Arithmetic
  import opened Frames
  import opened Symbols
  import opened Parser
  import opened Source
  import opened Assembler
  import opened Image
  import opened Simulation
  import Agreement

  const X: PairNo := 12
  const Y: PairNo := 14

  /** The cells into which the outside world stores. */
  const IO: set<word> := {KEY, RANDOM, 0xe005, PORT}

  function Cell(base: word, k: nat): word { Trunc16(base + k) }

  function Cells(base: word, count: nat): set<word> { set k | 0 <= k < count :: Cell(base, k) }

  /** The four instructions stand at the address; the registers for the byte and the count are t and n. */
  predicate LoopAt(m: Mem, a: word, t: RegNo, n: RegNo) {
    && a <= 0xfff8 && t < X && n < X && t != n
    && Fetch(m, a) == Got(Compute(Load(t, Y, PostInc)), 2)
    && Fetch(m, a + 2) == Got(Compute(Store(X, PostInc, t)), 2)
    && Fetch(m, a + 4) == Got(Compute(Dec(n)), 2)
    && BackAt(Fetch(m, a + 6), a)
  }

  predicate BackAt(f: Fetched, a: word)
    requires a <= 0xfff8
  {
    f.Got? && f.size == 2 && f.i.Branch? && !f.i.on && f.i.b == ZERO && BranchTo(a + 6, f.i.k) == a
  }

  /** The source, the destination, the code and the I/O cells do not get into each other's way. */
  predicate Separate(a: word, from: word, to: word, count: nat)
    requires a <= 0xfff8
  {
    && Cells(a, 8) !! IO && Cells(from, count) !! IO && Cells(to, count) !! IO
    && Cells(to, count) !! Cells(a, 8) && Cells(to, count) !! Cells(from, count)
  }

  /** A count of zero means 256. */
  function Times(count: byte): nat { if count == 0 then 0x100 else count }

  /** The run has copied the bytes, moved both pointers past them, and changed nothing else but its registers. */
  ghost predicate Copied(s: Cpu, o: Outcome, a: word, t: RegNo, n: RegNo, count: nat) {
    var from, to := PairAt(s.core.reg, Y), PairAt(s.core.reg, X);
    && o.Running? && o.s.ip == Trunc16(a + 8) && o.s.core.sp == s.core.sp
    && PairAt(o.s.core.reg, Y) == Trunc16(from + count) && PairAt(o.s.core.reg, X) == Trunc16(to + count)
    && o.s.core.reg[n] == 0
    && (forall d :: 0 <= d < X && d != t && d != n ==> o.s.core.reg[d] == s.core.reg[d])
    && (forall k :: 0 <= k < count ==> o.s.core.mem[Cell(to, k)] == s.core.mem[Cell(from, k)])
    && SameBut(s.core.mem, o.s.core.mem, IO + Cells(to, count))
  }

  predicate AllTicks(events: seq<Event>) { forall i :: 0 <= i < |events| ==> events[i].Tick? }

  // ----- one turn -----

  lemma EventsStoreInIO(m: Mem, e: Event)
    requires e.Tick?
    ensures SameBut(m, StoreEvent(m, e), IO)
  {
    hide StoreEvent, SameBut, EventWrites;
    EventWritesFew(m, e);
    assert EventWrites(e) <= IO by { FewAreIO(e); }
    assert SameBut(m, StoreEvent(m, e), IO) by { MoreCells(m, StoreEvent(m, e), EventWrites(e), IO); }
  }

  lemma FewAreIO(e: Event)
    requires e.Tick?
    ensures EventWrites(e) <= IO
  {
  }

  lemma MoreCells(m: Mem, m': Mem, cells: set<word>, more: set<word>)
    requires SameBut(m, m', cells) && cells <= more
    ensures SameBut(m, m', more)
  {
  }

  /** A computing instruction, and what the outside world stores after it. */
  lemma ComputeTurn(s: Cpu, e: Event, o: Op)
    requires e.Tick? && Fetch(s.core.mem, s.ip) == Got(Compute(o), 2)
    ensures var t := Cycle(s, e);
            && t.Running? && t.s.ip == Trunc16(s.ip + 2)
            && t.s.core == Effect(o, s.core).(mem := t.s.core.mem)
            && SameBut(Effect(o, s.core).mem, t.s.core.mem, IO)
  {
    hide Fetch, Effect, StoreEvent, SameBut;
    EventsStoreInIO(Effect(o, s.core).mem, e);
  }

  lemma BranchTurn(s: Cpu, e: Event, a: word)
    requires e.Tick? && a <= 0xfff8 && s.ip == a + 6 && BackAt(Fetch(s.core.mem, a + 6), a)
    ensures var t := Cycle(s, e);
            && t.Running? && t.s.ip == (if Flag(s.core.sreg, ZERO) then Trunc16(a + 8) else a)
            && t.s.core == s.core.(mem := t.s.core.mem) && SameBut(s.core.mem, t.s.core.mem, IO)
  {
    hide Fetch, StoreEvent, SameBut, Flag, BranchTo;
    EventsStoreInIO(s.core.mem, e);
  }

  // ----- the effects -----

  lemma LoadNext(c: Core, t: RegNo)
    requires t < X
    ensures var c1 := Effect(Load(t, Y, PostInc), c);
            && c1 == c.(reg := c1.reg) && c1.reg[t] == c.mem[PairAt(c.reg, Y)]
            && PairAt(c1.reg, Y) == Trunc16(PairAt(c.reg, Y) + 1) && PairAt(c1.reg, X) == PairAt(c.reg, X)
            && forall d: RegNo :: d < X && d != t ==> c1.reg[d] == c.reg[d]
  {
    hide IncPair, Trunc16, Join;
    IncPairCounts(c.reg[t := c.mem[PairAt(c.reg, Y)]], Y);
  }

  lemma StoreNext(c: Core, t: RegNo)
    requires t < X
    ensures var c1 := Effect(Store(X, PostInc, t), c);
            && c1 == c.(reg := c1.reg, mem := c.mem[PairAt(c.reg, X) := c.reg[t]])
            && PairAt(c1.reg, X) == Trunc16(PairAt(c.reg, X) + 1) && PairAt(c1.reg, Y) == PairAt(c.reg, Y)
            && forall d: RegNo :: d < X ==> c1.reg[d] == c.reg[d]
  {
    hide IncPair, Trunc16, Join;
    IncPairCounts(c.reg, X);
  }

  lemma CountDown(c: Core, n: RegNo)
    requires n < X
    ensures var c1 := Effect(Dec(n), c);
            && c1 == c.(reg := c1.reg, sreg := c1.sreg)
            && Times(c1.reg[n]) == (if Times(c.reg[n]) == 1 then 0x100 else Times(c.reg[n]) - 1)
            && Flag(c1.sreg, ZERO) == (Times(c.reg[n]) == 1) && (c1.reg[n] == 0) == (Times(c.reg[n]) == 1)
            && PairAt(c1.reg, X) == PairAt(c.reg, X) && PairAt(c1.reg, Y) == PairAt(c.reg, Y)
            && forall d: RegNo :: d < X && d != n ==> c1.reg[d] == c.reg[d]
  {
    hide Flag, Put, Join;
    var x := Trunc8(At(c.reg, n) - 1);
    var f := Put(c.sreg, OVERFLOW, c.reg[n] == 0x80);
    var f1 := Put(f, ZERO, x == 0);
    FlagPut(f, ZERO, x == 0, ZERO);
    FlagPut(f1, NEGATIVE, x >= 0x80, ZERO);
    FlagPut(Put(f1, NEGATIVE, x >= 0x80), SIGN, (x >= 0x80) != Flag(f, OVERFLOW), ZERO);
  }

  // ----- the code stays where it is -----

  lemma FetchStays(m: Mem, m': Mem, ip: word)
    requires Fetch(m, ip).Got? && Fetch(m, ip).size == 2 && ip < 0xffff && m'[ip] == m[ip] && m'[ip + 1] == m[ip + 1]
    ensures Fetch(m', ip) == Fetch(m, ip)
  {
    hide Select, Fields;
    assert WordAt(m', ip) == WordAt(m, ip);
  }

  lemma CodeCell(m: Mem, m': Mem, a: word, k: nat, cells: set<word>)
    requires a <= 0xfff8 && k < 8 && SameBut(m, m', cells) && cells !! Cells(a, 8)
    ensures m'[a + k] == m[a + k]
  {
    var x: word := a + k;
    assert x == Cell(a, k);
    assert x in Cells(a, 8);
  }

  lemma LoopStays(m: Mem, m': Mem, a: word, t: RegNo, n: RegNo, cells: set<word>)
    requires LoopAt(m, a, t, n) && SameBut(m, m', cells) && cells !! Cells(a, 8)
    ensures LoopAt(m', a, t, n)
  {
    hide Fetch, SameBut, Cells, BranchTo;
    CodeCell(m, m', a, 0, cells);
    CodeCell(m, m', a, 1, cells);
    CodeCell(m, m', a, 2, cells);
    CodeCell(m, m', a, 3, cells);
    CodeCell(m, m', a, 4, cells);
    CodeCell(m, m', a, 5, cells);
    CodeCell(m, m', a, 6, cells);
    CodeCell(m, m', a, 7, cells);
    FetchStays(m, m', a);
    FetchStays(m, m', a + 2);
    FetchStays(m, m', a + 4);
    FetchStays(m, m', a + 6);
  }

  lemma RoundMemory(m: Mem, m1: Mem, m2: Mem, m3: Mem, m4: Mem, to: word)
    requires to !in IO && SameBut(m, m1, IO) && SameBut(m1, m2, IO + {to}) && SameBut(m2, m3, IO) && SameBut(m3, m4, IO)
    ensures SameBut(m, m4, IO + {to}) && m4[to] == m2[to]
  {
  }

  // ----- once round the loop -----

  /** The state at the head of the loop. */
  predicate AtHead(s: Cpu, a: word, t: RegNo, n: RegNo) { s.ip == a && LoopAt(s.core.mem, a, t, n) }

  /** One byte copied, both pointers advanced, one counted down. */
  ghost predicate Rounded(s: Cpu, s': Cpu, a: word, t: RegNo, n: RegNo) {
    var from, to, count := PairAt(s.core.reg, Y), PairAt(s.core.reg, X), Times(s.core.reg[n]);
    && s'.core.sp == s.core.sp && s'.ip == (if count == 1 then Trunc16(a + 8) else a)
    && PairAt(s'.core.reg, Y) == Trunc16(from + 1) && PairAt(s'.core.reg, X) == Trunc16(to + 1)
    && (s'.core.reg[n] == 0) == (count == 1) && Times(s'.core.reg[n]) == (if count == 1 then 0x100 else count - 1)
    && (forall d :: 0 <= d < X && d != t && d != n ==> s'.core.reg[d] == s.core.reg[d])
    && s'.core.mem[to] == s.core.mem[from] && SameBut(s.core.mem, s'.core.mem, IO + {to})
    && LoopAt(s'.core.mem, a, t, n)
  }

  lemma LoadTurn(s: Cpu, a: word, t: RegNo, n: RegNo, e: Event) returns (s1: Cpu)
    requires AtHead(s, a, t, n) && e.Tick? && Cells(a, 8) !! IO
    ensures Cycle(s, e) == Outcome.Running(s1) && s1.ip == a + 2 && s1.core.sp == s.core.sp
    ensures s1.core.reg[t] == s.core.mem[PairAt(s.core.reg, Y)] && PairAt(s1.core.reg, X) == PairAt(s.core.reg, X)
    ensures PairAt(s1.core.reg, Y) == Trunc16(PairAt(s.core.reg, Y) + 1)
    ensures forall d: RegNo :: d < X && d != t ==> s1.core.reg[d] == s.core.reg[d]
    ensures SameBut(s.core.mem, s1.core.mem, IO) && LoopAt(s1.core.mem, a, t, n)
  {
    hide Cycle, Fetch, Effect, Cells, SameBut, PairAt, BackAt;
    ComputeTurn(s, e, Load(t, Y, PostInc));
    LoadNext(s.core, t);
    s1 := Cycle(s, e).s;
    LoopStays(s.core.mem, s1.core.mem, a, t, n, IO);
  }

  lemma StoreTurn(s: Cpu, a: word, t: RegNo, n: RegNo, e: Event) returns (s1: Cpu)
    requires LoopAt(s.core.mem, a, t, n) && s.ip == a + 2 && e.Tick? && Cells(a, 8) !! IO
    requires PairAt(s.core.reg, X) !in IO && PairAt(s.core.reg, X) !in Cells(a, 8)
    ensures Cycle(s, e) == Outcome.Running(s1) && s1.ip == a + 4 && s1.core.sp == s.core.sp
    ensures PairAt(s1.core.reg, X) == Trunc16(PairAt(s.core.reg, X) + 1)
            && PairAt(s1.core.reg, Y) == PairAt(s.core.reg, Y)
    ensures forall d: RegNo :: d < X ==> s1.core.reg[d] == s.core.reg[d]
    ensures s1.core.mem[PairAt(s.core.reg, X)] == s.core.reg[t]
    ensures SameBut(s.core.mem, s1.core.mem, IO + {PairAt(s.core.reg, X)}) && LoopAt(s1.core.mem, a, t, n)
  {
    hide Cycle, Fetch, Effect, Cells, PairAt, BackAt, Join, LoopAt;
    var to := PairAt(s.core.reg, X);
    LoopReads(s.core.mem, a, t, n);
    ComputeTurn(s, e, Store(X, PostInc, t));
    StoreNext(s.core, t);
    s1 := Cycle(s, e).s;
    LoopStays(s.core.mem, s1.core.mem, a, t, n, IO + {to});
  }

  lemma LoopReads(m: Mem, a: word, t: RegNo, n: RegNo)
    requires LoopAt(m, a, t, n)
    ensures a <= 0xfff8 && t < X && n < X && t != n
    ensures Fetch(m, a + 2) == Got(Compute(Store(X, PostInc, t)), 2)
  {
    hide Fetch;
  }

  lemma CountTurn(s: Cpu, a: word, t: RegNo, n: RegNo, e: Event) returns (s1: Cpu)
    requires LoopAt(s.core.mem, a, t, n) && s.ip == a + 4 && e.Tick? && Cells(a, 8) !! IO
    ensures Cycle(s, e) == Outcome.Running(s1) && s1.ip == a + 6 && s1.core.sp == s.core.sp
    ensures PairAt(s1.core.reg, X) == PairAt(s.core.reg, X) && PairAt(s1.core.reg, Y) == PairAt(s.core.reg, Y)
    ensures forall d: RegNo :: d < X && d != n ==> s1.core.reg[d] == s.core.reg[d]
    ensures Flag(s1.core.sreg, ZERO) == (Times(s.core.reg[n]) == 1)
            && (s1.core.reg[n] == 0) == (Times(s.core.reg[n]) == 1)
    ensures Times(s1.core.reg[n]) == (if Times(s.core.reg[n]) == 1 then 0x100 else Times(s.core.reg[n]) - 1)
    ensures SameBut(s.core.mem, s1.core.mem, IO) && LoopAt(s1.core.mem, a, t, n)
  {
    hide Cycle, Fetch, Effect, Cells, SameBut, PairAt, BackAt, Flag, Times;
    ComputeTurn(s, e, Dec(n));
    CountDown(s.core, n);
    s1 := Cycle(s, e).s;
    LoopStays(s.core.mem, s1.core.mem, a, t, n, IO);
  }

  lemma BackTurn(s: Cpu, a: word, t: RegNo, n: RegNo, e: Event) returns (s1: Cpu)
    requires LoopAt(s.core.mem, a, t, n) && s.ip == a + 6 && e.Tick? && Cells(a, 8) !! IO
    ensures Cycle(s, e) == Outcome.Running(s1) && s1.ip == (if Flag(s.core.sreg, ZERO) then Trunc16(a + 8) else a)
    ensures s1.core.sp == s.core.sp && s1.core.reg == s.core.reg
    ensures SameBut(s.core.mem, s1.core.mem, IO) && LoopAt(s1.core.mem, a, t, n)
  {
    hide Cycle, Fetch, Cells, SameBut, BackAt, Flag;
    BranchTurn(s, e, a);
    s1 := Cycle(s, e).s;
    LoopStays(s.core.mem, s1.core.mem, a, t, n, IO);
  }

  lemma FirstHalf(s: Cpu, a: word, t: RegNo, n: RegNo, events: seq<Event>) returns (s1: Cpu, s2: Cpu)
    requires AtHead(s, a, t, n) && |events| == 4 && AllTicks(events)
    requires Cells(a, 8) !! IO && PairAt(s.core.reg, X) !in IO && PairAt(s.core.reg, X) !in Cells(a, 8)
    ensures Cycle(s, events[0]) == Outcome.Running(s1) && Cycle(s1, events[1]) == Outcome.Running(s2)
    ensures s2.ip == a + 4 && s2.core.sp == s.core.sp && LoopAt(s2.core.mem, a, t, n)
    ensures PairAt(s2.core.reg, Y) == Trunc16(PairAt(s.core.reg, Y) + 1)
    ensures PairAt(s2.core.reg, X) == Trunc16(PairAt(s.core.reg, X) + 1)
    ensures forall d: RegNo :: d < X && d != t ==> s2.core.reg[d] == s.core.reg[d]
    ensures s2.core.mem[PairAt(s.core.reg, X)] == s.core.mem[PairAt(s.core.reg, Y)]
    ensures SameBut(s.core.mem, s2.core.mem, IO + {PairAt(s.core.reg, X)})
  {
    hide Cycle, Cells, LoopAt, SameBut, PairAt, Trunc16, Fetch;
    LoopReads(s.core.mem, a, t, n);
    s1 := LoadTurn(s, a, t, n, events[0]);
    s2 := StoreTurn(s1, a, t, n, events[1]);
    RoundMemory(s.core.mem, s1.core.mem, s2.core.mem, s2.core.mem, s2.core.mem, PairAt(s.core.reg, X));
  }

  lemma SecondHalf(s2: Cpu, a: word, t: RegNo, n: RegNo, events: seq<Event>) returns (s3: Cpu, s4: Cpu)
    requires LoopAt(s2.core.mem, a, t, n) && s2.ip == a + 4 && |events| == 4 && AllTicks(events) && Cells(a, 8) !! IO
    ensures Cycle(s2, events[2]) == Outcome.Running(s3) && Cycle(s3, events[3]) == Outcome.Running(s4)
    ensures var count := Times(s2.core.reg[n]);
            && s4.core.sp == s2.core.sp && s4.ip == (if count == 1 then Trunc16(a + 8) else a)
            && PairAt(s4.core.reg, Y) == PairAt(s2.core.reg, Y) && PairAt(s4.core.reg, X) == PairAt(s2.core.reg, X)
            && (s4.core.reg[n] == 0) == (count == 1)
            && Times(s4.core.reg[n]) == (if count == 1 then 0x100 else count - 1)
    ensures forall d: RegNo :: d < X && d != n ==> s4.core.reg[d] == s2.core.reg[d]
    ensures SameBut(s2.core.mem, s4.core.mem, IO) && LoopAt(s4.core.mem, a, t, n)
  {
    hide Cycle, Cells, LoopAt, SameBut, PairAt, Trunc16, Times, Flag, Fetch;
    LoopReads(s2.core.mem, a, t, n);
    s3 := CountTurn(s2, a, t, n, events[2]);
    s4 := BackTurn(s3, a, t, n, events[3]);
    IOTwice(s2.core.mem, s3.core.mem, s4.core.mem);
  }

  lemma IOTwice(m: Mem, m1: Mem, m2: Mem)
    requires SameBut(m, m1, IO) && SameBut(m1, m2, IO)
    ensures SameBut(m, m2, IO)
  {
  }

  lemma Round(s: Cpu, a: word, t: RegNo, n: RegNo, events: seq<Event>)
    requires AtHead(s, a, t, n) && |events| == 4 && AllTicks(events)
    requires Cells(a, 8) !! IO && PairAt(s.core.reg, X) !in IO && PairAt(s.core.reg, X) !in Cells(a, 8)
    ensures Run(s, events).Running? && Rounded(s, Run(s, events).s, a, t, n)
  {
    hide Cycle, Cells, LoopAt, SameBut, Times, PairAt, Trunc16, Run, Fetch;
    LoopReads(s.core.mem, a, t, n);
    var s1, s2 := FirstHalf(s, a, t, n, events);
    var s3, s4 := SecondHalf(s2, a, t, n, events);
    FourTurns(s, s1, s2, s3, s4, events);
    RoundMemory(s.core.mem, s.core.mem, s2.core.mem, s2.core.mem, s4.core.mem, PairAt(s.core.reg, X));
  }

  lemma FourTurns(s: Cpu, s1: Cpu, s2: Cpu, s3: Cpu, s4: Cpu, events: seq<Event>)
    requires |events| == 4
    requires Cycle(s, events[0]) == Outcome.Running(s1) && Cycle(s1, events[1]) == Outcome.Running(s2)
    requires Cycle(s2, events[2]) == Outcome.Running(s3) && Cycle(s3, events[3]) == Outcome.Running(s4)
    ensures Run(s, events) == Outcome.Running(s4)
  {
    hide Cycle;
    assert Run(s3, events[3..]) == Outcome.Running(s4);
    assert events[2..][1..] == events[3..];
    assert Run(s2, events[2..]) == Outcome.Running(s4);
    assert events[1..][1..] == events[2..];
    assert Run(s1, events[1..]) == Outcome.Running(s4);
  }

  // ----- the whole loop -----

  lemma {:induction false} RunSplit(s: Cpu, events: seq<Event>, k: nat)
    requires k <= |events| && Run(s, events[..k]).Running?
    ensures Run(s, events) == Run(Run(s, events[..k]).s, events[k..])
    decreases k
  {
    hide Cycle;
    if k > 0 {
      assert events[..k][0] == events[0] && events[..k][1..] == events[1..][..k - 1];
      assert events[1..][k - 1..] == events[k..];
      RunSplit(Cycle(s, events[0]).s, events[1..], k - 1);
    } else {
      assert events[0..] == events;
    }
  }

  lemma CellShift(base: word, k: nat)
    ensures Cell(Trunc16(base + 1), k) == Cell(base, k + 1) && Cell(base, 0) == base
    ensures 0 < k < 0x1_0000 ==> Cell(base, k) != base
  {
  }

  lemma CellsShift(base: word, count: nat)
    requires 0 < count <= 0x100
    ensures Cells(base, count) == {base} + Cells(Trunc16(base + 1), count - 1)
    ensures base !in Cells(Trunc16(base + 1), count - 1)
  {
    hide Cell, Trunc16;
    var next := Trunc16(base + 1);
    CellShift(base, 0);
    forall k: nat | k < count - 1 ensures Cell(next, k) == Cell(base, k + 1) && Cell(next, k) != base {
      CellShift(base, k);
      CellShift(base, k + 1);
    }
    forall x | x in Cells(base, count) ensures x in {base} + Cells(next, count - 1) {
      var k :| 0 <= k < count && x == Cell(base, k);
      if k > 0 { assert x == Cell(next, k - 1); }
    }
    forall x | x in {base} + Cells(next, count - 1) ensures x in Cells(base, count) {
      if x == base {
        assert x == Cell(base, 0);
      } else {
        var k :| 0 <= k < count - 1 && x == Cell(next, k);
        assert x == Cell(base, k + 1);
      }
    }
  }

  lemma SeparateShift(a: word, from: word, to: word, count: nat)
    requires a <= 0xfff8 && 0 < count <= 0x100 && Separate(a, from, to, count)
    ensures Separate(a, Trunc16(from + 1), Trunc16(to + 1), count - 1)
    ensures to !in IO && to !in Cells(a, 8) && from !in IO + {to}
    ensures Cells(Trunc16(from + 1), count - 1) !! IO + {to}
  {
    hide Cells, Trunc16;
    CellsShift(from, count);
    CellsShift(to, count);
  }

  /** One round, and then the rest of the copy. */
  lemma CopiedMore(s: Cpu, s1: Cpu, o: Outcome, a: word, t: RegNo, n: RegNo, count: nat)
    requires a <= 0xfff8 && 1 < count <= 0x100 && count == Times(s.core.reg[n])
    requires Separate(a, PairAt(s.core.reg, Y), PairAt(s.core.reg, X), count)
    requires Rounded(s, s1, a, t, n) && Copied(s1, o, a, t, n, count - 1)
    ensures Copied(s, o, a, t, n, count)
  {
    hide Cells, PairAt, LoopAt, Separate, Cell, Trunc16, SameBut;
    var from, to := PairAt(s.core.reg, Y), PairAt(s.core.reg, X);
    SeparateShift(a, from, to, count);
    TwoSteps(from, count);
    TwoSteps(to, count);
    CellsShift(to, count);
    var later := Cells(Trunc16(to as int + 1), count - 1);
    Chained(s.core.mem, s1.core.mem, o.s.core.mem, IO + {to}, IO + later);
    assert IO + {to} + (IO + later) == IO + Cells(to, count);
    forall k | 0 <= k < count ensures o.s.core.mem[Cell(to, k)] == s.core.mem[Cell(from, k)] {
      CellShift(from, 0);
      CellShift(to, 0);
      if k == 0 {
        CellKept(s1.core.mem, o.s.core.mem, IO + later, to);
      } else {
        CellShift(from, k - 1);
        CellShift(to, k - 1);
        InCells(Trunc16(from as int + 1), count - 1, k - 1);
        CellKept(s.core.mem, s1.core.mem, IO + {to}, Cell(from, k));
      }
    }
  }

  lemma TwoSteps(base: word, count: nat)
    requires count > 0
    ensures Trunc16(Trunc16(base + 1) + (count - 1)) == Trunc16(base + count)
  {
  }

  lemma Chained(m: Mem, m1: Mem, m2: Mem, cells: set<word>, more: set<word>)
    requires SameBut(m, m1, cells) && SameBut(m1, m2, more)
    ensures SameBut(m, m2, cells + more)
  {
  }

  lemma CellKept(m: Mem, m': Mem, cells: set<word>, x: word)
    requires SameBut(m, m', cells) && x !in cells
    ensures m'[x] == m[x]
  {
  }

  lemma InCells(base: word, count: nat, k: nat)
    requires k < count
    ensures Cell(base, k) in Cells(base, count)
  {
  }

  lemma CopiedOnce(s: Cpu, s1: Cpu, a: word, t: RegNo, n: RegNo)
    requires a <= 0xfff8 && Times(s.core.reg[n]) == 1 && Rounded(s, s1, a, t, n)
    ensures Copied(s, Outcome.Running(s1), a, t, n, 1)
  {
    hide Cells, PairAt, LoopAt, Cell, Trunc16;
    var from, to := PairAt(s.core.reg, Y), PairAt(s.core.reg, X);
    CellShift(from, 0);
    CellShift(to, 0);
    CellsShift(to, 1);
    NoCells(Trunc16(to as int + 1));
  }

  lemma NoCells(base: word)
    ensures Cells(base, 0) == {}
  {
  }

  /**
   The loop ends after as many rounds as the count says, 256 for a count of 0, with every byte
   copied, both pointers advanced modulo 65536, and no other memory changed.
   */
  lemma {:induction false} LoopCopies(s: Cpu, a: word, t: RegNo, n: RegNo, events: seq<Event>)
    requires AtHead(s, a, t, n) && |events| == 4 * Times(s.core.reg[n]) && AllTicks(events)
    requires Separate(a, PairAt(s.core.reg, Y), PairAt(s.core.reg, X), Times(s.core.reg[n]))
    ensures Copied(s, Run(s, events), a, t, n, Times(s.core.reg[n]))
    decreases |events|
  {
    hide Run, Separate, Cells, LoopAt, PairAt, Copied, Trunc16;
    LoopStands(s.core.mem, a, t, n);
    var from, to, count := PairAt(s.core.reg, Y), PairAt(s.core.reg, X), Times(s.core.reg[n]);
    SeparateShift(a, from, to, count);
    assert Cells(a, 8) !! IO by { SeparateCode(a, from, to, count); }
    Round(s, a, t, n, events[..4]);
    var s1 := Run(s, events[..4]).s;
    RunSplit(s, events, 4);
    if count == 1 {
      CopiedOnce(s, s1, a, t, n);
      NoEvents(s1, events[4..]);
    } else {
      LoopCopies(s1, a, t, n, events[4..]);
      CopiedMore(s, s1, Run(s, events), a, t, n, count);
    }
  }

  lemma LoopStands(m: Mem, a: word, t: RegNo, n: RegNo)
    requires LoopAt(m, a, t, n)
    ensures a <= 0xfff8
  {
    hide Fetch;
  }

  lemma SeparateCode(a: word, from: word, to: word, count: nat)
    requires a <= 0xfff8 && Separate(a, from, to, count)
    ensures Cells(a, 8) !! IO
  {
  }

  lemma NoEvents(s: Cpu, events: seq<Event>)
    requires events == []
    ensures Run(s, events) == Outcome.Running(s)
  {
  }

  // ----- the loop as assembled -----

  /** The four lines of the loop, from line i on; e is the label of the first. */
  predicate LoopLines(p: Program, i: nat, t: RegText, n: RegText, e: seq<Token>) {
    && LineHas(p, i, MLoadIndY, RegPtr(t, PostInc)) && LineHas(p, i + 1, MStoreIndX, RegPtr(t, PostInc))
    && LineHas(p, i + 2, MDecrement, OneReg(n)) && LineHas(p, i + 3, MBranchNotEqu, Arg.Label(e))
  }

  lemma LoadAction(t: RegText, early: seq<Equate>, late: seq<Equate>)
    requires IsReg(t)
    ensures Means(MLoadIndY, RegPtr(t, PostInc), early, late) == Some(Do(Load(t as int, Y, PostInc)))
  {
  }

  lemma StoreAction(t: RegText, early: seq<Equate>, late: seq<Equate>)
    requires IsReg(t)
    ensures Means(MStoreIndX, RegPtr(t, PostInc), early, late) == Some(Do(Store(X, PostInc, t as int)))
  {
  }

  lemma CountAction(n: RegText, early: seq<Equate>, late: seq<Equate>)
    requires IsReg(n)
    ensures Means(MDecrement, OneReg(n), early, late) == Some(Do(Dec(n as int)))
  {
  }

  lemma BackAction(e: seq<Token>, a: word, early: seq<Equate>, late: seq<Equate>)
    requires Meaning(e, late) == Known(a)
    ensures Means(MBranchNotEqu, Arg.Label(e), early, late) == Some(BranchIf(false, ZERO, a))
  {
    hide Meaning;
  }

  lemma LoopActions(p: Program, i: nat, t: RegText, n: RegText, e: seq<Token>)
    requires Assembles(p) && LoopLines(p, i, t, n, e) && IsReg(t) && IsReg(n)
    requires Address(p, i) <= 0xffff && Meaning(e, Table(p)) == Known(Address(p, i))
    ensures ActionAt(p, i) == Some(Do(Load(t as int, Y, PostInc)))
    ensures ActionAt(p, i + 1) == Some(Do(Store(X, PostInc, t as int)))
    ensures ActionAt(p, i + 2) == Some(Do(Dec(n as int)))
    ensures ActionAt(p, i + 3) == Some(BranchIf(false, ZERO, Address(p, i)))
  {
    hide Means, Meaning, LineFits, Address, Table, Equates;
    LoadAction(t, Equates(p, i), Table(p));
    StoreAction(t, Equates(p, i + 1), Table(p));
    CountAction(n, Equates(p, i + 2), Table(p));
    BackAction(e, Address(p, i), Equates(p, i + 3), Table(p));
  }

  lemma ShortLine(p: Program, k: nat, m: Mnemonic, arg: Arg)
    requires LineHas(p, k, m, arg) && !IsWide(TypeOf(m))
    ensures Size(p[k]) == 2 && !SetsAddress(p[k])
  {
  }

  lemma LoopAddresses(p: Program, i: nat, t: RegText, n: RegText, e: seq<Token>)
    requires LoopLines(p, i, t, n, e)
    ensures forall k :: i <= k <= i + 3 ==> Size(p[k]) == 2
    ensures Address(p, i + 1) == Address(p, i) + 2 && Address(p, i + 2) == Address(p, i) + 4
    ensures Address(p, i + 3) == Address(p, i) + 6
  {
    hide Size, SetsAddress;
    ShortLine(p, i, MLoadIndY, RegPtr(t, PostInc));
    ShortLine(p, i + 1, MStoreIndX, RegPtr(t, PostInc));
    ShortLine(p, i + 2, MDecrement, OneReg(n));
    ShortLine(p, i + 3, MBranchNotEqu, Arg.Label(e));
    assert Address(p, i + 1) == Address(p, i) + 2;
    assert Address(p, i + 2) == Address(p, i + 1) + 2;
    assert Address(p, i + 3) == Address(p, i + 2) + 2;
  }

  lemma LineIs(p: Program, i: nat, m: Mem)
    requires Assembles(p) && InBounds(p) && IsInstr(p, i) && CodeIn(p, m)
    ensures ActionAt(p, i).Some? && Fetch(m, Address(p, i)).Got? && Fetch(m, Address(p, i)).size == Size(p[i])
    ensures Agreement.Realizes(Fetch(m, Address(p, i)).i, ActionAt(p, i).value, Address(p, i))
  {
    hide LineFits, Address, Size, InMemory, LineBytes, ActionAt, WordAt, Is32, Fetch, Agreement.Realizes;
    assert InMemory(p, i, m);
    FetchLine(p, i, m);
  }

  /** Wherever it is assembled, the loop of the game is the loop that copies. */
  lemma LoopAssembled(p: Program, i: nat, t: RegText, n: RegText, e: seq<Token>, m: Mem)
    requires Assembles(p) && InBounds(p) && CodeIn(p, m) && LoopLines(p, i, t, n, e)
    requires t < 12 && n < 12 && t != n && Meaning(e, Table(p)) == Known(Address(p, i))
    ensures LoopAt(m, Address(p, i), t as int, n as int)
  {
    hide LineFits, Address, Size, CodeIn, ActionAt, Fetch, Meaning, Table, BranchTo;
    LoopActions(p, i, t, n, e);
    LoopAddresses(p, i, t, n, e);
    LineIs(p, i, m);
    LineIs(p, i + 1, m);
    LineIs(p, i + 2, m);
    LineIs(p, i + 3, m);
    DifferentRegs(t, n);
  }

  lemma DifferentRegs(t: RegText, n: RegText)
    requires t < 12 && n < 12 && t != n
    ensures t as int < 12 && n as int < 12 && t as int != n as int
  {
  }
}
