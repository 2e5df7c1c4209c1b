/** Control in runs of the source: labels lead to their own lines, and returns to the lines after their calls. */
module Control {
  import opened Words
  import opened Isa
  import opened Frames
  import opened TinyExpr
  import opened Grammar
  import Descent
  import opened Stack
  import opened Symbols
  import opened Parser
  import opened Precedence
  import opened Source
  import opened Agreement
  import opened Assembler
  import opened Image
  import opened Simulation

  // ----- labels -----

  predicate Defines(p: Program, k: nat, s: string) { k < |p| && p[k].Text? && p[k].name == Some(s) }

  /** No .equ has the name, and no line above. */
  predicate FirstNamed(p: Program, k: nat, s: string) {
    Defines(p, k, s) && (forall j :: 0 <= j < |p| && p[j].Equ? ==> p[j].key != s)
    && forall j :: 0 <= j < k ==> !Defines(p, j, s)
  }

  /** The entry of a line's label in the complete table. */
  function Entry(p: Program, k: nat): nat
    requires AddressesFit(p) && k <= |p|
  {
    |Equates(p, |p|)| + |Labels(p, k)|
  }

  lemma {:induction false} LabelsGrow(p: Program, k: nat, n: nat)
    requires AddressesFit(p) && k <= n <= |p|
    ensures Labels(p, k) <= Labels(p, n)
    decreases n
  {
    hide Address;
    if k < n { LabelsGrow(p, k, n - 1); }
  }

  lemma LabelEntry(p: Program, k: nat, s: string)
    requires AddressesFit(p) && Defines(p, k, s)
    ensures Entry(p, k) < |Table(p)| && Table(p)[Entry(p, k)] == Equate(s, Address(p, k))
  {
    hide Address;
    LabelsGrow(p, k + 1, |p|);
    assert Labels(p, k + 1) == Labels(p, k) + [Equate(s, Address(p, k))];
    assert Labels(p, |p|)[|Labels(p, k)|] == Labels(p, k + 1)[|Labels(p, k)|];
  }

  lemma {:induction false} EquatesGrow(p: Program, k: nat, n: nat)
    requires k <= n <= |p|
    ensures Equates(p, k) <= Equates(p, n)
    decreases n
  {
    if k < n { EquatesGrow(p, k, n - 1); }
  }

  lemma EquateEntry(p: Program, k: nat, n: nat)
    requires k < n <= |p| && p[k].Equ?
    ensures |Equates(p, k)| < |Equates(p, n)|
    ensures Equates(p, n)[|Equates(p, k)|] == Equate(p[k].key, p[k].value)
  {
    EquatesGrow(p, k + 1, n);
    assert Equates(p, k + 1) == Equates(p, k) + [Equate(p[k].key, p[k].value)];
    assert Equates(p, n)[|Equates(p, k)|] == Equates(p, k + 1)[|Equates(p, k)|];
  }

  lemma {:induction false} EquateLine(p: Program, n: nat, x: nat) returns (j: nat)
    requires n <= |p| && x < |Equates(p, n)|
    ensures j < n && p[j].Equ? && p[j].key == Equates(p, n)[x].key
    decreases n
  {
    if x < |Equates(p, n - 1)| { j := EquateLine(p, n - 1, x); } else { j := n - 1; }
  }

  lemma {:induction false} LabelLine(p: Program, n: nat, x: nat) returns (j: nat)
    requires AddressesFit(p) && n <= |p| && x < |Labels(p, n)|
    ensures j < n && Defines(p, j, Labels(p, n)[x].key)
    decreases n
  {
    hide Address;
    if x < |Labels(p, n - 1)| { j := LabelLine(p, n - 1, x); } else { j := n - 1; }
  }

  /** A name stands for the label of a line exactly if no .equ and no line above has it. */
  lemma LabelFound(p: Program, k: nat, s: string)
    requires AddressesFit(p) && Defines(p, k, s)
    ensures Find(Table(p), s) == Some(Entry(p, k)) <==> FirstNamed(p, k, s)
  {
    hide Address;
    LabelEntry(p, k, s);
    FindIsFirst(Table(p), s);
    LabelsGrow(p, k, |p|);
    if Find(Table(p), s) == Some(Entry(p, k)) {
      forall j | 0 <= j < |p| && p[j].Equ? ensures p[j].key != s {
        EquateEntry(p, j, |p|);
        assert Table(p)[|Equates(p, j)|] == Equates(p, |p|)[|Equates(p, j)|];
      }
      forall j | 0 <= j < k ensures !Defines(p, j, s) {
        if Defines(p, j, s) {
          LabelEntry(p, j, s);
          LabelsGrow(p, j + 1, k);
        }
      }
    }
    if FirstNamed(p, k, s) {
      forall x | 0 <= x < Entry(p, k) ensures Table(p)[x].key != s {
        if x < |Equates(p, |p|)| {
          var j := EquateLine(p, |p|, x);
        } else {
          assert Table(p)[x] == Labels(p, k)[x - |Equates(p, |p|)|];
          var j := LabelLine(p, k, x - |Equates(p, |p|)|);
        }
      }
    }
  }

  lemma {:induction false} ValueAt(table: seq<Equate>, i: nat)
    requires i < |table|
    ensures |Values(table)| == |table| && Values(table)[i] == table[i].value
  {
    if i > 0 {
      ValueAt(table[1..], i - 1);
    } else if |table| > 1 {
      ValueAt(table[1..], 0);
    }
  }

  lemma NameMeans(s: string, table: seq<Equate>)
    requires Find(table, s).Some?
    ensures var i := Find(table, s).value;
            i < |table| && Meaning([TName(s)], table) == Known(Trunc16(table[i].value))
  {
    FindIsFirst(table, s);
    var i := Find(table, s).value;
    ValueAt(table, i);
    assert [TName(s)][1..] == [];
    CutWhole([TName(s)]);
    assert Lex([TName(s)], table) == [Variable(i)];
    hide Find;
    assert Descent.ParsePower([Variable(i)], 1, false) == Descent.Done(Var(i), []);
    assert Descent.ParseTerm([Variable(i)]) == Descent.Done(Var(i), []);
    assert Descent.ParseSum([Variable(i)]) == Descent.Done(Var(i), []);
    assert Descent.ParseList([Variable(i)]) == Descent.Done(Var(i), []);
  }

  // ----- equates -----

  /** The line gives the name a value, and no .equ above does. */
  predicate FirstEquated(p: Program, k: nat, s: string) {
    k < |p| && p[k].Equ? && p[k].key == s && forall j :: 0 <= j < k && p[j].Equ? ==> p[j].key != s
  }

  lemma EquateFound(p: Program, k: nat, s: string, table: seq<Equate>, n: nat)
    requires FirstEquated(p, k, s) && k < n <= |p| && Equates(p, n) <= table
    ensures Find(table, s) == Some(|Equates(p, k)|)
    ensures |Equates(p, k)| < |table| && table[|Equates(p, k)|] == Equate(s, p[k].value)
  {
    EquateEntry(p, k, n);
    EquatesGrow(p, k, n);
    FindIsFirst(table, s);
    assert table[|Equates(p, k)|] == Equates(p, n)[|Equates(p, k)|];
    forall x | 0 <= x < |Equates(p, k)| ensures table[x].key != s {
      assert table[x] == Equates(p, k)[x];
      var j := EquateLine(p, k, x);
    }
  }

  /** A name means the value of its first .equ, whatever labels and later .equ lines have it. */
  lemma EquateMeans(p: Program, k: nat, s: string)
    requires AddressesFit(p) && FirstEquated(p, k, s)
    ensures Meaning([TName(s)], Table(p)) == Known(p[k].value)
  {
    hide Meaning, Labels, Equates, AddressesFit;
    EquateFound(p, k, s, Table(p), |p|);
    NameMeans(s, Table(p));
  }

  /** That is so for bit operands too, which are evaluated in the first pass, on all lines below the .equ. */
  lemma EquateMeansEarly(p: Program, k: nat, s: string, i: nat)
    requires FirstEquated(p, k, s) && k < i <= |p|
    ensures Meaning([TName(s)], Equates(p, i)) == Known(p[k].value)
  {
    hide Meaning, Equates;
    EquateFound(p, k, s, Equates(p, i), i);
    NameMeans(s, Equates(p, i));
  }

  /** On the lines above it the name is not yet known to a bit operand. */
  lemma EquateUnknownAbove(p: Program, k: nat, s: string, i: nat)
    requires FirstEquated(p, k, s) && i <= k && s != "low" && s != "high"
    ensures Meaning([TName(s)], Equates(p, i)) == Invalid
  {
    hide Meaning, Equates;
    forall x | 0 <= x < |Equates(p, i)| ensures Equates(p, i)[x].key != s { var j := EquateLine(p, i, x); }
    UnknownIsInvalid([TName(s)], Equates(p, i), 0);
  }

  /** From a line with a label, and so no .org, control falls to an instruction at the line's own address. */
  lemma {:induction false} FallKeepsAddress(p: Program, k: nat)
    requires k < |p| && Fall(p, k).Some?
    ensures Address(p, Fall(p, k).value) == Address(p, k)
    decreases |p| - k
  {
    hide Address;
    if !IsInstr(p, k) {
      FallKeepsAddress(p, k + 1);
      StepAddress(p, k);
    }
  }

  lemma StepAddress(p: Program, k: nat)
    requires k + 1 < |p| && Size(p[k]) == 0 && !SetsAddress(p[k + 1])
    ensures Address(p, k + 1) == Address(p, k)
  {
  }

  /** A label means the address of its line, and a jump there enters the first instruction from that line on. */
  lemma LabelLeadsHome(p: Program, k: nat, s: string)
    requires AddressesFit(p) && CodeLast(p) && FirstNamed(p, k, s)
    ensures Meaning([TName(s)], Table(p)) == Known(Address(p, k))
    ensures Fall(p, k).Some? ==> LineAt(p, Address(p, k), 0) == Fall(p, k)
  {
    hide Address, CodeLast, Meaning;
    LabelFound(p, k, s);
    LabelEntry(p, k, s);
    NameMeans(s, Table(p));
    if Fall(p, k).Some? {
      FallKeepsAddress(p, k);
      OnlyLineAt(p, Fall(p, k).value, 0);
    }
  }

  // ----- returns -----

  predicate Calls(a: Option<Source.Action>) { a.Some? && (a.value.CallTo? || a.value.CallPair?) }

  /** The line stores explicitly into one of the cells. */
  predicate StoresThere(a: Option<Source.Action>, c: Core, cells: set<word>) {
    a.Some? && a.value.Do? && !(Stored(a.value.op, c) !! cells)
  }

  /** One line of the source, and an input, that leave the frame alone. */
  ghost predicate LeavesFrame(p: Program, f: word, s: Src, e: Event)
    requires AddressesFit(p) && IsInstr(p, s.line) && f >= 2
  {
    && SrcCycle(p, s, e).Going? && !StoresThere(ActionAt(p, s.line), s.core, Frame(f))
    && e.Tick? && EventWrites(e) !! Frame(f)
  }

  /** A run of the source whose stack pointer stays at f - 2 or below, and that does not store into the frame. */
  ghost predicate SrcKeeps(p: Program, f: word, s: Src, events: seq<Event>)
    requires AddressesFit(p) && IsInstr(p, s.line) && f >= 2
    decreases |events|
  {
    hide SrcCycle, LeavesFrame;
    s.core.sp <= f - 2
    && (events == [] || (LeavesFrame(p, f, s, events[0]) && SrcCycle(p, s, events[0]).Going?
                         && SrcKeeps(p, f, SrcCycle(p, s, events[0]).s, events[1..])))
  }

  lemma InstrOfLine(p: Program, s: Src)
    requires Assembles(p) && InBounds(p) && IsInstr(p, s.line) && CodeIn(p, s.core.mem)
    ensures ActionAt(p, s.line).Some? && InstrAt(CpuOf(p, s)).Some?
    ensures Realizes(InstrAt(CpuOf(p, s)).value, ActionAt(p, s.line).value, Address(p, s.line))
    ensures Fetch(s.core.mem, Address(p, s.line)) == Got(InstrAt(CpuOf(p, s)).value, Size(p[s.line]))
  {
    hide LineFits, Address, Size, InMemory, LineBytes, ActionAt, WordAt, Is32, Fetch, Realizes, CodeIn, InBounds;
    CodeLine(p, s.line, s.core.mem);
    LineInBounds(p, s.line);
    FetchLine(p, s.line, s.core.mem);
  }

  lemma LineInBounds(p: Program, i: nat)
    requires InBounds(p) && IsInstr(p, i)
    ensures Address(p, i) + Size(p[i]) <= 0x1_0000
  {
  }

  lemma RealizedStores(i: Instr, a: Source.Action, at: word, c: Core, cells: set<word>)
    requires Realizes(i, a, at)
    ensures StoresInto(i, c, cells) == StoresThere(Some(a), c, cells)
  {
    hide Stored;
  }

  lemma TurnIsCareful(p: Program, f: word, s: Src, e: Event)
    requires Assembles(p) && InBounds(p) && IsInstr(p, s.line) && CodeIn(p, s.core.mem) && f >= 2
    requires LeavesFrame(p, f, s, e)
    ensures Careful(f, CpuOf(p, s), e)
    ensures Cycle(CpuOf(p, s), e) == Outcome.Running(CpuOf(p, SrcCycle(p, s, e).s))
    ensures CodeIn(p, SrcCycle(p, s, e).s.core.mem)
  {
    hide LineFits, Address, Size, ActionAt, Fetch, Realizes, CodeIn, InBounds, SrcCycle, Cycle, StoresInto,
      StoresThere, EventWrites, InstrAt;
    InstrOfLine(p, s);
    RealizedStores(InstrAt(CpuOf(p, s)).value, ActionAt(p, s.line).value, Address(p, s.line), s.core, Frame(f));
    CycleMatches(p, s, e);
  }

  lemma {:induction false} RunKeeps(p: Program, f: word, s: Src, events: seq<Event>)
    requires Assembles(p) && InBounds(p) && IsInstr(p, s.line) && CodeIn(p, s.core.mem) && f >= 2
    requires SrcKeeps(p, f, s, events)
    ensures Keeps(f, CpuOf(p, s), events) && SrcRun(p, s, events).Going?
    decreases |events|
  {
    hide LineFits, Address, CodeIn, InBounds, SrcCycle, Cycle, Careful, LeavesFrame;
    if events != [] {
      TurnIsCareful(p, f, s, events[0]);
      RunKeeps(p, f, SrcCycle(p, s, events[0]).s, events[1..]);
    }
  }

  lemma CallReturnAddress(p: Program, s: Src)
    requires Assembles(p) && InBounds(p) && IsInstr(p, s.line) && CodeIn(p, s.core.mem) && Calls(ActionAt(p, s.line))
    ensures IsCall(InstrAt(CpuOf(p, s))) && ReturnAddress(CpuOf(p, s)) == Trunc16(Address(p, s.line) + Size(p[s.line]))
  {
    hide LineFits, Address, Size, ActionAt, Fetch, CodeIn, InBounds, InstrAt, Trunc16;
    InstrOfLine(p, s);
    CallSize(s.core.mem, Address(p, s.line));
  }

  lemma ReturnLine(p: Program, s: Src)
    requires Assembles(p) && InBounds(p) && IsInstr(p, s.line) && CodeIn(p, s.core.mem)
    requires ActionAt(p, s.line) == Some(ReturnNow)
    ensures InstrAt(CpuOf(p, s)) == Some(Return)
    ensures Step(CpuOf(p, s)).Running?
    ensures SrcStep(p, s) == Enter(p, Step(CpuOf(p, s)).s.ip, Step(CpuOf(p, s)).s.core)
  {
    hide LineFits, Address, Size, ActionAt, Fetch, CodeIn, InBounds, InstrAt, Join, PopTop, Enter;
    InstrOfLine(p, s);
  }

  /**
   The source-level form of the matched return: whatever happens after a call, as long as it stays below
   the frame and does not store into it, a return at that depth goes on at the line after the call, with
   the stack pointer of before.
   */
  lemma SourceReturn(p: Program, s: Src, e: Event, body: seq<Event>)
    requires Assembles(p) && CodeLast(p) && InBounds(p) && IsInstr(p, s.line) && CodeIn(p, s.core.mem)
    requires s.core.sp >= 2 && Calls(ActionAt(p, s.line)) && e.Tick? && EventWrites(e) !! Frame(s.core.sp)
    requires SrcCycle(p, s, e).Going? && SrcKeeps(p, s.core.sp, SrcCycle(p, s, e).s, body)
    requires var t := SrcRun(p, SrcCycle(p, s, e).s, body);
             t.Going? && ActionAt(p, t.s.line) == Some(ReturnNow) && t.s.core.sp == s.core.sp - 2
    ensures var s2 := SrcRun(p, SrcCycle(p, s, e).s, body).s;
            SrcStep(p, s2) == Onward(p, s.line, s2.core.(sp := s.core.sp))
  {
    hide LineFits, Address, Size, ActionAt, CodeIn, InBounds, CodeLast, SrcCycle, Cycle, SrcRun, Run, SrcKeeps,
      Keeps, Step, SrcStep, InstrAt, IsCall, ReturnAddress, Calls, EventWrites, Frame, Trunc16;
    var s1 := SrcCycle(p, s, e).s;
    var s2 := SrcRun(p, s1, body).s;
    CycleMatches(p, s, e);
    RunKeeps(p, s.core.sp, s1, body);
    RunMatches(p, s1, body);
    CallReturnAddress(p, s);
    ReturnLine(p, s2);
    MatchedReturn(CpuOf(p, s), e, body);
    ReturnAddressLine(p, s.line);
  }
}
