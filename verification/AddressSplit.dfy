/** Loading an address into a register pair with low and high, from the source text to the registers. */
module AddressSplit {
  import opened Words
  import opened Isa
  import opened Frames
  import opened TinyExpr
  import opened Grammar
  import opened Descent
  import opened Printer
  import opened Symbols
  import opened Parser
  import opened Source
  import opened Assembler
  import opened Image
  import opened Simulation

  /** low(e) or high(e) as written. */
  function Half(name: string, e: seq<Token>): seq<Token> { [TName(name), TOpen] + e + [TClose] }

  function NameOf(f: Fun1): string { if f == LowOf then "low" else "high" }

  lemma Regroup(x: Sym, y: Sym, rest: seq<Sym>)
    ensures [x] + ([y] + rest) == [x, y] + rest
  {
  }

  lemma LexTwo(text: seq<Token>, table: seq<Equate>)
    requires |text| >= 2
    ensures Lex(text, table) == [Classify(text[0], table), Classify(text[1], table)] + Lex(text[2..], table)
  {
    hide Classify;
    assert text[1..][0] == text[1] && text[1..][1..] == text[2..];
    assert Lex(text[1..], table) == [Classify(text[1], table)] + Lex(text[2..], table);
    Regroup(Classify(text[0], table), Classify(text[1], table), Lex(text[2..], table));
  }

  lemma LexHalf(f: Fun1, e: seq<Token>, table: seq<Equate>)
    requires (f == LowOf || f == HighOf) && Find(table, NameOf(f)) == None
    ensures Lex(Half(NameOf(f), e), table) == [Sym.Function(f), Open] + Lex(e, table) + [Close]
  {
    var front := [TName(NameOf(f)), TOpen];
    assert |"low"| != |"high"|;
    assert Builtin(NameOf(f)) == Sym.Function(f);
    LexTwo(front, table);
    LexAppend(front, e, table);
    assert [TClose][1..] == [];
    assert Lex([TClose], table) == [Close];
    LexAppend(front + e, [TClose], table);
  }

  lemma ParseHalf(f: Fun1, s: seq<Sym>, t: Expr)
    requires !Pure(f) && Descent.Parse(s) == Isa.Some(t)
    ensures Descent.Parse([Sym.Function(f), Open] + s + [Close]) == Isa.Some(App1(f, t))
  {
    hide IsBase, IsPower, IsTerm, IsSum;
    ParserDecidesGrammar(s, t);
    var l :| ListOk(l) && ListYield(l) == s && ListTree(l) == t;
    ParenIs(l, s, t);
    JustBaseIs(BParen(l), [Open] + s + [Close], t);
    CallIs(f, JustBase(BParen(l)), [Open] + s + [Close], t);
    var b, text := BCall(f, JustBase(BParen(l))), [Sym.Function(f)] + ([Open] + s + [Close]);
    JustBaseIs(b, text, App1(f, t));
    JustPowerIs(JustBase(b), text, App1(f, t));
    JustTermIs(JustPower(JustBase(b)), text, App1(f, t));
    JustSumIs(JustTerm(JustPower(JustBase(b))), text, App1(f, t));
    ParsesList(JustSum(JustTerm(JustPower(JustBase(b)))), text, App1(f, t));
    assert text == [Sym.Function(f), Open] + s + [Close];
  }

  /** Cut before its closing parenthesis, a call is not accepted. */
  lemma ParseUnclosed(f: Fun1, s: seq<Sym>)
    requires !Pure(f) && Descent.Parse(s).Some?
    ensures Descent.Parse([Sym.Function(f), Open] + s) == Isa.None
  {
    var text := [Sym.Function(f), Open] + s;
    assert text[1..] == [Open] + s && text[1..][1..] == s;
    assert ParseBase(text[1..]) == Fail;
    assert ParsePower(text[1..], 1, false) == Fail;
    assert ParseBase(text) == Fail;
    assert ParsePower(text, 1, false) == Fail;
    assert ParseTerm(text) == Fail;
    assert ParseSum(text) == Fail;
  }

  lemma CutHalf(name: string, e: seq<Token>)
    ensures TSep !in e ==> Cut(e) == e && Cut(Half(name, e)) == Half(name, e)
    ensures TSep in e ==> Cut(Half(name, e)) == [TName(name), TOpen] + Cut(e)
  {
    var front := [TName(name), TOpen];
    assert Half(name, e) == front + (e + [TClose]);
    CutLater(front, e + [TClose]);
    if TSep in e {
      CutEarlier(e, [TClose]);
    } else {
      CutWhole(e);
      CutLater(e, [TClose]);
      CutWhole([TClose]);
      assert front + (e + [TClose]) == Half(name, e);
    }
  }

  lemma LexFront(f: Fun1, e: seq<Token>, table: seq<Equate>)
    requires (f == LowOf || f == HighOf) && Find(table, NameOf(f)) == None
    ensures Lex([TName(NameOf(f)), TOpen] + e, table) == [Sym.Function(f), Open] + Lex(e, table)
  {
    var text := [TName(NameOf(f)), TOpen] + e;
    assert |"low"| != |"high"|;
    assert Builtin(NameOf(f)) == Sym.Function(f);
    LexTwo(text, table);
    assert text[2..] == e;
  }

  /**
   low and high of an expression are the halves of its 16-bit value, exactly if no comma stands in it: with a
   comma the text of the call is cut before its closing parenthesis.
   */
  lemma HalfMeaning(f: Fun1, e: seq<Token>, table: seq<Equate>)
    requires (f == LowOf || f == HighOf) && Find(table, NameOf(f)) == None && Meaning(e, table).Known?
    ensures Meaning(Half(NameOf(f), e), table)
            == if TSep in e then Invalid
               else Known(if f == LowOf then Trunc8(Meaning(e, table).w) else High(Meaning(e, table).w))
  {
    hide Half;
    CutHalf(NameOf(f), e);
    var t := Descent.Parse(Lex(Cut(e), table)).value;
    if TSep in e {
      LexFront(f, Cut(e), table);
      ParseUnclosed(f, Lex(Cut(e), table));
    } else {
      LexHalf(f, e, table);
      ParseHalf(f, Lex(e, table), t);
      assert Eval(App1(f, t), Values(table)) == Apply1(f, Eval(t, Values(table)).value);
    }
  }

  /** A symbol of that name hides the function, and then no call of it is accepted. */
  lemma HiddenHalf(f: Fun1, e: seq<Token>, table: seq<Equate>)
    requires (f == LowOf || f == HighOf) && Find(table, NameOf(f)).Some?
    ensures Meaning(Half(NameOf(f), e), table) == Invalid
  {
    var front := [TName(NameOf(f)), TOpen];
    assert Half(NameOf(f), e) == front + (e + [TClose]);
    CutLater(front, e + [TClose]);
    var text := Cut(Half(NameOf(f), e));
    LexTwo(text, table);
    VariableThenOpen(Lex(text, table));
  }

  lemma VariableThenOpen(s: seq<Sym>)
    requires |s| >= 2 && s[0].Variable? && s[1] == Open
    ensures Descent.Parse(s) == Isa.None
  {
    var v, rest := Var(s[0].i), s[1..];
    assert ParsePower(s, 1, false) == Descent.Done(v, rest);
    assert ParseTerm(s) == Descent.Done(v, rest);
    assert ParseSum(s) == Descent.Done(v, rest);
    assert ParseList(s) == Descent.Done(v, rest);
  }

  /** The two instructions that load an expression into a pair, low half first. */
  predicate LoadsPair(p: Program, i: nat, lo: RegText, hi: RegText, e: seq<Token>) {
    IsInstr(p, i) && IsInstr(p, i + 1) && IsReg(lo) && IsReg(hi)
    && p[i].body == Ins8(MLoadImm, RegExpr(lo, Half("low", e)))
    && p[i + 1].body == Ins8(MLoadImm, RegExpr(hi, Half("high", e)))
  }

  lemma ByteLoad(d: RegText, f: Fun1, e: seq<Token>, early: seq<Equate>, late: seq<Equate>)
    requires (f == LowOf || f == HighOf) && IsReg(d) && Find(late, NameOf(f)) == None
    requires Meaning(e, late).Known? && TSep !in e
    ensures var w := Meaning(e, late).w;
            Means(MLoadImm, RegExpr(d, Half(NameOf(f), e)), early, late)
            == Some(Do(Ldi(d as int, if f == LowOf then Trunc8(w) else High(w))))
  {
    hide Half, Meaning;
    HalfMeaning(f, e, late);
  }

  /** Where the table is complete, the lines before and after the label see the same value. */
  lemma PairActions(p: Program, i: nat, lo: RegText, hi: RegText, e: seq<Token>)
    requires Assembles(p) && LoadsPair(p, i, lo, hi, e)
    requires Find(Table(p), "low") == None && Find(Table(p), "high") == None
    requires Meaning(e, Table(p)).Known? && TSep !in e
    ensures var w := Meaning(e, Table(p)).w;
            ActionAt(p, i) == Some(Do(Ldi(lo as int, Trunc8(w))))
              && ActionAt(p, i + 1) == Some(Do(Ldi(hi as int, High(w))))
  {
    hide Means, Half, Meaning, LineFits, Address, Equates, Table;
    ByteLoad(lo, LowOf, e, Equates(p, i), Table(p));
    ByteLoad(hi, HighOf, e, Equates(p, i + 1), Table(p));
  }

  /** One of the loads, and what the outside world stores after it. */
  lemma LoadImmTurn(p: Program, i: nat, d: RegNo, k: byte, c: Core, e: Event)
    requires Assembles(p) && InBounds(p) && IsInstr(p, i) && CodeIn(p, c.mem) && ActionAt(p, i) == Some(Do(Ldi(d, k)))
    requires e.Tick?
    ensures Cycle(Cpu(Address(p, i), c), e)
            == Running(Cpu(Trunc16(Address(p, i) + Size(p[i])), c.(reg := c.reg[d := k], mem := StoreEvent(c.mem, e))))
  {
    hide LineFits, Address, Size, InMemory, LineBytes, ActionAt, WordAt, Is32, Fetch, StoreEvent;
    assert InMemory(p, i, c.mem);
    FetchLine(p, i, c.mem);
  }

  function WithPair(c: Core, lo: RegText, hi: RegText, v: int): Core
    requires IsReg(lo) && IsReg(hi)
  {
    c.(reg := c.reg[lo as int := Trunc8(v)][hi as int := High(Trunc16(v))])
  }

  /** The registers of the pair hold the value modulo 65536. */
  lemma PairHolds(c: Core, lo: RegText, hi: RegText, v: int)
    requires IsReg(lo) && IsReg(hi) && lo != hi
    ensures Join(WithPair(c, lo, hi, v).reg[lo as int], WithPair(c, lo, hi, v).reg[hi as int]) == v % 0x1_0000
  {
    WordHalves(v);
  }

  lemma SecondAddress(p: Program, i: nat, lo: RegText, hi: RegText, e: seq<Token>)
    requires AddressesFit(p) && LoadsPair(p, i, lo, hi, e)
    ensures Address(p, i + 1) == Trunc16(Address(p, i) + Size(p[i]))
  {
    hide Size, Half;
    assert Address(p, i + 1) == Address(p, i) + Size(p[i]);
  }

  lemma TwoTurns(s: Cpu, s1: Cpu, s2: Cpu, e: Event, e': Event)
    requires Cycle(s, e) == Running(s1) && Cycle(s1, e') == Running(s2)
    ensures Run(s, [e, e']) == Running(s2)
  {
    hide Cycle;
    assert [e, e'][1..] == [e'];
    assert Run(s1, [e']) == Running(s2);
  }

  /**
   Executing the two assembled instructions leaves the value of the expression in the pair, wherever
   the labels in it stand. Nothing else changes but what the outside world stores, which must not be code.
   */
  lemma PairLoaded(p: Program, i: nat, lo: RegText, hi: RegText, e: seq<Token>, c: Core, in1: Event, in2: Event)
    requires Assembles(p) && InBounds(p) && CodeIn(p, c.mem) && LoadsPair(p, i, lo, hi, e)
    requires Find(Table(p), "low") == None && Find(Table(p), "high") == None
    requires ValueOf(e, Table(p)).Some? && TSep !in e
    requires in1.Tick? && in2.Tick? && !HitsCode(p, EventWrites(in1))
    ensures Run(Cpu(Address(p, i), c), [in1, in2])
            == Running(Cpu(Trunc16(Address(p, i + 1) + Size(p[i + 1])),
                           WithPair(c, lo, hi, ValueOf(e, Table(p)).value)
                             .(mem := StoreEvent(StoreEvent(c.mem, in1), in2))))
  {
    hide Half, LineFits, Size, Trunc8, Trunc16, High, Cycle, Run, CodeIn, ActionAt, InBounds, Lex, Values, Table, Eval,
      StoreEvent, EventWrites, HitsCode, Address;
    var v := ValueOf(e, Table(p)).value;
    ValueKnown(e, Table(p));
    hide Meaning, ValueOf;
    PairActions(p, i, lo, hi, e);
    SecondAddress(p, i, lo, hi, e);
    WordHalves(v);
    var c1 := c.(reg := c.reg[lo as int := Trunc8(v)], mem := StoreEvent(c.mem, in1));
    var c2 := WithPair(c, lo, hi, v).(mem := StoreEvent(c1.mem, in2));
    LoadImmTurn(p, i, lo as int, Trunc8(v), c, in1);
    EventWritesFew(c.mem, in1);
    CodeStays(p, c.mem, c1.mem, EventWrites(in1));
    LoadImmTurn(p, i + 1, hi as int, High(Trunc16(v)), c1, in2);
    TwoTurns(Cpu(Address(p, i), c), Cpu(Address(p, i + 1), c1),
             Cpu(Trunc16(Address(p, i + 1) + Size(p[i + 1])), c2), in1, in2);
  }

  lemma WordHalves(v: int)
    ensures Trunc8(Trunc16(v)) == Trunc8(v) && Join(Trunc8(v), High(Trunc16(v))) == v % 0x1_0000
  {
  }
}
