/** Printed forms of expressions: fully parenthesized, and with no more parentheses than needed. */
module Printer {
  import Isa
  import opened TinyExpr
  import opened Grammar
  import opened Descent

  // ----- building syntax trees level by level -----

  /** The tree is well formed, stands for the symbols and means the expression. */
  predicate IsBase(b: Base, s: seq<Sym>, e: Expr) { BaseOk(b) && BaseYield(b) == s && BaseTree(b) == e }

  predicate IsPower(p: Power, s: seq<Sym>, e: Expr) { PowerOk(p) && PowerYield(p) == s && PowerTree(p) == e }

  predicate IsTerm(t: Term, s: seq<Sym>, e: Expr) { TermOk(t) && TermYield(t) == s && TermTree(t) == e }

  predicate IsSum(u: Sum, s: seq<Sym>, e: Expr) { SumOk(u) && SumYield(u) == s && SumTree(u) == e }

  predicate IsList(l: List, s: seq<Sym>, e: Expr) { ListOk(l) && ListYield(l) == s && ListTree(l) == e }

  function JustBase(b: Base): Power { Power([], b) }

  function JustPower(p: Power): Term { Term(p, NoPower) }

  function JustTerm(t: Term): Sum { Sum(t, NoTerm) }

  function JustSum(u: Sum): List { List(u, NoSum) }

  lemma JustBaseIs(b: Base, s: seq<Sym>, e: Expr)
    requires IsBase(b, s, e)
    ensures IsPower(JustBase(b), s, e)
  {
  }

  lemma JustPowerIs(p: Power, s: seq<Sym>, e: Expr)
    requires IsPower(p, s, e)
    ensures IsTerm(JustPower(p), s, e)
  {
    assert PowersYield(NoPower) == [];
  }

  lemma JustTermIs(t: Term, s: seq<Sym>, e: Expr)
    requires IsTerm(t, s, e)
    ensures IsSum(JustTerm(t), s, e)
  {
    assert TermsYield(NoTerm) == [];
  }

  lemma JustSumIs(u: Sum, s: seq<Sym>, e: Expr)
    requires IsSum(u, s, e)
    ensures IsList(JustSum(u), s, e)
  {
    assert SumsYield(NoSum) == [];
  }

  function PrefixOf(f: Fun1): Sym
    requires Pure(f)
  {
    if f.Negate? then Infix(Sub) else Tilde
  }

  function Prefixed(f: Fun1, b: Base): Power
    requires Pure(f)
  {
    Power([PrefixOf(f)], b)
  }

  lemma PrefixedIs(f: Fun1, b: Base, s: seq<Sym>, e: Expr)
    requires Pure(f) && IsBase(b, s, e)
    ensures IsPower(Prefixed(f, b), [PrefixOf(f)] + s, App1(f, e))
  {
    assert Count([PrefixOf(f)], Infix(Sub)) == if f.Negate? then 1 else 0;
    assert f.Not? ==> Tilde in [PrefixOf(f)];
  }

  lemma CallIs(f: Fun1, p: Power, s: seq<Sym>, e: Expr)
    requires !Pure(f) && IsPower(p, s, e)
    ensures IsBase(BCall(f, p), [Function(f)] + s, App1(f, e))
  {
  }

  lemma ParenIs(l: List, s: seq<Sym>, e: Expr)
    requires IsList(l, s, e)
    ensures IsBase(BParen(l), [Open] + s + [Close], e)
  {
  }

  // One more operand on the right of a term, an expression or a list.

  function AddPower(ps: Powers, g: Fun2, q: Power): Powers {
    match ps
    case NoPower => MorePower(g, q, NoPower)
    case MorePower(h, p, more) => MorePower(h, p, AddPower(more, g, q))
  }

  lemma {:induction false} AddPowerCorrect(left: Expr, ps: Powers, g: Fun2, q: Power)
    ensures PowersYield(AddPower(ps, g, q)) == PowersYield(ps) + [Infix(g)] + PowerYield(q)
    ensures PowersTree(left, AddPower(ps, g, q)) == App2(g, PowersTree(left, ps), PowerTree(q))
    ensures PowersOk(AddPower(ps, g, q)) <==> PowersOk(ps) && IsTermOp(g) && PowerOk(q)
    decreases ps
  {
    hide PowerYield, PowerTree, PowerOk;
    match ps
    case NoPower => assert PowersYield(NoPower) == [];
    case MorePower(h, p, more) => AddPowerCorrect(App2(h, left, PowerTree(p)), more, g, q);
  }

  function TermWith(t: Term, g: Fun2, q: Power): Term { Term(t.first, AddPower(t.more, g, q)) }

  lemma TermWithIs(t: Term, s: seq<Sym>, a: Expr, g: Fun2, q: Power, s': seq<Sym>, b: Expr)
    requires IsTerm(t, s, a) && IsPower(q, s', b) && IsTermOp(g)
    ensures IsTerm(TermWith(t, g, q), s + [Infix(g)] + s', App2(g, a, b))
  {
    hide PowerYield, PowerTree, PowerOk;
    AddPowerCorrect(PowerTree(t.first), t.more, g, q);
  }

  function AddTerm(ts: Terms, g: Fun2, q: Term): Terms {
    match ts
    case NoTerm => MoreTerm(g, q, NoTerm)
    case MoreTerm(h, t, more) => MoreTerm(h, t, AddTerm(more, g, q))
  }

  lemma {:induction false} AddTermCorrect(left: Expr, ts: Terms, g: Fun2, q: Term)
    ensures TermsYield(AddTerm(ts, g, q)) == TermsYield(ts) + [Infix(g)] + TermYield(q)
    ensures TermsTree(left, AddTerm(ts, g, q)) == App2(g, TermsTree(left, ts), TermTree(q))
    ensures TermsOk(AddTerm(ts, g, q)) <==> TermsOk(ts) && IsExprOp(g) && TermOk(q)
    decreases ts
  {
    hide TermYield, TermTree, TermOk;
    match ts
    case NoTerm => assert TermsYield(NoTerm) == [];
    case MoreTerm(h, t, more) => AddTermCorrect(App2(h, left, TermTree(t)), more, g, q);
  }

  function SumWith(u: Sum, g: Fun2, q: Term): Sum { Sum(u.first, AddTerm(u.more, g, q)) }

  lemma SumWithIs(u: Sum, s: seq<Sym>, a: Expr, g: Fun2, q: Term, s': seq<Sym>, b: Expr)
    requires IsSum(u, s, a) && IsTerm(q, s', b) && IsExprOp(g)
    ensures IsSum(SumWith(u, g, q), s + [Infix(g)] + s', App2(g, a, b))
  {
    hide TermYield, TermTree, TermOk;
    AddTermCorrect(TermTree(u.first), u.more, g, q);
  }

  function AddSum(ss: Sums, q: Sum): Sums {
    match ss
    case NoSum => MoreSum(q, NoSum)
    case MoreSum(u, more) => MoreSum(u, AddSum(more, q))
  }

  lemma {:induction false} AddSumCorrect(left: Expr, ss: Sums, q: Sum)
    ensures SumsYield(AddSum(ss, q)) == SumsYield(ss) + [Sep] + SumYield(q)
    ensures SumsTree(left, AddSum(ss, q)) == App2(Comma, SumsTree(left, ss), SumTree(q))
    ensures SumsOk(AddSum(ss, q)) <==> SumsOk(ss) && SumOk(q)
    decreases ss
  {
    hide SumYield, SumTree, SumOk;
    match ss
    case NoSum => assert SumsYield(NoSum) == [];
    case MoreSum(u, more) => AddSumCorrect(App2(Comma, left, SumTree(u)), more, q);
  }

  function ListWith(l: List, q: Sum): List { List(l.first, AddSum(l.more, q)) }

  lemma ListWithIs(l: List, s: seq<Sym>, a: Expr, q: Sum, s': seq<Sym>, b: Expr)
    requires IsList(l, s, a) && IsSum(q, s', b)
    ensures IsList(ListWith(l, q), s + [Sep] + s', App2(Comma, a, b))
  {
    hide SumYield, SumTree, SumOk;
    AddSumCorrect(SumTree(l.first), l.more, q);
  }

  // ----- full parenthesization -----

  function SymbolOf(g: Fun2): Sym { if g.Comma? then Sep else Infix(g) }

  function Full(e: Expr): seq<Sym> {
    match e
    case Const(v) => [Number(v)]
    case Var(i) => [Variable(i)]
    case App1(f, a) => if Pure(f) then [Open] + ([PrefixOf(f)] + Full(a)) + [Close] else [Function(f)] + Full(a)
    case App2(g, a, b) => [Open] + (Full(a) + [SymbolOf(g)] + Full(b)) + [Close]
  }

  /** A list of one operation on two parenthesized operands. */
  lemma BinaryIs(g: Fun2, p: Base, s: seq<Sym>, a: Expr, q: Base, s': seq<Sym>, b: Expr) returns (l: List)
    requires IsBase(p, s, a) && IsBase(q, s', b)
    ensures IsList(l, s + [SymbolOf(g)] + s', App2(g, a, b))
  {
    hide IsBase, IsPower, IsTerm, IsSum, IsList;
    var x, y := JustBase(p), JustBase(q);
    JustBaseIs(p, s, a);
    JustBaseIs(q, s', b);
    JustPowerIs(x, s, a);
    JustPowerIs(y, s', b);
    JustTermIs(JustPower(x), s, a);
    if g.Comma? {
      JustTermIs(JustPower(y), s', b);
      JustSumIs(JustTerm(JustPower(x)), s, a);
      l := ListWith(JustSum(JustTerm(JustPower(x))), JustTerm(JustPower(y)));
      ListWithIs(JustSum(JustTerm(JustPower(x))), s, a, JustTerm(JustPower(y)), s', b);
    } else {
      var u;
      if IsTermOp(g) {
        u := JustTerm(TermWith(JustPower(x), g, y));
        TermWithIs(JustPower(x), s, a, g, y, s', b);
        JustTermIs(TermWith(JustPower(x), g, y), s + [Infix(g)] + s', App2(g, a, b));
      } else {
        u := SumWith(JustTerm(JustPower(x)), g, JustPower(y));
        SumWithIs(JustTerm(JustPower(x)), s, a, g, JustPower(y), s', b);
      }
      l := JustSum(u);
      JustSumIs(u, s + [Infix(g)] + s', App2(g, a, b));
    }
  }

  /** The syntax tree behind the fully parenthesized form. */
  lemma {:induction false} FullIsBase(e: Expr) returns (b: Base)
    ensures IsBase(b, Full(e), e)
  {
    hide IsBase, IsPower, IsList;
    match e
    case Const(v) => b := BNumber(v); NumberIs(v);
    case Var(i) => b := BVariable(i); VariableIs(i);
    case App1(f, a) =>
      var x := FullIsBase(a);
      if Pure(f) {
        var p := Prefixed(f, x);
        PrefixedIs(f, x, Full(a), a);
        b := PowerInParens(p, [PrefixOf(f)] + Full(a), e);
      } else {
        b := BCall(f, JustBase(x));
        JustBaseIs(x, Full(a), a);
        CallIs(f, JustBase(x), Full(a), a);
      }
    case App2(g, x, y) =>
      var p := FullIsBase(x);
      var q := FullIsBase(y);
      var l := BinaryIs(g, p, Full(x), x, q, Full(y), y);
      b := BParen(l);
      ParenIs(l, Full(x) + [SymbolOf(g)] + Full(y), e);
  }

  lemma NumberIs(v: int32)
    ensures IsBase(BNumber(v), [Number(v)], Const(v))
  {
  }

  lemma VariableIs(i: nat)
    ensures IsBase(BVariable(i), [Variable(i)], Var(i))
  {
  }

  lemma PowerInParens(p: Power, s: seq<Sym>, e: Expr) returns (b: Base)
    requires IsPower(p, s, e)
    ensures IsBase(b, [Open] + s + [Close], e)
  {
    hide IsBase, IsPower, IsTerm, IsSum, IsList;
    JustPowerIs(p, s, e);
    JustTermIs(JustPower(p), s, e);
    JustSumIs(JustTerm(JustPower(p)), s, e);
    b := BParen(JustSum(JustTerm(JustPower(p))));
    ParenIs(JustSum(JustTerm(JustPower(p))), s, e);
  }

  /** Parsing inverts printing with full parentheses. */
  lemma ParseInvertsFull(e: Expr)
    ensures Parse(Full(e)) == Isa.Some(e)
  {
    hide IsBase, IsPower, IsTerm, IsSum;
    var b := FullIsBase(e);
    JustBaseIs(b, Full(e), e);
    JustPowerIs(JustBase(b), Full(e), e);
    JustTermIs(JustPower(JustBase(b)), Full(e), e);
    JustSumIs(JustTerm(JustPower(JustBase(b))), Full(e), e);
    ParsesList(JustSum(JustTerm(JustPower(JustBase(b)))), Full(e), e);
  }

  lemma ParsesList(l: List, s: seq<Sym>, e: Expr)
    requires IsList(l, s, e)
    ensures Parse(s) == Isa.Some(e)
  {
    assert Derives(s, e);
    ParserDecidesGrammar(s, e);
  }

  // ----- minimal parentheses -----

  /** The level of an expression: list, expr, term, power or base. */
  function Level(e: Expr): nat {
    match e
    case App2(g, _, _) => if g.Comma? then 0 else if IsTermOp(g) then 2 else 1
    case App1(f, _) => if Pure(f) then 3 else 4
    case _ => 4
  }

  /** Parentheses only where the level is lower than the place asks for. */
  function Minimal(e: Expr, place: nat): seq<Sym>
    decreases e, 1
  {
    if Level(e) < place then [Open] + Bare(e) + [Close] else Bare(e)
  }

  /** Operators associate to the left; a prefix operator takes no second one. */
  function Bare(e: Expr): seq<Sym>
    decreases e, 0
  {
    match e
    case Const(v) => [Number(v)]
    case Var(i) => [Variable(i)]
    case App1(f, a) => if Pure(f) then [PrefixOf(f)] + Minimal(a, 4) else [Function(f)] + Minimal(a, 3)
    case App2(g, a, b) =>
      if g.Comma? then Minimal(a, 0) + [Sep] + Minimal(b, 1)
      else if IsTermOp(g) then Minimal(a, 2) + [Infix(g)] + Minimal(b, 3)
      else Minimal(a, 1) + [Infix(g)] + Minimal(b, 2)
  }

  /** The bare form, at its own level. */
  lemma {:induction false} BareBase(e: Expr) returns (b: Base)
    requires Level(e) == 4
    ensures IsBase(b, Bare(e), e)
    decreases e, 0
  {
    hide IsBase, IsPower;
    match e
    case Const(v) => b := BNumber(v); NumberIs(v);
    case Var(i) => b := BVariable(i); VariableIs(i);
    case App1(f, a) =>
      var p := MinimalPower(a);
      b := BCall(f, p);
      CallIs(f, p, Minimal(a, 3), a);
  }

  lemma {:induction false} BarePower(e: Expr) returns (p: Power)
    requires Level(e) >= 3
    ensures IsPower(p, Bare(e), e)
    decreases e, 1
  {
    hide IsBase, IsPower;
    if Level(e) == 3 {
      var b := MinimalBase(e.a);
      p := Prefixed(e.f, b);
      PrefixedIs(e.f, b, Minimal(e.a, 4), e.a);
    } else {
      var b := BareBase(e);
      p := JustBase(b);
      JustBaseIs(b, Bare(e), e);
    }
  }

  lemma {:induction false} BareTerm(e: Expr) returns (t: Term)
    requires Level(e) >= 2
    ensures IsTerm(t, Bare(e), e)
    decreases e, 2
  {
    hide IsPower, IsTerm;
    if Level(e) == 2 {
      var x := MinimalTerm(e.a);
      var y := MinimalPower(e.b);
      t := TermWith(x, e.g, y);
      TermWithIs(x, Minimal(e.a, 2), e.a, e.g, y, Minimal(e.b, 3), e.b);
    } else {
      var p := BarePower(e);
      t := JustPower(p);
      JustPowerIs(p, Bare(e), e);
    }
  }

  lemma {:induction false} BareSum(e: Expr) returns (u: Sum)
    requires Level(e) >= 1
    ensures IsSum(u, Bare(e), e)
    decreases e, 3
  {
    hide IsTerm, IsSum;
    if Level(e) == 1 {
      var x := MinimalSum(e.a);
      var y := MinimalTerm(e.b);
      u := SumWith(x, e.g, y);
      SumWithIs(x, Minimal(e.a, 1), e.a, e.g, y, Minimal(e.b, 2), e.b);
    } else {
      var t := BareTerm(e);
      u := JustTerm(t);
      JustTermIs(t, Bare(e), e);
    }
  }

  lemma {:induction false} BareList(e: Expr) returns (l: List)
    ensures IsList(l, Bare(e), e)
    decreases e, 4
  {
    hide IsSum, IsList;
    if Level(e) == 0 {
      var x := BareList(e.a);
      var y := MinimalSum(e.b);
      l := ListWith(x, y);
      ListWithIs(x, Bare(e.a), e.a, y, Minimal(e.b, 1), e.b);
    } else {
      var u := BareSum(e);
      l := JustSum(u);
      JustSumIs(u, Bare(e), e);
    }
  }

  /** The form with parentheses where the place needs them. */
  lemma {:induction false} MinimalBase(e: Expr) returns (b: Base)
    ensures IsBase(b, Minimal(e, 4), e)
    decreases e, 5
  {
    hide IsBase, IsList;
    if Level(e) == 4 {
      b := BareBase(e);
    } else {
      var l := BareList(e);
      b := BParen(l);
      ParenIs(l, Bare(e), e);
    }
  }

  lemma {:induction false} MinimalPower(e: Expr) returns (p: Power)
    ensures IsPower(p, Minimal(e, 3), e)
    decreases e, 6
  {
    hide IsBase, IsPower;
    if Level(e) >= 3 {
      p := BarePower(e);
    } else {
      var b := MinimalBase(e);
      p := JustBase(b);
      JustBaseIs(b, Minimal(e, 4), e);
    }
  }

  lemma {:induction false} MinimalTerm(e: Expr) returns (t: Term)
    ensures IsTerm(t, Minimal(e, 2), e)
    decreases e, 7
  {
    hide IsPower, IsTerm;
    if Level(e) >= 2 {
      t := BareTerm(e);
    } else {
      var p := MinimalPower(e);
      t := JustPower(p);
      JustPowerIs(p, Minimal(e, 3), e);
    }
  }

  lemma {:induction false} MinimalSum(e: Expr) returns (u: Sum)
    ensures IsSum(u, Minimal(e, 1), e)
    decreases e, 8
  {
    hide IsTerm, IsSum;
    if Level(e) >= 1 {
      u := BareSum(e);
    } else {
      var t := MinimalTerm(e);
      u := JustTerm(t);
      JustTermIs(t, Minimal(e, 2), e);
    }
  }

  /** Parsing inverts printing with minimal parentheses. */
  lemma ParseInvertsMinimal(e: Expr)
    ensures Parse(Minimal(e, 0)) == Isa.Some(e)
  {
    hide IsList;
    var l := BareList(e);
    ParsesList(l, Bare(e), e);
  }
}
