/** The printed form with few parentheses has the fewest: no text with less means the same tree. */
module Fewest {
  import Isa
  import opened TinyExpr
  import opened Grammar
  import opened Descent
  import opened Printer

  /** The pairs of parentheses in the minimal form. */
  function Pairs(e: Expr, place: nat): nat
    decreases e, 1
  {
    (if Level(e) < place then 1 else 0) + Inner(e)
  }

  function Inner(e: Expr): nat
    decreases e, 0
  {
    match e
    case Const(_) => 0
    case Var(_) => 0
    case App1(f, a) => Pairs(a, if Pure(f) then 4 else 3)
    case App2(g, a, b) =>
      if g.Comma? then Pairs(a, 0) + Pairs(b, 1)
      else if IsTermOp(g) then Pairs(a, 2) + Pairs(b, 3)
      else Pairs(a, 1) + Pairs(b, 2)
  }

  lemma {:induction false} CountAppend(s: seq<Sym>, t: seq<Sym>, x: Sym)
    ensures Count(s + t, x) == Count(s, x) + Count(t, x)
  {
    if s == [] {
      assert s + t == t;
    } else {
      assert (s + t)[1..] == s[1..] + t;
      CountAppend(s[1..], t, x);
    }
  }

  lemma CountOne(y: Sym, x: Sym)
    ensures Count([y], x) == if y == x then 1 else 0
  {
    assert [y][1..] == [];
  }

  lemma CountAround(y: Sym, s: seq<Sym>, z: Sym, x: Sym)
    ensures Count([y] + s + [z], x) == (if y == x then 1 else 0) + Count(s, x) + (if z == x then 1 else 0)
  {
    CountOne(y, x);
    CountOne(z, x);
    CountAppend([y], s, x);
    CountAppend([y] + s, [z], x);
  }

  lemma CountBetween(s: seq<Sym>, y: Sym, t: seq<Sym>, x: Sym)
    ensures Count(s + [y] + t, x) == Count(s, x) + (if y == x then 1 else 0) + Count(t, x)
  {
    CountOne(y, x);
    CountAppend(s, [y], x);
    CountAppend(s + [y], t, x);
  }

  lemma CountBefore(y: Sym, s: seq<Sym>, x: Sym)
    ensures Count([y] + s, x) == (if y == x then 1 else 0) + Count(s, x)
  {
    CountOne(y, x);
    CountAppend([y], s, x);
  }

  lemma {:induction false} MinimalPairs(e: Expr, place: nat)
    ensures Count(Minimal(e, place), Open) == Pairs(e, place)
    decreases e, 1
  {
    hide Count;
    BarePairs(e);
    if Level(e) < place { CountAround(Open, Bare(e), Close, Open); }
  }

  lemma {:induction false} BarePairs(e: Expr)
    ensures Count(Bare(e), Open) == Inner(e)
    decreases e, 0
  {
    hide Count, Minimal, Pairs;
    match e
    case Const(v) => CountOne(Number(v), Open);
    case Var(i) => CountOne(Variable(i), Open);
    case App1(f, a) =>
      var place := if Pure(f) then 4 else 3;
      MinimalPairs(a, place);
      CountBefore(if Pure(f) then PrefixOf(f) else Sym.Function(f), Minimal(a, place), Open);
    case App2(g, a, b) =>
      var place := if g.Comma? then 0 else if IsTermOp(g) then 2 else 1;
      MinimalPairs(a, place);
      MinimalPairs(b, place + 1);
      CountBetween(Minimal(a, place), SymbolOf(g), Minimal(b, place + 1), Open);
  }

  // ----- every text of a tree has at least as many -----

  lemma {:induction false} BaseNeeds(b: Base)
    requires BaseOk(b)
    ensures Pairs(BaseTree(b), 4) <= Count(BaseYield(b), Open)
    decreases b, 0
  {
    hide Count;
    match b
    case BNumber(_) =>
    case BVariable(_) =>
    case BCall(f, arg) =>
      PowerNeeds(arg);
      CountBefore(Sym.Function(f), PowerYield(arg), Open);
    case BParen(l) =>
      ListNeeds(l);
      CountAround(Open, ListYield(l), Close, Open);
  }

  lemma {:induction false} PowerNeeds(p: Power)
    requires PowerOk(p)
    ensures Pairs(PowerTree(p), 3) <= Count(PowerYield(p), Open)
    decreases p, 1
  {
    hide Count;
    BaseNeeds(p.base);
    CountAppend(p.prefix, BaseYield(p.base), Open);
  }

  lemma {:induction false} TermNeeds(t: Term)
    requires TermOk(t)
    ensures Pairs(TermTree(t), 2) <= Count(TermYield(t), Open)
    decreases t, 2
  {
    hide Count;
    PowerNeeds(t.first);
    PowersNeed(PowerTree(t.first), t.more);
    CountAppend(PowerYield(t.first), PowersYield(t.more), Open);
  }

  lemma {:induction false} PowersNeed(left: Expr, ps: Powers)
    requires PowersOk(ps)
    ensures Pairs(PowersTree(left, ps), 2) <= Pairs(left, 2) + Count(PowersYield(ps), Open)
    decreases ps, 2
  {
    hide Count;
    match ps
    case NoPower =>
    case MorePower(g, p, more) =>
      PowerNeeds(p);
      PowersNeed(App2(g, left, PowerTree(p)), more);
      CountBefore(Infix(g), PowerYield(p), Open);
      CountAppend([Infix(g)] + PowerYield(p), PowersYield(more), Open);
  }

  lemma {:induction false} SumNeeds(u: Sum)
    requires SumOk(u)
    ensures Pairs(SumTree(u), 1) <= Count(SumYield(u), Open)
    decreases u, 3
  {
    hide Count;
    TermNeeds(u.first);
    TermsNeed(TermTree(u.first), u.more);
    CountAppend(TermYield(u.first), TermsYield(u.more), Open);
  }

  lemma {:induction false} TermsNeed(left: Expr, ts: Terms)
    requires TermsOk(ts)
    ensures Pairs(TermsTree(left, ts), 1) <= Pairs(left, 1) + Count(TermsYield(ts), Open)
    decreases ts, 3
  {
    hide Count;
    match ts
    case NoTerm =>
    case MoreTerm(g, t, more) =>
      TermNeeds(t);
      TermsNeed(App2(g, left, TermTree(t)), more);
      CountBefore(Infix(g), TermYield(t), Open);
      CountAppend([Infix(g)] + TermYield(t), TermsYield(more), Open);
  }

  lemma {:induction false} ListNeeds(l: List)
    requires ListOk(l)
    ensures Pairs(ListTree(l), 0) <= Count(ListYield(l), Open)
    decreases l, 4
  {
    hide Count;
    SumNeeds(l.first);
    SumsNeed(SumTree(l.first), l.more);
    CountAppend(SumYield(l.first), SumsYield(l.more), Open);
  }

  lemma {:induction false} SumsNeed(left: Expr, ss: Sums)
    requires SumsOk(ss)
    ensures Pairs(SumsTree(left, ss), 0) <= Pairs(left, 0) + Count(SumsYield(ss), Open)
    decreases ss, 4
  {
    hide Count;
    match ss
    case NoSum =>
    case MoreSum(s, more) =>
      SumNeeds(s);
      SumsNeed(App2(Comma, left, SumTree(s)), more);
      CountBefore(Sep, SumYield(s), Open);
      CountAppend([Sep] + SumYield(s), SumsYield(more), Open);
  }

  /**
   Every text that parses to a tree has at least as many parentheses as its minimal form. In
   particular none of the pairs that this form adds can be left out.
   */
  lemma FewestParentheses(s: seq<Sym>, e: Expr)
    requires Parse(s) == Isa.Some(e)
    ensures Count(Minimal(e, 0), Open) <= Count(s, Open)
  {
    hide Count, Minimal, Pairs;
    ParserDecidesGrammar(s, e);
    var l :| ListOk(l) && ListYield(l) == s && ListTree(l) == e;
    ListNeeds(l);
    MinimalPairs(e, 0);
  }
}
