/**
 How strings of symbols group: which operators bind tighter, what may stand before an operand, and that
 no string with an error in it is accepted. The operators are spelled out.
 */
module Precedence {
  import Isa
  import opened TinyExpr
  import opened Grammar
  import opened Descent
  import opened Printer
  import opened Symbols
  import opened Parser

  // ----- two operators -----

  /** The nine operators that are lexed. */
  predicate IsOperator(g: Fun2) { g != Comma }

  /** The tree of three operands: the second operator comes first only if it is * or / and the first is neither. */
  function Grouped(g: Fun2, h: Fun2, a: Expr, b: Expr, c: Expr): Expr {
    if (h == Mul || h == Div) && g != Mul && g != Div then App2(g, a, App2(h, b, c)) else App2(h, App2(g, a, b), c)
  }

  /** Operands of any kind: numbers, variables, calls, parentheses, each with any prefix. */
  lemma OperandsGroup(g: Fun2, h: Fun2, p: Power, s: seq<Sym>, a: Expr, q: Power, t: seq<Sym>, b: Expr, r: Power,
                      u: seq<Sym>, c: Expr)
    requires IsOperator(g) && IsOperator(h) && IsPower(p, s, a) && IsPower(q, t, b) && IsPower(r, u, c)
    ensures Parse(s + [Infix(g)] + t + [Infix(h)] + u) == Isa.Some(Grouped(g, h, a, b, c))
  {
    hide IsPower, IsTerm, IsSum, Descent.Parse;
    var text := s + [Infix(g)] + t + [Infix(h)] + u;
    var p1, q1 := JustPower(p), JustPower(q);
    JustPowerIs(p, s, a);
    JustPowerIs(q, t, b);
    JustPowerIs(r, u, c);
    var sum: Sum;
    if g == Mul || g == Div {
      TermWithIs(p1, s, a, g, q, t, b);
      var pq := TermWith(p1, g, q);
      if h == Mul || h == Div {
        TermWithIs(pq, s + [Infix(g)] + t, App2(g, a, b), h, r, u, c);
        JustTermIs(TermWith(pq, h, r), text, Grouped(g, h, a, b, c));
        sum := JustTerm(TermWith(pq, h, r));
      } else {
        JustTermIs(pq, s + [Infix(g)] + t, App2(g, a, b));
        SumWithIs(JustTerm(pq), s + [Infix(g)] + t, App2(g, a, b), h, JustPower(r), u, c);
        sum := SumWith(JustTerm(pq), h, JustPower(r));
      }
    } else {
      JustTermIs(p1, s, a);
      if h == Mul || h == Div {
        TermWithIs(q1, t, b, h, r, u, c);
        var qr := TermWith(q1, h, r);
        SumWithIs(JustTerm(p1), s, a, g, qr, t + [Infix(h)] + u, App2(h, b, c));
        assert s + [Infix(g)] + (t + [Infix(h)] + u) == text;
        sum := SumWith(JustTerm(p1), g, qr);
      } else {
        SumWithIs(JustTerm(p1), s, a, g, q1, t, b);
        var pq := SumWith(JustTerm(p1), g, q1);
        SumWithIs(pq, s + [Infix(g)] + t, App2(g, a, b), h, JustPower(r), u, c);
        sum := SumWith(pq, h, JustPower(r));
      }
    }
    JustSumIs(sum, text, Grouped(g, h, a, b, c));
    ParsesList(JustSum(sum), text, Grouped(g, h, a, b, c));
  }

  lemma NumberIsPower(v: int32)
    ensures IsPower(JustBase(BNumber(v)), [Number(v)], Const(v))
  {
    NumberIs(v);
    JustBaseIs(BNumber(v), [Number(v)], Const(v));
  }

  /** Products and quotients bind tighter than all others, which share one level; each level goes from left to right. */
  lemma OperatorsBind(g: Fun2, h: Fun2, x: int32, y: int32, z: int32)
    requires g in [Fun2.Add, Fun2.Sub, Shl, Shr, Xor, Or, And, Mul, Div]
    requires h in [Fun2.Add, Fun2.Sub, Shl, Shr, Xor, Or, And, Mul, Div]
    ensures Parse([Number(x), Infix(g), Number(y), Infix(h), Number(z)])
            == Isa.Some(if h in [Mul, Div] && g in [Fun2.Add, Fun2.Sub, Shl, Shr, Xor, Or, And]
                        then App2(g, Const(x), App2(h, Const(y), Const(z)))
                        else App2(h, App2(g, Const(x), Const(y)), Const(z)))
  {
    hide IsPower, Descent.Parse;
    NumberIsPower(x);
    NumberIsPower(y);
    NumberIsPower(z);
    OperandsGroup(g, h, JustBase(BNumber(x)), [Number(x)], Const(x), JustBase(BNumber(y)), [Number(y)], Const(y),
                  JustBase(BNumber(z)), [Number(z)], Const(z));
    assert [Number(x)] + [Infix(g)] + [Number(y)] + [Infix(h)] + [Number(z)]
           == [Number(x), Infix(g), Number(y), Infix(h), Number(z)];
  }

  // ----- one operator, parentheses and commas -----

  lemma OneOperator(g: Fun2, x: int32, y: int32)
    requires IsOperator(g)
    ensures Parse([Number(x), Infix(g), Number(y)]) == Isa.Some(App2(g, Const(x), Const(y)))
  {
    hide IsList, IsBase, Descent.Parse;
    NumberIs(x);
    NumberIs(y);
    var l := BinaryIs(g, BNumber(x), [Number(x)], Const(x), BNumber(y), [Number(y)], Const(y));
    assert [Number(x)] + [SymbolOf(g)] + [Number(y)] == [Number(x), Infix(g), Number(y)];
    ParsesList(l, [Number(x), Infix(g), Number(y)], App2(g, Const(x), Const(y)));
  }

  /** The operation in parentheses, as an operand. */
  lemma InParentheses(g: Fun2, x: int32, y: int32) returns (b: Base)
    requires IsOperator(g)
    ensures IsBase(b, [Open, Number(x), Infix(g), Number(y), Close], App2(g, Const(x), Const(y)))
  {
    hide IsList, IsBase;
    NumberIs(x);
    NumberIs(y);
    var l := BinaryIs(g, BNumber(x), [Number(x)], Const(x), BNumber(y), [Number(y)], Const(y));
    ParenIs(l, [Number(x)] + [SymbolOf(g)] + [Number(y)], App2(g, Const(x), Const(y)));
    assert [Open] + ([Number(x)] + [SymbolOf(g)] + [Number(y)]) + [Close]
           == [Open, Number(x), Infix(g), Number(y), Close];
    b := BParen(l);
  }

  /** Parentheses group whatever the operators are. */
  lemma ParenthesesGroup(g: Fun2, h: Fun2, x: int32, y: int32, z: int32)
    requires IsOperator(g) && IsOperator(h)
    ensures Parse([Number(x), Infix(g), Open, Number(y), Infix(h), Number(z), Close])
            == Isa.Some(App2(g, Const(x), App2(h, Const(y), Const(z))))
    ensures Parse([Open, Number(x), Infix(g), Number(y), Close, Infix(h), Number(z)])
            == Isa.Some(App2(h, App2(g, Const(x), Const(y)), Const(z)))
  {
    hide IsBase, IsList, Descent.Parse;
    var yz, xy := [Open, Number(y), Infix(h), Number(z), Close], [Open, Number(x), Infix(g), Number(y), Close];
    var right, left := App2(g, Const(x), App2(h, Const(y), Const(z))), App2(h, App2(g, Const(x), Const(y)), Const(z));
    NumberIs(x);
    NumberIs(z);
    var b := InParentheses(h, y, z);
    var l := BinaryIs(g, BNumber(x), [Number(x)], Const(x), b, yz, right.b);
    ParsesList(l, [Number(x)] + [SymbolOf(g)] + yz, right);
    assert [Number(x)] + [SymbolOf(g)] + yz == [Number(x), Infix(g), Open, Number(y), Infix(h), Number(z), Close];
    var b' := InParentheses(g, x, y);
    var l' := BinaryIs(h, b', xy, left.a, BNumber(z), [Number(z)], Const(z));
    ParsesList(l', xy + [SymbolOf(h)] + [Number(z)], left);
    assert xy + [SymbolOf(h)] + [Number(z)] == [Open, Number(x), Infix(g), Number(y), Close, Infix(h), Number(z)];
  }

  /** The values of a list: the last one, if all are defined. */
  lemma ListValue(a: Expr, b: Expr, env: seq<int32>)
    ensures Eval(App2(Comma, a, b), env) == if Eval(a, env).None? then Isa.None else Eval(b, env)
  {
  }

  /** Commas go from left to right. */
  lemma CommasGroup(x: int32, y: int32, z: int32)
    ensures Parse([Number(x), Sep, Number(y)]) == Isa.Some(App2(Comma, Const(x), Const(y)))
    ensures Parse([Number(x), Sep, Number(y), Sep, Number(z)])
            == Isa.Some(App2(Comma, App2(Comma, Const(x), Const(y)), Const(z)))
  {
    hide IsBase, IsPower, IsTerm, IsSum, IsList, Descent.Parse;
    NumberIs(x);
    NumberIs(y);
    NumberIsPower(z);
    JustPowerIs(JustBase(BNumber(z)), [Number(z)], Const(z));
    JustTermIs(JustPower(JustBase(BNumber(z))), [Number(z)], Const(z));
    var two := App2(Comma, Const(x), Const(y));
    var l := BinaryIs(Comma, BNumber(x), [Number(x)], Const(x), BNumber(y), [Number(y)], Const(y));
    assert [Number(x)] + [SymbolOf(Comma)] + [Number(y)] == [Number(x), Sep, Number(y)];
    ParsesList(l, [Number(x), Sep, Number(y)], two);
    var last := JustTerm(JustPower(JustBase(BNumber(z))));
    ListWithIs(l, [Number(x), Sep, Number(y)], two, last, [Number(z)], Const(z));
    assert [Number(x), Sep, Number(y)] + [Sep] + [Number(z)] == [Number(x), Sep, Number(y), Sep, Number(z)];
    ParsesList(ListWith(l, last), [Number(x), Sep, Number(y), Sep, Number(z)], App2(Comma, two, Const(z)));
  }

  // ----- what may stand before an operand -----

  /** A power with nothing after it, or something that does not continue it, decides. */
  lemma PowerDecides(s: seq<Sym>)
    requires match ParsePower(s, 1, false) case Fail => true case Done(_, rest) => rest == [] || rest[0].Number?
    ensures Parse(s).Some? <==> ParsePower(s, 1, false).Done? && ParsePower(s, 1, false).rest == []
  {
    hide ParsePower;
    var r := ParsePower(s, 1, false);
    assert ParseTerm(s) == r;
    assert ParseSum(s) == r;
    assert ParseList(s) == r;
  }

  /** Only +, -, ~, low and high may stand before an operand. */
  lemma MayPrecede(s: Sym, x: int32)
    ensures Parse([s, Number(x)]).Some?
            <==> s in [Infix(Fun2.Add), Infix(Fun2.Sub), Tilde, Function(LowOf), Function(HighOf)]
  {
    hide Descent.Parse;
    var text, last := [s, Number(x)], [Number(x)];
    assert text[1..] == last && last[1..] == [];
    assert ParseBase(last) == Done(Const(x), []);
    assert ParsePower(last, 1, false) == Done(Const(x), []);
    assert ParsePower(last, -1, false) == Done(App1(Negate, Const(x)), []);
    assert ParsePower(last, 1, true) == Done(App1(Not, Const(x)), []);
    match s
    case Function(f) =>
      assert ParseBase(text) == if Pure(f) then Fail else Done(App1(f, Const(x)), []);
      PowerDecides(text);
    case _ => PowerDecides(text);
  }

  // ----- errors stick -----

  lemma {:induction false} BaseHasNoError(b: Base)
    requires BaseOk(b)
    ensures Sym.Error !in BaseYield(b)
    decreases b
  {
    match b
    case BNumber(_) =>
    case BVariable(_) =>
    case BCall(_, arg) => PowerHasNoError(arg);
    case BParen(l) => ListHasNoError(l);
  }

  lemma {:induction false} PowerHasNoError(p: Power)
    requires PowerOk(p)
    ensures Sym.Error !in PowerYield(p)
    decreases p
  {
    BaseHasNoError(p.base);
  }

  lemma {:induction false} TermHasNoError(t: Term)
    requires TermOk(t)
    ensures Sym.Error !in TermYield(t)
    decreases t
  {
    PowerHasNoError(t.first);
    PowersHaveNoError(t.more);
  }

  lemma {:induction false} PowersHaveNoError(ps: Powers)
    requires PowersOk(ps)
    ensures Sym.Error !in PowersYield(ps)
    decreases ps
  {
    if ps.MorePower? {
      PowerHasNoError(ps.p);
      PowersHaveNoError(ps.more);
    }
  }

  lemma {:induction false} SumHasNoError(u: Sum)
    requires SumOk(u)
    ensures Sym.Error !in SumYield(u)
    decreases u
  {
    TermHasNoError(u.first);
    TermsHaveNoError(u.more);
  }

  lemma {:induction false} TermsHaveNoError(ts: Terms)
    requires TermsOk(ts)
    ensures Sym.Error !in TermsYield(ts)
    decreases ts
  {
    if ts.MoreTerm? {
      TermHasNoError(ts.t);
      TermsHaveNoError(ts.more);
    }
  }

  lemma {:induction false} ListHasNoError(l: List)
    requires ListOk(l)
    ensures Sym.Error !in ListYield(l)
    decreases l
  {
    SumHasNoError(l.first);
    SumsHaveNoError(l.more);
  }

  lemma {:induction false} SumsHaveNoError(ss: Sums)
    requires SumsOk(ss)
    ensures Sym.Error !in SumsYield(ss)
    decreases ss
  {
    if ss.MoreSum? {
      SumHasNoError(ss.s);
      SumsHaveNoError(ss.more);
    }
  }

  /** No string with an error symbol is accepted, wherever it stands. */
  lemma ErrorsStick(s: seq<Sym>)
    requires Sym.Error in s
    ensures Parse(s) == Isa.None
  {
    if Parse(s).Some? {
      ParserDecidesGrammar(s, Parse(s).value);
      var l :| ListOk(l) && ListYield(l) == s && ListTree(l) == Parse(s).value;
      ListHasNoError(l);
    }
  }

  lemma {:induction false} LexAt(text: seq<Token>, table: seq<Equate>, k: nat)
    requires k < |text|
    ensures |Lex(text, table)| == |text| && Lex(text, table)[k] == Classify(text[k], table)
  {
    hide Classify;
    if k > 0 {
      LexAt(text[1..], table, k - 1);
    } else if |text| > 1 {
      LexAt(text[1..], table, 0);
    }
  }

  /** A character that is no symbol, or a name that is neither in the table nor low or high, is an error anywhere. */
  lemma UnknownIsInvalid(text: seq<Token>, table: seq<Equate>, k: nat)
    requires k < |text| && TSep !in text[..k]
    requires text[k].TBad? || (text[k].TName? && text[k].s != "low" && text[k].s != "high"
                               && forall i :: 0 <= i < |table| ==> table[i].key != text[k].s)
    ensures Meaning(text, table) == Invalid
  {
    assert text == text[..k] + ([text[k]] + text[k + 1..]);
    CutLater(text[..k], [text[k]] + text[k + 1..]);
    if text[k].TName? { FindIsFirst(table, text[k].s); }
    LexAt(Cut(text), table, k);
    ErrorsStick(Lex(Cut(text), table));
  }
}
