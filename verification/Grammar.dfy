/**
 The grammar of expressions, as concrete syntax trees with the symbols they stand for and the
 expression they mean. It follows the grammar comments of the parser functions, with the
 operators that each of them really accepts.
 */
module Grammar {
  import opened TinyExpr

  /** The kinds of tokens, after names have been looked up. Tilde is the operator that is only a prefix. */
  datatype Sym =
    | Number(v: int32) | Variable(i: nat) | Function(f: Fun1) | Infix(g: Fun2) | Tilde
    | Open | Close | Sep | Error

  predicate IsPrefix(s: Sym) { s.Tilde? || s == Infix(Add) || s == Infix(Sub) }

  predicate IsTermOp(g: Fun2) { g.Mul? || g.Div? }

  predicate IsExprOp(g: Fun2) { g.Add? || g.Sub? || g.Shl? || g.Shr? || g.Xor? || g.Or? || g.And? }

  // ----- concrete syntax -----

  /** base = number | variable | function power | "(" list ")" */
  datatype Base = BNumber(v: int32) | BVariable(i: nat) | BCall(f: Fun1, arg: Power) | BParen(l: List)

  /** power = { "-" | "+" | "~" } base */
  datatype Power = Power(prefix: seq<Sym>, base: Base)

  /** term = power { ("*" | "/") power } */
  datatype Term = Term(first: Power, more: Powers)
  datatype Powers = NoPower | MorePower(g: Fun2, p: Power, more: Powers)

  /** expr = term { ("+" | "-" | "<<" | ">>" | "^" | "|" | "&") term } */
  datatype Sum = Sum(first: Term, more: Terms)
  datatype Terms = NoTerm | MoreTerm(g: Fun2, t: Term, more: Terms)

  /** list = expr { "," expr } */
  datatype List = List(first: Sum, more: Sums)
  datatype Sums = NoSum | MoreSum(s: Sum, more: Sums)

  // ----- the symbols of a tree -----

  function BaseYield(b: Base): seq<Sym> {
    match b
    case BNumber(v) => [Number(v)]
    case BVariable(i) => [Variable(i)]
    case BCall(f, arg) => [Function(f)] + PowerYield(arg)
    case BParen(l) => [Open] + ListYield(l) + [Close]
  }

  function PowerYield(p: Power): seq<Sym> { p.prefix + BaseYield(p.base) }

  function TermYield(t: Term): seq<Sym> { PowerYield(t.first) + PowersYield(t.more) }

  function PowersYield(ps: Powers): seq<Sym> {
    match ps
    case NoPower => []
    case MorePower(g, p, more) => [Infix(g)] + PowerYield(p) + PowersYield(more)
  }

  function SumYield(s: Sum): seq<Sym> { TermYield(s.first) + TermsYield(s.more) }

  function TermsYield(ts: Terms): seq<Sym> {
    match ts
    case NoTerm => []
    case MoreTerm(g, t, more) => [Infix(g)] + TermYield(t) + TermsYield(more)
  }

  function ListYield(l: List): seq<Sym> { SumYield(l.first) + SumsYield(l.more) }

  function SumsYield(ss: Sums): seq<Sym> {
    match ss
    case NoSum => []
    case MoreSum(s, more) => [Sep] + SumYield(s) + SumsYield(more)
  }

  // ----- the operators allowed at each level -----

  predicate BaseOk(b: Base) {
    match b
    case BCall(f, arg) => !Pure(f) && PowerOk(arg)
    case BParen(l) => ListOk(l)
    case _ => true
  }

  predicate PowerOk(p: Power) { (forall k :: 0 <= k < |p.prefix| ==> IsPrefix(p.prefix[k])) && BaseOk(p.base) }

  predicate TermOk(t: Term) { PowerOk(t.first) && PowersOk(t.more) }

  predicate PowersOk(ps: Powers) { ps.NoPower? || (IsTermOp(ps.g) && PowerOk(ps.p) && PowersOk(ps.more)) }

  predicate SumOk(s: Sum) { TermOk(s.first) && TermsOk(s.more) }

  predicate TermsOk(ts: Terms) { ts.NoTerm? || (IsExprOp(ts.g) && TermOk(ts.t) && TermsOk(ts.more)) }

  predicate ListOk(l: List) { SumOk(l.first) && SumsOk(l.more) }

  predicate SumsOk(ss: Sums) { ss.NoSum? || (SumOk(ss.s) && SumsOk(ss.more)) }

  // ----- what a tree means: operators of one level associate to the left -----

  function BaseTree(b: Base): Expr {
    match b
    case BNumber(v) => Const(v)
    case BVariable(i) => Var(i)
    case BCall(f, arg) => App1(f, PowerTree(arg))
    case BParen(l) => ListTree(l)
  }

  function Count(s: seq<Sym>, x: Sym): nat { if s == [] then 0 else (if s[0] == x then 1 else 0) + Count(s[1..], x) }

  /** An odd number of minuses negates, and hides any tildes; otherwise tildes count once. */
  function WithPrefix(prefix: seq<Sym>, e: Expr): Expr {
    if Count(prefix, Infix(Sub)) % 2 == 1 then App1(Negate, e)
    else if Tilde in prefix then App1(Not, e)
    else e
  }

  function PowerTree(p: Power): Expr { WithPrefix(p.prefix, BaseTree(p.base)) }

  function TermTree(t: Term): Expr { PowersTree(PowerTree(t.first), t.more) }

  function PowersTree(left: Expr, ps: Powers): Expr
    decreases ps
  {
    match ps
    case NoPower => left
    case MorePower(g, p, more) => PowersTree(App2(g, left, PowerTree(p)), more)
  }

  function SumTree(s: Sum): Expr { TermsTree(TermTree(s.first), s.more) }

  function TermsTree(left: Expr, ts: Terms): Expr
    decreases ts
  {
    match ts
    case NoTerm => left
    case MoreTerm(g, t, more) => TermsTree(App2(g, left, TermTree(t)), more)
  }

  function ListTree(l: List): Expr { SumsTree(SumTree(l.first), l.more) }

  function SumsTree(left: Expr, ss: Sums): Expr
    decreases ss
  {
    match ss
    case NoSum => left
    case MoreSum(s, more) => SumsTree(App2(Comma, left, SumTree(s)), more)
  }

  /** The expression derives the symbols. */
  ghost predicate Derives(symbols: seq<Sym>, e: Expr) {
    exists l: List :: ListOk(l) && ListYield(l) == symbols && ListTree(l) == e
  }
}
