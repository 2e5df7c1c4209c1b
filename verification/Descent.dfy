/**
 The recursive descent as functions of the remaining symbols. An error in the source is a
 sticky token after which nothing more is read; here it is the result Fail.
 */
module Descent {
  import Isa
  import opened TinyExpr
  import opened Grammar

  datatype Parsed = Done(e: Expr, rest: seq<Sym>) | Fail

  function ParseBase(s: seq<Sym>): (r: Parsed)
    ensures r.Done? ==> |r.rest| < |s|
    decreases |s|, 0
  {
    if s == [] then Fail
    else
      match s[0]
      case Number(v) => Done(Const(v), s[1..])
      case Variable(i) => Done(Var(i), s[1..])
      case Function(f) =>
        if Pure(f) then Fail
        else (
          match ParsePower(s[1..], 1, false)
          case Fail => Fail
          case Done(e, rest) => Done(App1(f, e), rest)
        )
      case Open =>
        (match ParseList(s[1..])
         case Fail => Fail
         case Done(e, rest) => if rest != [] && rest[0] == Close then Done(e, rest[1..]) else Fail)
      case _ => Fail
  }

  /** sign is 1 or -1 by the number of minuses so far, and bnot tells of a tilde. */
  function ParsePower(s: seq<Sym>, sign: int, bnot: bool): (r: Parsed)
    ensures r.Done? ==> |r.rest| < |s|
    decreases |s|, 1
  {
    if s != [] && IsPrefix(s[0]) then
      ParsePower(s[1..], if s[0] == Infix(Sub) then -sign else sign, bnot || s[0] == Tilde)
    else
      match ParseBase(s)
      case Fail => Fail
      case Done(e, rest) => Done(Wrap(sign, bnot, e), rest)
  }

  function Wrap(sign: int, bnot: bool, e: Expr): Expr {
    if sign != 1 then App1(Negate, e) else if bnot then App1(Not, e) else e
  }

  function ParseTerm(s: seq<Sym>): (r: Parsed)
    ensures r.Done? ==> |r.rest| < |s|
    decreases |s|, 2
  {
    match ParsePower(s, 1, false)
    case Fail => Fail
    case Done(e, rest) => ParsePowers(e, rest)
  }

  function ParsePowers(left: Expr, s: seq<Sym>): (r: Parsed)
    ensures r.Done? ==> |r.rest| <= |s|
    decreases |s|, 2
  {
    if s != [] && s[0].Infix? && IsTermOp(s[0].g) then
      match ParsePower(s[1..], 1, false)
      case Fail => Fail
      case Done(e, rest) => ParsePowers(App2(s[0].g, left, e), rest)
    else Done(left, s)
  }

  function ParseSum(s: seq<Sym>): (r: Parsed)
    ensures r.Done? ==> |r.rest| < |s|
    decreases |s|, 3
  {
    match ParseTerm(s)
    case Fail => Fail
    case Done(e, rest) => ParseTerms(e, rest)
  }

  function ParseTerms(left: Expr, s: seq<Sym>): (r: Parsed)
    ensures r.Done? ==> |r.rest| <= |s|
    decreases |s|, 3
  {
    if s != [] && s[0].Infix? && IsExprOp(s[0].g) then
      match ParseTerm(s[1..])
      case Fail => Fail
      case Done(e, rest) => ParseTerms(App2(s[0].g, left, e), rest)
    else Done(left, s)
  }

  function ParseList(s: seq<Sym>): (r: Parsed)
    ensures r.Done? ==> |r.rest| < |s|
    decreases |s|, 4
  {
    match ParseSum(s)
    case Fail => Fail
    case Done(e, rest) => ParseSums(e, rest)
  }

  function ParseSums(left: Expr, s: seq<Sym>): (r: Parsed)
    ensures r.Done? ==> |r.rest| <= |s|
    decreases |s|, 4
  {
    if s != [] && s[0].Sep? then
      match ParseSum(s[1..])
      case Fail => Fail
      case Done(e, rest) => ParseSums(App2(Comma, left, e), rest)
    else Done(left, s)
  }

  /** te_compile before folding: the list must use up all symbols. */
  function Parse(s: seq<Sym>): Isa.Option<Expr> {
    match ParseList(s)
    case Fail => Isa.None
    case Done(e, rest) => if rest == [] then Isa.Some(e) else Isa.None
  }

  // ----- completeness -----

  lemma {:induction false} BaseComplete(b: Base, rest: seq<Sym>)
    requires BaseOk(b)
    ensures ParseBase(BaseYield(b) + rest) == Done(BaseTree(b), rest)
    decreases b
  {
    var s := BaseYield(b) + rest;
    match b
    case BNumber(_) =>
    case BVariable(_) =>
    case BCall(_, arg) =>
      assert s[1..] == PowerYield(arg) + rest;
      PowerComplete(arg, rest);
    case BParen(l) =>
      assert s[1..] == ListYield(l) + ([Close] + rest);
      ListComplete(l, [Close] + rest);
  }

  lemma {:induction false} PowerComplete(p: Power, rest: seq<Sym>)
    requires PowerOk(p)
    ensures ParsePower(PowerYield(p) + rest, 1, false) == Done(PowerTree(p), rest)
    decreases p
  {
    BaseComplete(p.base, rest);
    PrefixComplete(p.prefix, p.base, rest, 1, false);
    assert PowerYield(p) + rest == p.prefix + (BaseYield(p.base) + rest);
  }

  /** The sign after more prefix symbols. */
  function SignAfter(prefix: seq<Sym>, sign: int): int {
    if Count(prefix, Infix(Sub)) % 2 == 1 then -sign else sign
  }

  lemma OneMorePrefix(prefix: seq<Sym>, sign: int, bnot: bool)
    requires prefix != []
    ensures SignAfter(prefix, sign) == SignAfter(prefix[1..], if prefix[0] == Infix(Sub) then -sign else sign)
    ensures (bnot || Tilde in prefix) == (bnot || prefix[0] == Tilde || Tilde in prefix[1..])
  {
  }

  lemma {:induction false} PrefixComplete(prefix: seq<Sym>, b: Base, rest: seq<Sym>, sign: int, bnot: bool)
    requires forall k :: 0 <= k < |prefix| ==> IsPrefix(prefix[k])
    requires ParseBase(BaseYield(b) + rest) == Done(BaseTree(b), rest)
    ensures ParsePower(prefix + (BaseYield(b) + rest), sign, bnot)
            == Done(Wrap(SignAfter(prefix, sign), bnot || Tilde in prefix, BaseTree(b)), rest)
    decreases prefix
  {
    hide Wrap, SignAfter;
    var tail := BaseYield(b) + rest;
    var s := prefix + tail;
    if prefix == [] {
      NoPrefix(sign);
      assert s == tail && !IsPrefix(tail[0]);
    } else {
      assert s[0] == prefix[0] && s[1..] == prefix[1..] + tail;
      OneMorePrefix(prefix, sign, bnot);
      PrefixComplete(prefix[1..], b, rest, if s[0] == Infix(Sub) then -sign else sign, bnot || s[0] == Tilde);
    }
  }

  lemma NoPrefix(sign: int)
    ensures SignAfter([], sign) == sign
  {
  }

  /** What may follow a term, an expression and a list without continuing it. */
  predicate EndsTerm(s: seq<Sym>) { s == [] || !(s[0].Infix? && IsTermOp(s[0].g)) }

  predicate EndsSum(s: seq<Sym>) { EndsTerm(s) && (s == [] || !(s[0].Infix? && IsExprOp(s[0].g))) }

  predicate EndsList(s: seq<Sym>) { EndsSum(s) && (s == [] || !s[0].Sep?) }

  lemma {:induction false} TermComplete(t: Term, rest: seq<Sym>)
    requires TermOk(t) && EndsTerm(rest)
    ensures ParseTerm(TermYield(t) + rest) == Done(TermTree(t), rest)
    decreases t
  {
    assert TermYield(t) + rest == PowerYield(t.first) + (PowersYield(t.more) + rest);
    PowerComplete(t.first, PowersYield(t.more) + rest);
    PowersComplete(PowerTree(t.first), t.more, rest);
  }

  lemma {:induction false} PowersComplete(left: Expr, ps: Powers, rest: seq<Sym>)
    requires PowersOk(ps) && EndsTerm(rest)
    ensures ParsePowers(left, PowersYield(ps) + rest) == Done(PowersTree(left, ps), rest)
    decreases ps
  {
    var s := PowersYield(ps) + rest;
    match ps
    case NoPower => assert s == rest;
    case MorePower(g, p, more) =>
      assert s[1..] == PowerYield(p) + (PowersYield(more) + rest);
      PowerComplete(p, PowersYield(more) + rest);
      PowersComplete(App2(g, left, PowerTree(p)), more, rest);
  }

  lemma {:induction false} SumComplete(u: Sum, rest: seq<Sym>)
    requires SumOk(u) && EndsSum(rest)
    ensures ParseSum(SumYield(u) + rest) == Done(SumTree(u), rest)
    decreases u
  {
    assert SumYield(u) + rest == TermYield(u.first) + (TermsYield(u.more) + rest);
    TermComplete(u.first, TermsYield(u.more) + rest);
    TermsComplete(TermTree(u.first), u.more, rest);
  }

  lemma {:induction false} TermsComplete(left: Expr, ts: Terms, rest: seq<Sym>)
    requires TermsOk(ts) && EndsSum(rest)
    ensures ParseTerms(left, TermsYield(ts) + rest) == Done(TermsTree(left, ts), rest)
    decreases ts
  {
    var s := TermsYield(ts) + rest;
    match ts
    case NoTerm => assert s == rest;
    case MoreTerm(g, t, more) =>
      assert s[1..] == TermYield(t) + (TermsYield(more) + rest);
      TermComplete(t, TermsYield(more) + rest);
      TermsComplete(App2(g, left, TermTree(t)), more, rest);
  }

  lemma {:induction false} ListComplete(l: List, rest: seq<Sym>)
    requires ListOk(l) && EndsList(rest)
    ensures ParseList(ListYield(l) + rest) == Done(ListTree(l), rest)
    decreases l
  {
    assert ListYield(l) + rest == SumYield(l.first) + (SumsYield(l.more) + rest);
    SumComplete(l.first, SumsYield(l.more) + rest);
    SumsComplete(SumTree(l.first), l.more, rest);
  }

  lemma {:induction false} SumsComplete(left: Expr, ss: Sums, rest: seq<Sym>)
    requires SumsOk(ss) && EndsList(rest)
    ensures ParseSums(left, SumsYield(ss) + rest) == Done(SumsTree(left, ss), rest)
    decreases ss
  {
    var s := SumsYield(ss) + rest;
    match ss
    case NoSum => assert s == rest;
    case MoreSum(u, more) =>
      assert s[1..] == SumYield(u) + (SumsYield(more) + rest);
      SumComplete(u, SumsYield(more) + rest);
      SumsComplete(App2(Comma, left, SumTree(u)), more, rest);
  }

  // ----- soundness: a syntax tree for whatever was accepted -----

  /** Two pieces read one after the other. */
  lemma ReadTwo(s: seq<Sym>, p: seq<Sym>, q: seq<Sym>, mid: seq<Sym>, rest: seq<Sym>)
    requires p + mid == s && q + rest == mid
    ensures (p + q) + rest == s
  {
  }

  /** A symbol and two pieces. */
  lemma ReadThree(s: seq<Sym>, p: seq<Sym>, q: seq<Sym>, mid: seq<Sym>, rest: seq<Sym>)
    requires s != [] && p + mid == s[1..] && q + rest == mid
    ensures ([s[0]] + p + q) + rest == s
  {
    assert s == [s[0]] + s[1..];
  }

  lemma {:induction false} BaseSound(s: seq<Sym>) returns (b: Base)
    requires ParseBase(s).Done?
    ensures BaseOk(b) && BaseYield(b) + ParseBase(s).rest == s && BaseTree(b) == ParseBase(s).e
    decreases |s|, 0
  {
    match s[0]
    case Number(v) => b := BNumber(v);
    case Variable(i) => b := BVariable(i);
    case Function(f) =>
      var p := PowerSound(s[1..]);
      b := BCall(f, p);
    case Open =>
      var l := ListSound(s[1..]);
      b := BParen(l);
  }

  lemma {:induction false} PowerSound(s: seq<Sym>) returns (p: Power)
    requires ParsePower(s, 1, false).Done?
    ensures PowerOk(p) && PowerYield(p) + ParsePower(s, 1, false).rest == s
    ensures PowerTree(p) == ParsePower(s, 1, false).e
    decreases |s|, 2
  {
    p := PrefixSound(s, 1, false);
  }

  lemma {:induction false} PrefixSound(s: seq<Sym>, sign: int, bnot: bool) returns (p: Power)
    requires ParsePower(s, sign, bnot).Done?
    ensures PowerOk(p) && PowerYield(p) + ParsePower(s, sign, bnot).rest == s
    ensures ParsePower(s, sign, bnot).e == Wrap(SignAfter(p.prefix, sign), bnot || Tilde in p.prefix, BaseTree(p.base))
    decreases |s|, 1
  {
    hide Wrap, SignAfter;
    if IsPrefix(s[0]) {
      var q := PrefixSound(s[1..], if s[0] == Infix(Sub) then -sign else sign, bnot || s[0] == Tilde);
      p := Power([s[0]] + q.prefix, q.base);
      OneMorePrefix(p.prefix, sign, bnot);
      ReadPrefix(s, q, ParsePower(s, sign, bnot).rest);
    } else {
      var b := BaseSound(s);
      p := Power([], b);
      NoPrefix(sign);
    }
  }

  lemma ReadPrefix(s: seq<Sym>, q: Power, rest: seq<Sym>)
    requires s != [] && PowerYield(q) + rest == s[1..]
    ensures PowerYield(Power([s[0]] + q.prefix, q.base)) + rest == s
  {
    assert s == [s[0]] + s[1..];
  }

  lemma {:induction false} TermSound(s: seq<Sym>) returns (t: Term)
    requires ParseTerm(s).Done?
    ensures TermOk(t) && TermYield(t) + ParseTerm(s).rest == s && TermTree(t) == ParseTerm(s).e
    decreases |s|, 3
  {
    var p := PowerSound(s);
    var more := PowersSound(PowerTree(p), ParsePower(s, 1, false).rest);
    t := Term(p, more);
    ReadTwo(s, PowerYield(p), PowersYield(more), ParsePower(s, 1, false).rest, ParseTerm(s).rest);
  }

  lemma {:induction false} PowersSound(left: Expr, s: seq<Sym>) returns (ps: Powers)
    requires ParsePowers(left, s).Done?
    ensures PowersOk(ps) && PowersYield(ps) + ParsePowers(left, s).rest == s
    ensures PowersTree(left, ps) == ParsePowers(left, s).e
    decreases |s|, 3
  {
    if s != [] && s[0].Infix? && IsTermOp(s[0].g) {
      var p := PowerSound(s[1..]);
      var more := PowersSound(App2(s[0].g, left, PowerTree(p)), ParsePower(s[1..], 1, false).rest);
      ps := MorePower(s[0].g, p, more);
      ReadThree(s, PowerYield(p), PowersYield(more), ParsePower(s[1..], 1, false).rest, ParsePowers(left, s).rest);
    } else {
      ps := NoPower;
    }
  }

  lemma {:induction false} SumSound(s: seq<Sym>) returns (u: Sum)
    requires ParseSum(s).Done?
    ensures SumOk(u) && SumYield(u) + ParseSum(s).rest == s && SumTree(u) == ParseSum(s).e
    decreases |s|, 4
  {
    var t := TermSound(s);
    var more := TermsSound(TermTree(t), ParseTerm(s).rest);
    u := Sum(t, more);
    ReadTwo(s, TermYield(t), TermsYield(more), ParseTerm(s).rest, ParseSum(s).rest);
  }

  lemma {:induction false} TermsSound(left: Expr, s: seq<Sym>) returns (ts: Terms)
    requires ParseTerms(left, s).Done?
    ensures TermsOk(ts) && TermsYield(ts) + ParseTerms(left, s).rest == s
    ensures TermsTree(left, ts) == ParseTerms(left, s).e
    decreases |s|, 4
  {
    if s != [] && s[0].Infix? && IsExprOp(s[0].g) {
      var t := TermSound(s[1..]);
      var more := TermsSound(App2(s[0].g, left, TermTree(t)), ParseTerm(s[1..]).rest);
      ts := MoreTerm(s[0].g, t, more);
      ReadThree(s, TermYield(t), TermsYield(more), ParseTerm(s[1..]).rest, ParseTerms(left, s).rest);
    } else {
      ts := NoTerm;
    }
  }

  lemma {:induction false} ListSound(s: seq<Sym>) returns (l: List)
    requires ParseList(s).Done?
    ensures ListOk(l) && ListYield(l) + ParseList(s).rest == s && ListTree(l) == ParseList(s).e
    decreases |s|, 5
  {
    var u := SumSound(s);
    var more := SumsSound(SumTree(u), ParseSum(s).rest);
    l := List(u, more);
    ReadTwo(s, SumYield(u), SumsYield(more), ParseSum(s).rest, ParseList(s).rest);
  }

  lemma {:induction false} SumsSound(left: Expr, s: seq<Sym>) returns (ss: Sums)
    requires ParseSums(left, s).Done?
    ensures SumsOk(ss) && SumsYield(ss) + ParseSums(left, s).rest == s
    ensures SumsTree(left, ss) == ParseSums(left, s).e
    decreases |s|, 5
  {
    if s != [] && s[0].Sep? {
      var u := SumSound(s[1..]);
      var more := SumsSound(App2(Comma, left, SumTree(u)), ParseSum(s[1..]).rest);
      ss := MoreSum(u, more);
      ReadThree(s, SumYield(u), SumsYield(more), ParseSum(s[1..]).rest, ParseSums(left, s).rest);
    } else {
      ss := NoSum;
    }
  }

  // ----- the parser decides the grammar -----

  /** The symbols are accepted with a tree exactly when the grammar derives them with that tree. */
  lemma ParserDecidesGrammar(s: seq<Sym>, e: Expr)
    ensures Parse(s) == Isa.Some(e) <==> Derives(s, e)
  {
    if Parse(s) == Isa.Some(e) {
      var l := ListSound(s);
      assert ListYield(l) + [] == ListYield(l);
    }
    if Derives(s, e) {
      var l :| ListOk(l) && ListYield(l) == s && ListTree(l) == e;
      ListComplete(l, []);
      assert ListYield(l) + [] == s;
    }
  }

  /** The grammar is unambiguous: one string of symbols has one meaning. */
  lemma GrammarUnambiguous(s: seq<Sym>, e: Expr, e': Expr)
    requires Derives(s, e) && Derives(s, e')
    ensures e == e'
  {
    ParserDecidesGrammar(s, e);
    ParserDecidesGrammar(s, e');
  }
}
