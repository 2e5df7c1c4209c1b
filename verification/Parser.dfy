/** te_compile and get_expr as they run: a cursor over the tokens that the parser functions move. */
module Parser {
  import opened Words
  import opened Isa
  import opened TinyExpr
  import opened Grammar
  import opened Descent
  import opened Symbols

  class State {
    const text: seq<Token>
    const lookup: seq<Equate>
    var next: nat
    /** The current symbol; None at the end of the text. */
    var typ: Option<Sym>

    ghost predicate Valid()
      reads this
    {
      next <= |text| && (typ.None? ==> next == |text|)
    }

    ghost function Rest(): seq<Sym>
      requires Valid()
      reads this
    {
      if typ.None? then [] else [typ.value] + Lex(text[next..], lookup)
    }

    /** How much is left to read; nothing after an error. */
    ghost function Left(): nat
      requires Valid()
      reads this
    {
      if typ == Some(Sym.Error) then 0 else 1 + |Rest()|
    }

    /** What a parser function leaves: its tree and the rest, or the error token. */
    ghost predicate Leaves(p: Parsed, e: Expr)
      reads this
    {
      Valid() && match p
        case Fail => typ == Some(Sym.Error)
        case Done(e', rest) => e == e' && Rest() == rest
    }

    constructor (text: seq<Token>, lookup: seq<Equate>)
      ensures Valid() && Rest() == Lex(text, lookup) && this.text == text && this.lookup == lookup
    {
      this.text, this.lookup := text, lookup;
      next, typ := 0, None;
      new;
      if |text| > 0 {
        typ := Some(Classify(text[0], lookup));
        next := 1;
      }
    }

    /** find_lookup */
    method FindLookup(s: string) returns (found: Option<nat>)
      ensures found == Find(lookup, s)
    {
      var i := 0;
      while i < |lookup|
        invariant i <= |lookup|
        invariant Find(lookup, s) == match Find(lookup[i..], s) case None => None case Some(k) => Some(k + i)
      {
        if lookup[i].key == s { return Some(i); }
        assert lookup[i..][1..] == lookup[i + 1..];
        i := i + 1;
      }
      found := None;
    }

    method NextToken()
      requires Valid() && typ.Some?
      modifies this
      ensures Valid() && Rest() == old(Rest())[1..]
    {
      if next == |text| {
        typ := None;
        return;
      }
      var t := text[next];
      match t {
        case TName(s) =>
          var found := FindLookup(s);
          typ := Some(if found.Some? then Variable(found.value) else Builtin(s));
        case _ => typ := Some(Classify(t, lookup));
      }
      assert text[next..][1..] == text[next + 1..];
      next := next + 1;
    }

    method ParseBase() returns (ret: Expr)
      requires Valid()
      modifies this
      ensures Leaves(Descent.ParseBase(old(Rest())), ret)
      decreases |Rest()|, 0
    {
      ret := Const(0);
      if typ.None? {
        typ, next := Some(Sym.Error), |text|;
        return;
      }
      match typ.value {
        case Number(v) =>
          ret := Const(v);
          NextToken();
        case Variable(i) =>
          ret := Var(i);
          NextToken();
        case Function(f) =>
          if Pure(f) {
            typ := Some(Sym.Error);
            return;
          }
          NextToken();
          var arg := ParsePower();
          ret := App1(f, arg);
        case Open =>
          NextToken();
          ret := ParseList();
          if typ != Some(Close) { typ := Some(Sym.Error); } else { NextToken(); }
        case _ => typ := Some(Sym.Error);
      }
    }

    /** power, and factor too: its loop waits for an operator that is never lexed. */
    method ParsePower() returns (ret: Expr)
      requires Valid()
      modifies this
      ensures Leaves(Descent.ParsePower(old(Rest()), 1, false), ret)
      decreases |Rest()|, 1
    {
      hide Descent.ParseBase, Descent.ParseTerm, Lex, Classify;
      var sign, bnot := 1, false;
      while typ.Some? && IsPrefix(typ.value)
        invariant Valid() && |Rest()| <= |old(Rest())|
        invariant Descent.ParsePower(Rest(), sign, bnot) == Descent.ParsePower(old(Rest()), 1, false)
        decreases |Rest()|
      {
        if typ.value == Infix(Fun2.Sub) { sign := -sign; }
        if typ.value == Tilde { bnot := true; }
        NextToken();
      }
      ret := ParseBase();
      if sign == 1 {
        if bnot { ret := App1(Not, ret); }
      } else {
        ret := App1(Negate, ret);
      }
    }

    method ParseTerm() returns (ret: Expr)
      requires Valid()
      modifies this
      ensures Leaves(Descent.ParseTerm(old(Rest())), ret)
      decreases |Rest()|, 2
    {
      ghost var start := Rest();
      ret := ParsePower();
      while typ.Some? && typ.value.Infix? && IsTermOp(typ.value.g)
        invariant Valid()
        invariant (typ == Some(Sym.Error) && Descent.ParseTerm(start) == Fail)
               || (|Rest()| < |start| && ParsePowers(ret, Rest()) == Descent.ParseTerm(start))
        decreases Left()
      {
        var g := typ.value.g;
        NextToken();
        var right := ParsePower();
        ret := App2(g, ret, right);
      }
    }

    method ParseSum() returns (ret: Expr)
      requires Valid()
      modifies this
      ensures Leaves(Descent.ParseSum(old(Rest())), ret)
      decreases |Rest()|, 3
    {
      ghost var start := Rest();
      ret := ParseTerm();
      while typ.Some? && typ.value.Infix? && IsExprOp(typ.value.g)
        invariant Valid()
        invariant (typ == Some(Sym.Error) && Descent.ParseSum(start) == Fail)
               || (|Rest()| < |start| && ParseTerms(ret, Rest()) == Descent.ParseSum(start))
        decreases Left()
      {
        var g := typ.value.g;
        NextToken();
        var right := ParseTerm();
        ret := App2(g, ret, right);
      }
    }

    method ParseList() returns (ret: Expr)
      requires Valid()
      modifies this
      ensures Leaves(Descent.ParseList(old(Rest())), ret)
      decreases |Rest()|, 4
    {
      ghost var start := Rest();
      ret := ParseSum();
      while typ == Some(Sep)
        invariant Valid()
        invariant (typ == Some(Sym.Error) && Descent.ParseList(start) == Fail)
               || (|Rest()| < |start| && ParseSums(ret, Rest()) == Descent.ParseList(start))
        decreases Left()
      {
        NextToken();
        var right := ParseSum();
        ret := App2(Comma, ret, right);
      }
    }
  }

  /** te_compile: a folded tree, a syntax error, or a crash of the folder. */
  datatype Compiled = Tree(e: Expr) | SyntaxError | Undefined

  function CompileSymbols(symbols: seq<Sym>): Compiled {
    match Parse(symbols)
    case None => SyntaxError
    case Some(e) => (match Fold(e) case None => Undefined case Some(e') => Tree(e'))
  }

  method TeCompile(text: seq<Token>, lookup: seq<Equate>) returns (c: Compiled)
    ensures c == CompileSymbols(Lex(text, lookup))
  {
    var s := new State(text, lookup);
    var root := s.ParseList();
    if s.typ.Some? { return SyntaxError; }
    var folded := Fold(root);
    c := if folded.Some? then Tree(folded.value) else Undefined;
  }

  /** get_expr: the value as a 16-bit word. */
  datatype Value = Known(w: word) | Invalid | Crash

  /** get_expr takes the text up to its first comma, even within parentheses. */
  function Cut(text: seq<Token>): seq<Token> {
    if text == [] || text[0].TSep? then [] else [text[0]] + Cut(text[1..])
  }

  /** The value of the text: its parse, evaluated without folding on the values of the table. */
  function Meaning(text: seq<Token>, table: seq<Equate>): Value {
    match Parse(Lex(Cut(text), table))
    case None => Invalid
    case Some(e) => (match Eval(e, Values(table)) case None => Crash case Some(v) => Known(Trunc16(v)))
  }

  method GetExpr(text: seq<Token>, equates: seq<Equate>) returns (val: Value)
    ensures val == Meaning(text, equates)
  {
    var exprstr: seq<Token> := [];
    var i := 0;
    while i < |text| && !text[i].TSep?
      invariant i <= |text| && Cut(text) == exprstr + Cut(text[i..])
    {
      assert text[i..][1..] == text[i + 1..];
      exprstr := exprstr + [text[i]];
      i := i + 1;
    }
    assert Cut(text) == exprstr;
    var bvars: seq<int32> := [];
    i := 0;
    while i < |equates|
      invariant i <= |equates| && bvars == Values(equates[..i])
    {
      bvars := bvars + [equates[i].value];
      ValuesSnoc(equates[..i], equates[i]);
      assert equates[..i + 1] == equates[..i] + [equates[i]];
      i := i + 1;
    }
    assert equates[..i] == equates;
    var n := TeCompile(exprstr, equates);
    match n {
      case SyntaxError => val := Invalid;
      case Undefined =>
        FoldPreserves(Parse(Lex(exprstr, equates)).value, bvars);
        val := Crash;
      case Tree(e) =>
        FoldPreserves(Parse(Lex(exprstr, equates)).value, bvars);
        var v := Eval(e, bvars);
        val := if v.Some? then Known(Trunc16(v.value)) else Crash;
    }
  }

  lemma {:induction false} CutWhole(text: seq<Token>)
    requires TSep !in text
    ensures Cut(text) == text
  {
    if text != [] {
      assert text[0] in text && forall t :: t in text[1..] ==> t in text;
      CutWhole(text[1..]);
    }
  }

  lemma {:induction false} CutLater(text: seq<Token>, more: seq<Token>)
    requires TSep !in text
    ensures Cut(text + more) == text + Cut(more)
  {
    if text == [] {
      assert text + more == more;
    } else {
      assert text[0] in text && forall t :: t in text[1..] ==> t in text;
      assert (text + more)[0] == text[0] && (text + more)[1..] == text[1..] + more;
      CutLater(text[1..], more);
    }
  }

  lemma {:induction false} CutEarlier(text: seq<Token>, more: seq<Token>)
    requires TSep in text
    ensures Cut(text + more) == Cut(text)
  {
    assert (text + more)[0] == text[0];
    if !text[0].TSep? {
      assert (text + more)[1..] == text[1..] + more;
      CutEarlier(text[1..], more);
    }
  }

  lemma {:induction false} ValuesSnoc(table: seq<Equate>, q: Equate)
    ensures Values(table + [q]) == Values(table) + [q.value]
  {
    if table != [] {
      assert (table + [q])[1..] == table[1..] + [q];
      ValuesSnoc(table[1..], q);
    }
  }

  /** The value of the expression before get_expr truncates it. */
  function ValueOf(e: seq<Token>, table: seq<Equate>): Option<int32> {
    match Parse(Lex(e, table))
    case None => None
    case Some(t) => Eval(t, Values(table))
  }

  lemma ValueKnown(e: seq<Token>, table: seq<Equate>)
    requires ValueOf(e, table).Some? && TSep !in e
    ensures Meaning(e, table) == Known(Trunc16(ValueOf(e, table).value))
  {
    hide Lex, Values, Eval, Trunc16;
    CutWhole(e);
  }
}
