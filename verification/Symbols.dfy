/** Tokens, the symbol table, and what a name stands for: the first entry, or else a function. */
module Symbols {
  import opened Isa
  import opened TinyExpr
  import opened Grammar

  /** A lexed token; names are not yet looked up. */
  datatype Token =
    | TNumber(v: int32) | TName(s: string) | TInfix(g: Fun2) | TTilde | TOpen | TClose | TSep | TBad

  /** An entry of the symbol table: a .equ, or a label and its address. */
  datatype Equate = Equate(key: string, value: int32)

  /** The position of the first entry with the name. */
  function Find(table: seq<Equate>, s: string): Option<nat> {
    if table == [] then None
    else if table[0].key == s then Some(0)
    else match Find(table[1..], s)
      case None => None
      case Some(i) => Some(i + 1)
  }

  lemma {:induction false} FindIsFirst(table: seq<Equate>, s: string)
    ensures match Find(table, s)
            case None => forall i :: 0 <= i < |table| ==> table[i].key != s
            case Some(k) => k < |table| && table[k].key == s && forall i :: 0 <= i < k ==> table[i].key != s
  {
    if table != [] { FindIsFirst(table[1..], s); }
  }

  function Builtin(s: string): Sym {
    if s == "high" then Sym.Function(HighOf) else if s == "low" then Sym.Function(LowOf) else Sym.Error
  }

  function Classify(t: Token, table: seq<Equate>): Sym {
    match t
    case TNumber(v) => Number(v)
    case TName(s) => (match Find(table, s) case None => Builtin(s) case Some(i) => Variable(i))
    case TInfix(g) => Infix(g)
    case TTilde => Tilde
    case TOpen => Open
    case TClose => Close
    case TSep => Sep
    case TBad => Sym.Error
  }

  function Lex(text: seq<Token>, table: seq<Equate>): seq<Sym> {
    if text == [] then [] else [Classify(text[0], table)] + Lex(text[1..], table)
  }

  lemma {:induction false} LexAppend(text: seq<Token>, more: seq<Token>, table: seq<Equate>)
    ensures Lex(text + more, table) == Lex(text, table) + Lex(more, table)
  {
    if text == [] {
      assert text + more == more;
    } else {
      assert (text + more)[1..] == text[1..] + more;
      LexAppend(text[1..], more, table);
    }
  }

  function Values(table: seq<Equate>): seq<int32> {
    if table == [] then [] else [table[0].value] + Values(table[1..])
  }
}
