/** What the prefix operators of an expression mean when they are applied one after the other. */
module Prefixes {
  import Isa
  import opened TinyExpr
  import opened Grammar
  import opened Descent
  import opened Printer

  /** Any number of + - and ~ in any order. */
  predicate Signs(prefix: seq<Sym>) {
    forall k :: 0 <= k < |prefix| ==> prefix[k] == Infix(Add) || prefix[k] == Infix(Sub) || prefix[k] == Tilde
  }

  /** Every operator applied in turn, the innermost first. */
  function Applied(prefix: seq<Sym>, x: int): int {
    if prefix == [] then x
    else
      var y := Applied(prefix[1..], x);
      if prefix[0] == Infix(Sub) then -y else if prefix[0].Tilde? then -1 - y else y
  }

  /** The value of the prefix and a number, as parsed. */
  function AsParsed(prefix: seq<Sym>, x: int32): Isa.Option<int32> {
    match Parse(prefix + [Number(x)])
    case None => Isa.None
    case Some(e) => Eval(e, [])
  }

  predicate Agrees(prefix: seq<Sym>, x: int32) {
    AsParsed(prefix, x).Some? && AsParsed(prefix, x).value == Applied(prefix, x)
  }

  /** Tildes with an even number of minuses and tildes before them, less those with an odd number. */
  function Balance(prefix: seq<Sym>): int {
    if prefix == [] then 0
    else
      var b := Balance(prefix[1..]);
      if prefix[0].Tilde? then 1 - b else if prefix[0] == Infix(Sub) then -b else b
  }

  /**
   The parser keeps the meaning of a prefix: its tildes cancel out, or they amount to one. The balance is what
   the prefix takes from 0 (AppliedIs), so that it says no less than the meaning at one operand.
   */
  predicate Kept(prefix: seq<Sym>) {
    var minuses, tildes := Count(prefix, Infix(Sub)), Count(prefix, Tilde);
    if minuses % 2 == 1 then tildes % 2 == 0 && Balance(prefix) == 0
    else tildes == 0 || (tildes % 2 == 1 && Balance(prefix) == 1)
  }

  lemma {:induction false} AppliedIs(prefix: seq<Sym>, x: int)
    requires Signs(prefix)
    ensures var odd := (Count(prefix, Infix(Sub)) + Count(prefix, Tilde)) % 2 == 1;
            Applied(prefix, x) == (if odd then -x else x) - Balance(prefix)
  {
    if prefix != [] { AppliedIs(prefix[1..], x); }
  }

  lemma {:induction false} TildeCounted(prefix: seq<Sym>)
    ensures Tilde in prefix <==> Count(prefix, Tilde) > 0
    ensures Count(prefix, Tilde) == 0 ==> Balance(prefix) == 0
  {
    if prefix != [] { TildeCounted(prefix[1..]); }
  }

  lemma PrefixParses(prefix: seq<Sym>, x: int32)
    requires Signs(prefix)
    ensures Parse(prefix + [Number(x)]) == Isa.Some(WithPrefix(prefix, Const(x)))
  {
    hide IsTerm, IsSum, IsList, Descent.Parse, WithPrefix;
    var p, s, e := Power(prefix, BNumber(x)), prefix + [Number(x)], WithPrefix(prefix, Const(x));
    assert PowerOk(p) && BaseYield(p.base) == [Number(x)] && BaseTree(p.base) == Const(x);
    JustPowerIs(p, s, e);
    JustTermIs(JustPower(p), s, e);
    JustSumIs(JustTerm(JustPower(p)), s, e);
    ParsesList(JustSum(JustTerm(JustPower(p))), s, e);
  }

  lemma AsParsedIs(prefix: seq<Sym>, x: int32)
    requires Signs(prefix) && x != -0x8000_0000
    ensures AsParsed(prefix, x)
            == Isa.Some(if Count(prefix, Infix(Sub)) % 2 == 1 then -x else if Tilde in prefix then -1 - x else x)
  {
    hide Descent.Parse, Count;
    PrefixParses(prefix, x);
    assert Eval(Const(x), []) == Isa.Some(x);
    assert Eval(App1(Negate, Const(x)), []) == Isa.Some(-x) && Eval(App1(Not, Const(x)), []) == Isa.Some(-1 - x);
  }

  /** A prefix means for all operands what its operators mean one by one, exactly if it is kept. */
  lemma PrefixKept(prefix: seq<Sym>)
    requires Signs(prefix)
    ensures Kept(prefix)
            <==> forall x: int32 :: x != -0x8000_0000 ==> Agrees(prefix, x)
  {
    hide Applied, AsParsed, Balance, Count;
    TildeCounted(prefix);
    forall x: int32 | x != -0x8000_0000
      ensures Kept(prefix) ==> Agrees(prefix, x)
    {
      AsParsedIs(prefix, x);
      AppliedIs(prefix, x);
    }
    if forall x: int32 :: x != -0x8000_0000 ==> Agrees(prefix, x) {
      var zero: int32, one: int32 := 0, 1;
      assert Agrees(prefix, zero) && Agrees(prefix, one);
      AsParsedIs(prefix, 0);
      AsParsedIs(prefix, 1);
      AppliedIs(prefix, 0);
      AppliedIs(prefix, 1);
    }
  }

  /** -~5 should be 6 and is -5, because an odd number of minuses drops the tilde. */
  lemma TildeDropped()
    ensures AsParsed([Infix(Sub), Tilde], 5) == Isa.Some(-5) && Applied([Infix(Sub), Tilde], 5) == 6
  {
    var prefix := [Infix(Sub), Tilde];
    assert prefix[1..] == [Sym.Tilde] && prefix[1..][1..] == [];
    assert Count(prefix[1..], Infix(Sub)) == 0;
    assert Count(prefix, Infix(Sub)) == 1;
    AsParsedIs(prefix, 5);
    assert Applied([], 5) == 5;
    assert Applied(prefix[1..], 5) == -6;
  }

  /** Without a tilde a prefix is always kept. */
  lemma MinusesKept(prefix: seq<Sym>)
    requires Tilde !in prefix
    ensures Kept(prefix)
  {
    TildeCounted(prefix);
  }

  lemma {:induction false} OneTilde(prefix: seq<Sym>)
    ensures Count(prefix, Tilde) == 0 ==> Balance(prefix) == 0
    ensures Count(prefix, Tilde) == 1 ==> Balance(prefix) == 1 || Balance(prefix) == -1
  {
    if prefix != [] { OneTilde(prefix[1..]); }
  }

  /** With one tilde and an odd number of minuses it never is. */
  lemma OneTildeLost(prefix: seq<Sym>)
    requires Count(prefix, Tilde) == 1 && Count(prefix, Infix(Sub)) % 2 == 1
    ensures !Kept(prefix)
  {
    OneTilde(prefix);
  }

  /** A single tilde among an even number of minuses is kept exactly if an even number of them stands before it. */
  lemma OneTildeKept(before: seq<Sym>, after: seq<Sym>)
    requires Signs(before) && Tilde !in before
    requires Signs(after) && Tilde !in after
    requires Count(before + [Tilde] + after, Infix(Sub)) % 2 == 0
    ensures Kept(before + [Tilde] + after) <==> Count(before, Infix(Sub)) % 2 == 0
  {
    OneTildeCount(before, after);
  }

  lemma {:induction false} OneTildeCount(before: seq<Sym>, after: seq<Sym>)
    requires Signs(before) && Tilde !in before
    requires Tilde !in after
    ensures Count(before + [Tilde] + after, Tilde) == 1
    ensures Balance(before + [Tilde] + after) == if Count(before, Infix(Sub)) % 2 == 0 then 1 else -1
  {
    var all := before + [Tilde] + after;
    if before == [] {
      assert all[1..] == after;
      TildeCounted(after);
      assert Tilde !in after;
    } else {
      assert all[1..] == before[1..] + [Tilde] + after;
      OneTildeCount(before[1..], after);
    }
  }
}
