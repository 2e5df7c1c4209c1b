/** What the nine binary operators compute, from the text of an expression to its value. */
module Operators {
  import opened Words
  import Isa
  import opened TinyExpr
  import opened Grammar
  import Descent
  import opened Symbols
  import opened Parser
  import opened Precedence
  import opened Prefixes

  /** A number, an operator and a number, as written. */
  function Written(x: int32, g: Fun2, y: int32): seq<Token> { [TNumber(x), TInfix(g), TNumber(y)] }

  lemma WrittenApplies(x: int32, g: Fun2, y: int32, table: seq<Equate>)
    requires IsOperator(g)
    ensures ValueOf(Written(x, g, y), table) == Apply2(g, x, y)
    ensures Meaning(Written(x, g, y), table)
            == if Apply2(g, x, y).Some? then Known(Trunc16(Apply2(g, x, y).value)) else Crash
  {
    hide Apply2, Descent.Parse, Trunc16;
    var text := Written(x, g, y);
    assert text[1..] == [TInfix(g), TNumber(y)] && text[1..][1..] == [TNumber(y)] && text[1..][1..][1..] == [];
    assert Lex([TNumber(y)], table) == [Number(y)];
    assert Lex([TInfix(g), TNumber(y)], table) == [Infix(g), Number(y)];
    assert Lex(text, table) == [Number(x), Infix(g), Number(y)];
    CutWhole(text);
    OneOperator(g, x, y);
    var e, env := App2(g, Const(x), Const(y)), Values(table);
    assert Eval(e.a, env) == Isa.Some(x) && Eval(e.b, env) == Isa.Some(y);
  }

  lemma UnaryApplies(t: Token, x: int32, table: seq<Equate>)
    requires t == TTilde || t == TInfix(Add) || t == TInfix(Sub)
    ensures ValueOf([t, TNumber(x)], table) == Eval(WithPrefix([Classify(t, table)], Const(x)), Values(table))
  {
    hide Descent.Parse, WithPrefix, Eval;
    var text := [t, TNumber(x)];
    assert text[1..] == [TNumber(x)] && text[1..][1..] == [];
    assert Lex([TNumber(x)], table) == [Number(x)];
    assert Lex(text, table) == [Classify(t, table)] + [Number(x)];
    PrefixParses([Classify(t, table)], x);
  }

  /** ~ flips all bits, + changes nothing, and - negates, which is undefined for -2^31 only. */
  lemma UnariesAreExact(x: int32, table: seq<Equate>)
    ensures ValueOf([TTilde, TNumber(x)], table) == Isa.Some(-1 - x)
    ensures ValueOf([TInfix(Add), TNumber(x)], table) == Isa.Some(x)
    ensures ValueOf([TInfix(Sub), TNumber(x)], table) == if x == -0x8000_0000 then Isa.None else Isa.Some(-x)
  {
    hide ValueOf;
    UnaryApplies(TTilde, x, table);
    UnaryApplies(TInfix(Add), x, table);
    UnaryApplies(TInfix(Sub), x, table);
    assert Eval(Const(x), Values(table)) == Isa.Some(x);
    assert Count([Tilde], Infix(Sub)) == 0 && Count([Infix(Add)], Infix(Sub)) == 0;
    assert Count([Infix(Sub)], Infix(Sub)) == 1;
  }

  /** Sums, differences and products are exact where they fit into 32 bits, and undefined elsewhere. */
  lemma SumsAreExact(x: int32, y: int32, table: seq<Equate>)
    ensures var v := ValueOf(Written(x, Add, y), table);
            (v.Some? <==> -0x8000_0000 <= x + y < 0x8000_0000) && (v.Some? ==> v.value == x + y)
    ensures var v := ValueOf(Written(x, Sub, y), table);
            (v.Some? <==> -0x8000_0000 <= x - y < 0x8000_0000) && (v.Some? ==> v.value == x - y)
    ensures var v := ValueOf(Written(x, Mul, y), table);
            (v.Some? <==> -0x8000_0000 <= x * y < 0x8000_0000) && (v.Some? ==> v.value == x * y)
  {
    hide Written, ValueOf, Meaning;
    WrittenApplies(x, Add, y, table);
    WrittenApplies(x, Sub, y, table);
    WrittenApplies(x, Mul, y, table);
  }

  /** q is x / y rounded towards zero. */
  predicate Truncates(q: int, x: int, y: int)
    requires y != 0
  {
    var r, size := x - q * y, if y < 0 then -y else y;
    -size < r < size && (r == 0 || (r < 0 <==> x < 0))
  }

  lemma QuotientTruncates(x: int, y: int)
    requires y != 0
    ensures Truncates(Quotient(x, y), x, y)
  {
    var m, n := if x < 0 then -x else x, if y < 0 then -y else y;
    var q := m / n;
    assert 0 <= m - q * n < n;
    assert Quotient(x, y) * y == if x < 0 then -(q * n) else q * n by {
      if (x < 0) == (y < 0) { assert y == n || y == -n; } else { assert -q * y == -(q * y); }
    }
  }

  /** Quotients are rounded towards zero; they are undefined for the divisor 0, and where the quotient is 2^31. */
  lemma QuotientsTruncate(x: int32, y: int32, table: seq<Equate>)
    ensures var v := ValueOf(Written(x, Div, y), table);
            && (v.Some? <==> y != 0 && !(x == -0x8000_0000 && y == -1))
            && (v.Some? ==> Truncates(v.value, x, y))
  {
    hide Written, ValueOf, Meaning, Quotient;
    WrittenApplies(x, Div, y, table);
    if y != 0 {
      QuotientTruncates(x, y);
      QuotientFits(x, y, Quotient(x, y));
    }
  }

  lemma QuotientFits(x: int32, y: int32, q: int)
    requires y != 0 && Truncates(q, x, y)
    ensures -0x8000_0000 <= q < 0x8000_0000 <==> !(x == -0x8000_0000 && y == -1)
  {
  }

  // ----- 32-bit vectors as numbers -----

  function AsNumber(v: bv32): int { v as int }

  /** The vector without its lowest bit, and with one bit more. */
  function Upper(v: bv32): bv32 { v >> 1 }

  function Longer(v: bv32, low: bool): bv32 { if low then (v << 1) | 1 else v << 1 }

  predicate Odd(v: bv32) { v & 1 != 0 }

  lemma EvenNumber(v: bv32)
    requires v < 0x8000_0000
    ensures AsNumber(v << 1) == 2 * AsNumber(v)
  {
  }

  lemma OddNumber(v: bv32)
    requires v < 0x8000_0000
    ensures AsNumber((v << 1) | 1) == 2 * AsNumber(v) + 1
  {
  }

  lemma LongerNumber(v: bv32, low: bool)
    requires v < 0x8000_0000
    ensures AsNumber(Longer(v, low)) == 2 * AsNumber(v) + if low then 1 else 0
  {
    hide AsNumber;
    if low { OddNumber(v); } else { EvenNumber(v); }
  }

  lemma TopBitSet(v: bv32)
    requires v >= 0x8000_0000
    ensures AsNumber(v) >= 0x8000_0000
  {
  }

  lemma Rejoined(v: bv32)
    ensures Upper(v) < 0x8000_0000 && v == Longer(Upper(v), Odd(v))
  {
  }

  lemma UpperNumber(v: bv32)
    ensures AsNumber(Upper(v)) == AsNumber(v) / 2 && Odd(v) == (AsNumber(v) % 2 == 1)
  {
    hide AsNumber, Upper, Odd, Longer;
    Rejoined(v);
    LongerNumber(Upper(v), Odd(v));
  }

  /** The vector of a number, built bit by bit. */
  function Vector(u: nat): bv32 {
    if u == 0 then 0 else Longer(Vector(u / 2), u % 2 == 1)
  }

  lemma ZeroNumber()
    ensures AsNumber(0) == 0
  {
  }

  lemma {:induction false} VectorNumber(u: nat)
    requires u < 0x1_0000_0000
    ensures AsNumber(Vector(u)) == u
  {
    hide AsNumber, Longer;
    if u == 0 {
      ZeroNumber();
    } else {
      VectorNumber(u / 2);
      var v := Vector(u / 2);
      if v >= 0x8000_0000 { TopBitSet(v); }
      LongerNumber(v, u % 2 == 1);
    }
  }

  lemma BackAgain(v: bv32)
    ensures AsNumber(v) as bv32 == v
  {
  }

  function Pattern(u: uint32): bv32 { u as bv32 }

  /** A number survives the trip through a vector. */
  lemma RoundTrip(u: uint32)
    ensures AsNumber(Pattern(u)) == u
  {
    hide AsNumber;
    VectorNumber(u);
    BackAgain(Vector(u));
  }

  // ----- bits -----

  /** Bit k of a number in two's complement: division rounds down for negative numbers too. */
  function BitOf(x: int, k: nat): int { x / Power2(k) % 2 }

  lemma BitOfFirst(x: int)
    ensures BitOf(x, 0) == x % 2
  {
    assert Power2(0) == 1 && x / 1 == x;
  }

  lemma BitOfHalf(x: int, k: nat)
    requires k > 0
    ensures BitOf(x, k) == BitOf(x / 2, k - 1)
  {
    DivideTwice(x, Power2(k - 1));
  }

  // The three operations on vectors, and what they do to the lowest bit and to the others.

  function XorOf(v: bv32, w: bv32): bv32 { v ^ w }

  function OrOf(v: bv32, w: bv32): bv32 { v | w }

  function AndOf(v: bv32, w: bv32): bv32 { v & w }

  lemma XorParts(v: bv32, w: bv32)
    ensures Odd(XorOf(v, w)) == (Odd(v) != Odd(w)) && Upper(XorOf(v, w)) == XorOf(Upper(v), Upper(w))
  {
  }

  lemma OrParts(v: bv32, w: bv32)
    ensures Odd(OrOf(v, w)) == (Odd(v) || Odd(w)) && Upper(OrOf(v, w)) == OrOf(Upper(v), Upper(w))
  {
  }

  lemma AndParts(v: bv32, w: bv32)
    ensures Odd(AndOf(v, w)) == (Odd(v) && Odd(w)) && Upper(AndOf(v, w)) == AndOf(Upper(v), Upper(w))
  {
  }

  /** Exclusive or, or and and of two bits. */
  predicate Combined(x: int, o: int, a: int, v: int, w: int) {
    && x == (if v == w then 0 else 1) && o == (if v + w == 0 then 0 else 1) && a == (if v + w == 2 then 1 else 0)
  }

  lemma {:induction false} VectorBits(v: bv32, w: bv32, k: nat)
    ensures Combined(BitOf(AsNumber(XorOf(v, w)), k), BitOf(AsNumber(OrOf(v, w)), k), BitOf(AsNumber(AndOf(v, w)), k),
                     BitOf(AsNumber(v), k), BitOf(AsNumber(w), k))
    decreases k
  {
    hide AsNumber, BitOf, Upper, Odd, XorOf, OrOf, AndOf;
    var x, o, a := XorOf(v, w), OrOf(v, w), AndOf(v, w);
    XorParts(v, w);
    OrParts(v, w);
    AndParts(v, w);
    UpperNumber(v);
    UpperNumber(w);
    UpperNumber(x);
    UpperNumber(o);
    UpperNumber(a);
    if k == 0 {
      BitOfFirst(AsNumber(v));
      BitOfFirst(AsNumber(w));
      BitOfFirst(AsNumber(x));
      BitOfFirst(AsNumber(o));
      BitOfFirst(AsNumber(a));
    } else {
      hide Combined;
      VectorBits(Upper(v), Upper(w), k - 1);
      BitOfHalf(AsNumber(v), k);
      BitOfHalf(AsNumber(w), k);
      BitOfHalf(AsNumber(x), k);
      BitOfHalf(AsNumber(o), k);
      BitOfHalf(AsNumber(a), k);
    }
  }

  /** Multiples of a higher power do not touch the bit. */
  lemma {:induction false} BitOfSum(x: int, n: int, j: nat, k: nat)
    requires k < j
    ensures BitOf(x + n * Power2(j), k) == BitOf(x, k)
    decreases k
  {
    hide BitOf;
    var m := n * Power2(j - 1);
    assert n * Power2(j) == 2 * m by { assert Power2(j) == 2 * Power2(j - 1); }
    if k == 0 {
      BitOfFirst(x);
      BitOfFirst(x + 2 * m);
    } else {
      BitOfHalf(x, k);
      BitOfHalf(x + 2 * m, k);
      BitOfSum(x / 2, n, j - 1, k - 1);
    }
  }

  lemma {:induction false} PowerSum(i: nat, j: nat)
    ensures Power2(i + j) == Power2(i) * Power2(j)
  {
    if i > 0 { PowerSum(i - 1, j); }
  }

  lemma PowerOf1()
    ensures Power2(1) == 2
  {
  }

  lemma PowerOf32()
    ensures Power2(32) == 0x1_0000_0000
  {
    hide Power2;
    PowerOf1();
    PowerSum(1, 1);
    PowerSum(2, 2);
    PowerSum(4, 4);
    PowerSum(8, 8);
    PowerSum(16, 16);
  }

  lemma Signless(x: int32, u: uint32)
    ensures Unsigned(x) == x + (if x < 0 then 1 else 0) * 0x1_0000_0000
    ensures ToInt(u) == u + (if u < 0x8000_0000 then 0 else -1) * 0x1_0000_0000
  {
  }

  /** Taking a number without its sign, and a pattern with it, keeps the 32 bits. */
  lemma BitsKept(x: int32, u: uint32, k: nat)
    requires k < 32
    ensures BitOf(Unsigned(x), k) == BitOf(x, k) && BitOf(ToInt(u), k) == BitOf(u, k)
  {
    hide BitOf, Unsigned, ToInt, Power2;
    PowerOf32();
    Signless(x, u);
    BitOfSum(x, if x < 0 then 1 else 0, 32, k);
    BitOfSum(u, if u < 0x8000_0000 then 0 else -1, 32, k);
  }

  /** What ^, | and & leave in a bit is that operation on the two bits, in two's complement on 32 bits. */
  lemma BitsCombine(x: int32, y: int32, k: nat, table: seq<Equate>)
    requires k < 32
    ensures var xor, or, and := ValueOf(Written(x, Xor, y), table), ValueOf(Written(x, Fun2.Or, y), table),
                                ValueOf(Written(x, Fun2.And, y), table);
            && xor.Some? && or.Some? && and.Some?
            && Combined(BitOf(xor.value, k), BitOf(or.value, k), BitOf(and.value, k), BitOf(x, k), BitOf(y, k))
  {
    hide Written, ValueOf, Meaning, BitOf, Combined, Unsigned, ToInt;
    WrittenApplies(x, Xor, y, table);
    WrittenApplies(x, Fun2.Or, y, table);
    WrittenApplies(x, Fun2.And, y, table);
    VectorsCombine(x, y, k);
  }

  lemma PatternsApply(x: int32, y: int32)
    ensures Apply2(Xor, x, y) == Isa.Some(ToInt(AsNumber(XorOf(Pattern(Unsigned(x)), Pattern(Unsigned(y))))))
    ensures Apply2(Fun2.Or, x, y) == Isa.Some(ToInt(AsNumber(OrOf(Pattern(Unsigned(x)), Pattern(Unsigned(y))))))
    ensures Apply2(Fun2.And, x, y) == Isa.Some(ToInt(AsNumber(AndOf(Pattern(Unsigned(x)), Pattern(Unsigned(y))))))
  {
    hide ToInt, Unsigned;
  }

  lemma VectorsCombine(x: int32, y: int32, k: nat)
    requires k < 32
    ensures var xor, or, and := Apply2(Xor, x, y), Apply2(Fun2.Or, x, y), Apply2(Fun2.And, x, y);
            && xor.Some? && or.Some? && and.Some?
            && Combined(BitOf(xor.value, k), BitOf(or.value, k), BitOf(and.value, k), BitOf(x, k), BitOf(y, k))
  {
    hide BitOf, Combined, Unsigned, ToInt, Apply2, AsNumber, Pattern, XorOf, OrOf, AndOf;
    var v, w := Pattern(Unsigned(x)), Pattern(Unsigned(y));
    PatternsApply(x, y);
    RoundTrip(Unsigned(x));
    RoundTrip(Unsigned(y));
    VectorBits(v, w, k);
    NumberBounds(XorOf(v, w));
    NumberBounds(OrOf(v, w));
    NumberBounds(AndOf(v, w));
    BitsKept(x, AsNumber(XorOf(v, w)), k);
    BitsKept(y, AsNumber(OrOf(v, w)), k);
    BitsKept(y, AsNumber(AndOf(v, w)), k);
  }

  lemma NumberBounds(v: bv32)
    ensures 0 <= AsNumber(v) < 0x1_0000_0000
  {
  }

  /** Shifts multiply and divide the pattern of 32 bits by a power of two, for counts of 0 to 31. */
  lemma ShiftsMultiply(x: int32, y: int32, table: seq<Equate>)
    ensures var v := ValueOf(Written(x, Shl, y), table);
            && (v.Some? <==> 0 <= y < 32)
            && (v.Some? ==> (v.value - x * Power2(y)) % 0x1_0000_0000 == 0)
    ensures var v := ValueOf(Written(x, Shr, y), table);
            && (v.Some? <==> 0 <= y < 32)
            && (v.Some? ==> v.value % 0x1_0000_0000 == x % 0x1_0000_0000 / Power2(y))
  {
    hide Written, ValueOf, Meaning, Power2;
    WrittenApplies(x, Shl, y, table);
    WrittenApplies(x, Shr, y, table);
    if 0 <= y < 32 {
      LeftCongruent(x, Power2(y));
      RightCongruent(x, Power2(y));
    }
  }

  lemma Congruent(u: int, a: int, k: int)
    requires u == a + k * 0x1_0000_0000
    ensures (ToInt(u) - a) % 0x1_0000_0000 == 0
  {
  }

  lemma LeftCongruent(x: int32, m: nat)
    ensures (ToInt(Unsigned(x) * m) - x * m) % 0x1_0000_0000 == 0
  {
    hide ToInt;
    var k := if x < 0 then 1 else 0;
    assert Unsigned(x) == x + k * 0x1_0000_0000;
    assert Unsigned(x) * m == x * m + k * m * 0x1_0000_0000;
    Congruent(Unsigned(x) * m, x * m, k * m);
  }

  lemma NoLarger(u: int, m: int)
    requires u >= 0 && m > 0
    ensures 0 <= u / m <= u
  {
    assert u == u / m * m + u % m;
    AtLeast(u / m, m);
  }

  lemma AtLeast(q: int, m: int)
    requires m > 0
    ensures q >= 0 ==> q * m >= q
    ensures q < 0 ==> q * m <= -m
  {
  }

  lemma PatternKept(u: uint32)
    ensures ToInt(u) % 0x1_0000_0000 == u
  {
  }

  lemma RightCongruent(x: int32, m: nat)
    requires m > 0
    ensures ToInt(Unsigned(x) / m) % 0x1_0000_0000 == x % 0x1_0000_0000 / m
  {
    hide ToInt;
    NoLarger(Unsigned(x), m);
    PatternKept(Unsigned(x) / m);
  }

  /** An operand takes 16 bits of the value; without one the source is not accepted. */
  lemma WordOfValue(x: int32, g: Fun2, y: int32, table: seq<Equate>)
    requires IsOperator(g)
    ensures Meaning(Written(x, g, y), table)
            == match ValueOf(Written(x, g, y), table) case None => Crash case Some(v) => Known(v % 0x1_0000)
  {
    hide Written, ValueOf, Meaning, Apply2;
    WrittenApplies(x, g, y, table);
  }
}
