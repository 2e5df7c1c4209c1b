/**
 Carry chains over byte vectors of any length. Between two instructions of a chain a program may load
 and store, and so reuse its registers, as long as it hands on the carry.
 */
module Vectors {
  import opened Words
  import opened Isa
  import opened Arithmetic
  import opened Chains

  /** One instruction of a chain: its registers, and the state in which it is executed. */
  datatype Digit = Digit(d: RegNo, r: RegNo, c: Core)

  function After(k: Kind, t: Digit): Core { Effect(Link(k, t.d, t.r), t.c) }

  /** The bytes found in the destination registers, as a number, the least significant first. */
  function LeftNum(ts: seq<Digit>): nat {
    if ts == [] then 0 else ts[0].c.reg[ts[0].d] as int + 0x100 * LeftNum(ts[1..])
  }

  /** Those found in the source registers. */
  function RightNum(ts: seq<Digit>): nat {
    if ts == [] then 0 else ts[0].c.reg[ts[0].r] as int + 0x100 * RightNum(ts[1..])
  }

  /** Those that the chain leaves in the destination registers. */
  function ResultNum(k: Kind, ts: seq<Digit>): nat {
    hide Effect;
    if ts == [] then 0 else After(k, ts[0]).reg[ts[0].d] as int + 0x100 * ResultNum(k, ts[1..])
  }

  /** Every instruction finds the carry that the one before it left. */
  predicate Handed(k: Kind, ts: seq<Digit>) {
    forall i :: 0 <= i < |ts| - 1 ==> CarryIn(ts[i + 1].c.sreg) == CarryIn(After(k, ts[i]).sreg)
  }

  /** The carry after the last instruction. */
  function CarryOut(k: Kind, ts: seq<Digit>): Carry
    requires ts != []
  {
    CarryIn(After(k, ts[|ts| - 1]).sreg)
  }

  lemma HandedOn(k: Kind, ts: seq<Digit>)
    requires |ts| > 1 && Handed(k, ts)
    ensures Handed(k, ts[1..]) && CarryIn(ts[1].c.sreg) == CarryIn(After(k, ts[0]).sreg)
  {
    hide After, CarryIn;
    assert CarryIn(ts[0 + 1].c.sreg) == CarryIn(After(k, ts[0]).sreg);
    var more := ts[1..];
    forall i | 0 <= i < |more| - 1 ensures CarryIn(more[i + 1].c.sreg) == CarryIn(After(k, more[i]).sreg) {
      assert more[i] == ts[i + 1] && more[i + 1] == ts[(i + 1) + 1];
    }
  }

  /** The whole vectors: the sum, the difference or the comparison, with the carry in and out. */
  lemma {:induction false} VectorChain(k: Kind, ts: seq<Digit>)
    requires ts != [] && Handed(k, ts)
    ensures ChainResult(k, LeftNum(ts), RightNum(ts), CarryIn(ts[0].c.sreg),
                        ResultNum(k, ts), CarryOut(k, ts), Pow(|ts|))
  {
    hide Effect, CarryIn, ChainResult, Link;
    var t, c1 := ts[0], After(k, ts[0]);
    LinkCorrect(k, t.c, t.d, t.r);
    if |ts| == 1 {
      ChainEmpty(k, CarryIn(c1.sreg));
      Compose(k, t.c.reg[t.d], t.c.reg[t.r], CarryIn(t.c.sreg), c1.reg[t.d], CarryIn(c1.sreg),
              0, 0, 0, CarryIn(c1.sreg), 1);
    } else {
      var more := ts[1..];
      HandedOn(k, ts);
      VectorChain(k, more);
      Compose(k, t.c.reg[t.d], t.c.reg[t.r], CarryIn(t.c.sreg), c1.reg[t.d], CarryIn(c1.sreg),
              LeftNum(more), RightNum(more), ResultNum(k, more), CarryOut(k, more), Pow(|more|));
    }
  }

  lemma {:induction false} NumsBounded(k: Kind, ts: seq<Digit>)
    ensures LeftNum(ts) < Pow(|ts|) && RightNum(ts) < Pow(|ts|) && ResultNum(k, ts) < Pow(|ts|)
  {
    hide After;
    if ts != [] { NumsBounded(k, ts[1..]); }
  }

  /** An AddWithC chain: the sum and the incoming carry modulo 256^n, with C the carry out. */
  lemma SumWithCarry(ts: seq<Digit>)
    requires ts != [] && Handed(Adding, ts)
    ensures var sum := LeftNum(ts) + RightNum(ts) + CarryIn(ts[0].c.sreg);
            && ResultNum(Adding, ts) == sum % Pow(|ts|) && (CarryOut(Adding, ts) == 1) == (sum >= Pow(|ts|))
  {
    hide After, CarryIn, Handed, CarryOut;
    VectorChain(Adding, ts);
    NumsBounded(Adding, ts);
    CarryOfSum(ResultNum(Adding, ts), CarryOut(Adding, ts), Pow(|ts|),
               LeftNum(ts) + RightNum(ts) + CarryIn(ts[0].c.sreg));
  }

  /** A SubtractWithC chain: the difference less the incoming borrow modulo 256^n, with C the borrow. */
  lemma DifferenceWithBorrow(ts: seq<Digit>)
    requires ts != [] && Handed(Subtracting, ts)
    ensures var diff := LeftNum(ts) - RightNum(ts) - CarryIn(ts[0].c.sreg);
            && ResultNum(Subtracting, ts) == diff % Pow(|ts|) && (CarryOut(Subtracting, ts) == 1) == (diff < 0)
  {
    hide After, CarryIn, Handed, CarryOut;
    VectorChain(Subtracting, ts);
    NumsBounded(Subtracting, ts);
    BorrowOfDifference(ResultNum(Subtracting, ts), CarryOut(Subtracting, ts), Pow(|ts|),
                       LeftNum(ts) - RightNum(ts) - CarryIn(ts[0].c.sreg));
  }

  /** A CompareCarry chain: C tells that the first number is smaller than the second and the incoming borrow. */
  lemma ComparisonWithBorrow(ts: seq<Digit>)
    requires ts != [] && Handed(Comparing, ts)
    ensures ResultNum(Comparing, ts) == LeftNum(ts)
    ensures (CarryOut(Comparing, ts) == 1) == (LeftNum(ts) < RightNum(ts) + CarryIn(ts[0].c.sreg))
  {
    hide After, CarryIn, Handed, CarryOut;
    VectorChain(Comparing, ts);
  }

  // ----- chains over registers are an instance -----

  /** The states of a chain that does nothing in between. */
  function DigitsOf(k: Kind, ds: seq<RegNo>, rs: seq<RegNo>, c: Core): seq<Digit>
    requires |ds| == |rs|
  {
    hide Effect;
    if ds == [] then [] else [Digit(ds[0], rs[0], c)] + DigitsOf(k, ds[1..], rs[1..], Effect(Link(k, ds[0], rs[0]), c))
  }

  lemma HandedMore(k: Kind, t: Digit, ts: seq<Digit>)
    requires Handed(k, ts) && (ts != [] ==> ts[0].c == After(k, t))
    ensures Handed(k, [t] + ts)
  {
    hide After, CarryIn;
    var all := [t] + ts;
    forall i | 0 <= i < |all| - 1 ensures CarryIn(all[i + 1].c.sreg) == CarryIn(After(k, all[i]).sreg) {
      if i > 0 { assert all[i] == ts[i - 1] && all[i + 1] == ts[(i - 1) + 1]; }
    }
  }

  /** A chain over registers that do not get into each other's way is a chain over the numbers in them. */
  lemma {:induction false} RegistersAreVectors(k: Kind, ds: seq<RegNo>, rs: seq<RegNo>, c: Core)
    requires |ds| == |rs| && (k.Comparing? || Apart(ds, rs))
    ensures var ts := DigitsOf(k, ds, rs, c);
            && |ts| == |ds| && Handed(k, ts) && (ts != [] ==> ts[0].c == c)
            && LeftNum(ts) == Num(c.reg, ds) && RightNum(ts) == Num(c.reg, rs)
            && ResultNum(k, ts) == Num(Chain(k, ds, rs, c).reg, ds)
  {
    hide Effect, Link, CarryIn, ChainResult, Apart, Handed;
    if ds == [] {
      NoDigits(k);
    } else {
      var c1 := Effect(Link(k, ds[0], rs[0]), c);
      LinkCorrect(k, c, ds[0], rs[0]);
      LinkFrame(k, ds, rs, c);
      RegistersAreVectors(k, ds[1..], rs[1..], c1);
      ChainCorrect(k, ds[1..], rs[1..], c1);
      var t, more := Digit(ds[0], rs[0], c), DigitsOf(k, ds[1..], rs[1..], c1);
      HandedMore(k, t, more);
      assert ([t] + more)[1..] == more;
      assert Chain(k, ds[1..], rs[1..], c1).reg[ds[0]] == c1.reg[ds[0]];
    }
  }

  lemma NoDigits(k: Kind)
    ensures Handed(k, [])
  {
  }

  // ----- chains that start with Add, Subtract or Compare -----

  function AfterFirst(k: Kind, t: Digit): Core { Effect(First(k, t.d, t.r), t.c) }

  /** The first instruction takes no carry; the others hand it on. */
  predicate HandedFrom(k: Kind, ts: seq<Digit>)
    requires ts != []
  {
    && Handed(k, ts[1..])
    && (|ts| > 1 ==> CarryIn(ts[1].c.sreg) == CarryIn(AfterFirst(k, ts[0]).sreg))
  }

  function WholeNum(k: Kind, ts: seq<Digit>): nat
    requires ts != []
  {
    AfterFirst(k, ts[0]).reg[ts[0].d] as int + 0x100 * ResultNum(k, ts[1..])
  }

  function WholeCarry(k: Kind, ts: seq<Digit>): Carry
    requires ts != []
  {
    if |ts| == 1 then CarryIn(AfterFirst(k, ts[0]).sreg) else CarryOut(k, ts[1..])
  }

  /** From the carry of its first instruction on, a chain is one with carry. */
  lemma RestOfChain(k: Kind, ts: seq<Digit>)
    requires ts != [] && HandedFrom(k, ts)
    ensures var mid, more := CarryIn(AfterFirst(k, ts[0]).sreg), ts[1..];
            ChainResult(k, LeftNum(more), RightNum(more), mid, ResultNum(k, more), WholeCarry(k, ts), Pow(|ts| - 1))
  {
    hide AfterFirst, After, CarryIn, ChainResult, Handed, CarryOut;
    if |ts| == 1 {
      ChainEmpty(k, CarryIn(AfterFirst(k, ts[0]).sreg));
    } else {
      VectorChain(k, ts[1..]);
    }
  }

  /** The first digit is computed as with C clear, unless a subtraction counts a stale carry. */
  lemma FirstDigit(k: Kind, t: Digit)
    requires !(k.Subtracting? && CountsStaleCarry(t.c, t.d, t.r))
    ensures var c1 := AfterFirst(k, t);
            ChainResult(k, t.c.reg[t.d], t.c.reg[t.r], 0, c1.reg[t.d], CarryIn(c1.sreg), 0x100)
  {
    hide Effect, CarryIn, ChainResult, CountsStaleCarry, Link;
    FirstIsLink(k, t.c, t.d, t.r);
    LinkCorrect(k, WithoutCarry(t.c), t.d, t.r);
  }

  lemma WholeChain(k: Kind, ts: seq<Digit>)
    requires ts != [] && HandedFrom(k, ts) && !(k.Subtracting? && CountsStaleCarry(ts[0].c, ts[0].d, ts[0].r))
    ensures ChainResult(k, LeftNum(ts), RightNum(ts), 0, WholeNum(k, ts), WholeCarry(k, ts), Pow(|ts|))
  {
    hide AfterFirst, After, CarryIn, ChainResult, CountsStaleCarry, HandedFrom, WholeCarry;
    var t, more := ts[0], ts[1..];
    var c1 := AfterFirst(k, t);
    FirstDigit(k, t);
    RestOfChain(k, ts);
    Compose(k, t.c.reg[t.d], t.c.reg[t.r], 0, c1.reg[t.d], CarryIn(c1.sreg),
            LeftNum(more), RightNum(more), ResultNum(k, more), WholeCarry(k, ts), Pow(|more|));
  }

  lemma WholeNumBounded(k: Kind, ts: seq<Digit>)
    requires ts != []
    ensures WholeNum(k, ts) < Pow(|ts|)
  {
    hide After, AfterFirst;
    NumsBounded(k, ts[1..]);
  }

  /** Add and then AddWithC over vectors of any length: the sum modulo 256^n, with C the carry out. */
  lemma VectorSum(ts: seq<Digit>)
    requires ts != [] && HandedFrom(Adding, ts)
    ensures var sum := LeftNum(ts) + RightNum(ts);
            WholeNum(Adding, ts) == sum % Pow(|ts|) && (WholeCarry(Adding, ts) == 1) == (sum >= Pow(|ts|))
  {
    hide HandedFrom, WholeCarry, WholeNum, LeftNum, RightNum;
    WholeChain(Adding, ts);
    WholeNumBounded(Adding, ts);
    CarryOfSum(WholeNum(Adding, ts), WholeCarry(Adding, ts), Pow(|ts|), LeftNum(ts) + RightNum(ts));
  }

  /** Subtract and then SubtractWithC is right exactly if Subtract does not count a stale carry. */
  lemma VectorDifference(ts: seq<Digit>)
    requires ts != [] && HandedFrom(Subtracting, ts)
    ensures var diff := LeftNum(ts) - RightNum(ts);
            WholeNum(Subtracting, ts) == diff % Pow(|ts|) && (WholeCarry(Subtracting, ts) == 1) == (diff < 0)
            <==> !CountsStaleCarry(ts[0].c, ts[0].d, ts[0].r)
  {
    hide HandedFrom, WholeCarry, WholeNum, LeftNum, RightNum, CountsStaleCarry, ChainResult;
    var x, out, p := WholeNum(Subtracting, ts), WholeCarry(Subtracting, ts), Pow(|ts|);
    var diff: int := LeftNum(ts) - RightNum(ts);
    WholeNumBounded(Subtracting, ts);
    NumsBounded(Subtracting, ts);
    if CountsStaleCarry(ts[0].c, ts[0].d, ts[0].r) {
      StaleChain(ts);
      ShortDifference(x, out, p, diff);
    } else {
      FreshDifference(ts);
      BorrowOfDifference(x, out, p, diff);
    }
  }

  lemma ShortDifference(x: nat, out: Carry, p: nat, v: int)
    requires v < p && v + p > 0 && x - p * out == v - 0x100
    ensures !(x == v % p && (out == 1) == (v < 0))
  {
    if x == v % p && (out == 1) == (v < 0) { Congruent(v, p, out); }
  }

  lemma FreshDifference(ts: seq<Digit>)
    requires ts != [] && HandedFrom(Subtracting, ts) && !CountsStaleCarry(ts[0].c, ts[0].d, ts[0].r)
    ensures WholeNum(Subtracting, ts) - Pow(|ts|) * WholeCarry(Subtracting, ts) == LeftNum(ts) - RightNum(ts)
  {
    hide HandedFrom, WholeCarry, WholeNum, LeftNum, RightNum, CountsStaleCarry, Pow;
    WholeChain(Subtracting, ts);
  }

  /** With the stale carry the difference is short by one unit of the second byte. */
  lemma StaleChain(ts: seq<Digit>)
    requires ts != [] && HandedFrom(Subtracting, ts) && CountsStaleCarry(ts[0].c, ts[0].d, ts[0].r)
    ensures WholeNum(Subtracting, ts) - Pow(|ts|) * WholeCarry(Subtracting, ts) == LeftNum(ts) - RightNum(ts) - 0x100
  {
    assert ts[0].c.reg[ts[0].d] == ts[0].c.reg[ts[0].r];
    hide Effect, CarryIn, CountsStaleCarry, HandedFrom, WholeCarry, ChainResult;
    var more := ts[1..];
    StaleDigit(ts[0].c, ts[0].d, ts[0].r);
    RestOfChain(Subtracting, ts);
    ShortByOne(LeftNum(more), RightNum(more), ResultNum(Subtracting, more), WholeCarry(Subtracting, ts), Pow(|more|));
  }

  /** Compare and then CompareCarry: C tells that the first number is smaller, for vectors of any length. */
  lemma VectorLess(ts: seq<Digit>)
    requires ts != [] && HandedFrom(Comparing, ts)
    ensures (WholeCarry(Comparing, ts) == 1) == (LeftNum(ts) < RightNum(ts))
  {
    hide HandedFrom, WholeCarry, WholeNum, LeftNum, RightNum;
    WholeChain(Comparing, ts);
  }

  // ----- rotations, from the most significant byte down -----

  function Rotated(t: Digit): Core { Effect(Ror(t.d), t.c) }

  function Shifted(t: Digit): Core { Effect(Lsr(t.d), t.c) }

  /** The bytes found, most significant first. */
  function FromTop(ts: seq<Digit>): nat {
    if ts == [] then 0 else ts[0].c.reg[ts[0].d] as int * Pow(|ts| - 1) + FromTop(ts[1..])
  }

  function RotatedFromTop(ts: seq<Digit>): nat {
    hide Effect;
    if ts == [] then 0 else Rotated(ts[0]).reg[ts[0].d] as int * Pow(|ts| - 1) + RotatedFromTop(ts[1..])
  }

  predicate HandedDown(ts: seq<Digit>) {
    forall i :: 0 <= i < |ts| - 1 ==> CarryIn(ts[i + 1].c.sreg) == CarryIn(Rotated(ts[i]).sreg)
  }

  function BitOut(ts: seq<Digit>): Carry
    requires ts != []
  {
    CarryIn(Rotated(ts[|ts| - 1]).sreg)
  }

  lemma DownOn(ts: seq<Digit>)
    requires |ts| > 1 && HandedDown(ts)
    ensures HandedDown(ts[1..]) && CarryIn(ts[1].c.sreg) == CarryIn(Rotated(ts[0]).sreg)
  {
    hide Rotated, CarryIn;
    assert CarryIn(ts[0 + 1].c.sreg) == CarryIn(Rotated(ts[0]).sreg);
    var more := ts[1..];
    forall i | 0 <= i < |more| - 1 ensures CarryIn(more[i + 1].c.sreg) == CarryIn(Rotated(more[i]).sreg) {
      assert more[i] == ts[i + 1] && more[i + 1] == ts[(i + 1) + 1];
    }
  }

  /** A RotateRight chain halves a vector of any length with the carry above it; C is the bit shifted out. */
  lemma {:induction false} VectorRotation(ts: seq<Digit>)
    requires ts != [] && HandedDown(ts)
    ensures 2 * RotatedFromTop(ts) + BitOut(ts) == FromTop(ts) + Pow(|ts|) * CarryIn(ts[0].c.sreg)
  {
    hide Effect, CarryIn;
    var t, c1, p := ts[0], Rotated(ts[0]), Pow(|ts| - 1);
    RorDigit(t.c, t.d);
    HalveStep(t.c.reg[t.d], CarryIn(t.c.sreg), c1.reg[t.d], CarryIn(c1.sreg), p);
    if |ts| > 1 {
      var more := ts[1..];
      DownOn(ts);
      VectorRotation(more);
    }
  }

  predicate HandedDownFrom(ts: seq<Digit>)
    requires ts != []
  {
    && HandedDown(ts[1..])
    && (|ts| > 1 ==> CarryIn(ts[1].c.sreg) == CarryIn(Shifted(ts[0]).sreg))
  }

  function HalfFromTop(ts: seq<Digit>): nat
    requires ts != []
  {
    hide Shifted;
    Shifted(ts[0]).reg[ts[0].d] as int * Pow(|ts| - 1) + RotatedFromTop(ts[1..])
  }

  function HalfBitOut(ts: seq<Digit>): Carry
    requires ts != []
  {
    if |ts| == 1 then CarryIn(Shifted(ts[0]).sreg) else BitOut(ts[1..])
  }

  /** LogicalShiftRt on the top byte and RotateRight below halve a vector of any length. */
  lemma VectorHalf(ts: seq<Digit>)
    requires ts != [] && HandedDownFrom(ts)
    ensures HalfFromTop(ts) == FromTop(ts) / 2 && HalfBitOut(ts) == FromTop(ts) % 2
  {
    hide Effect, CarryIn;
    var t, c1, p := ts[0], Shifted(ts[0]), Pow(|ts| - 1);
    LsrIsRor(t.c, t.d);
    RorDigit(WithoutCarry(t.c), t.d);
    HalveStep(t.c.reg[t.d], 0, c1.reg[t.d], CarryIn(c1.sreg), p);
    if |ts| > 1 { VectorRotation(ts[1..]); }
    assert 2 * HalfFromTop(ts) + HalfBitOut(ts) == FromTop(ts);
  }
}
