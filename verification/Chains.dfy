/**
 Chains of instructions over numbers that the registers hold all at once: addition, subtraction,
 comparison and halving, and the rotations that undo each other.
 */
module Chains {
  import opened Words
  import opened Isa
  import opened Arithmetic

  /** The three instructions that take a carry or a borrow from the previous byte. */
  datatype Kind = Adding | Subtracting | Comparing

  function Link(k: Kind, d: RegNo, r: RegNo): Op {
    match k
    case Adding => Adc(d, r)
    case Subtracting => Sbc(d, r)
    case Comparing => Cpc(d, r)
  }

  /** The instruction on each pair of registers in turn. */
  function Chain(k: Kind, ds: seq<RegNo>, rs: seq<RegNo>, c: Core): Core
    requires |ds| == |rs|
  {
    hide Effect;
    if ds == [] then c else Chain(k, ds[1..], rs[1..], Effect(Link(k, ds[0], rs[0]), c))
  }

  /** The number held in the registers, the least significant byte in the first. */
  function Num(reg: Regs, ds: seq<RegNo>): nat {
    if ds == [] then 0 else reg[ds[0]] as int + 0x100 * Num(reg, ds[1..])
  }

  /** The number held in the registers, the most significant byte in the first. */
  function NumFromTop(reg: Regs, ds: seq<RegNo>): nat {
    if ds == [] then 0 else reg[ds[0]] as int * Pow(|ds| - 1) + NumFromTop(reg, ds[1..])
  }

  function Pow(n: nat): (p: nat)
    ensures p > 0
  {
    if n == 0 then 1 else 0x100 * Pow(n - 1)
  }

  /** No register is written twice, and none is read after it was written for another byte. */
  predicate Apart(ds: seq<RegNo>, rs: seq<RegNo>) {
    |ds| == |rs| && forall i, j :: 0 <= i < j < |ds| ==> ds[i] != ds[j] && ds[i] != rs[j]
  }

  lemma {:induction false} NumBelowPow(reg: Regs, ds: seq<RegNo>)
    ensures Num(reg, ds) < Pow(|ds|)
  {
    if ds != [] { NumBelowPow(reg, ds[1..]); }
  }

  /** A number does not change with a register that does not hold it. */
  lemma {:induction false} NumFrame(reg: Regs, reg': Regs, ds: seq<RegNo>)
    requires forall i :: 0 <= i < |ds| ==> reg[ds[i]] == reg'[ds[i]]
    ensures Num(reg, ds) == Num(reg', ds)
    ensures NumFromTop(reg, ds) == NumFromTop(reg', ds)
  {
    if ds != [] { NumFrame(reg, reg', ds[1..]); }
  }

  /** The state differs in the given registers and the flags only. */
  predicate OnlyRegs(c: Core, c': Core, ds: seq<RegNo>) {
    c'.sp == c.sp && c'.mem == c.mem && forall i: RegNo :: i !in ds ==> c'.reg[i] == c.reg[i]
  }

  // ----- one link -----

  /** The number that a chain leaves, and the carry or borrow with its weight. */
  predicate ChainResult(k: Kind, a: nat, b: nat, cin: Carry, x: nat, out: Carry, p: nat) {
    match k
    case Adding => x + p * out == a + b + cin
    case Subtracting => x - p * out == a - b - cin
    case Comparing => x == a && (out == 1) == (a < b + cin)
  }

  /** What one link does: the digit, and the carry or borrow with its weight. */
  predicate LinkResult(k: Kind, c: Core, d: RegNo, r: RegNo, c1: Core) {
    && ChainResult(k, c.reg[d], c.reg[r], CarryIn(c.sreg), c1.reg[d], CarryIn(c1.sreg), 0x100)
    && OnlyRegs(c, c1, if k.Comparing? then [] else [d])
  }

  lemma AddingLink(c: Core, d: RegNo, r: RegNo)
    ensures LinkResult(Adding, c, d, r, Effect(Adc(d, r), c))
  {
    hide Flag, SumFlags;
    AddIsExact(c, d, r, true);
  }

  lemma SubtractingLink(c: Core, d: RegNo, r: RegNo)
    ensures LinkResult(Subtracting, c, d, r, Effect(Sbc(d, r), c))
  {
    hide Flag, DiffFlags;
    SubtractIsExact(c, d, r, true);
  }

  lemma ComparingLink(c: Core, d: RegNo, r: RegNo)
    ensures LinkResult(Comparing, c, d, r, Effect(Cpc(d, r), c))
  {
    hide Flag, SumFlags;
    CompareIsExact(c, c.reg[d], c.reg[r], CarryIn(c.sreg));
  }

  lemma LinkCorrect(k: Kind, c: Core, d: RegNo, r: RegNo)
    ensures LinkResult(k, c, d, r, Effect(Link(k, d, r), c))
  {
    hide Effect, LinkResult;
    match k
    case Adding => AddingLink(c, d, r);
    case Subtracting => SubtractingLink(c, d, r);
    case Comparing => ComparingLink(c, d, r);
  }

  /** A write to the first destination changes no other byte of the two numbers. */
  lemma TailsKept(reg: Regs, reg': Regs, ds: seq<RegNo>, rs: seq<RegNo>)
    requires ds != [] && Apart(ds, rs) && forall i: RegNo :: i != ds[0] ==> reg'[i] == reg[i]
    ensures Num(reg', ds[1..]) == Num(reg, ds[1..]) && Num(reg', rs[1..]) == Num(reg, rs[1..])
    ensures Apart(ds[1..], rs[1..]) && ds[0] !in ds[1..]
  {
    NumFrame(reg, reg', ds[1..]);
    NumFrame(reg, reg', rs[1..]);
  }

  /** A link on the first pair leaves the other pairs as they are. */
  lemma LinkFrame(k: Kind, ds: seq<RegNo>, rs: seq<RegNo>, c: Core)
    requires ds != [] && |ds| == |rs| && (k.Comparing? || Apart(ds, rs))
    ensures var c1 := Effect(Link(k, ds[0], rs[0]), c);
            Num(c1.reg, ds[1..]) == Num(c.reg, ds[1..]) && Num(c1.reg, rs[1..]) == Num(c.reg, rs[1..])
    ensures k.Comparing? || (Apart(ds[1..], rs[1..]) && ds[0] !in ds[1..])
  {
    hide Effect, CarryIn, ChainResult;
    var c1 := Effect(Link(k, ds[0], rs[0]), c);
    LinkCorrect(k, c, ds[0], rs[0]);
    if k.Comparing? { assert c1.reg == c.reg; } else { TailsKept(c.reg, c1.reg, ds, rs); }
  }

  // ----- whole chains -----

  /** A first digit and the rest of a chain make a longer chain. */
  lemma Compose(k: Kind, a: nat, b: nat, cin: Carry, x: nat, mid: Carry,
                a': nat, b': nat, x': nat, out: Carry, p: nat)
    requires a < 0x100 && b < 0x100
    requires ChainResult(k, a, b, cin, x, mid, 0x100)
    requires ChainResult(k, a', b', mid, x', out, p)
    ensures ChainResult(k, a + 0x100 * a', b + 0x100 * b', cin, x + 0x100 * x', out, 0x100 * p)
  {
    if out == 0 {} else {}
  }

  /** A chain of any length computes the sum, the difference or the comparison of the numbers. */
  lemma {:induction false} ChainCorrect(k: Kind, ds: seq<RegNo>, rs: seq<RegNo>, c: Core)
    requires |ds| == |rs| && (k.Comparing? || Apart(ds, rs))
    ensures var c' := Chain(k, ds, rs, c);
            ChainResult(k, Num(c.reg, ds), Num(c.reg, rs), CarryIn(c.sreg),
                        Num(c'.reg, ds), CarryIn(c'.sreg), Pow(|ds|))
    ensures OnlyRegs(c, Chain(k, ds, rs, c), if k.Comparing? then [] else ds)
  {
    hide Effect, Link, CarryIn, ChainResult, Apart;
    if ds == [] {
      ChainEmpty(k, CarryIn(c.sreg));
    } else {
      var c1 := Effect(Link(k, ds[0], rs[0]), c);
      LinkCorrect(k, c, ds[0], rs[0]);
      LinkFrame(k, ds, rs, c);
      ChainCorrect(k, ds[1..], rs[1..], c1);
      var c' := Chain(k, ds[1..], rs[1..], c1);
      assert c'.reg[ds[0]] == c1.reg[ds[0]];
      Compose(k, c.reg[ds[0]], c.reg[rs[0]], CarryIn(c.sreg), c1.reg[ds[0]], CarryIn(c1.sreg),
              Num(c.reg, ds[1..]), Num(c.reg, rs[1..]), Num(c'.reg, ds[1..]), CarryIn(c'.sreg), Pow(|ds| - 1));
    }
  }

  lemma ChainEmpty(k: Kind, cin: Carry)
    ensures ChainResult(k, 0, 0, cin, 0, cin, 1)
  {
  }

  // ----- chains as programs write them -----

  /** The first instruction of a chain takes no carry. */
  function First(k: Kind, d: RegNo, r: RegNo): Op {
    match k
    case Adding => Add(d, r)
    case Subtracting => Sub(d, r)
    case Comparing => Cp(d, r)
  }

  function Whole(k: Kind, ds: seq<RegNo>, rs: seq<RegNo>, c: Core): Core
    requires ds != [] && |ds| == |rs|
  {
    hide Effect;
    Chain(k, ds[1..], rs[1..], Effect(First(k, ds[0], rs[0]), c))
  }

  /** Subtract counts a carry that was set if the operands are equal. */
  predicate CountsStaleCarry(c: Core, d: RegNo, r: RegNo) { Flag(c.sreg, CARRY) && c.reg[d] == c.reg[r] }

  function WithoutCarry(c: Core): Core { c.(sreg := Put(c.sreg, CARRY, false)) }

  lemma FirstSum(f: bv8, w: word, a: byte, b: byte)
    ensures SumFlags(f, w, a, b) == SumFlags(Put(f, CARRY, false), w, a, b)
  {
  }

  lemma FirstDiff(f: bv8, w: word, a: byte, b: byte)
    requires !(Flag(f, CARRY) && a == b)
    ensures DiffFlags(f, w, a, b) == DiffFlags(Put(f, CARRY, false), w, a, b)
  {
  }

  /** The first instruction is the link without a carry, but for the stale carry of Subtract. */
  lemma FirstIsLink(k: Kind, c: Core, d: RegNo, r: RegNo)
    requires !(k.Subtracting? && CountsStaleCarry(c, d, r))
    ensures Effect(First(k, d, r), c) == Effect(Link(k, d, r), WithoutCarry(c))
    ensures CarryIn(WithoutCarry(c).sreg) == 0
  {
    hide SumFlags, DiffFlags, Put, Trunc8, Trunc16;
    var a: byte, b: byte := c.reg[d], c.reg[r];
    FlagPut(c.sreg, CARRY, false, CARRY);
    match k
    case Adding => FirstSum(c.sreg, Trunc16(a + b), a, b);
    case Subtracting => FirstDiff(c.sreg, Trunc16(a - b), a, b);
    case Comparing => FirstSum(c.sreg, Trunc16(a - b), a, b);
  }

  lemma WholeCorrect(k: Kind, ds: seq<RegNo>, rs: seq<RegNo>, c: Core)
    requires ds != [] && |ds| == |rs| && (k.Comparing? || Apart(ds, rs))
    requires !(k.Subtracting? && CountsStaleCarry(c, ds[0], rs[0]))
    ensures var c' := Whole(k, ds, rs, c);
            && ChainResult(k, Num(c.reg, ds), Num(c.reg, rs), 0, Num(c'.reg, ds), CarryIn(c'.sreg), Pow(|ds|))
            && OnlyRegs(c, c', if k.Comparing? then [] else ds)
  {
    hide Effect, CarryIn, ChainResult, CountsStaleCarry;
    FirstIsLink(k, c, ds[0], rs[0]);
    ChainCorrect(k, ds, rs, WithoutCarry(c));
  }

  lemma CarryOfSum(x: nat, out: Carry, p: nat, v: nat)
    requires x < p && x + p * out == v
    ensures x == v % p && (out == 1) == (v >= p)
  {
    if out == 0 {} else { Remainder(x, p, v); }
  }

  lemma BorrowOfDifference(x: nat, out: Carry, p: nat, v: int)
    requires x < p && x - p * out == v
    ensures x == v % p && (out == 1) == (v < 0)
  {
    if out == 0 {} else { Remainder(x, p, v); }
  }

  lemma Remainder(x: nat, p: nat, v: int)
    requires x < p && (v == x + p || v == x - p)
    ensures v % p == x
  {
    Multiple(p, v / p);
    Multiple(p, v / p + 2);
    assert v == p * (v / p) + v % p;
    assert p * (v / p + 2) == p * (v / p) + 2 * p;
  }

  lemma Multiple(p: nat, q: int)
    ensures q >= 2 ==> p * q >= 2 * p
    ensures q <= 0 ==> p * q <= 0
    ensures q == 1 ==> p * q == p
  {
  }

  /** Add and then AddWithC: the sum modulo 256^n, with C the carry out. */
  lemma Addition(ds: seq<RegNo>, rs: seq<RegNo>, c: Core)
    requires ds != [] && Apart(ds, rs)
    ensures var c', sum := Whole(Adding, ds, rs, c), Num(c.reg, ds) + Num(c.reg, rs);
            && Num(c'.reg, ds) == sum % Pow(|ds|)
            && Flag(c'.sreg, CARRY) == (sum >= Pow(|ds|))
            && OnlyRegs(c, c', ds)
  {
    hide Effect, Flag, Whole, Num, Pow, OnlyRegs;
    var c' := Whole(Adding, ds, rs, c);
    WholeCorrect(Adding, ds, rs, c);
    NumBelowPow(c'.reg, ds);
    CarryOfSum(Num(c'.reg, ds), CarryIn(c'.sreg), Pow(|ds|), Num(c.reg, ds) + Num(c.reg, rs));
  }

  /** A SubtractWithC chain with an incoming borrow: the difference, with C the borrow out. */
  lemma SubtractionWithBorrow(ds: seq<RegNo>, rs: seq<RegNo>, c: Core)
    requires Apart(ds, rs)
    ensures var c', diff := Chain(Subtracting, ds, rs, c), Num(c.reg, ds) - Num(c.reg, rs) - CarryIn(c.sreg);
            && Num(c'.reg, ds) == diff % Pow(|ds|)
            && Flag(c'.sreg, CARRY) == (diff < 0)
            && OnlyRegs(c, c', ds)
  {
    hide Effect, Flag, Chain;
    var c' := Chain(Subtracting, ds, rs, c);
    ChainCorrect(Subtracting, ds, rs, c);
    NumBelowPow(c'.reg, ds);
    BorrowOfDifference(Num(c'.reg, ds), CarryIn(c'.sreg), Pow(|ds|), Num(c.reg, ds) - Num(c.reg, rs) - CarryIn(c.sreg));
  }

  /** Subtract and then SubtractWithC is right exactly if Subtract does not count a stale carry. */
  lemma Subtraction(ds: seq<RegNo>, rs: seq<RegNo>, c: Core)
    requires ds != [] && Apart(ds, rs)
    ensures var c', diff := Whole(Subtracting, ds, rs, c), Num(c.reg, ds) - Num(c.reg, rs);
            Num(c'.reg, ds) == diff % Pow(|ds|) && Flag(c'.sreg, CARRY) == (diff < 0)
            <==> !CountsStaleCarry(c, ds[0], rs[0])
  {
    hide Effect, Flag, Whole, CountsStaleCarry;
    var c', p := Whole(Subtracting, ds, rs, c), Pow(|ds|);
    var x, out := Num(c'.reg, ds), CarryIn(c'.sreg);
    var diff: int := Num(c.reg, ds) - Num(c.reg, rs);
    NumBelowPow(c'.reg, ds);
    if CountsStaleCarry(c, ds[0], rs[0]) {
      StaleCarry(ds, rs, c);
      assert x - p * out == diff - 0x100;
      BorrowOfDifference(x, out, p, diff - 0x100);
      NumBelowPow(c.reg, ds);
      NumBelowPow(c.reg, rs);
      if x == diff % p && (out == 1) == (diff < 0) { Congruent(diff, p, out); }
    } else {
      WholeCorrect(Subtracting, ds, rs, c);
      BorrowOfDifference(x, out, p, diff);
    }
  }

  /** The remainder of a difference of two numbers below p. */
  lemma Congruent(v: int, p: nat, out: Carry)
    requires v < p && v + p > 0 && (out == 1) == (v < 0)
    ensures v % p - p * out == v
  {
    if v < 0 { Remainder(v + p, p, v); }
  }

  lemma StaleDigit(c: Core, d: RegNo, r: RegNo)
    requires CountsStaleCarry(c, d, r)
    ensures var c1 := Effect(Sub(d, r), c);
            OnlyRegs(c, c1, [d]) && c1.reg[d] == 0 && CarryIn(c1.sreg) == 1
  {
    hide DiffFlags, Flag;
    SubtractIsExact(c, d, r, false);
  }

  /** With the stale carry the difference is short by one unit of the second byte. */
  lemma StaleCarry(ds: seq<RegNo>, rs: seq<RegNo>, c: Core)
    requires ds != [] && Apart(ds, rs) && CountsStaleCarry(c, ds[0], rs[0])
    ensures var c' := Whole(Subtracting, ds, rs, c);
            Num(c'.reg, ds) - Pow(|ds|) * CarryIn(c'.sreg) == Num(c.reg, ds) - Num(c.reg, rs) - 0x100
  {
    assert c.reg[ds[0]] == c.reg[rs[0]];
    hide Effect, CarryIn, CountsStaleCarry, Apart, ChainResult;
    var c1 := Effect(Sub(ds[0], rs[0]), c);
    StaleDigit(c, ds[0], rs[0]);
    TailsKept(c.reg, c1.reg, ds, rs);
    ChainCorrect(Subtracting, ds[1..], rs[1..], c1);
    var c' := Chain(Subtracting, ds[1..], rs[1..], c1);
    assert c'.reg[ds[0]] == 0;
    ShortByOne(Num(c.reg, ds[1..]), Num(c.reg, rs[1..]), Num(c'.reg, ds[1..]), CarryIn(c'.sreg), Pow(|ds| - 1));
  }

  lemma ShortByOne(a: nat, b: nat, x: nat, out: Carry, p: nat)
    requires ChainResult(Subtracting, a, b, 1, x, out, p)
    ensures 0x100 * x - 0x100 * p * out == 0x100 * a - 0x100 * b - 0x100
  {
    if out == 0 {} else {}
  }

  /** Compare and then CompareCarry: C says that the first number is smaller; no register changes. */
  lemma Comparison(ds: seq<RegNo>, rs: seq<RegNo>, c: Core)
    requires ds != [] && |ds| == |rs|
    ensures var c' := Whole(Comparing, ds, rs, c);
            && c' == c.(sreg := c'.sreg)
            && Flag(c'.sreg, CARRY) == (Num(c.reg, ds) < Num(c.reg, rs))
  {
    hide Effect, Flag, Whole;
    WholeCorrect(Comparing, ds, rs, c);
    var c' := Whole(Comparing, ds, rs, c);
    assert c'.reg == c.reg;
  }

  // ----- rotations -----

  function Halve(ds: seq<RegNo>, c: Core): Core {
    hide Effect;
    if ds == [] then c else Halve(ds[1..], Effect(Ror(ds[0]), c))
  }

  lemma RorDigit(c: Core, d: RegNo)
    ensures var c1 := Effect(Ror(d), c);
            && OnlyRegs(c, c1, [d])
            && 2 * c1.reg[d] as int + CarryIn(c1.sreg) == c.reg[d] as int + 0x100 * CarryIn(c.sreg)
  {
    hide ShiftFlags, Flag;
    ShiftCarry(c.sreg, c.reg[d] % 2 == 1, Effect(Ror(d), c).reg[d]);
  }

  lemma ShiftCarry(f: bv8, out: bool, r: byte)
    ensures Flag(ShiftFlags(f, out, r), CARRY) == out
  {
  }

  /** RotateRight from the top byte down halves the number with the carry above it; C is the bit shifted out. */
  lemma {:induction false} HalveCorrect(ds: seq<RegNo>, c: Core)
    requires forall i, j :: 0 <= i < j < |ds| ==> ds[i] != ds[j]
    ensures var c' := Halve(ds, c);
            && OnlyRegs(c, c', ds)
            && 2 * NumFromTop(c'.reg, ds) + CarryIn(c'.sreg) == NumFromTop(c.reg, ds) + Pow(|ds|) * CarryIn(c.sreg)
  {
    hide Effect, CarryIn;
    if ds != [] {
      var c1 := Effect(Ror(ds[0]), c);
      RorDigit(c, ds[0]);
      NumFrame(c.reg, c1.reg, ds[1..]);
      HalveCorrect(ds[1..], c1);
      var c', p := Halve(ds[1..], c1), Pow(|ds| - 1);
      assert c'.reg[ds[0]] == c1.reg[ds[0]];
      HalveStep(c.reg[ds[0]], CarryIn(c.sreg), c1.reg[ds[0]], CarryIn(c1.sreg), p);
    }
  }

  lemma HalveStep(x: byte, cin: Carry, y: byte, out: Carry, p: nat)
    requires 2 * y as int + out == x as int + 0x100 * cin
    ensures 2 * (y as int * p) + p * out == x as int * p + 0x100 * p * cin
  {
    assert (2 * y as int + out) * p == (x as int + 0x100 * cin) * p;
  }

  /** LogicalShiftRt on the top byte and RotateRight on each lower one: the half, with C the bit shifted out. */
  lemma Halving(ds: seq<RegNo>, c: Core)
    requires ds != [] && forall i, j :: 0 <= i < j < |ds| ==> ds[i] != ds[j]
    ensures var c', n := Halve(ds[1..], Effect(Lsr(ds[0]), c)), NumFromTop(c.reg, ds);
            && NumFromTop(c'.reg, ds) == n / 2
            && Flag(c'.sreg, CARRY) == (n % 2 == 1)
            && OnlyRegs(c, c', ds)
  {
    hide Effect, Flag;
    LsrIsRor(c, ds[0]);
    HalveCorrect(ds, WithoutCarry(c));
    var c' := Halve(ds[1..], Effect(Lsr(ds[0]), c));
    assert Pow(|ds|) * 0 == 0;
  }

  lemma LsrIsRor(c: Core, d: RegNo)
    ensures Effect(Lsr(d), c) == Effect(Ror(d), WithoutCarry(c))
    ensures CarryIn(WithoutCarry(c).sreg) == 0
  {
    hide ResultFlags;
  }

  /** RotateLeft (AddWithC of a register to itself) undoes RotateRight on C and the register. */
  lemma RotateLeftUndoes(c: Core, d: RegNo)
    ensures var c' := Effect(Adc(d, d), Effect(Ror(d), c));
            c'.reg == c.reg && Flag(c'.sreg, CARRY) == Flag(c.sreg, CARRY)
  {
    hide Effect, Flag;
    var c1 := Effect(Ror(d), c);
    RorDigit(c, d);
    AddingLink(c1, d, d);
    var c' := Effect(Adc(d, d), c1);
    assert c'.reg[d] == c.reg[d];
    assert c'.reg == c.reg;
  }
}
