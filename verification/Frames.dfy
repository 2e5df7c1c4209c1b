/** What an instruction, and the outside world between two instructions, can change in memory. */
module Frames {
  import opened Words
  import opened Isa

  /** The cells that a computing instruction stores into, by a push or by a store. */
  function Pushed(o: Op, c: Core): set<word> { if o.Push? then {c.sp} else {} }

  function Stored(o: Op, c: Core): set<word> {
    match o
    case Store(p, mode, _) =>
      (match mode
       case Ignored => {}
       case PreDec => {Trunc16(PairAt(c.reg, p) - 1)}
       case _ => {PairAt(c.reg, p)})
    case Sts(a, _) => {a}
    case _ => {}
  }

  function Written(o: Op, c: Core): set<word> { Pushed(o, c) + Stored(o, c) }

  /** A call pushes two bytes, and the second may be at the other end of the memory. */
  function CallWrites(sp: word): set<word> { {sp, Trunc16(sp - 1)} }

  function EventWrites(e: Event): set<word>
    requires e.Tick?
  {
    (if e.key.Some? then {KEY} else {}) + {RANDOM, 0xe005} + (if e.port.Some? then {PORT} else {})
  }

  /** Two memories agree outside the given cells. */
  predicate SameBut(m: Mem, m': Mem, cells: set<word>) {
    forall a: word :: a !in cells ==> m'[a] == m[a]
  }

  /** All instructions but pushes and stores leave memory alone. */
  lemma OthersKeepMemory(o: Op, c: Core)
    requires !o.Push? && !o.Store? && !o.Sts?
    ensures Effect(o, c).mem == c.mem
  {
    hide SumFlags, DiffFlags, LogicFlags, ShiftFlags, ResultFlags, ProductFlags, Put, Trunc8, Trunc16, Join, BitAnd,
      BitOr,
      BitXor, PutBit, TestBit, SwapByte, Signed, CarryIn, IncPair, DecPair, Bit8, Flag, PopTop, PairAt, High;
  }

  /** The instructions that change memory do so in the cells listed above. */
  lemma EffectWrites(o: Op, c: Core)
    ensures SameBut(c.mem, Effect(o, c).mem, Written(o, c))
  {
    if !o.Push? && !o.Store? && !o.Sts? {
      hide Effect;
      OthersKeepMemory(o, c);
    }
  }

  lemma CallWritesTwo(s: Cpu, size: word, a: word)
    ensures SameBut(s.core.mem, Called(s, size, a).core.mem, CallWrites(s.core.sp))
  {
  }

  lemma EventWritesFew(m: Mem, e: Event)
    requires e.Tick?
    ensures SameBut(m, StoreEvent(m, e), EventWrites(e))
  {
  }
}
