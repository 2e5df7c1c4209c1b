/** Expression trees: evaluation, which is partial, and the constant folder. */
module TinyExpr {
  import opened Words
  import opened Isa

  type int32 = x: int | -0x8000_0000 <= x < 0x8000_0000

  datatype Fun1 = Negate | Not | LowOf | HighOf

  datatype Fun2 = Add | Sub | Mul | Div | Xor | Or | And | Shl | Shr | Comma

  /** A variable is bound to a position in the environment. */
  datatype Expr = Const(v: int32) | Var(i: nat) | App1(f: Fun1, a: Expr) | App2(g: Fun2, a: Expr, b: Expr)

  /** low and high are registered without the flag that allows folding. */
  predicate Pure(f: Fun1) { f.Negate? || f.Not? }

  // ----- the operators -----

  function Fit(x: int): Option<int32> {
    if -0x8000_0000 <= x < 0x8000_0000 then Some(x) else None
  }

  type uint32 = x: int | 0 <= x < 0x1_0000_0000

  function Unsigned(x: int32): uint32 { x % 0x1_0000_0000 }

  function ToInt(u: int): int32 {
    var w := u % 0x1_0000_0000;
    if w < 0x8000_0000 then w else w - 0x1_0000_0000
  }

  /** Division in C truncates towards zero. */
  function Quotient(x: int, y: int): int
    requires y != 0
  {
    var q := (if x < 0 then -x else x) / (if y < 0 then -y else y);
    if (x < 0) == (y < 0) then q else -q
  }

  function Apply1(f: Fun1, x: int32): Option<int32> {
    match f
    case Negate => Fit(0 - x)
    case Not => Some(-1 - x)
    case LowOf => Some(Trunc8(Trunc16(x)))
    case HighOf => Some(High(Trunc16(x)))
  }

  /** None where C leaves the result undefined: overflow, division by zero, shift counts out of range. */
  function Apply2(g: Fun2, x: int32, y: int32): Option<int32> {
    match g
    case Add => Fit(x + y)
    case Sub => Fit(x - y)
    case Mul => Fit(x * y)
    case Div => if y == 0 then None else Fit(Quotient(x, y))
    case Xor => Some(ToInt(((Unsigned(x) as bv32) ^ (Unsigned(y) as bv32)) as int))
    case Or => Some(ToInt(((Unsigned(x) as bv32) | (Unsigned(y) as bv32)) as int))
    case And => Some(ToInt(((Unsigned(x) as bv32) & (Unsigned(y) as bv32)) as int))
    case Shl => if 0 <= y < 32 then Some(ToInt(Unsigned(x) * Power2(y))) else None
    case Shr => if 0 <= y < 32 then Some(ToInt(Unsigned(x) / Power2(y))) else None
    case Comma => Some(y)
  }

  // ----- te_eval and optimize -----

  function Eval(e: Expr, env: seq<int32>): Option<int32> {
    hide Apply1, Apply2;
    match e
    case Const(v) => Some(v)
    case Var(i) => if i < |env| then Some(env[i]) else None
    case App1(f, a) => (match Eval(a, env) case None => None case Some(x) => Apply1(f, x))
    case App2(g, a, b) =>
      match Eval(a, env)
      case None => None
      case Some(x) => (match Eval(b, env) case None => None case Some(y) => Apply2(g, x, y))
  }

  /** Folds what is pure and known; None where the folder itself would compute something undefined. */
  function Fold(e: Expr): Option<Expr> {
    hide Apply1, Apply2;
    match e
    case Const(_) => Some(e)
    case Var(_) => Some(e)
    case App1(f, a) =>
      if !Pure(f) then Some(e)
      else (match Fold(a) case None => None case Some(a') => Reduce1(f, a'))
    case App2(g, a, b) =>
      match Fold(a)
      case None => None
      case Some(a') => (match Fold(b) case None => None case Some(b') => Reduce2(g, a', b'))
  }

  function Reduce1(f: Fun1, a: Expr): Option<Expr> {
    if a.Const? then (match Apply1(f, a.v) case None => None case Some(v) => Some(Const(v))) else Some(App1(f, a))
  }

  function Reduce2(g: Fun2, a: Expr, b: Expr): Option<Expr> {
    if a.Const? && b.Const? then (match Apply2(g, a.v, b.v) case None => None case Some(v) => Some(Const(v)))
    else Some(App2(g, a, b))
  }

  // ----- folding preserves meaning -----

  lemma {:induction false} FoldPreserves(e: Expr, env: seq<int32>)
    ensures match Fold(e)
            case None => Eval(e, env) == None
            case Some(e') => Eval(e', env) == Eval(e, env)
  {
    hide Apply1, Apply2;
    match e
    case Const(_) =>
    case Var(_) =>
    case App1(_, a) => FoldPreserves(a, env);
    case App2(_, a, b) =>
      FoldPreserves(a, env);
      FoldPreserves(b, env);
  }

  /** Where the expression has a value, folding is defined and keeps it. */
  lemma FoldDefined(e: Expr, env: seq<int32>)
    requires Eval(e, env).Some?
    ensures Fold(e).Some? && Eval(Fold(e).value, env) == Eval(e, env)
  {
    FoldPreserves(e, env);
  }

  /** Nothing is left that the folder would reduce; what is under low and high does not matter. */
  predicate Folded(e: Expr) {
    match e
    case Const(_) => true
    case Var(_) => true
    case App1(f, a) => !Pure(f) || (Folded(a) && !a.Const?)
    case App2(_, a, b) => Folded(a) && Folded(b) && !(a.Const? && b.Const?)
  }

  /** The folder reaches a normal form, and changes nothing that is in normal form. */
  lemma {:induction false} FoldNormal(e: Expr)
    ensures Fold(e).Some? ==> Folded(Fold(e).value)
    ensures Folded(e) ==> Fold(e) == Some(e)
  {
    hide Apply1, Apply2;
    match e
    case Const(_) =>
    case Var(_) =>
    case App1(_, a) => FoldNormal(a);
    case App2(_, a, b) =>
      FoldNormal(a);
      FoldNormal(b);
  }

  lemma FoldIdempotent(e: Expr)
    requires Fold(e).Some?
    ensures Fold(Fold(e).value) == Fold(e)
  {
    FoldNormal(e);
    FoldNormal(Fold(e).value);
  }

  /** No variable outside, and nothing under, low and high: exactly these fold to a constant. */
  predicate Closed(e: Expr) {
    match e
    case Const(_) => true
    case Var(_) => false
    case App1(f, a) => Pure(f) && Closed(a)
    case App2(_, a, b) => Closed(a) && Closed(b)
  }

  lemma {:induction false} FoldsToConstant(e: Expr)
    requires Fold(e).Some?
    ensures Fold(e).value.Const? <==> Closed(e)
  {
    hide Apply1, Apply2;
    match e
    case Const(_) =>
    case Var(_) =>
    case App1(f, a) => if Pure(f) { FoldsToConstant(a); }
    case App2(_, a, b) =>
      FoldsToConstant(a);
      FoldsToConstant(b);
  }

  /** The outermost calls of low and high, which the folder does not look into. */
  function OuterCalls(e: Expr): seq<Expr> {
    match e
    case Const(_) => []
    case Var(_) => []
    case App1(f, a) => if Pure(f) then OuterCalls(a) else [e]
    case App2(_, a, b) => OuterCalls(a) + OuterCalls(b)
  }

  lemma {:induction false} FoldKeepsCalls(e: Expr)
    requires Fold(e).Some?
    ensures OuterCalls(Fold(e).value) == OuterCalls(e)
  {
    hide Apply1, Apply2;
    match e
    case Const(_) =>
    case Var(_) =>
    case App1(f, a) => if Pure(f) { FoldKeepsCalls(a); }
    case App2(_, a, b) =>
      FoldKeepsCalls(a);
      FoldKeepsCalls(b);
  }
}
