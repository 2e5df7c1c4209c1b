/** The expression tree on the heap, and the folder that rewrites its nodes in place. */
module Folder {
  import opened Isa
  import opened TinyExpr

  /** The tag of a node with the value, the binding or the function that goes with it. */
  datatype Head = Constant(v: int32) | Variable(i: nat) | Function1(f: Fun1) | Function2(g: Fun2)

  function Arity(h: Head): nat {
    match h
    case Function1(_) => 1
    case Function2(_) => 2
    case _ => 0
  }

  class Node {
    var head: Head
    var parameters: seq<Node>
    ghost var repr: set<Node>

    /** The parameters own disjoint parts of the node's footprint. */
    ghost predicate Valid()
      reads this, repr
      decreases repr
    {
      && this in repr
      && |parameters| == Arity(head)
      && (forall k :: 0 <= k < |parameters| ==>
            parameters[k] in repr && parameters[k].repr < repr && this !in parameters[k].repr && parameters[k].Valid())
      && (|parameters| == 2 ==> parameters[0].repr !! parameters[1].repr)
    }

    ghost function Tree(): Expr
      requires Valid()
      reads this, repr
      decreases repr
    {
      match head
      case Constant(v) => Const(v)
      case Variable(i) => Var(i)
      case Function1(f) => App1(f, parameters[0].Tree())
      case Function2(g) => App2(g, parameters[0].Tree(), parameters[1].Tree())
    }

    /** new_expr */
    constructor (h: Head, ps: seq<Node>)
      requires |ps| == Arity(h) && forall k :: 0 <= k < |ps| ==> ps[k].Valid()
      requires |ps| == 2 ==> ps[0].repr !! ps[1].repr
      ensures Valid() && head == h && parameters == ps
      ensures repr == {this} + (set k, n | 0 <= k < |ps| && n in ps[k].repr :: n)
    {
      head := h;
      parameters := ps;
      repr := {this} + (set k, n | 0 <= k < |ps| && n in ps[k].repr :: n);
    }

    /** optimize: false where the evaluation of a known subtree is undefined. */
    method Optimize() returns (defined: bool)
      requires Valid()
      modifies repr
      ensures defined == Fold(old(Tree())).Some?
      ensures defined ==> Valid() && repr <= old(repr) && Some(Tree()) == Fold(old(Tree()))
      decreases repr
    {
      match head {
        case Constant(_) => defined := true;
        case Variable(_) => defined := true;
        case Function1(f) => defined := OptimizeUnary(f);
        case Function2(g) => defined := OptimizeBinary(g);
      }
    }

    method OptimizeUnary(f: Fun1) returns (defined: bool)
      requires Valid() && head == Function1(f)
      modifies repr
      ensures defined == Fold(old(Tree())).Some?
      ensures defined ==> Valid() && repr <= old(repr) && Some(Tree()) == Fold(old(Tree()))
      decreases repr, 0
    {
      hide Apply1, Apply2;
      if !Pure(f) { return true; }
      var a := parameters[0];
      defined := a.Optimize();
      if !defined { return; }
      if a.head.Constant? {
        var value := Apply1(f, a.head.v);
        if value == None { return false; }
        BecomeConstant(value.value);
      }
    }

    method OptimizeBinary(g: Fun2) returns (defined: bool)
      requires Valid() && head == Function2(g)
      modifies repr
      ensures defined == Fold(old(Tree())).Some?
      ensures defined ==> Valid() && repr <= old(repr) && Some(Tree()) == Fold(old(Tree()))
      decreases repr, 0
    {
      hide Apply1, Apply2;
      var a, b := parameters[0], parameters[1];
      defined := a.Optimize();
      if !defined { return; }
      defined := b.Optimize();
      if !defined { return; }
      if a.head.Constant? && b.head.Constant? {
        var value := Apply2(g, a.head.v, b.head.v);
        if value == None { return false; }
        BecomeConstant(value.value);
      }
    }

    /** The parameters are freed and the node takes the value. */
    method BecomeConstant(v: int32)
      modifies this
      ensures Valid() && repr == {this} && Tree() == Const(v)
    {
      head := Constant(v);
      parameters := [];
      repr := {this};
    }
  }
}
