/**
 The passes over an expression that is owned by one pointer, on nodes that are overwritten,
 taken over by their parents, freed and allocated, as struct expr is. Each leaves a tree
 for exactly the expression that the pass gives on values.
 */
module KconfigInPlace {
  import opened KconfigExpr
  import opened KconfigEq
  import opened KconfigTransform
  import opened KconfigSubmenu

  /** enum expr_type. */
  datatype Kind = Leaf | Negation | Operation(op: Op) | Comparison(equal: bool)

  /** struct expr; the two unions are two fields each. */
  class ExprNode {
    var kind: Kind
    var left: ExprNode?
    var right: ExprNode?
    var lsym: Symbol
    var rsym: Symbol
    ghost var repr: set<ExprNode>

    constructor (kind: Kind, left: ExprNode?, right: ExprNode?, lsym: Symbol, rsym: Symbol)
      ensures this.kind == kind && this.left == left && this.right == right && this.lsym == lsym && this.rsym == rsym
      ensures repr == {this}
    {
      this.kind, this.left, this.right, this.lsym, this.rsym := kind, left, right, lsym, rsym;
      repr := {this};
    }

    ghost predicate Valid()
      reads this, repr
      ensures Valid() ==> this in repr
      decreases repr
    {
      && this in repr
      && (kind.Negation? || kind.Operation? ==>
            left != null && left in repr && left.repr <= repr && this !in left.repr && left.Valid())
      && (kind.Operation? ==>
            right != null && right in repr && right.repr <= repr && this !in right.repr && right.Valid() && left.repr !! right.repr)
      && repr == match kind
                 case Negation => {this} + left.repr
                 case Operation(_) => {this} + left.repr + right.repr
                 case _ => {this}
    }

    ghost function Tree(): (t: Expr)
      requires Valid()
      reads this, repr
      ensures match kind
              case Leaf => t == Symb(lsym)
              case Negation => t.Not?
              case Operation(op) => IsOp(t, op)
              case Comparison(equal) => t == Comp(equal, lsym, rsym)
      decreases repr
    {
      match kind
      case Leaf => Symb(lsym)
      case Negation => Not(left.Tree())
      case Operation(op) => Bin(op, left.Tree(), right.Tree())
      case Comparison(equal) => Comp(equal, lsym, rsym)
    }
  }

  /** An operation and its two operands. */
  lemma Operands(e: ExprNode)
    requires e.Valid() && e.kind.Operation?
    ensures e.left != null && e.right != null && e.left.Valid() && e.right.Valid() && e.left.repr !! e.right.repr
    ensures e !in e.left.repr && e !in e.right.repr && e.repr == {e} + e.left.repr + e.right.repr
    ensures e.Tree() == Bin(e.kind.op, e.left.Tree(), e.right.Tree())
  {
  }

  /** New operands for an operation. */
  method Rejoin(e: ExprNode, a: ExprNode, b: ExprNode)
    requires e.kind.Operation? && a.Valid() && b.Valid() && a.repr !! b.repr && e !in a.repr && e !in b.repr
    modifies e
    ensures e.Valid() && e.kind == old(e.kind) && e.repr == {e} + a.repr + b.repr
    ensures e.Tree() == Bin(e.kind.op, old(a.Tree()), old(b.Tree()))
  {
    e.left, e.right := a, b;
    e.repr := {e} + a.repr + b.repr;
  }

  /** A negation and its operand. */
  lemma Operand(e: ExprNode)
    requires e.Valid() && e.kind.Negation?
    ensures e.left != null && e.left.Valid() && e !in e.left.repr && e.repr == {e} + e.left.repr
    ensures e.Tree() == Not(e.left.Tree())
  {
  }

  /** A new operand for a negation. */
  method Renegate(e: ExprNode, a: ExprNode)
    requires e.kind.Negation? && a.Valid() && e !in a.repr
    modifies e
    ensures e.Valid() && e.kind == old(e.kind) && e.left == a && e.repr == {e} + a.repr
    ensures a.Valid() && a.Tree() == old(a.Tree()) && e.Tree() == Not(a.Tree())
  {
    e.left := a;
    e.repr := {e} + a.repr;
  }

  /** A symbol or a comparison. */
  lemma OnItsOwn(e: ExprNode)
    requires (e.kind.Leaf? || e.kind.Comparison?) && e.repr == {e}
    ensures e.Valid()
  {
  }

  /** A node becomes a symbol. */
  method BecomeSymbol(e: ExprNode, s: Symbol)
    modifies e
    ensures e.Valid() && e.Tree() == Symb(s) && e.repr == {e}
  {
    e.kind, e.lsym, e.right := Leaf, s, null;
    e.repr := {e};
  }

  /** *e = *child; free(child). */
  method TakeOver(e: ExprNode, child: ExprNode)
    requires child.Valid() && e !in child.repr
    modifies e
    ensures e.Valid() && e.Tree() == old(child.Tree()) && e.repr == {e} + (old(child.repr) - {child})
  {
    e.kind, e.left, e.right, e.lsym, e.rsym := child.kind, child.left, child.right, child.lsym, child.rsym;
    e.repr := {e} + (child.repr - {child});
  }

  /** Either operand settles the operation, or leaves the other one, or both stay. */
  function Folded(op: Op, l: Expr, r: Expr): (e: Expr)
    ensures forall a: Expr, b: Expr :: EliminateYN(a) == l && EliminateYN(b) == r ==> EliminateYN(Bin(op, a, b)) == e
  {
    if l == Symb(Zero(op)) then Symb(Zero(op))
    else if l == Symb(Unit(op)) then r
    else if r == Symb(Zero(op)) then Symb(Zero(op))
    else if r == Symb(Unit(op)) then l
    else Bin(op, l, r)
  }

  /** expr_eliminate_yn at a node whose operands are done. */
  method FoldInPlace(e: ExprNode)
    requires e.Valid() && e.kind.Operation?
    modifies e
    ensures e.Valid() && e.Tree() == Folded(old(e.kind.op), old(e.left.Tree()), old(e.right.Tree()))
    ensures e.repr <= old(e.repr)
  {
    var op := e.kind.op;
    if e.left.kind.Leaf? {
      if e.left.lsym == Zero(op) {
        BecomeSymbol(e, Zero(op));
        return;
      } else if e.left.lsym == Unit(op) {
        TakeOver(e, e.right);
        return;
      }
    }
    if e.right.kind.Leaf? {
      if e.right.lsym == Zero(op) {
        BecomeSymbol(e, Zero(op));
        return;
      } else if e.right.lsym == Unit(op) {
        TakeOver(e, e.left);
        return;
      }
    }
  }

  /** expr_eliminate_yn. */
  method EliminateYNInPlace(e: ExprNode)
    requires e.Valid()
    modifies e.repr
    ensures e.Valid() && e.Tree() == EliminateYN(old(e.Tree()))
    ensures e.repr <= old(e.repr)
    decreases e.repr
  {
    if e.kind.Operation? {
      hide EliminateYN, Folded, ExprNode.Valid, ExprNode.Tree;
      Operands(e);
      EliminateYNInPlace(e.left);
      EliminateYNInPlace(e.right);
      Rejoin(e, e.left, e.right);
      FoldInPlace(e);
    }
  }

  /** The comparisons of expr_transform; a negation gets a new node for its symbol. */
  method TransformCompInPlace(e: ExprNode)
    requires e.Valid() && e.kind.Comparison?
    modifies e
    ensures e.Valid() && e.Tree() == TransformComp(old(e.Tree())) && fresh(e.repr - {e})
  {
    if e.lsym.Type() != Boolean {
      return;
    }
    var equal := e.kind.equal;
    if e.rsym.SymMod? {
      BecomeSymbol(e, if equal then SymNo else SymYes);
    } else if (e.rsym.SymNo? && equal) || (e.rsym.SymYes? && !equal) {
      var symbol := new ExprNode(Leaf, null, null, e.lsym, e.lsym);
      e.kind, e.left, e.right := Negation, symbol, null;
      e.repr := {e, symbol};
    } else if e.rsym.SymNo? || e.rsym.SymYes? {
      BecomeSymbol(e, e.lsym);
    }
  }

  /** expr_alloc_one for a negation. */
  method NegationOf(a: ExprNode) returns (n: ExprNode)
    requires a.Valid()
    ensures fresh(n) && n.Valid() && n.repr == {n} + a.repr && n.Tree() == Not(a.Tree())
  {
    hide ExprNode.Valid, ExprNode.Tree;
    n := new ExprNode(Negation, a, null, SymNo, SymNo);
    Renegate(n, a);
  }

  /** !(a || b) -> !a && !b, and dually: the operation's node becomes the first negation. */
  method DeMorganInPlace(e: ExprNode)
    requires e.Valid() && e.kind.Negation? && e.left.kind.Operation?
    modifies e, e.left
    ensures e.Valid() && fresh(e.repr - old(e.repr))
    ensures
      var a := old(e.left.Tree());
      a.Bin? && e.Tree() == DeMorgan(a.op, a.left, a.right)
  {
    hide Weight, ExprNode.Valid, ExprNode.Tree;
    Operand(e);
    var tmp := e.left;
    var op := tmp.kind.op;
    Operands(tmp);
    var second := NegationOf(tmp.right);
    tmp.kind, tmp.right := Negation, null;
    Renegate(tmp, tmp.left);
    e.kind := Operation(Dual(op));
    Rejoin(e, tmp, second);
  }

  /** expr_transform on both operands of an operation. */
  method TransformBoth(e: ExprNode)
    requires e.Valid() && e.kind.Operation?
    modifies e.repr
    ensures e.Valid() && fresh(e.repr - old(e.repr)) && e.kind == old(e.kind)
    ensures e.Tree() == Bin(old(e.kind.op), Transform(old(e.left.Tree())), Transform(old(e.right.Tree())))
    decreases Weight(e.Tree()), 0
  {
    hide Transform, TransformComp, DeMorgan, ExprNode.Valid, ExprNode.Tree;
    Operands(e);
    var a := TransformInPlace(e.left);
    var b := TransformInPlace(e.right);
    Rejoin(e, a, b);
  }

  /** expr_transform. */
  method TransformInPlace(e: ExprNode) returns (r: ExprNode)
    requires e.Valid()
    modifies e.repr
    ensures r.Valid() && r.Tree() == Transform(old(e.Tree())) && fresh(r.repr - old(e.repr))
    decreases Weight(e.Tree()), 2
  {
    hide TransformComp, DeMorgan;
    r := e;
    match e.kind {
      case Leaf =>
      case Operation(_) => TransformBoth(e);
      case Comparison(_) => TransformCompInPlace(e);
      case Negation => r := TransformNegation(e);
    }
  }

  /** expr_transform at a negation. */
  method TransformNegation(e: ExprNode) returns (r: ExprNode)
    requires e.Valid() && e.kind.Negation?
    modifies e.repr
    ensures r.Valid() && r.Tree() == Transform(Not(old(e.left.Tree()))) && fresh(r.repr - old(e.repr))
    decreases Weight(e.Tree()), 1
  {
    hide TransformComp, DeMorgan;
    Operand(e);
    var a := TransformInPlace(e.left);
    Renegate(e, a);
    r := PushNegation(e, old(Weight(e.Tree())));
  }

  /** expr_transform at a negation whose operand is done. */
  method PushNegation(e: ExprNode, ghost w: nat) returns (r: ExprNode)
    requires e.Valid() && e.kind.Negation? && Weight(e.Tree()) <= w
    modifies e.repr
    ensures r.Valid() && fresh(r.repr - old(e.repr))
    ensures r.Tree() == match old(e.left.Tree())
                        case Not(b) => Transform(b)
                        case Comp(eq, x, y) => Comp(!eq, x, y)
                        case Bin(op, x, y) => Transform(DeMorgan(op, x, y))
                        case Symb(s) =>
                          if s.SymYes? then Symb(SymNo) else if s.SymMod? then Symb(SymMod)
                          else if s.SymNo? then Symb(SymYes) else Not(Symb(s))
    decreases w, 0
  {
    hide Transform;
    var tmp := e.left;
    match tmp.kind {
      case Negation => r := TransformInPlace(tmp.left);
      case Comparison(equal) =>
        tmp.kind := Comparison(!equal);
        r := tmp;
      case Operation(_) =>
        DeMorganInPlace(e);
        r := TransformInPlace(e);
      case Leaf =>
        r := e;
        if tmp.lsym.IsTriLiteral() {
          tmp.lsym := if tmp.lsym.SymYes? then SymNo else if tmp.lsym.SymMod? then SymMod else SymYes;
          r := tmp;
        }
    }
  }

  /** expr_trans_bool. */
  method TransBoolInPlace(e: ExprNode)
    requires e.Valid()
    modifies e.repr
    ensures e.Valid() && e.Tree() == TransBool(old(e.Tree())) && e.repr == old(e.repr)
    decreases e.repr
  {
    match e.kind {
      case Leaf =>
      case Negation => TransBoolInPlace(e.left);
      case Operation(_) =>
        TransBoolInPlace(e.left);
        TransBoolInPlace(e.right);
      case Comparison(equal) =>
        if !equal && e.lsym.Type() == Tristated && e.rsym.SymNo? {
          e.kind := Leaf;
        }
    }
  }
}
