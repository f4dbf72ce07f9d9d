/**
 expr_eq and expr_eliminate_eq on nodes: two trees that share nothing are searched for equal
 operands, which are replaced in both; a comparison does the same on copies.
 */
module KconfigEqInPlace {
  import opened KconfigExpr
  import opened KconfigEq
  import opened KconfigInPlace

  ghost predicate Apart(a: ExprNode, b: ExprNode)
    reads a, a.repr, b, b.repr
  {
    a.Valid() && b.Valid() && a.repr !! b.repr
  }

  /** expr_copy. */
  method Copy(e: ExprNode) returns (r: ExprNode)
    requires e.Valid()
    ensures r.Valid() && fresh(r.repr) && r.Tree() == e.Tree()
    decreases e.repr
  {
    hide ExprNode.Valid, ExprNode.Tree;
    match e.kind {
      case Negation =>
        Operand(e);
        var a := Copy(e.left);
        r := new ExprNode(Negation, a, null, e.lsym, e.rsym);
        Renegate(r, a);
      case Operation(op) =>
        Operands(e);
        var a := Copy(e.left);
        var b := Copy(e.right);
        r := new ExprNode(e.kind, a, b, e.lsym, e.rsym);
        Rejoin(r, a, b);
      case _ =>
        r := new ExprNode(e.kind, null, null, e.lsym, e.rsym);
        OnItsOwn(r);
    }
  }

  /** expr_eq: nothing but the copies is written to. */
  method ExprEqInPlace(e1: ExprNode, e2: ExprNode) returns (same: bool)
    requires Apart(e1, e2)
    ensures same == ExprEq(e1.Tree(), e2.Tree())
    decreases Size(e1.Tree()) + Size(e2.Tree()), 2
  {
    hide EliminateEq, ExprNode.Valid, ExprNode.Tree;
    if e1.kind != e2.kind {
      return false;
    }
    match e1.kind {
      case Comparison(_) => same := e1.lsym == e2.lsym && e1.rsym == e2.rsym;
      case Leaf => same := e1.lsym == e2.lsym;
      case Negation =>
        Operand(e1);
        Operand(e2);
        same := ExprEqInPlace(e1.left, e2.left);
      case Operation(_) =>
        var c1 := Copy(e1);
        var c2 := Copy(e2);
        c1, c2 := EliminateEqInPlace(c1, c2);
        same := c1.kind.Leaf? && c2.kind.Leaf? && c1.lsym == c2.lsym;
    }
  }

  /** expr_eliminate_eq. */
  method EliminateEqInPlace(e1: ExprNode, e2: ExprNode) returns (r1: ExprNode, r2: ExprNode)
    requires Apart(e1, e2)
    modifies e1.repr, e2.repr
    ensures Apart(r1, r2) && fresh(r1.repr - old(e1.repr)) && fresh(r2.repr - old(e2.repr))
    ensures (r1.Tree(), r2.Tree()) == EliminateEq(old(e1.Tree()), old(e2.Tree()))
    decreases Size(e1.Tree()) + Size(e2.Tree()), 1
  {
    hide EliminateEqRec, EliminateYN, ExprNode.Valid, ExprNode.Tree;
    r1, r2 := e1, e2;
    if r1.kind.Operation? {
      r1, r2 := EliminateEqRecInPlace(r1.kind.op, r1, r2);
    }
    if r1.kind != r2.kind && r2.kind.Operation? {
      r1, r2 := EliminateEqRecInPlace(r2.kind.op, r1, r2);
    }
    EliminateYNInPlace(r1);
    EliminateYNInPlace(r2);
  }

  /** Both operands of the first tree in turn, against the second. */
  method StrikeFirst(op: Op, l: ExprNode, r: ExprNode, e2: ExprNode) returns (a: ExprNode, b: ExprNode, g: ExprNode)
    requires Apart(l, r) && Apart(l, e2) && Apart(r, e2)
    modifies l.repr, r.repr, e2.repr
    ensures Apart(a, b) && Apart(a, g) && Apart(b, g)
    ensures fresh(a.repr - old(l.repr)) && fresh(b.repr - old(r.repr)) && fresh(g.repr - old(e2.repr))
    ensures var (x, f) := EliminateEqRec(op, old(l.Tree()), old(e2.Tree()));
      a.Tree() == x && (b.Tree(), g.Tree()) == EliminateEqRec(op, old(r.Tree()), f)
    decreases 1 + Size(l.Tree()) + Size(r.Tree()) + Size(e2.Tree()), 0, 0
  {
    hide ExprEq, EliminateEq, EliminateEqRec, ExprNode.Valid, ExprNode.Tree;
    a, g := EliminateEqRecInPlace(op, l, e2);
    ghost var kept := a.repr;
    b, g := EliminateEqRecInPlace(op, r, g);
    assert a.repr == kept;
  }

  /** Both operands of the second tree in turn, against the first. */
  method StrikeSecond(op: Op, e1: ExprNode, l: ExprNode, r: ExprNode) returns (c: ExprNode, a: ExprNode, b: ExprNode)
    requires Apart(l, r) && Apart(e1, l) && Apart(e1, r)
    modifies e1.repr, l.repr, r.repr
    ensures Apart(a, b) && Apart(c, a) && Apart(c, b)
    ensures fresh(a.repr - old(l.repr)) && fresh(b.repr - old(r.repr)) && fresh(c.repr - old(e1.repr))
    ensures var (d, x) := EliminateEqRec(op, old(e1.Tree()), old(l.Tree()));
      a.Tree() == x && (c.Tree(), b.Tree()) == EliminateEqRec(op, d, old(r.Tree()))
    decreases 1 + Size(e1.Tree()) + Size(l.Tree()) + Size(r.Tree()), 0, 0
  {
    hide ExprEq, EliminateEq, EliminateEqRec, ExprNode.Valid, ExprNode.Tree;
    c, a := EliminateEqRecInPlace(op, e1, l);
    ghost var kept := a.repr;
    c, b := EliminateEqRecInPlace(op, c, r);
    assert a.repr == kept;
  }

  /** The branch of __expr_eliminate_eq that goes down the first tree. */
  method GoDownFirst(op: Op, e1: ExprNode, e2: ExprNode) returns (r2: ExprNode)
    requires Apart(e1, e2) && e1.kind == Operation(op)
    modifies e1.repr, e2.repr
    ensures Apart(e1, r2) && fresh(e1.repr - old(e1.repr)) && fresh(r2.repr - old(e2.repr))
    ensures (e1.Tree(), r2.Tree()) == EliminateEqRec(op, old(e1.Tree()), old(e2.Tree()))
    decreases Size(e1.Tree()) + Size(e2.Tree()), 0, 1
  {
    hide ExprEq, EliminateEq, ExprNode.Valid, ExprNode.Tree;
    Operands(e1);
    var a, b;
    a, b, r2 := StrikeFirst(op, e1.left, e1.right, e2);
    Rejoin(e1, a, b);
  }

  /** The branch that goes down the second. */
  method GoDownSecond(op: Op, e1: ExprNode, e2: ExprNode) returns (r1: ExprNode)
    requires Apart(e1, e2) && e1.kind != Operation(op) && e2.kind == Operation(op)
    modifies e1.repr, e2.repr
    ensures Apart(r1, e2) && fresh(r1.repr - old(e1.repr)) && fresh(e2.repr - old(e2.repr))
    ensures (r1.Tree(), e2.Tree()) == EliminateEqRec(op, old(e1.Tree()), old(e2.Tree()))
    decreases Size(e1.Tree()) + Size(e2.Tree()), 0, 1
  {
    hide ExprEq, EliminateEq, ExprNode.Valid, ExprNode.Tree;
    Operands(e2);
    var a, b;
    r1, a, b := StrikeSecond(op, e1, e2.left, e2.right);
    Rejoin(e2, a, b);
  }

  /** __expr_eliminate_eq. */
  method EliminateEqRecInPlace(op: Op, e1: ExprNode, e2: ExprNode) returns (r1: ExprNode, r2: ExprNode)
    requires Apart(e1, e2)
    modifies e1.repr, e2.repr
    ensures Apart(r1, r2) && fresh(r1.repr - old(e1.repr)) && fresh(r2.repr - old(e2.repr))
    ensures (r1.Tree(), r2.Tree()) == EliminateEqRec(op, old(e1.Tree()), old(e2.Tree()))
    decreases Size(e1.Tree()) + Size(e2.Tree()), if IsOp(e1.Tree(), op) || IsOp(e2.Tree(), op) then 0 else 3, 2
  {
    hide ExprEq, EliminateEq, ExprNode.Tree;
    r1, r2 := e1, e2;
    if e1.kind == Operation(op) {
      r2 := GoDownFirst(op, e1, e2);
      return;
    }
    if e2.kind == Operation(op) {
      r1 := GoDownSecond(op, e1, e2);
      return;
    }
    if e1.kind.Leaf? && e2.kind.Leaf? && e1.lsym == e2.lsym && (e1.lsym == SymYes || e1.lsym == SymNo) {
      return;
    }
    var same := ExprEqInPlace(e1, e2);
    if same {
      r1 := new ExprNode(Leaf, null, null, Unit(op), Unit(op));
      r2 := new ExprNode(Leaf, null, null, Unit(op), Unit(op));
    }
  }
}
