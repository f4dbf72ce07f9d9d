/**
 expr_eliminate_dups on nodes. Both passes get two pointers into one tree; here they are
 positions, and what stands at a position is replaced by setting the pointer of the node
 above it. What is copied only to be looked at is looked at as a value.
 */
module KconfigDupsInPlace {
  import opened Wrappers
  import opened KconfigExpr
  import opened KconfigEq
  import opened KconfigTransform
  import opened KconfigJoin
  import opened KconfigSpine
  import opened KconfigDups
  import opened KconfigSimplify
  import opened KconfigInPlace

  /** The expression of a tree of nodes, as a copy. */
  method Read(n: ExprNode) returns (e: Expr)
    requires n.Valid()
    ensures e == n.Tree()
    decreases n.repr
  {
    hide ExprNode.Valid, ExprNode.Tree;
    match n.kind {
      case Leaf => LeafTree(n); e := Symb(n.lsym);
      case Comparison(equal) => LeafTree(n); e := Comp(equal, n.lsym, n.rsym);
      case Negation =>
        Operand(n);
        var a := Read(n.left);
        e := Not(a);
      case Operation(op) =>
        Operands(n);
        var l := Read(n.left);
        var r := Read(n.right);
        e := Bin(op, l, r);
    }
  }

  lemma LeafTree(n: ExprNode)
    requires n.Valid()
    ensures n.kind.Leaf? ==> n.Tree() == Symb(n.lsym)
    ensures n.kind.Comparison? ==> n.Tree() == Comp(n.kind.equal, n.lsym, n.rsym)
  {
  }

  /** New nodes for an expression. */
  method Build(e: Expr) returns (n: ExprNode)
    ensures n.Valid() && fresh(n.repr) && n.Tree() == e
  {
    hide ExprNode.Valid, ExprNode.Tree;
    match e {
      case Symb(s) =>
        n := new ExprNode(Leaf, null, null, s, s);
        OnItsOwn(n);
        LeafTree(n);
      case Comp(equal, l, r) =>
        n := new ExprNode(Comparison(equal), null, null, l, r);
        OnItsOwn(n);
        LeafTree(n);
      case Not(a) =>
        var m := Build(a);
        n := NegationOf(m);
      case Bin(op, l, r) =>
        var a := Build(l);
        var b := Build(r);
        n := new ExprNode(Operation(op), a, b, SymNo, SymNo);
        Rejoin(n, a, b);
    }
  }

  /** The node at a position. */
  method Locate(root: ExprNode, op: Op, p: Path) returns (n: ExprNode)
    requires root.Valid() && InSpine(op, root.Tree(), p)
    ensures n.Valid() && n.repr <= root.repr && n.Tree() == At(op, root.Tree(), p)
    decreases p
  {
    if p == [] {
      return root;
    }
    hide ExprNode.Valid, ExprNode.Tree;
    assert root.kind == Operation(op) by { KindOf(root); }
    Operands(root);
    n := Locate(if p[0] == L then root.left else root.right, op, p[1..]);
  }

  lemma KindOf(n: ExprNode)
    requires n.Valid()
    ensures forall op :: IsOp(n.Tree(), op) <==> n.kind == Operation(op)
    ensures n.Tree().Bin? <==> n.kind.Operation?
  {
  }

  /** Sets the pointer at a position below the root. */
  method SetAt(root: ExprNode, op: Op, p: Path, n: ExprNode)
    requires root.Valid() && InSpine(op, root.Tree(), p) && p != [] && n.Valid() && n.repr !! root.repr
    modifies root.repr
    ensures root.Valid() && root.repr <= old(root.repr) + n.repr
    ensures n.Valid() && root.Tree() == Put(op, old(root.Tree()), p, old(n.Tree()))
    decreases p
  {
    hide ExprNode.Valid, ExprNode.Tree;
    assert root.kind == Operation(op) by { KindOf(root); }
    Operands(root);
    var l, r := root.left, root.right;
    if |p| == 1 {
      if p[0] == L {
        Rejoin(root, n, r);
      } else {
        Rejoin(root, l, n);
      }
    } else {
      SetAt(if p[0] == L then l else r, op, p[1..], n);
      Rejoin(root, l, r);
    }
  }

  // ---------------------------------------------------------------------------
  // expr_eliminate_dups1
  // ---------------------------------------------------------------------------

  /** expr_eliminate_dups1: the changes that were made. */
  method Dups1InPlace(op: Op, root: ExprNode, p: Path, q: Path) returns (n: nat)
    requires root.Valid() && InSpine(op, root.Tree(), p) && InSpine(op, root.Tree(), q)
    modifies root.repr
    ensures root.Valid() && fresh(root.repr - old(root.repr))
    ensures (root.Tree(), n) == Dups1(op, old(root.Tree()), p, q)
    decreases Leaves(root.Tree()), SpineSize(op, At(op, root.Tree(), p)), SpineSize(op, At(op, root.Tree(), q)), 4
  {
    hide ExprNode.Valid, ExprNode.Tree, SameSpine, InSpine, At, Put, Leaves, JoinAt, Dups1Operand;
    ghost var e := root.Tree();
    var e1 := Locate(root, op, p);
    var e2 := Locate(root, op, q);
    KindOf(e1);
    KindOf(e2);
    if e1.kind == Operation(op) {
      Descend(op, e, p, L);
      n := Dups1InPlace(op, root, p + [L], q);
      Descend(op, e, p, R);
      SameSpineAt(op, e, root.Tree(), p + [R]);
      SameSpineAt(op, e, root.Tree(), q);
      var m := Dups1InPlace(op, root, p + [R], q);
      n := n + m;
      return;
    }
    if e2.kind == Operation(op) {
      Descend(op, e, q, L);
      n := Dups1InPlace(op, root, p, q + [L]);
      Descend(op, e, q, R);
      SameSpineAt(op, e, root.Tree(), p);
      SameSpineAt(op, e, root.Tree(), q + [R]);
      var m := Dups1InPlace(op, root, p, q + [R]);
      n := n + m;
      return;
    }
    if p == q {
      return 0;
    }
    n := Dups1OperandInPlace(op, root, p, q);
    SameSpineAt(op, e, root.Tree(), p);
    SameSpineAt(op, e, root.Tree(), q);
    OperandsStay(op, e, root.Tree(), p, q);
    var m := JoinInPlace(op, root, p, q);
    n := n + m;
  }

  /** The pass on one operand by itself. */
  method Dups1OperandInPlace(op: Op, root: ExprNode, p: Path, ghost q: Path) returns (n: nat)
    requires root.Valid() && InSpine(op, root.Tree(), p) && !IsOp(At(op, root.Tree(), p), op)
    requires InSpine(op, root.Tree(), q) && p != q
    modifies root.repr
    ensures root.Valid() && fresh(root.repr - old(root.repr)) && p != []
    ensures (root.Tree(), n) == Dups1Operand(op, old(root.Tree()), p)
    decreases Leaves(root.Tree()), 0, 0, 2
  {
    hide ExprNode.Valid, ExprNode.Tree, SameSpine, Dups1;
    NotTheRoot(op, root.Tree(), p, q);
    var x := Locate(root, op, p);
    KindOf(x);
    n := 0;
    if x.kind.Operation? {
      n := Dups1Below(op, root, p);
    }
  }

  /** The pass on the operand at a position below the root. */
  method Dups1Below(op: Op, root: ExprNode, p: Path) returns (n: nat)
    requires root.Valid() && InSpine(op, root.Tree(), p) && p != [] && At(op, root.Tree(), p).Bin?
    modifies root.repr
    ensures root.Valid() && fresh(root.repr - old(root.repr))
    ensures var x := At(op, old(root.Tree()), p);
      x.Bin? && root.Tree() == Put(op, old(root.Tree()), p, Dups1(x.op, x, [], []).0) && n == Dups1(x.op, x, [], []).1
    decreases Leaves(root.Tree()), 0, 0, 1
  {
    hide ExprNode.Valid, ExprNode.Tree, Dups1;
    assert root.kind == Operation(op) by { KindOf(root); }
    Operands(root);
    var l, r := root.left, root.right;
    if p[0] == L {
      n := Dups1Or(l, op, p[1..]);
    } else {
      n := Dups1Or(r, op, p[1..]);
    }
    Rejoin(root, l, r);
  }

  /** The operand itself, or further down. */
  method Dups1Or(c: ExprNode, op: Op, p: Path) returns (n: nat)
    requires c.Valid() && InSpine(op, c.Tree(), p) && At(op, c.Tree(), p).Bin?
    modifies c.repr
    ensures c.Valid() && fresh(c.repr - old(c.repr))
    ensures var x := At(op, old(c.Tree()), p);
      x.Bin? && c.Tree() == Put(op, old(c.Tree()), p, Dups1(x.op, x, [], []).0) && n == Dups1(x.op, x, [], []).1
    decreases Leaves(c.Tree()), SpineSize(if c.kind.Operation? then c.kind.op else op, c.Tree()) + 1, 0, 2
  {
    hide ExprNode.Valid, ExprNode.Tree, Dups1;
    if p == [] {
      KindOf(c);
      n := Dups1InPlace(c.kind.op, c, [], []);
    } else {
      n := Dups1Below(op, c, p);
    }
  }

  /** expr_join_or and expr_join_and on two operands: the first becomes neutral, the second the join. */
  method JoinInPlace(op: Op, root: ExprNode, p: Path, q: Path) returns (n: nat)
    requires root.Valid() && InSpine(op, root.Tree(), p) && InSpine(op, root.Tree(), q) && p != q
    requires !IsOp(At(op, root.Tree(), p), op) && !IsOp(At(op, root.Tree(), q), op)
    modifies root.repr
    ensures root.Valid() && fresh(root.repr - old(root.repr))
    ensures (root.Tree(), n) == JoinAt(op, old(root.Tree()), p, q)
  {
    hide ExprNode.Valid, ExprNode.Tree, Join, SameSpine;
    ghost var e := root.Tree();
    NotTheRoot(op, e, p, q);
    NotTheRoot(op, e, q, p);
    var x := Locate(root, op, p);
    var y := Locate(root, op, q);
    var e1 := Read(x);
    var e2 := Read(y);
    var tmp := Join(op, e1, e2);
    if tmp == None {
      return 0;
    }
    PutElsewhere(op, e, p, q, Symb(Unit(op)));
    var neutral := Build(Symb(Unit(op)));
    SetAt(root, op, p, neutral);
    var joined := Build(tmp.value);
    SetAt(root, op, q, joined);
    return 1;
  }

  // ---------------------------------------------------------------------------
  // expr_eliminate_dups2
  // ---------------------------------------------------------------------------

  /** expr_eliminate_dups2: the changes that were made. */
  method Dups2InPlace(op: Op, root: ExprNode, p: Path, q: Path) returns (n: nat)
    requires root.Valid() && InSpine(op, root.Tree(), p) && InSpine(op, root.Tree(), q)
    modifies root.repr
    ensures root.Valid() && fresh(root.repr - old(root.repr))
    ensures (root.Tree(), n) == Dups2(op, old(root.Tree()), p, q)
    decreases Leaves(root.Tree()), SpineSize(op, At(op, root.Tree(), p)), SpineSize(op, At(op, root.Tree(), q)), 4
  {
    hide ExprNode.Valid, ExprNode.Tree, SameSpine, InSpine, At, Put, Leaves, Dups2Operand;
    ghost var e := root.Tree();
    var e1 := Locate(root, op, p);
    var e2 := Locate(root, op, q);
    KindOf(e1);
    KindOf(e2);
    if e1.kind == Operation(op) {
      Descend(op, e, p, L);
      n := Dups2InPlace(op, root, p + [L], q);
      Descend(op, e, p, R);
      SameSpineAt(op, e, root.Tree(), p + [R]);
      SameSpineAt(op, e, root.Tree(), q);
      var m := Dups2InPlace(op, root, p + [R], q);
      n := n + m;
      return;
    }
    if e2.kind == Operation(op) {
      n := Dups2Both(op, root, p, q);
      var m := Dups2OperandInPlace(op, root, p, q);
      n := n + m;
      return;
    }
    if p == q {
      return 0;
    }
    n := Dups2OperandInPlace(op, root, p, q);
  }

  /** What both branches of the second spine give, before the second itself is tried. */
  ghost function Both(op: Op, e: Expr, p: Path, q: Path): (r: (Expr, nat))
    requires InSpine(op, e, p) && InSpine(op, e, q) && IsOp(At(op, e, q), op)
    ensures SameSpine(op, e, r.0) && Leaves(r.0) <= Leaves(e)
  {
    Descend(op, e, q, L);
    var (a, m) := Dups2(op, e, p, q + [L]);
    Descend(op, e, q, R);
    SameSpineAt(op, e, a, p);
    SameSpineAt(op, e, a, q + [R]);
    var (b, n) := Dups2(op, a, p, q + [R]);
    SameSpineTransitive(op, e, a, b);
    (b, m + n)
  }

  /** The two calls for the branches of the second. */
  method Dups2Both(op: Op, root: ExprNode, p: Path, q: Path) returns (n: nat)
    requires root.Valid() && InSpine(op, root.Tree(), p) && InSpine(op, root.Tree(), q)
    requires !IsOp(At(op, root.Tree(), p), op) && IsOp(At(op, root.Tree(), q), op)
    modifies root.repr
    ensures root.Valid() && fresh(root.repr - old(root.repr)) && p != q
    ensures (root.Tree(), n) == Both(op, old(root.Tree()), p, q)
    ensures InSpine(op, root.Tree(), p) && InSpine(op, root.Tree(), q) && !IsOp(At(op, root.Tree(), p), op)
    ensures SpineSize(op, At(op, root.Tree(), q)) == SpineSize(op, At(op, old(root.Tree()), q))
    decreases Leaves(root.Tree()), 0, SpineSize(op, At(op, root.Tree(), q)), 3
  {
    hide ExprNode.Valid, ExprNode.Tree, InSpine, Put, Leaves, Dups2;
    ghost var e := root.Tree();
    Descend(op, e, q, L);
    n := Dups2InPlace(op, root, p, q + [L]);
    Descend(op, e, q, R);
    SameSpineAt(op, e, root.Tree(), p);
    SameSpineAt(op, e, root.Tree(), q + [R]);
    var m := Dups2InPlace(op, root, p, q + [R]);
    n := n + m;
    assert (root.Tree(), n) == Both(op, e, p, q);
    SameSpineAt(op, e, root.Tree(), p);
    SameSpineAt(op, e, root.Tree(), q);
  }

  /** The operand by itself, then the test whether it contradicts the other. */
  method Dups2OperandInPlace(op: Op, root: ExprNode, p: Path, q: Path) returns (n: nat)
    requires root.Valid() && InSpine(op, root.Tree(), p) && !IsOp(At(op, root.Tree(), p), op)
    requires InSpine(op, root.Tree(), q) && p != q
    modifies root.repr
    ensures root.Valid() && fresh(root.repr - old(root.repr))
    ensures (root.Tree(), n) == Dups2Operand(op, old(root.Tree()), p, q)
    decreases Leaves(root.Tree()), 0, SpineSize(op, At(op, root.Tree(), q)), 2
  {
    hide ExprNode.Valid, ExprNode.Tree, SameSpine, Dups2, ContradictAt;
    ghost var e := root.Tree();
    NotTheRoot(op, e, p, q);
    var x := Locate(root, op, p);
    KindOf(x);
    n := 0;
    if x.kind.Operation? {
      OperandIsSmaller(op, e, p);
      n := Dups2Below(op, root, p);
      ghost var y := Dups2(At(op, e, p).op, At(op, e, p), [], []).0;
      OtherSpine(op, At(op, e, p), y);
      PutAt(op, e, p, y);
      SameSpineAt(op, e, root.Tree(), q);
      StaysOperation(At(op, e, p).op, At(op, e, p), y);
      assert At(op, root.Tree(), p) == y;
      assert y.Bin? && !IsOp(y, op);
      var m := Contradict(op, root, p, q);
      n := n + m;
    }
  }

  lemma StaysOperation(op: Op, a: Expr, b: Expr)
    requires SameSpine(op, a, b) && IsOp(a, op)
    ensures IsOp(b, op)
  {
  }

  /** The pass on the operand at a position below the root. */
  method Dups2Below(op: Op, root: ExprNode, p: Path) returns (n: nat)
    requires root.Valid() && InSpine(op, root.Tree(), p) && p != [] && At(op, root.Tree(), p).Bin?
    modifies root.repr
    ensures root.Valid() && fresh(root.repr - old(root.repr))
    ensures var x := At(op, old(root.Tree()), p);
      x.Bin? && root.Tree() == Put(op, old(root.Tree()), p, Dups2(x.op, x, [], []).0) && n == Dups2(x.op, x, [], []).1
    decreases Leaves(root.Tree()), 0, 0, 1
  {
    hide ExprNode.Valid, ExprNode.Tree, Dups2;
    assert root.kind == Operation(op) by { KindOf(root); }
    Operands(root);
    var l, r := root.left, root.right;
    if p[0] == L {
      n := Dups2Or(l, op, p[1..]);
    } else {
      n := Dups2Or(r, op, p[1..]);
    }
    Rejoin(root, l, r);
  }

  /** The operand itself, or further down. */
  method Dups2Or(c: ExprNode, op: Op, p: Path) returns (n: nat)
    requires c.Valid() && InSpine(op, c.Tree(), p) && At(op, c.Tree(), p).Bin?
    modifies c.repr
    ensures c.Valid() && fresh(c.repr - old(c.repr))
    ensures var x := At(op, old(c.Tree()), p);
      x.Bin? && c.Tree() == Put(op, old(c.Tree()), p, Dups2(x.op, x, [], []).0) && n == Dups2(x.op, x, [], []).1
    decreases Leaves(c.Tree()), SpineSize(if c.kind.Operation? then c.kind.op else op, c.Tree()) + 1, 0, 2
  {
    hide ExprNode.Valid, ExprNode.Tree, Dups2;
    if p == [] {
      KindOf(c);
      n := Dups2InPlace(c.kind.op, c, [], []);
    } else {
      n := Dups2Below(op, c, p);
    }
  }

  /** An operand whose transformed negation is struck out against the other becomes the absorbing constant. */
  method Contradict(op: Op, root: ExprNode, p: Path, q: Path) returns (n: nat)
    requires root.Valid() && InSpine(op, root.Tree(), p) && InSpine(op, root.Tree(), q) && p != []
    requires At(op, root.Tree(), p).Bin? && !IsOp(At(op, root.Tree(), p), op)
    modifies root.repr
    ensures root.Valid() && fresh(root.repr - old(root.repr))
    ensures (root.Tree(), n) == ContradictAt(op, old(root.Tree()), p, q)
  {
    hide ExprNode.Valid, ExprNode.Tree, Transform, ExtractEq, SameSpine;
    var x := Locate(root, op, p);
    var y := Locate(root, op, q);
    var e1 := Read(x);
    var e2 := Read(y);
    var tmp1 := ExtractEq(op, Transform(Not(e1)), e2).1;
    if tmp1 != Symb(Unit(op)) {
      return 0;
    }
    var zero := Build(Symb(Zero(op)));
    SetAt(root, op, p, zero);
    return 1;
  }

  // ---------------------------------------------------------------------------
  // The loop
  // ---------------------------------------------------------------------------

  /** The pass as the program runs it, with the change counter all passes share. */
  class Simplifier {
    var transCount: nat

    constructor ()
      ensures transCount == 0
    {
      transCount := 0;
    }

    /** expr_eliminate_dups. */
    method EliminateDupsInPlace(root: ExprNode)
      requires root.Valid()
      modifies this, root.repr
      ensures root.Valid() && fresh(root.repr - old(root.repr))
      ensures root.Tree() == EliminateDups(old(root.Tree()))
      ensures transCount == old(transCount)
    {
      hide ExprNode.Valid, ExprNode.Tree, Dups1, Dups2, EliminateYN;
      var oldCount := transCount;
      while true
        invariant root.Valid() && fresh(root.repr - old(root.repr))
        invariant EliminateDups(root.Tree()) == EliminateDups(old(root.Tree()))
        decreases Leaves(root.Tree())
      {
        ghost var before := root.Tree();
        RoundDropsLeaves(before);
        KindOf(root);
        transCount := 0;
        if root.kind.Operation? {
          transCount := OneRound(root);
        }
        assert (root.Tree(), transCount) == Round(before);
        if transCount == 0 {
          break;
        }
        EliminateYNInPlace(root);
      }
      transCount := oldCount;
    }
  }

  /** Both passes, each with the same pointer twice. */
  method OneRound(root: ExprNode) returns (n: nat)
    requires root.Valid() && root.kind.Operation?
    modifies root.repr
    ensures root.Valid() && fresh(root.repr - old(root.repr))
    ensures (root.Tree(), n) == Round(old(root.Tree()))
  {
    hide ExprNode.Valid, ExprNode.Tree, Dups1, Dups2;
    KindOf(root);
    var op := root.kind.op;
    n := Dups1InPlace(op, root, [], []);
    var m := Dups2InPlace(op, root, [], []);
    n := n + m;
  }
}
