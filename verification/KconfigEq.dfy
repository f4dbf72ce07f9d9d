/**
 expr_eliminate_yn, expr_eq and expr_eliminate_eq. The last two call each other:
 two AND/OR trees are compared by striking out equal operands of copies of both,
 and operands are compared by expr_eq.
 */
module KconfigEq {
  import opened KconfigExpr

  /** Folds the constants y and n below AND and OR; does not look below NOT. */
  function EliminateYN(e: Expr): (r: Expr)
    ensures Size(r) <= Size(e)
    ensures Leaves(r) <= Leaves(e)
  {
    match e
    case Bin(op, l, r) =>
      var l', r' := EliminateYN(l), EliminateYN(r);
      if l' == Symb(Zero(op)) then Symb(Zero(op))
      else if l' == Symb(Unit(op)) then r'
      else if r' == Symb(Zero(op)) then Symb(Zero(op))
      else if r' == Symb(Unit(op)) then l'
      else Bin(op, l', r')
    case _ => e
  }

  lemma EliminateYNValue(e: Expr, v: Valuation)
    requires Anchored(v)
    ensures Value(EliminateYN(e), v) == Value(e, v)
  {
  }

  /** No operand of an AND or an OR is y or n. */
  predicate NoConstants(e: Expr) {
    e.Bin? ==>
      && !IsYes(e.left) && !IsNo(e.left) && !IsYes(e.right) && !IsNo(e.right)
      && NoConstants(e.left) && NoConstants(e.right)
  }

  /** Folding leaves none, and stops at nothing else. */
  lemma EliminateYNFolds(e: Expr)
    ensures NoConstants(EliminateYN(e))
    ensures NoConstants(e) <==> EliminateYN(e) == e
  {
  }

  /** The expr_type tags agree. */
  predicate SameType(e1: Expr, e2: Expr) {
    match e1
    case Symb(_) => e2.Symb?
    case Not(_) => e2.Not?
    case Bin(op, _, _) => IsOp(e2, op)
    case Comp(eq, _, _) => e2.Comp? && e2.equal == eq
  }

  /** __expr_eliminate_eq: both cursors, in the order the recursion visits them. */
  function EliminateEqRec(op: Op, e1: Expr, e2: Expr): (r: (Expr, Expr))
    ensures Size(r.0) <= Size(e1) && Size(r.1) <= Size(e2)
    decreases Size(e1) + Size(e2), if IsOp(e1, op) || IsOp(e2, op) then 0 else 3
  {
    if IsOp(e1, op) then
      var (l, f) := EliminateEqRec(op, e1.left, e2);
      var (r, g) := EliminateEqRec(op, e1.right, f);
      (Bin(op, l, r), g)
    else if IsOp(e2, op) then
      var (d, l) := EliminateEqRec(op, e1, e2.left);
      var (c, r) := EliminateEqRec(op, d, e2.right);
      (c, Bin(op, l, r))
    else if e1 == e2 && (IsYes(e1) || IsNo(e1)) then (e1, e2)
    else if !ExprEq(e1, e2) then (e1, e2)
    else (Symb(Unit(op)), Symb(Unit(op)))
  }

  function EliminateEq(e1: Expr, e2: Expr): (r: (Expr, Expr))
    ensures Size(r.0) <= Size(e1) && Size(r.1) <= Size(e2)
    decreases Size(e1) + Size(e2), 1
  {
    var (a, b) := if e1.Bin? then EliminateEqRec(e1.op, e1, e2) else (e1, e2);
    var (c, d) := if !SameType(a, b) && b.Bin? then EliminateEqRec(b.op, a, b) else (a, b);
    (EliminateYN(c), EliminateYN(d))
  }

  predicate ExprEq(e1: Expr, e2: Expr)
    decreases Size(e1) + Size(e2), 2
  {
    if !SameType(e1, e2) then false
    else
      match e1
      case Comp(_, l, r) => l == e2.lsym && r == e2.rsym
      case Symb(s) => s == e2.sym
      case Not(a) => ExprEq(a, e2.arg)
      case Bin(_, _, _) =>
        var (a, b) := EliminateEq(e1, e2);
        a.Symb? && b.Symb? && a.sym == b.sym
  }

  // ---------------------------------------------------------------------------
  // Soundness
  // ---------------------------------------------------------------------------

  /** What elimination strikes out of both sides is one common operand of value `common`. */
  lemma {:induction false} EliminateEqRecSound(op: Op, e1: Expr, e2: Expr, v: Valuation) returns (common: Tristate)
    requires Anchored(v)
    ensures var (a, b) := EliminateEqRec(op, e1, e2);
      && Value(e1, v) == Apply(op, Value(a, v), common)
      && Value(e2, v) == Apply(op, Value(b, v), common)
    decreases Size(e1) + Size(e2), if IsOp(e1, op) || IsOp(e2, op) then 0 else 3
  {
    common := v(Unit(op)).tri;
    if IsOp(e1, op) {
      var (l, f) := EliminateEqRec(op, e1.left, e2);
      var c := EliminateEqRecSound(op, e1.left, e2, v);
      var d := EliminateEqRecSound(op, e1.right, f, v);
      common := Apply(op, c, d);
      var (r, g) := EliminateEqRec(op, e1.right, f);
      ApplyLaws(op, Value(l, v), Value(r, v), c, d);
      ApplyLaws(op, Value(g, v), Value(r, v), c, d);
    } else if IsOp(e2, op) {
      var (d, l) := EliminateEqRec(op, e1, e2.left);
      var c := EliminateEqRecSound(op, e1, e2.left, v);
      var f := EliminateEqRecSound(op, d, e2.right, v);
      common := Apply(op, c, f);
      var (g, r) := EliminateEqRec(op, d, e2.right);
      ApplyLaws(op, Value(l, v), Value(r, v), c, f);
      ApplyLaws(op, Value(g, v), Value(r, v), c, f);
    } else if e1 == e2 && (IsYes(e1) || IsNo(e1)) {
    } else if ExprEq(e1, e2) {
      ExprEqSound(e1, e2, v);
      common := Value(e1, v);
    }
  }

  /** expr_eq answers 1 only for expressions of equal value. */
  lemma {:induction false} ExprEqSound(e1: Expr, e2: Expr, v: Valuation)
    requires Anchored(v)
    requires ExprEq(e1, e2)
    ensures Value(e1, v) == Value(e2, v)
    decreases Size(e1) + Size(e2), 2
  {
    match e1
    case Not(a) => ExprEqSound(a, e2.arg, v);
    case Bin(op, _, _) =>
      var (a, b) := EliminateEqRec(op, e1, e2);
      var common := EliminateEqRecSound(op, e1, e2, v);
      EliminateEqRecKeepsOp(op, e1, e2);
      EliminateYNValue(a, v);
      EliminateYNValue(b, v);
    case _ =>
  }

  lemma {:induction false} EliminateEqRecKeepsOp(op: Op, e1: Expr, e2: Expr)
    ensures var (a, b) := EliminateEqRec(op, e1, e2);
      IsOp(a, op) == IsOp(e1, op) && IsOp(b, op) == IsOp(e2, op)
    decreases Size(e1) + Size(e2)
  {
    if IsOp(e1, op) {
      var (l, f) := EliminateEqRec(op, e1.left, e2);
      EliminateEqRecKeepsOp(op, e1.left, e2);
      EliminateEqRecKeepsOp(op, e1.right, f);
    } else if IsOp(e2, op) {
      var (d, l) := EliminateEqRec(op, e1, e2.left);
      EliminateEqRecKeepsOp(op, e1, e2.left);
      EliminateEqRecKeepsOp(op, d, e2.right);
    }
  }

  /**
   Elimination keeps the order of the two sides in both directions of use: what is
   left of the sides is ordered only if the sides themselves were.
   */
  lemma EliminateEqReflectsOrder(e1: Expr, e2: Expr, v: Valuation)
    requires Anchored(v)
    ensures var (a, b) := EliminateEq(e1, e2);
      Value(a, v) <= Value(b, v) ==> Value(e1, v) <= Value(e2, v)
  {
    var (a, b) := if e1.Bin? then EliminateEqRec(e1.op, e1, e2) else (e1, e2);
    var (c, d) := if !SameType(a, b) && b.Bin? then EliminateEqRec(b.op, a, b) else (a, b);
    EliminateYNValue(c, v);
    EliminateYNValue(d, v);
    if !SameType(a, b) && b.Bin? {
      var _ := EliminateEqRecSound(b.op, a, b, v);
    }
    if e1.Bin? {
      var _ := EliminateEqRecSound(e1.op, e1, e2, v);
    }
  }

  // ---------------------------------------------------------------------------
  // Reflexivity
  // ---------------------------------------------------------------------------

  /** A tree of `op` all of whose operands are y or n: nothing in it can be struck out. */
  predicate Settled(op: Op, e: Expr) {
    if IsOp(e, op) then Settled(op, e.left) && Settled(op, e.right)
    else IsYes(e) || IsNo(e)
  }

  /** The tree after its own operands have been struck out. */
  function Settle(op: Op, e: Expr): (r: Expr)
    ensures Settled(op, r)
  {
    if IsOp(e, op) then Bin(op, Settle(op, e.left), Settle(op, e.right))
    else if IsYes(e) || IsNo(e) then e
    else Symb(Unit(op))
  }

  lemma {:induction false} SettledStays(op: Op, e1: Expr, e2: Expr)
    requires Settled(op, e1) || Settled(op, e2)
    ensures EliminateEqRec(op, e1, e2) == (e1, e2)
    decreases Size(e1) + Size(e2)
  {
    if IsOp(e1, op) {
      SettledStays(op, e1.left, e2);
      SettledStays(op, e1.right, e2);
    } else if IsOp(e2, op) {
      SettledStays(op, e1, e2.left);
      SettledStays(op, e1, e2.right);
    }
  }

  /** Striking a tree against `a op b` is striking it against `a`, then against `b`. */
  lemma {:induction false} EliminateInTurn(op: Op, e: Expr, a: Expr, b: Expr)
    ensures
      var (d, a') := EliminateEqRec(op, e, a);
      var (c, b') := EliminateEqRec(op, d, b);
      EliminateEqRec(op, e, Bin(op, a, b)) == (c, Bin(op, a', b'))
    decreases Size(e)
  {
    if IsOp(e, op) {
      var (_, a') := EliminateEqRec(op, e.left, a);
      var (_, b') := EliminateEqRec(op, EliminateEqRec(op, e.left, a).0, b);
      EliminateInTurn(op, e.left, a, b);
      EliminateInTurn(op, e.right, a', b');
    }
  }

  lemma {:induction false} EliminateSelf(op: Op, e: Expr)
    ensures EliminateEqRec(op, e, e) == (Settle(op, e), Settle(op, e))
    decreases Size(e), if IsOp(e, op) then 1 else 3
  {
    if IsOp(e, op) {
      var l, r := e.left, e.right;
      EliminateSelf(op, l);
      EliminateSelf(op, r);
      EliminateInTurn(op, l, l, r);
      SettledStays(op, Settle(op, l), r);
      EliminateInTurn(op, r, Settle(op, l), r);
      SettledStays(op, r, Settle(op, l));
    } else if !(IsYes(e) || IsNo(e)) {
      ExprEqReflexive(e);
    }
  }

  lemma SettledFolds(op: Op, e: Expr)
    requires Settled(op, e)
    ensures EliminateYN(e) == Symb(SymYes) || EliminateYN(e) == Symb(SymNo)
  {
  }

  /** expr_eq answers 1 on two copies of the same expression, whatever its shape. */
  lemma {:induction false} ExprEqReflexive(e: Expr)
    ensures ExprEq(e, e)
    decreases Size(e), 2
  {
    match e
    case Not(a) => ExprEqReflexive(a);
    case Bin(op, _, _) =>
      EliminateSelf(op, e);
      SettledFolds(op, Settle(op, e));
    case _ =>
  }
}
