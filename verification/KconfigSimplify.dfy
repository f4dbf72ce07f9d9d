/**
 The loop of expr_eliminate_dups: why it ends, and what its result means.
 */
module KconfigSimplify {
  import opened Wrappers
  import opened KconfigExpr
  import opened KconfigEq
  import opened KconfigTransform
  import opened KconfigJoin
  import opened KconfigSpine
  import opened KconfigDups

  /** expr_eliminate_yn will drop at least one leaf. */
  predicate Folds(e: Expr) {
    e.Bin? && (IsYes(e.left) || IsNo(e.left) || IsYes(e.right) || IsNo(e.right) || Folds(e.left) || Folds(e.right))
  }

  lemma FoldingDropsLeaves(e: Expr)
    requires Folds(e)
    ensures Leaves(EliminateYN(e)) < Leaves(e)
  {
  }

  lemma {:induction false} FoldsInside(op: Op, e: Expr, p: Path)
    requires InSpine(op, e, p)
    requires Folds(At(op, e, p)) || (p != [] && (IsYes(At(op, e, p)) || IsNo(At(op, e, p))))
    ensures Folds(e)
  {
    if |p| > 1 || (|p| == 1 && Folds(At(op, e, p))) {
      FoldsInside(op, Child(e, p[0]), p[1..]);
    }
  }

  lemma JoinAtFolds(op: Op, e: Expr, p: Path, q: Path)
    requires InSpine(op, e, p) && InSpine(op, e, q) && p != q
    requires !IsOp(At(op, e, p), op) && !IsOp(At(op, e, q), op)
    ensures var (r, n) := JoinAt(op, e, p, q); if n == 0 then r == e else Folds(r)
  {
    hide Join, Leaves;
    match Join(op, At(op, e, p), At(op, e, q))
    case None =>
    case Some(t) =>
      NotTheRoot(op, e, p, q);
      var a := Put(op, e, p, Symb(Unit(op)));
      PutAt(op, e, p, Symb(Unit(op)));
      PutElsewhere(op, e, p, q, Symb(Unit(op)));
      PutAt(op, a, q, t);
      PutElsewhere(op, a, q, p, t);
      FoldsInside(op, Put(op, a, q, t), p);
  }

  lemma {:induction false} PutSame(op: Op, e: Expr, p: Path)
    requires InSpine(op, e, p)
    ensures Put(op, e, p, At(op, e, p)) == e
  {
    if p != [] {
      PutSame(op, Child(e, p[0]), p[1..]);
    }
  }

  /** dups1 either changes nothing or leaves a constant to fold. */
  lemma {:induction false} Dups1Folds(op: Op, e: Expr, p: Path, q: Path)
    requires InSpine(op, e, p) && InSpine(op, e, q)
    ensures var (r, n) := Dups1(op, e, p, q); if n == 0 then r == e else Folds(r)
    decreases Leaves(e), SpineSize(op, At(op, e, p)), SpineSize(op, At(op, e, q))
  {
    hide JoinAt, SameSpine, Put, Folds, Leaves;
    var e1, e2 := At(op, e, p), At(op, e, q);
    if IsOp(e1, op) {
      Descend(op, e, p, L);
      Descend(op, e, p, R);
      var a := Dups1(op, e, p + [L], q).0;
      SameSpineAt(op, e, a, p + [R]);
      SameSpineAt(op, e, a, q);
      Dups1Folds(op, e, p + [L], q);
      Dups1Folds(op, a, p + [R], q);
    } else if IsOp(e2, op) {
      Descend(op, e, q, L);
      Descend(op, e, q, R);
      var a := Dups1(op, e, p, q + [L]).0;
      SameSpineAt(op, e, a, p);
      SameSpineAt(op, e, a, q + [R]);
      Dups1Folds(op, e, p, q + [L]);
      Dups1Folds(op, a, p, q + [R]);
    } else if p != q {
      NotTheRoot(op, e, p, q);
      var a := Dups1Operand(op, e, p).0;
      SameSpineAt(op, e, a, p);
      SameSpineAt(op, e, a, q);
      if e1.Bin? {
        OperandIsSmaller(op, e, p);
        Dups1Folds(e1.op, e1, [], []);
        OtherSpine(op, e1, Dups1(e1.op, e1, [], []).0);
        OperandFolds(op, e, p, Dups1(e1.op, e1, [], []).0, Dups1(e1.op, e1, [], []).1);
      }
      OperandsStay(op, e, a, p, q);
      JoinAtFolds(op, a, p, q);
    }
  }

  /** A pass on one operand that folds, or changes nothing, does so in the whole tree. */
  lemma OperandFolds(op: Op, e: Expr, p: Path, y: Expr, n: nat)
    requires InSpine(op, e, p) && SameSpine(op, At(op, e, p), y)
    requires if n == 0 then y == At(op, e, p) else Folds(y)
    ensures if n == 0 then Put(op, e, p, y) == e else Folds(Put(op, e, p, y))
  {
    PutAt(op, e, p, y);
    PutSame(op, e, p);
    if n > 0 {
      FoldsInside(op, Put(op, e, p, y), p);
    }
  }

  lemma {:induction false} Dups2Folds(op: Op, e: Expr, p: Path, q: Path)
    requires InSpine(op, e, p) && InSpine(op, e, q)
    ensures var (r, n) := Dups2(op, e, p, q); if n == 0 then r == e else Folds(r)
    decreases Leaves(e), SpineSize(op, At(op, e, p)), SpineSize(op, At(op, e, q)), 2
  {
    hide Dups2Operand, Put, Folds, Leaves;
    var e1, e2 := At(op, e, p), At(op, e, q);
    if IsOp(e1, op) {
      Descend(op, e, p, L);
      Descend(op, e, p, R);
      var a := Dups2(op, e, p + [L], q).0;
      SameSpineAt(op, e, a, p + [R]);
      SameSpineAt(op, e, a, q);
      Dups2Folds(op, e, p + [L], q);
      Dups2Folds(op, a, p + [R], q);
    } else if IsOp(e2, op) {
      Descend(op, e, q, L);
      Descend(op, e, q, R);
      var a := Dups2(op, e, p, q + [L]).0;
      SameSpineAt(op, e, a, p);
      SameSpineAt(op, e, a, q + [R]);
      Dups2Folds(op, e, p, q + [L]);
      Dups2Folds(op, a, p, q + [R]);
      var b := Dups2(op, a, p, q + [R]).0;
      SameSpineTransitive(op, e, a, b);
      SameSpineAt(op, e, b, p);
      SameSpineAt(op, e, b, q);
      Dups2OperandFolds(op, b, p, q);
    } else if p != q {
      Dups2OperandFolds(op, e, p, q);
    }
  }

  lemma {:induction false} Dups2OperandFolds(op: Op, e: Expr, p: Path, q: Path)
    requires InSpine(op, e, p) && InSpine(op, e, q) && p != q && !IsOp(At(op, e, p), op)
    ensures var (r, n) := Dups2Operand(op, e, p, q); if n == 0 then r == e else Folds(r)
    decreases Leaves(e), SpineSize(op, At(op, e, p)), SpineSize(op, At(op, e, q)), 1
  {
    hide Dups2, Folds, Leaves, ExtractEq, Transform;
    var x := At(op, e, p);
    if x.Bin? {
      NotTheRoot(op, e, p, q);
      OperandIsSmaller(op, e, p);
      var (y, m) := Dups2(x.op, x, [], []);
      Dups2Folds(x.op, x, [], []);
      OperandFolds(op, e, p, y, m);
      var a := Put(op, e, p, y);
      PutAt(op, e, p, y);
      SameSpineAt(op, e, a, q);
      PutAt(op, a, p, Symb(Zero(op)));
      if ContradictAt(op, a, p, q).1 > 0 {
        FoldsInside(op, ContradictAt(op, a, p, q).0, p);
      }
    }
  }

  // ---------------------------------------------------------------------------
  // The loop
  // ---------------------------------------------------------------------------

  /** One round of the loop: the tree and the number of changes. */
  function Round(e: Expr): (Expr, nat) {
    if e.Bin? then
      var (a, m) := Dups1(e.op, e, [], []);
      var (b, n) := Dups2(e.op, a, [], []);
      (b, m + n)
    else (e, 0)
  }

  /** Every round that changes something ends, after folding, with fewer leaves. */
  lemma RoundDropsLeaves(e: Expr)
    ensures var (r, n) := Round(e);
      if n == 0 then r == e else Leaves(EliminateYN(r)) < Leaves(e)
  {
    if e.Bin? {
      var (a, _) := Dups1(e.op, e, [], []);
      Dups1Folds(e.op, e, [], []);
      Dups2Folds(e.op, a, [], []);
      var (r, n) := Round(e);
      if n > 0 {
        FoldingDropsLeaves(r);
      }
    }
  }

  function EliminateDups(e: Expr): (r: Expr)
    decreases Leaves(e)
  {
    var (a, n) := Round(e);
    RoundDropsLeaves(e);
    if n == 0 then a else EliminateDups(EliminateYN(a))
  }

  lemma RoundValue(e: Expr, v: Valuation)
    requires WellFormed(v)
    ensures Refines(Value(e, v), Value(Round(e).0, v))
  {
    if e.Bin? {
      Dups1Value(e.op, e, [], [], v);
      Dups2Value(e.op, Dups1(e.op, e, [], []).0, [], [], v);
    }
  }

  /** expr_eliminate_dups keeps the value in every valuation in which it is not m. */
  lemma {:induction false} EliminateDupsValue(e: Expr, v: Valuation)
    requires WellFormed(v)
    ensures Refines(Value(e, v), Value(EliminateDups(e), v))
    decreases Leaves(e)
  {
    var (a, n) := Round(e);
    RoundValue(e, v);
    RoundDropsLeaves(e);
    if n > 0 {
      EliminateYNValue(a, v);
      EliminateDupsValue(EliminateYN(a), v);
    }
  }

  /** A run in which the step of dups2 that is wrong at m never fires. */
  predicate NeverStrikes(e: Expr)
    decreases Leaves(e)
  {
    if e.Bin? then
      var (a, m) := Dups1(e.op, e, [], []);
      var (b, n) := Dups2(e.op, a, [], []);
      RoundDropsLeaves(e);
      n == 0 && (m == 0 || NeverStrikes(EliminateYN(b)))
    else true
  }

  /** Without that step expr_eliminate_dups keeps all three values. */
  lemma {:induction false} EliminateDupsExact(e: Expr, v: Valuation)
    requires WellFormed(v) && NeverStrikes(e)
    ensures Value(EliminateDups(e), v) == Value(e, v)
    decreases Leaves(e)
  {
    if e.Bin? {
      var a := Dups1(e.op, e, [], []).0;
      Dups1Value(e.op, e, [], [], v);
      Dups2Folds(e.op, a, [], []);
      RoundDropsLeaves(e);
      if Round(e).1 > 0 {
        EliminateYNValue(a, v);
        EliminateDupsExact(EliminateYN(a), v);
      }
    }
  }

  /** No symbol that stands for its own value is m. */
  predicate Crisp(e: Expr, v: Valuation) {
    match e
    case Symb(s) => v(s).tri != MOD
    case Comp(_, _, _) => true
    case Not(a) => Crisp(a, v)
    case Bin(_, l, r) => Crisp(l, v) && Crisp(r, v)
  }

  lemma CrispValue(e: Expr, v: Valuation)
    requires Crisp(e, v)
    ensures Value(e, v) != MOD
  {
  }

  /** In two-valued logic expr_eliminate_dups preserves the meaning exactly. */
  lemma EliminateDupsCrisp(e: Expr, v: Valuation)
    requires WellFormed(v) && Crisp(e, v)
    ensures Value(EliminateDups(e), v) == Value(e, v)
  {
    CrispValue(e, v);
    EliminateDupsValue(e, v);
  }

  /** Nothing is left to do on the result: the fixpoint is reached. */
  lemma {:induction false} EliminateDupsFixpoint(e: Expr)
    ensures Round(EliminateDups(e)) == (EliminateDups(e), 0)
    ensures EliminateDups(EliminateDups(e)) == EliminateDups(e)
    decreases Leaves(e)
  {
    var (a, n) := Round(e);
    RoundDropsLeaves(e);
    if n > 0 {
      EliminateDupsFixpoint(EliminateYN(a));
    }
  }
}
