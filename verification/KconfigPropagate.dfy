/**
 How menu_finalize propagates dependencies: an entry's own condition is transformed, joined
 to that of the menu around it, and simplified; prompts of entries that are not tristate
 are then made boolean. The last step relies on the form the first ones leave.
 */
module KconfigPropagate {
  import opened Wrappers
  import opened KconfigExpr
  import opened KconfigEq
  import opened KconfigTransform
  import opened KconfigJoin
  import opened KconfigSpine
  import opened KconfigDups
  import opened KconfigSimplify
  import opened KconfigSubmenu

  // ---------------------------------------------------------------------------
  // The form that expr_transform leaves is kept by simplification
  // ---------------------------------------------------------------------------

  lemma {:induction false} NormalAt(op: Op, e: Expr, p: Path)
    requires InSpine(op, e, p) && Normal(e)
    ensures Normal(At(op, e, p))
  {
    if p != [] {
      NormalAt(op, Child(e, p[0]), p[1..]);
    }
  }

  lemma {:induction false} NormalPut(op: Op, e: Expr, p: Path, x: Expr)
    requires InSpine(op, e, p) && Normal(e) && Normal(x)
    ensures Normal(Put(op, e, p, x))
  {
    if p != [] {
      NormalPut(op, Child(e, p[0]), p[1..], x);
    }
  }

  lemma NormalJoin(op: Op, e1: Expr, e2: Expr)
    requires Normal(e1) && Normal(e2)
    ensures var r := Join(op, e1, e2); r.Some? ==> Normal(r.value)
  {
    hide ExprEq;
  }

  lemma NormalJoinAt(op: Op, e: Expr, p: Path, q: Path)
    requires InSpine(op, e, p) && InSpine(op, e, q) && p != q
    requires !IsOp(At(op, e, p), op) && !IsOp(At(op, e, q), op) && Normal(e)
    ensures Normal(JoinAt(op, e, p, q).0)
  {
    hide Join, Normal, SameSpine;
    NormalAt(op, e, p);
    NormalAt(op, e, q);
    NormalJoin(op, At(op, e, p), At(op, e, q));
    var j := Join(op, At(op, e, p), At(op, e, q));
    if j.Some? {
      var a := Put(op, e, p, Symb(Unit(op)));
      ConstantsAreNormal(op);
      PutAt(op, e, p, Symb(Unit(op)));
      SameSpineAt(op, e, a, q);
      NormalPut(op, e, p, Symb(Unit(op)));
      NormalPut(op, a, q, j.value);
    }
  }

  lemma ConstantsAreNormal(op: Op)
    ensures Normal(Symb(Unit(op))) && Normal(Symb(Zero(op)))
    ensures !IsOp(Symb(Unit(op)), op) && !IsOp(Symb(Zero(op)), op)
  {
  }

  lemma {:induction false} Dups1Normal(op: Op, e: Expr, p: Path, q: Path)
    requires InSpine(op, e, p) && InSpine(op, e, q) && Normal(e)
    ensures Normal(Dups1(op, e, p, q).0)
    decreases Leaves(e), SpineSize(op, At(op, e, p)), SpineSize(op, At(op, e, q))
  {
    hide JoinAt, Normal, SameSpine, Leaves, Put;
    var e1, e2 := At(op, e, p), At(op, e, q);
    if IsOp(e1, op) {
      Descend(op, e, p, L);
      Descend(op, e, p, R);
      var a := Dups1(op, e, p + [L], q).0;
      SameSpineAt(op, e, a, p + [R]);
      SameSpineAt(op, e, a, q);
      Dups1Normal(op, e, p + [L], q);
      Dups1Normal(op, a, p + [R], q);
    } else if IsOp(e2, op) {
      Descend(op, e, q, L);
      Descend(op, e, q, R);
      var a := Dups1(op, e, p, q + [L]).0;
      SameSpineAt(op, e, a, p);
      SameSpineAt(op, e, a, q + [R]);
      Dups1Normal(op, e, p, q + [L]);
      Dups1Normal(op, a, p, q + [R]);
    } else if p != q {
      NotTheRoot(op, e, p, q);
      var a := Dups1Operand(op, e, p).0;
      SameSpineAt(op, e, a, p);
      SameSpineAt(op, e, a, q);
      if e1.Bin? {
        OperandIsSmaller(op, e, p);
        NormalAt(op, e, p);
        Dups1Normal(e1.op, e1, [], []);
        NormalPut(op, e, p, Dups1(e1.op, e1, [], []).0);
      }
      OperandsStay(op, e, a, p, q);
      NormalJoinAt(op, a, p, q);
    }
  }

  lemma {:induction false} Dups2Normal(op: Op, e: Expr, p: Path, q: Path)
    requires InSpine(op, e, p) && InSpine(op, e, q) && Normal(e)
    ensures Normal(Dups2(op, e, p, q).0)
    decreases Leaves(e), SpineSize(op, At(op, e, p)), SpineSize(op, At(op, e, q)), 2
  {
    hide Dups2Operand, Normal, Leaves, Put;
    var e1, e2 := At(op, e, p), At(op, e, q);
    if IsOp(e1, op) {
      Descend(op, e, p, L);
      Descend(op, e, p, R);
      var a := Dups2(op, e, p + [L], q).0;
      SameSpineAt(op, e, a, p + [R]);
      SameSpineAt(op, e, a, q);
      Dups2Normal(op, e, p + [L], q);
      Dups2Normal(op, a, p + [R], q);
    } else if IsOp(e2, op) {
      Descend(op, e, q, L);
      Descend(op, e, q, R);
      var a := Dups2(op, e, p, q + [L]).0;
      SameSpineAt(op, e, a, p);
      SameSpineAt(op, e, a, q + [R]);
      Dups2Normal(op, e, p, q + [L]);
      Dups2Normal(op, a, p, q + [R]);
      var b := Dups2(op, a, p, q + [R]).0;
      SameSpineTransitive(op, e, a, b);
      SameSpineAt(op, e, b, p);
      SameSpineAt(op, e, b, q);
      Dups2OperandNormal(op, b, p, q);
    } else if p != q {
      Dups2OperandNormal(op, e, p, q);
    }
  }

  lemma {:induction false} Dups2OperandNormal(op: Op, e: Expr, p: Path, q: Path)
    requires InSpine(op, e, p) && InSpine(op, e, q) && p != q && !IsOp(At(op, e, p), op) && Normal(e)
    ensures Normal(Dups2Operand(op, e, p, q).0)
    decreases Leaves(e), SpineSize(op, At(op, e, p)), SpineSize(op, At(op, e, q)), 1
  {
    hide Dups2, Normal, ExtractEq, Transform;
    var x := At(op, e, p);
    if x.Bin? {
      NotTheRoot(op, e, p, q);
      OperandIsSmaller(op, e, p);
      NormalAt(op, e, p);
      Dups2Normal(x.op, x, [], []);
      var y := Dups2(x.op, x, [], []).0;
      var a := Put(op, e, p, y);
      PutAt(op, e, p, y);
      SameSpineAt(op, e, a, q);
      NormalPut(op, e, p, y);
      ConstantsAreNormal(op);
      NormalPut(op, a, p, Symb(Zero(op)));
    }
  }

  lemma NormalYN(e: Expr)
    requires Normal(e)
    ensures Normal(EliminateYN(e))
  {
  }

  lemma {:induction false} EliminateDupsNormal(e: Expr)
    requires Normal(e)
    ensures Normal(EliminateDups(e))
    decreases Leaves(e)
  {
    hide Normal, Dups1, Dups2;
    RoundDropsLeaves(e);
    if e.Bin? {
      var a := Dups1(e.op, e, [], []).0;
      Dups1Normal(e.op, e, [], []);
      SameSpineAt(e.op, e, a, []);
      Dups2Normal(e.op, a, [], []);
      if Round(e).1 > 0 {
        NormalYN(Round(e).0);
        EliminateDupsNormal(EliminateYN(Round(e).0));
      }
    }
  }

  lemma {:induction false} TransBoolNormal(e: Expr)
    requires Normal(e)
    ensures Normal(TransBool(e))
  {
    match e
    case Bin(_, l, r) =>
      TransBoolNormal(l);
      TransBoolNormal(r);
    case _ =>
  }

  // ---------------------------------------------------------------------------
  // Propagation
  // ---------------------------------------------------------------------------

  predicate NormalOpt(e: Option<Expr>) {
    e.Some? ==> Normal(e.value)
  }

  /** expr_alloc_and, where a missing side counts as y. */
  function AllocAnd(e1: Option<Expr>, e2: Option<Expr>): (r: Option<Expr>)
    ensures forall v: Valuation :: ValueOpt(r, v) == Apply(And, ValueOpt(e1, v), ValueOpt(e2, v))
  {
    if e1.None? then e2
    else if e2.None? then e1
    else Some(Bin(And, e1.value, e2.value))
  }

  function TransformOpt(e: Option<Expr>): Option<Expr> {
    if e.Some? then Some(Transform(e.value)) else None
  }

  function EliminateDupsOpt(e: Option<Expr>): Option<Expr> {
    if e.Some? then Some(EliminateDups(e.value)) else None
  }

  function TransBoolOpt(e: Option<Expr>): Option<Expr> {
    if e.Some? then Some(TransBool(e.value)) else None
  }

  /** The condition of an entry, or of one of its properties, below the condition around it. */
  function Propagated(outer: Option<Expr>, own: Option<Expr>): Option<Expr> {
    EliminateDupsOpt(AllocAnd(outer, TransformOpt(own)))
  }

  /** The visibility of a property: only tristate entries can be m. */
  function Visibility(base: Option<Expr>, own: Option<Expr>, tristate: bool): Option<Expr> {
    if tristate then Propagated(base, own) else TransBoolOpt(Propagated(base, own))
  }

  /** What is propagated is the conjunction with what is around, except that an m may be decided; its form is kept. */
  lemma PropagatedMeans(outer: Option<Expr>, own: Option<Expr>, v: Valuation)
    requires WellFormed(v) && NormalOpt(outer)
    ensures NormalOpt(Propagated(outer, own))
    ensures Refines(Apply(And, ValueOpt(outer, v), ValueOpt(own, v)), ValueOpt(Propagated(outer, own), v))
  {
    hide Transform, EliminateDups;
    if own.Some? {
      TransformIsNormal(own.value);
      TransformValue(own.value, v);
    }
    var joined := AllocAnd(outer, TransformOpt(own));
    assert NormalOpt(joined);
    if joined.Some? {
      EliminateDupsNormal(joined.value);
      EliminateDupsValue(joined.value, v);
    }
  }

  /**
   An entry is invisible exactly if the entry around it is, or its own condition fails,
   wherever their conjunction is not m; making it boolean changes no n and nothing into n.
   */
  lemma VisibilityMeans(base: Option<Expr>, own: Option<Expr>, tristate: bool, v: Valuation)
    requires WellFormed(v) && NormalOpt(base)
    ensures NormalOpt(Visibility(base, own, tristate))
    ensures ValueOpt(Visibility(base, own, tristate), v) == NO <==> ValueOpt(Propagated(base, own), v) == NO
    ensures var both := Apply(And, ValueOpt(base, v), ValueOpt(own, v));
      both != MOD ==> (ValueOpt(Visibility(base, own, tristate), v) == NO <==> both == NO)
  {
    hide TransBool, Propagated;
    PropagatedMeans(base, own, v);
    var e := Propagated(base, own);
    if e.Some? {
      TransBoolKeepsNo(e.value, v);
      TransBoolNormal(e.value);
    }
  }
}
