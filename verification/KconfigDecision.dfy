/**
 When menu_finalize moves an entry below another, exactly: what expr_depends_symbol looks for,
 and when the comparison of the two conditions leaves y.
 */
module KconfigDecision {
  import opened Wrappers
  import opened KconfigExpr
  import opened KconfigEq
  import opened KconfigEqExact
  import opened KconfigTransform
  import opened KconfigSpine
  import opened KconfigSimplify
  import opened KconfigClean
  import opened KconfigPropagate
  import opened KconfigSubmenu

  /** The operand demands the symbol: sym, sym = y, sym = m, sym != n. */
  predicate Demands(x: Expr, sym: Symbol) {
    x == Symb(sym) || x == Comp(true, sym, SymYes) || x == Comp(true, sym, SymMod) || x == Comp(false, sym, SymNo)
  }

  /** An operand of the conjunction demands the symbol. */
  ghost predicate Demanded(dep: Expr, sym: Symbol) {
    exists p :: InSpine(And, dep, p) && Demands(At(And, dep, p), sym)
  }

  lemma {:induction false} DependsFinds(dep: Expr, sym: Symbol) returns (p: Path)
    requires Depends(dep, sym)
    ensures InSpine(And, dep, p) && Demands(At(And, dep, p), sym)
  {
    p := [];
    if IsOp(dep, And) {
      var d := if Depends(dep.left, sym) then L else R;
      var q := DependsFinds(Child(dep, d), sym);
      p := [d] + q;
      assert p[1..] == q;
    }
  }

  lemma {:induction false} FoundIsDepends(dep: Expr, sym: Symbol, p: Path)
    requires InSpine(And, dep, p) && Demands(At(And, dep, p), sym)
    ensures Depends(dep, sym)
  {
    if p != [] {
      FoundIsDepends(Child(dep, p[0]), sym, p[1..]);
    }
  }

  /** expr_depends_symbol finds an operand that demands the symbol, at any place, if there is one. */
  lemma DependsExact(dep: Expr, sym: Symbol)
    ensures Depends(dep, sym) <==> Demanded(dep, sym)
  {
    if Depends(dep, sym) {
      var p := DependsFinds(dep, sym);
    }
    if p :| InSpine(And, dep, p) && Demands(At(And, dep, p), sym) {
      FoundIsDepends(dep, sym, p);
    }
  }

  /** Both conditions are compared in simplified normal form. */
  lemma NotNoForm(e: Option<Expr>)
    ensures Clean(NotNo(e)) && Normal(NotNo(e))
  {
    hide Clean, Normal, EliminateDups, Transform, TransCompareOpt;
    var c := TransCompareOpt(e, false, SymNo);
    TransformIsNormal(c);
    EliminateDupsNormal(Transform(c));
    EliminateDupsClean(Transform(c));
  }

  /** What is propagated to an entry or a property is simplified to the end. */
  lemma PropagatedClean(outer: Option<Expr>, own: Option<Expr>)
    requires Propagated(outer, own).Some?
    ensures Clean(Propagated(outer, own).value)
  {
    hide Clean, EliminateDups, Transform;
    EliminateDupsClean(AllocAnd(outer, TransformOpt(own)).value);
  }

  /** Without a condition there is nothing to compare with. */
  lemma NoBase()
    ensures NotNo(None) == Symb(SymYes)
  {
    assert Transform(Symb(SymNo)) == Symb(SymNo);
    assert Transform(Not(Symb(SymNo))) == Symb(SymYes);
    assert Round(Symb(SymYes)) == (Symb(SymYes), 0);
  }

  /** y is never struck out. */
  lemma {:induction false} YesStays(op: Op, e: Expr)
    ensures EliminateEqRec(op, e, Symb(SymYes)) == (e, Symb(SymYes))
    decreases Size(e)
  {
    if IsOp(e, op) {
      YesStays(op, e.left);
      YesStays(op, e.right);
    }
  }

  /** Below an entry without a condition goes every entry whose own contains the symbol. */
  lemma BelowUnconditional(sym: Symbol, dep: Option<Expr>)
    ensures BelongsBelow(sym, None, dep) <==> dep.Some? && sym in Symbols(dep.value)
  {
    hide NotNo, Depends, EliminateEqRec;
    NoBase();
    var e := NotNo(dep);
    if e.Bin? {
      YesStays(e.op, e);
    }
  }

  /**
   Below any other: what contains the symbol and either demands it in one of its operands, or
   has among the operands of its own condition all those of the condition of that entry.
   */
  lemma BelongsBelowExact(sym: Symbol, base: Expr, dep: Option<Expr>)
    requires Bare(NotNo(Some(base))) && Bare(NotNo(dep))
    ensures BelongsBelow(sym, Some(base), dep) <==>
      && dep.Some? && sym in Symbols(dep.value)
      && (Demanded(dep.value, sym)
          || (IsOp(NotNo(dep), And) && Operands(And, NotNo(Some(base))) <= Operands(And, NotNo(dep))))
  {
    hide NotNo, Depends, EliminateEq, Bare, Operands, Demanded;
    LeavesYes(NotNo(dep), NotNo(Some(base)));
    if dep.Some? {
      DependsExact(dep.value, sym);
    }
  }
}
