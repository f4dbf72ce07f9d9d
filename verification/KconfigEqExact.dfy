/**
 What expr_eq and expr_eliminate_eq recognise, exactly, in expressions in which y and n do not
 stand for themselves: two expressions that differ in the order and the grouping of the operands
 of AND and OR only, and the operands that two of them have in common.
 */
module KconfigEqExact {
  import opened KconfigExpr
  import opened KconfigEq

  /** An expression without the order and the grouping of operands. */
  datatype Canon =
    | CSymb(sym: Symbol)
    | CNot(arg: Canon)
    | CBin(op: Op, operands: multiset<Canon>)
    | CComp(equal: bool, lsym: Symbol, rsym: Symbol)

  function Canonical(e: Expr): (r: Canon)
    decreases e, 0
  {
    match e
    case Symb(s) => CSymb(s)
    case Not(a) => CNot(Canonical(a))
    case Bin(op, l, r) => CBin(op, Operands(op, l) + Operands(op, r))
    case Comp(eq, l, r) => CComp(eq, l, r)
  }

  /** The operands of an expression as a tree of `op`: it is one itself if it is no such tree. */
  function Operands(op: Op, e: Expr): multiset<Canon>
    decreases e, 1
  {
    if IsOp(e, op) then Operands(op, e.left) + Operands(op, e.right) else multiset{Canonical(e)}
  }

  /** Neither y nor n stands for itself anywhere. */
  predicate Bare(e: Expr) {
    match e
    case Symb(s) => !s.SymYes? && !s.SymNo?
    case Not(a) => Bare(a)
    case Bin(_, l, r) => Bare(l) && Bare(r)
    case Comp(_, _, _) => true
  }

  /** Bare, but that operands have been struck out. */
  predicate Struck(op: Op, e: Expr) {
    if IsOp(e, op) then Struck(op, e.left) && Struck(op, e.right) else e == Symb(Unit(op)) || Bare(e)
  }

  /** The operands that have not. */
  function Left(op: Op, e: Expr): multiset<Canon> {
    if IsOp(e, op) then Left(op, e.left) + Left(op, e.right)
    else if e == Symb(Unit(op)) then multiset{}
    else multiset{Canonical(e)}
  }

  lemma {:induction false} BareIsStruck(op: Op, e: Expr)
    requires Bare(e)
    ensures Struck(op, e) && Left(op, e) == Operands(op, e) && |Operands(op, e)| >= 1
    ensures IsOp(e, op) ==> |Operands(op, e)| >= 2
  {
    if IsOp(e, op) {
      BareIsStruck(op, e.left);
      BareIsStruck(op, e.right);
    }
  }

  /** What is taken away in two steps. */
  lemma TakenInTurn(l: multiset<Canon>, r: multiset<Canon>, e: multiset<Canon>)
    ensures (l - e) + (r - (e - l)) == (l + r) - e
    ensures (e - l) - r == e - (l + r)
  {
  }

  /** Striking out takes from each side what the other has, as often as it has it. */
  lemma {:induction false} StrikesCommon(op: Op, e1: Expr, e2: Expr)
    requires Struck(op, e1) && Struck(op, e2)
    ensures var (a, b) := EliminateEqRec(op, e1, e2);
      && Struck(op, a) && Left(op, a) == Left(op, e1) - Left(op, e2)
      && Struck(op, b) && Left(op, b) == Left(op, e2) - Left(op, e1)
    decreases Size(e1) + Size(e2), if IsOp(e1, op) || IsOp(e2, op) then 0 else 3
  {
    hide ExprEq, Canonical, Operands, Bare;
    if IsOp(e1, op) {
      var (l, f) := EliminateEqRec(op, e1.left, e2);
      StrikesCommon(op, e1.left, e2);
      StrikesCommon(op, e1.right, f);
      TakenInTurn(Left(op, e1.left), Left(op, e1.right), Left(op, e2));
    } else if IsOp(e2, op) {
      var (d, l) := EliminateEqRec(op, e1, e2.left);
      StrikesCommon(op, e1, e2.left);
      StrikesCommon(op, d, e2.right);
      TakenInTurn(Left(op, e2.left), Left(op, e2.right), Left(op, e1));
    } else {
      if Bare(e1) && Bare(e2) {
        ExprEqExact(e1, e2);
      }
      StrikesOne(op, e1, e2);
    }
  }

  lemma StrikesOne(op: Op, e1: Expr, e2: Expr)
    requires Struck(op, e1) && Struck(op, e2) && !IsOp(e1, op) && !IsOp(e2, op)
    requires Bare(e1) && Bare(e2) ==> (ExprEq(e1, e2) <==> Canonical(e1) == Canonical(e2))
    ensures var (a, b) := EliminateEqRec(op, e1, e2);
      && Struck(op, a) && Left(op, a) == Left(op, e1) - Left(op, e2)
      && Struck(op, b) && Left(op, b) == Left(op, e2) - Left(op, e1)
  {
    hide Canonical, Operands, EliminateEqRec, ExprEq, Bare, Left;
    RecOfOperands(op, e1, e2);
    LeftOfOne(op, e1);
    LeftOfOne(op, e2);
    LeftOfOne(op, Symb(Unit(op)));
    TakenFromOne(Canonical(e1), Canonical(e2));
    if e1 == Symb(Unit(op)) {
      UnitIsNotBare(op, e1, e2);
    } else if e2 == Symb(Unit(op)) {
      UnitIsNotBare(op, e2, e1);
    } else {
      BareIsNoConstant(e1);
    }
  }

  lemma BareIsNoConstant(e: Expr)
    requires Bare(e)
    ensures !IsYes(e) && !IsNo(e)
  {
  }

  lemma RecOfOperands(op: Op, e1: Expr, e2: Expr)
    requires !IsOp(e1, op) && !IsOp(e2, op)
    ensures EliminateEqRec(op, e1, e2) ==
      if (e1 == e2 && (IsYes(e1) || IsNo(e1))) || !ExprEq(e1, e2) then (e1, e2) else (Symb(Unit(op)), Symb(Unit(op)))
  {
  }

  lemma LeftOfOne(op: Op, e: Expr)
    requires !IsOp(e, op)
    ensures Left(op, e) == if e == Symb(Unit(op)) then multiset{} else multiset{Canonical(e)}
  {
  }

  lemma TakenFromOne(c: Canon, d: Canon)
    ensures multiset{c} - multiset{d} == if c == d then multiset{} else multiset{c}
    ensures multiset{d} - multiset{c} == if c == d then multiset{} else multiset{d}
    ensures multiset{c} - multiset{} == multiset{c} && multiset{} - multiset{c} == multiset{}
    ensures multiset{d} - multiset{} == multiset{d} && multiset{} - multiset{d} == multiset{}
  {
  }

  /** What has been struck out equals no operand. */
  lemma UnitIsNotBare(op: Op, e1: Expr, e2: Expr)
    requires e1 == Symb(Unit(op))
    ensures !Bare(e1) && (Bare(e2) ==> !ExprEq(e1, e2) && !ExprEq(e2, e1))
  {
  }

  /** Folding leaves the unit where everything was struck out, and a symbol where only that is left. */
  lemma {:induction false} FoldsToLeft(op: Op, e: Expr)
    requires Struck(op, e)
    ensures Folded(op, Left(op, e), EliminateYN(e))
  {
    hide Canonical, Operands, Bare, Folded;
    if IsOp(e, op) {
      FoldsToLeft(op, e.left);
      FoldsToLeft(op, e.right);
      FoldsTwo(op, e);
    } else {
      FoldsOne(op, e);
    }
  }

  predicate Folded(op: Op, left: multiset<Canon>, r: Expr) {
    && (left == multiset{} <==> r == Symb(Unit(op)))
    && (r.Symb? ==> r == Symb(Unit(op)) || left == multiset{CSymb(r.sym)})
    && (r == Symb(Unit(op)) || Bare(r))
  }

  lemma FoldsOne(op: Op, e: Expr)
    requires Struck(op, e) && !IsOp(e, op)
    ensures Folded(op, Left(op, e), EliminateYN(e))
  {
    if Bare(e) {
      BareStays(e);
    }
  }

  lemma FoldsTwo(op: Op, e: Expr)
    requires IsOp(e, op) && Folded(op, Left(op, e.left), EliminateYN(e.left)) && Folded(op, Left(op, e.right), EliminateYN(e.right))
    ensures Folded(op, Left(op, e), EliminateYN(e))
  {
    hide Canonical, Operands, Left;
    var x, y := Left(op, e.left), Left(op, e.right);
    assert Left(op, e) == x + y by { LeftOfTwo(op, e); }
    assert multiset{} + y == y && x + multiset{} == x;
    assert EliminateYN(e.left) != Symb(Zero(op)) && EliminateYN(e.right) != Symb(Zero(op));
    if x != multiset{} && y != multiset{} {
      var c :| c in x;
      assert c in x + y;
      assert EliminateYN(e) == Bin(op, EliminateYN(e.left), EliminateYN(e.right));
    }
  }

  lemma LeftOfTwo(op: Op, e: Expr)
    requires IsOp(e, op)
    ensures Left(op, e) == Left(op, e.left) + Left(op, e.right)
  {
  }

  lemma {:induction false} BareStays(e: Expr)
    requires Bare(e)
    ensures EliminateYN(e) == e
  {
    if e.Bin? {
      BareStays(e.left);
      BareStays(e.right);
    }
  }

  /** expr_eq answers 1 exactly for expressions that are the same up to order and grouping. */
  lemma {:induction false} ExprEqExact(e1: Expr, e2: Expr)
    requires Bare(e1) && Bare(e2)
    ensures ExprEq(e1, e2) <==> Canonical(e1) == Canonical(e2)
    decreases Size(e1) + Size(e2), 2
  {
    match e1
    case Not(a) =>
      if e2.Not? {
        ExprEqExact(a, e2.arg);
      }
    case Bin(op, _, _) =>
      if IsOp(e2, op) {
        TreesExact(op, e1, e2);
      }
    case _ =>
  }

  lemma {:induction false} TreesExact(op: Op, e1: Expr, e2: Expr)
    requires Bare(e1) && Bare(e2) && IsOp(e1, op) && IsOp(e2, op)
    ensures ExprEq(e1, e2) <==> Operands(op, e1) == Operands(op, e2)
    decreases Size(e1) + Size(e2), 1
  {
    hide Canonical, Operands, Bare;
    var (a, b) := EliminateEqRec(op, e1, e2);
    BareIsStruck(op, e1);
    BareIsStruck(op, e2);
    StrikesCommon(op, e1, e2);
    EliminateEqRecKeepsOp(op, e1, e2);
    FoldsToLeft(op, a);
    FoldsToLeft(op, b);
    NothingLeft(Operands(op, e1), Operands(op, e2));
  }

  lemma NothingLeft(x: multiset<Canon>, y: multiset<Canon>)
    ensures x - y == multiset{} == y - x ==> x == y
    ensures forall c :: x - y != multiset{c} || y - x != multiset{c}
  {
    if x - y == multiset{} == y - x {
      SameOperands(x, y);
    }
    forall c: Canon
      ensures x - y != multiset{c} || y - x != multiset{c}
    {
      assert (x - y)[c] == 0 || (y - x)[c] == 0;
    }
  }

  lemma SameOperands(x: multiset<Canon>, y: multiset<Canon>)
    requires x - y == multiset{} && y - x == multiset{}
    ensures x == y
  {
    forall c: Canon
      ensures x[c] == y[c]
    {
      assert (x - y)[c] == 0 && (y - x)[c] == 0;
    }
  }

  /** With y and n it recognises more: what is n on both sides, whatever else stands there. */
  lemma ExprEqFolds(a: Symbol, b: Symbol)
    requires !a.IsConst() && !b.IsConst() && a != b
    ensures var e1, e2 := Bin(And, Symb(a), Symb(SymNo)), Bin(And, Symb(b), Symb(SymNo));
      ExprEq(e1, e2) && Canonical(e1) != Canonical(e2)
  {
    hide EliminateEqRec, ExprEq, Canonical, Operands, EliminateYN;
    var n := Symb(SymNo);
    var e1, e2 := Bin(And, Symb(a), n), Bin(And, Symb(b), n);
    StaysApart(a, b);
    FoldsToNo(a);
    FoldsToNo(b);
    OneEquation(e1, e2);
    OperandsOfTwo(Symb(a), n);
    OperandsOfTwo(Symb(b), n);
    assert CSymb(a) in Operands(And, e1) && CSymb(a) !in Operands(And, e2);
  }

  lemma StaysApart(a: Symbol, b: Symbol)
    requires !a.IsConst() && !b.IsConst() && a != b
    ensures var e1, e2 := Bin(And, Symb(a), Symb(SymNo)), Bin(And, Symb(b), Symb(SymNo)); EliminateEqRec(And, e1, e2) == (e1, e2)
  {
    hide EliminateYN;
    var n := Symb(SymNo);
    var e2 := Bin(And, Symb(b), n);
    RecOfOperands(And, Symb(a), Symb(b));
    RecOfOperands(And, Symb(a), n);
    RecOfOperands(And, n, Symb(b));
    RecOfOperands(And, n, n);
    assert EliminateEqRec(And, Symb(a), e2) == (Symb(a), e2);
    assert EliminateEqRec(And, n, e2) == (n, e2);
  }

  lemma FoldsToNo(a: Symbol)
    requires !a.IsConst()
    ensures EliminateYN(Bin(And, Symb(a), Symb(SymNo))) == Symb(SymNo)
  {
    assert EliminateYN(Symb(a)) == Symb(a) && EliminateYN(Symb(SymNo)) == Symb(SymNo);
  }

  /** expr_eq on two conjunctions. */
  lemma OneEquation(e1: Expr, e2: Expr)
    requires IsOp(e1, And) && IsOp(e2, And)
    ensures var (a, b) := EliminateEqRec(And, e1, e2); var c, d := EliminateYN(a), EliminateYN(b);
      ExprEq(e1, e2) <==> c.Symb? && d.Symb? && c.sym == d.sym
  {
    hide EliminateYN;
    EliminateEqRecKeepsOp(And, e1, e2);
  }

  lemma OperandsOfTwo(l: Expr, r: Expr)
    requires l.Symb? && r.Symb?
    ensures Operands(And, Bin(And, l, r)) == multiset{CSymb(l.sym), CSymb(r.sym)}
    ensures Canonical(Bin(And, l, r)) == CBin(And, Operands(And, Bin(And, l, r)))
  {
    var e := Bin(And, l, r);
    assert Canonical(l) == CSymb(l.sym) && Canonical(r) == CSymb(r.sym);
    assert Operands(And, l) == multiset{CSymb(l.sym)} && Operands(And, r) == multiset{CSymb(r.sym)};
    assert IsOp(e, And) && Operands(And, e) == Operands(And, l) + Operands(And, r);
  }

  /** Every operand is where it was, or has been struck out. */
  predicate InPlace(op: Op, e: Expr, r: Expr) {
    if IsOp(e, op) then IsOp(r, op) && InPlace(op, e.left, r.left) && InPlace(op, e.right, r.right)
    else r == e || r == Symb(Unit(op))
  }

  lemma {:induction false} AllInPlace(op: Op, e: Expr)
    ensures InPlace(op, e, e)
  {
    if IsOp(e, op) {
      AllInPlace(op, e.left);
      AllInPlace(op, e.right);
    }
  }

  lemma {:induction false} InPlaceTwice(op: Op, e: Expr, r: Expr, s: Expr)
    requires InPlace(op, e, r) && InPlace(op, r, s)
    ensures InPlace(op, e, s)
  {
    if IsOp(e, op) {
      InPlaceTwice(op, e.left, r.left, s.left);
      InPlaceTwice(op, e.right, r.right, s.right);
    }
  }

  /** Striking out moves nothing, on any two expressions. */
  lemma {:induction false} StrikesInPlace(op: Op, e1: Expr, e2: Expr)
    ensures var (a, b) := EliminateEqRec(op, e1, e2); InPlace(op, e1, a) && InPlace(op, e2, b)
    decreases Size(e1) + Size(e2)
  {
    hide ExprEq;
    if IsOp(e1, op) {
      var (l, f) := EliminateEqRec(op, e1.left, e2);
      StrikesInPlace(op, e1.left, e2);
      StrikesInPlace(op, e1.right, f);
      InPlaceTwice(op, e2, f, EliminateEqRec(op, e1.right, f).1);
    } else if IsOp(e2, op) {
      var (d, l) := EliminateEqRec(op, e1, e2.left);
      StrikesInPlace(op, e1, e2.left);
      StrikesInPlace(op, d, e2.right);
      InPlaceTwice(op, e1, d, EliminateEqRec(op, d, e2.right).0);
    }
  }

  // ---------------------------------------------------------------------------
  // What expr_eliminate_eq leaves
  // ---------------------------------------------------------------------------

  /** A single operand is struck out, or nothing happens. */
  lemma {:induction false} OneStruckOrNone(op: Op, e1: Expr, e2: Expr)
    requires !IsOp(e2, op)
    ensures var r := EliminateEqRec(op, e1, e2); r.1 == Symb(Unit(op)) || r == (e1, e2)
    decreases Size(e1)
  {
    if IsOp(e1, op) {
      OneStruckOrNone(op, e1.left, e2);
      OneStruckOrNone(op, e1.right, EliminateEqRec(op, e1.left, e2).1);
    } else {
      hide ExprEq;
    }
  }

  /** The remainder of a second side folds to what is left of it. */
  lemma RemainderFolds(op: Op, e1: Expr, e2: Expr)
    requires Bare(e1) && Bare(e2)
    ensures Folded(op, Operands(op, e2) - Operands(op, e1), EliminateYN(EliminateEqRec(op, e1, e2).1))
  {
    hide Canonical, Operands, Bare;
    BareIsStruck(op, e1);
    BareIsStruck(op, e2);
    StrikesCommon(op, e1, e2);
    FoldsToLeft(op, EliminateEqRec(op, e1, e2).1);
  }

  lemma SomethingLeft(x: multiset<Canon>, c: Canon)
    requires |x| >= 2
    ensures x - multiset{c} != multiset{}
  {
    assert |x - multiset{c}| >= 1;
  }

  /**
   Nothing but y is left of the second side exactly if the first is a conjunction that has
   every operand of the second.
   */
  lemma LeavesYes(e1: Expr, e2: Expr)
    requires Bare(e1) && Bare(e2)
    ensures IsYes(EliminateEq(e1, e2).1) <==> IsOp(e1, And) && Operands(And, e2) <= Operands(And, e1)
  {
    if IsOp(e1, And) {
      ConjunctionFirst(e1, e2);
    } else {
      OtherFirst(e1, e2);
    }
  }

  lemma ConjunctionFirst(e1: Expr, e2: Expr)
    requires Bare(e1) && Bare(e2) && IsOp(e1, And)
    ensures IsYes(EliminateEq(e1, e2).1) <==> Operands(And, e2) <= Operands(And, e1)
  {
    hide Canonical, Operands, Bare, EliminateYN, EliminateEqRec;
    BareStays(e2);
    BareIsNoConstant(e2);
    EliminateEqRecKeepsOp(And, e1, e2);
    RemainderFolds(And, e1, e2);
    NothingLeftOver(Operands(And, e2), Operands(And, e1));
    if !IsOp(e2, And) {
      OneStruckOrNone(And, e1, e2);
      RemainderFolds(Or, e1, e2);
      FoldedConstant();
      assert Bare(EliminateYN(EliminateEqRec(Or, e1, e2).1)) ==> !IsYes(EliminateYN(EliminateEqRec(Or, e1, e2).1)) by {
        if Bare(EliminateYN(EliminateEqRec(Or, e1, e2).1)) {
          BareIsNoConstant(EliminateYN(EliminateEqRec(Or, e1, e2).1));
        }
      }
    }
  }

  lemma FoldedConstant()
    ensures EliminateYN(Symb(SymYes)) == Symb(SymYes) && EliminateYN(Symb(SymNo)) == Symb(SymNo)
  {
  }

  lemma OtherFirst(e1: Expr, e2: Expr)
    requires Bare(e1) && Bare(e2) && !IsOp(e1, And)
    ensures !IsYes(EliminateEq(e1, e2).1)
  {
    hide Canonical, Operands, Bare, EliminateYN, EliminateEqRec;
    BareStays(e2);
    BareIsNoConstant(e2);
    FoldedConstant();
    NeverYes(e1, e2);
    if e1.Bin? {
      EliminateEqRecKeepsOp(Or, e1, e2);
      if !IsOp(e2, Or) {
        OneStruckOrNone(Or, e1, e2);
      }
    }
  }

  /** The remainder of a disjunction is never y, nor is that of a conjunction from which one operand was struck out. */
  lemma NeverYes(e1: Expr, e2: Expr)
    requires Bare(e1) && Bare(e2) && !IsOp(e1, And)
    ensures !IsYes(EliminateYN(EliminateEqRec(Or, e1, e2).1))
    ensures IsOp(e2, And) ==> !IsYes(EliminateYN(EliminateEqRec(And, e1, e2).1))
  {
    hide Canonical, Bare, EliminateYN, EliminateEqRec;
    RemainderFolds(Or, e1, e2);
    RemainderFolds(And, e1, e2);
    var r := EliminateYN(EliminateEqRec(Or, e1, e2).1);
    if Bare(r) {
      BareIsNoConstant(r);
    }
    if IsOp(e2, And) {
      BareIsStruck(And, e2);
      SomethingLeft(Operands(And, e2), Canonical(e1));
    }
  }

  lemma NothingLeftOver(x: multiset<Canon>, y: multiset<Canon>)
    ensures x - y == multiset{} <==> x <= y
  {
    if x - y == multiset{} {
      forall c: Canon
        ensures x[c] <= y[c]
      {
        assert (x - y)[c] == 0;
      }
    }
  }
}
