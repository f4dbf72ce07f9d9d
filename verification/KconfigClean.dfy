/**
 What expr_eliminate_dups has done when it is done: no two operands of a conjunction or a
 disjunction are equal or can be merged, and none contradicts the others, at any depth.
 */
module KconfigClean {
  import opened Wrappers
  import opened KconfigExpr
  import opened KconfigEq
  import opened KconfigEqExact
  import opened KconfigTransform
  import opened KconfigJoin
  import opened KconfigSpine
  import opened KconfigDups
  import opened KconfigSimplify

  // ---------------------------------------------------------------------------
  // The rules of expr_join_or and expr_join_and
  // ---------------------------------------------------------------------------

  /** x and y are these two, in either order. */
  predicate Are(x: Expr, y: Expr, p: Expr, q: Expr) {
    (x == p && y == q) || (x == q && y == p)
  }

  /** a = y || a = m -> a != n, and so on; a || !a -> y for booleans. */
  predicate OrRule(a: Symbol, x: Expr, y: Expr, r: Expr) {
    || (a.Type() == Tristated && Are(x, y, Comp(true, a, SymYes), Comp(true, a, SymMod)) && r == Comp(false, a, SymNo))
    || (a.Type() == Tristated && Are(x, y, Comp(true, a, SymYes), Comp(true, a, SymNo)) && r == Comp(false, a, SymMod))
    || (a.Type() == Tristated && Are(x, y, Comp(true, a, SymMod), Comp(true, a, SymNo)) && r == Comp(false, a, SymYes))
    || (a.Type() == Boolean && Are(x, y, Symb(a), Not(Symb(a))) && r == Symb(SymYes))
  }

  /** a = b && a != c, for constants b and c. */
  predicate ConstantsRule(a: Symbol, b: Symbol, c: Symbol, x: Expr, y: Expr, r: Expr) {
    && b.IsConst() && c.IsConst() && Are(x, y, Comp(true, a, b), Comp(false, a, c))
    && r == if b == c then Symb(SymNo) else Comp(true, a, b)
  }

  /** a && a = y -> a = y, and so on; a != y && a != n -> a = m, and so on. */
  predicate AndRule(a: Symbol, x: Expr, y: Expr, r: Expr) {
    || ((a.Type() == Boolean || a.Type() == Tristated)
        && (|| (Are(x, y, Symb(a), Comp(true, a, SymYes)) && r == Comp(true, a, SymYes))
            || (Are(x, y, Symb(a), Comp(false, a, SymNo)) && r == Symb(a))
            || (Are(x, y, Symb(a), Comp(false, a, SymMod)) && r == Comp(true, a, SymYes))))
    || (a.Type() == Tristated
        && (|| (x.Comp? && y.Comp? && (ConstantsRule(a, x.rsym, y.rsym, x, y, r) || ConstantsRule(a, y.rsym, x.rsym, x, y, r)))
            || (Are(x, y, Comp(false, a, SymYes), Comp(false, a, SymNo)) && r == Comp(true, a, SymMod))
            || (Are(x, y, Comp(false, a, SymYes), Comp(false, a, SymMod)) && r == Comp(true, a, SymNo))
            || (Are(x, y, Comp(false, a, SymMod), Comp(false, a, SymNo)) && r == Comp(true, a, SymYes))))
  }

  /** A rule for symbol `a` makes one operand of these two. */
  predicate Rule(op: Op, a: Symbol, x: Expr, y: Expr, r: Expr) {
    if op == Or then OrRule(a, x, y, r) else AndRule(a, x, y, r)
  }

  /** Two operands are joined if they are equal, or else if a rule says so, and as it says. */
  lemma JoinExact(op: Op, x: Expr, y: Expr)
    ensures Join(op, x, y).None? <==> !ExprEq(x, y) && forall a, r :: !Rule(op, a, x, y, r)
    ensures ExprEq(x, y) ==> Join(op, x, y) == Some(x)
    ensures forall a, r :: !ExprEq(x, y) && Rule(op, a, x, y, r) ==> Join(op, x, y) == Some(r)
  {
    hide ExprEq;
    forall a, r | !ExprEq(x, y) && Rule(op, a, x, y, r)
      ensures Join(op, x, y) == Some(r)
    {
      RuleJoins(op, a, x, y, r);
    }
    if !ExprEq(x, y) && Join(op, x, y).Some? {
      var a := JoinedByRule(op, x, y);
      assert Rule(op, a, x, y, Join(op, x, y).value);
    }
  }

  lemma RuleJoins(op: Op, a: Symbol, x: Expr, y: Expr, r: Expr)
    requires !ExprEq(x, y) && Rule(op, a, x, y, r)
    ensures Join(op, x, y) == Some(r)
  {
    hide ExprEq;
  }

  lemma JoinedByRule(op: Op, x: Expr, y: Expr) returns (a: Symbol)
    requires !ExprEq(x, y) && Join(op, x, y).Some?
    ensures Rule(op, a, x, y, Join(op, x, y).value)
  {
    hide ExprEq;
    a := LeftHead(x).value;
  }

  // ---------------------------------------------------------------------------
  // What is found to contradict
  // ---------------------------------------------------------------------------

  /** Extracting takes from each side what the other has; if it takes nothing, the sides stay. */
  lemma {:induction false} ExtractsCommon(op: Op, ep: Option<Expr>, e1: Expr, e2: Expr)
    requires Struck(op, e1) && Struck(op, e2)
    ensures var (tmp, a, b) := ExtractEqRec(op, ep, e1, e2);
      && Struck(op, a) && Left(op, a) == Left(op, e1) - Left(op, e2)
      && Struck(op, b) && Left(op, b) == Left(op, e2) - Left(op, e1)
      && (tmp == None ==> ep == None && a == e1 && b == e2)
    decreases Size(e1) + Size(e2), Size(e2)
  {
    hide ExprEq, Canonical, Operands, Bare;
    if IsOp(e1, op) {
      var (ep', l, f) := ExtractEqRec(op, ep, e1.left, e2);
      ExtractsCommon(op, ep, e1.left, e2);
      ExtractsCommon(op, ep', e1.right, f);
      TakenInTurn(Left(op, e1.left), Left(op, e1.right), Left(op, e2));
    } else if IsOp(e2, op) {
      var (ep', d, l) := ExtractEqRec(op, ep, e1, e2.left);
      ExtractsCommon(op, ep, e1, e2.left);
      ExtractsCommon(op, ep', d, e2.right);
      TakenInTurn(Left(op, e2.left), Left(op, e2.right), Left(op, e1));
    } else {
      ExtractsOne(op, e1, e2);
    }
  }

  /** On two operands the difference to expr_eliminate_eq is one of form: constants are exchanged for themselves. */
  lemma ExtractsOne(op: Op, e1: Expr, e2: Expr)
    requires Struck(op, e1) && Struck(op, e2) && !IsOp(e1, op) && !IsOp(e2, op)
    ensures var (a, b) := if ExprEq(e1, e2) then (Symb(Unit(op)), Symb(Unit(op))) else (e1, e2);
      && Struck(op, a) && Left(op, a) == Left(op, e1) - Left(op, e2)
      && Struck(op, b) && Left(op, b) == Left(op, e2) - Left(op, e1)
  {
    hide ExprEq, Canonical, Operands, Bare, Left, Struck;
    StrikesCommon(op, e1, e2);
    RecOfOperands(op, e1, e2);
    if e1 == e2 && (IsYes(e1) || IsNo(e1)) {
      ConstantIsUnit(op, e1);
    }
  }

  lemma ConstantIsUnit(op: Op, e: Expr)
    requires Struck(op, e) && (IsYes(e) || IsNo(e))
    ensures e == Symb(Unit(op))
  {
  }

  /** The whole first side is extracted exactly if the second has all its operands. */
  lemma ExtractsAll(op: Op, e1: Expr, e2: Expr)
    requires Bare(e1) && Bare(e2)
    ensures ExtractEq(op, e1, e2).1 == Symb(Unit(op)) <==> Operands(op, e1) <= Operands(op, e2)
  {
    hide ExprEq, Canonical, Operands, Bare, ExtractEqRec, EliminateYN, Left, Struck, Size, Leaves;
    var (tmp, a, b) := ExtractEqRec(op, None, e1, e2);
    BareIsStruck(op, e1);
    BareIsStruck(op, e2);
    ExtractsCommon(op, None, e1, e2);
    FoldsToLeft(op, a);
    BareIsNoConstant(e1);
    NothingLeftOver(Operands(op, e1), Operands(op, e2));
    if tmp == None {
      assert Left(op, a) == Operands(op, e1) != multiset{};
    }
  }

  // ---------------------------------------------------------------------------
  // Clean expressions
  // ---------------------------------------------------------------------------

  /** An operand of the conjunction or disjunction at the top stands there. */
  predicate OperandAt(op: Op, e: Expr, p: Path) {
    InSpine(op, e, p) && !IsOp(At(op, e, p), op)
  }

  /** The two differ, also up to order and grouping, and no rule makes one of them. */
  ghost predicate Apart(op: Op, x: Expr, y: Expr) {
    && x != y
    && (Bare(x) && Bare(y) ==> Canonical(x) != Canonical(y))
    && forall a, r :: !Rule(op, a, x, y, r)
  }

  ghost predicate AllApart(op: Op, e: Expr) {
    forall p, q :: OperandAt(op, e, p) && OperandAt(op, e, q) && p != q ==> Apart(op, At(op, e, p), At(op, e, q))
  }

  /** Not all operands of the negation of x are operands of e. */
  predicate Compatible(op: Op, e: Expr, x: Expr) {
    x.Bin? && Bare(e) && Bare(Signed(x, true)) ==> !(Operands(op, Signed(x, true)) <= Operands(op, e))
  }

  ghost predicate AllCompatible(op: Op, e: Expr) {
    forall p :: OperandAt(op, e, p) ==> Compatible(op, e, At(op, e, p))
  }

  ghost predicate Clean(e: Expr)
    decreases e, 0
  {
    e.Bin? ==> AllApart(e.op, e) && AllCompatible(e.op, e) && CleanBelow(e.op, e.left) && CleanBelow(e.op, e.right)
  }

  /** All operands are clean. */
  ghost predicate CleanBelow(op: Op, e: Expr)
    decreases e, 1
  {
    if IsOp(e, op) then CleanBelow(op, e.left) && CleanBelow(op, e.right) else Clean(e)
  }

  /** A round counts no change. */
  predicate Quiet(e: Expr) {
    e.Bin? ==> Dups1(e.op, e, [], []).1 == 0 && Dups2(e.op, e, [], []).1 == 0
  }

  /** Where dups1 counts nothing, no operand below p can be joined with one below q. */
  lemma {:induction false} QuietDups1(op: Op, e: Expr, p: Path, q: Path, s: Path, t: Path)
    requires InSpine(op, e, p) && InSpine(op, e, q) && Dups1(op, e, p, q).1 == 0
    requires OperandAt(op, At(op, e, p), s) && OperandAt(op, At(op, e, q), t) && p + s != q + t
    ensures var x, y := At(op, At(op, e, p), s), At(op, At(op, e, q), t);
      Join(op, x, y) == None && (x.Bin? ==> Dups1(x.op, x, [], []).1 == 0)
    decreases Leaves(e), SpineSize(op, At(op, e, p)), SpineSize(op, At(op, e, q))
  {
    hide Join, Leaves, SpineSize, SameSpine;
    if IsOp(At(op, e, p), op) {
      Descend(op, e, p, L);
      Descend(op, e, p, R);
      Dups1Folds(op, e, p + [L], q);
      assert p + [s[0]] + s[1..] == p + s;
      QuietDups1(op, e, p + [s[0]], q, s[1..], t);
    } else if IsOp(At(op, e, q), op) {
      Descend(op, e, q, L);
      Descend(op, e, q, R);
      Dups1Folds(op, e, p, q + [L]);
      assert q + [t[0]] + t[1..] == q + t;
      QuietDups1(op, e, p, q + [t[0]], s, t[1..]);
    } else {
      assert p + [] == p && q + [] == q;
      QuietOperands(op, e, p, q);
    }
  }

  lemma QuietOperands(op: Op, e: Expr, p: Path, q: Path)
    requires OperandAt(op, e, p) && OperandAt(op, e, q) && p != q && Dups1(op, e, p, q).1 == 0
    ensures var x, y := At(op, e, p), At(op, e, q);
      Join(op, x, y) == None && (x.Bin? ==> Dups1(x.op, x, [], []).1 == 0)
  {
    hide Join, Leaves, SpineSize, SameSpine;
    NotTheRoot(op, e, p, q);
    var x := At(op, e, p);
    if x.Bin? {
      Dups1Folds(x.op, x, [], []);
      PutSame(op, e, p);
    }
  }

  /** Where dups2 counts nothing, no operand below p contradicts what stands at q. */
  lemma {:induction false} QuietDups2(op: Op, e: Expr, p: Path, q: Path, s: Path)
    requires InSpine(op, e, p) && InSpine(op, e, q) && Dups2(op, e, p, q).1 == 0
    requires OperandAt(op, At(op, e, p), s) && p + s != q
    ensures var x := At(op, At(op, e, p), s);
      x.Bin? ==> Dups2(x.op, x, [], []).1 == 0 && ExtractEq(op, Transform(Not(x)), At(op, e, q)).1 != Symb(Unit(op))
    decreases Leaves(e), SpineSize(op, At(op, e, p)), SpineSize(op, At(op, e, q))
  {
    hide Dups2Operand, Leaves, SpineSize, SameSpine, ExtractEq, Transform;
    if IsOp(At(op, e, p), op) {
      Descend(op, e, p, L);
      Descend(op, e, p, R);
      Dups2Folds(op, e, p + [L], q);
      assert p + [s[0]] + s[1..] == p + s;
      QuietDups2(op, e, p + [s[0]], q, s[1..]);
    } else {
      assert p + [] == p;
      if IsOp(At(op, e, q), op) {
        Descend(op, e, q, L);
        Descend(op, e, q, R);
        Dups2Folds(op, e, p, q + [L]);
        Dups2Folds(op, e, p, q + [R]);
      }
      QuietOperand(op, e, p, q);
    }
  }

  lemma QuietOperand(op: Op, e: Expr, p: Path, q: Path)
    requires OperandAt(op, e, p) && InSpine(op, e, q) && p != q && Dups2Operand(op, e, p, q).1 == 0
    ensures var x := At(op, e, p);
      x.Bin? ==> Dups2(x.op, x, [], []).1 == 0 && ExtractEq(op, Transform(Not(x)), At(op, e, q)).1 != Symb(Unit(op))
  {
    hide Leaves, SpineSize, SameSpine, ExtractEq, Transform;
    NotTheRoot(op, e, p, q);
    var x := At(op, e, p);
    if x.Bin? {
      Dups2Folds(x.op, x, [], []);
      PutSame(op, e, p);
    }
  }

  lemma QuietIsApart(op: Op, e: Expr)
    requires IsOp(e, op) && Dups1(op, e, [], []).1 == 0
    ensures AllApart(op, e)
  {
    hide Join, Dups1, ExprEq, Canonical, Rule, At, InSpine;
    forall p, q | OperandAt(op, e, p) && OperandAt(op, e, q) && p != q
      ensures Apart(op, At(op, e, p), At(op, e, q))
    {
      var x, y := At(op, e, p), At(op, e, q);
      WholeTree(op, e);
      assert [] + p == p && [] + q == q;
      QuietDups1(op, e, [], [], p, q);
      JoinExact(op, x, y);
      if Bare(x) && Bare(y) {
        ExprEqExact(x, y);
      }
      ExprEqReflexive(x);
    }
  }

  lemma WholeTree(op: Op, e: Expr)
    ensures InSpine(op, e, []) && At(op, e, []) == e
  {
  }

  lemma QuietIsCompatible(op: Op, e: Expr)
    requires IsOp(e, op) && Dups2(op, e, [], []).1 == 0
    ensures AllCompatible(op, e)
  {
    hide Dups2, ExtractEq, Transform, Signed, Operands, Bare, At, InSpine;
    WholeTree(op, e);
    forall p | OperandAt(op, e, p)
      ensures Compatible(op, e, At(op, e, p))
    {
      var x := At(op, e, p);
      assert [] + p == p;
      QuietDups2(op, e, [], [], p);
      TransformIsSigned(Not(x));
      assert Signed(Not(x), false) == Signed(x, true) by { SignedNot(x); }
      if Bare(e) && Bare(Signed(x, true)) {
        ExtractsAll(op, Signed(x, true), e);
      }
    }
  }

  lemma SignedNot(x: Expr)
    ensures Signed(Not(x), false) == Signed(x, true)
  {
  }

  /** What a round leaves alone is clean. */
  lemma {:induction false} QuietIsClean(e: Expr)
    requires Quiet(e)
    ensures Clean(e)
    decreases Leaves(e), 1, 0
  {
    hide Dups1, Dups2, AllApart, AllCompatible;
    if e.Bin? {
      QuietIsApart(e.op, e);
      QuietIsCompatible(e.op, e);
      WholeTree(e.op, e);
      Descend(e.op, e, [], L);
      Descend(e.op, e, [], R);
      QuietBelow(e.op, e, [L]);
      QuietBelow(e.op, e, [R]);
    }
  }

  lemma {:induction false} QuietBelow(op: Op, e: Expr, p: Path)
    requires IsOp(e, op) && Quiet(e) && p != [] && InSpine(op, e, p)
    ensures CleanBelow(op, At(op, e, p))
    decreases Leaves(e), 0, SpineSize(op, At(op, e, p))
  {
    hide Dups1, Dups2, AllApart, AllCompatible, Leaves;
    var x := At(op, e, p);
    if IsOp(x, op) {
      Descend(op, e, p, L);
      Descend(op, e, p, R);
      QuietBelow(op, e, p + [L]);
      QuietBelow(op, e, p + [R]);
    } else {
      WholeTree(op, e);
      OperandIsSmaller(op, e, p);
      var q := Another(op, e, p);
      assert [] + p == p && [] + q == q;
      QuietDups1(op, e, [], [], p, q);
      QuietDups2(op, e, [], [], p);
      QuietIsClean(x);
    }
  }

  /** An operand of the top is not alone. */
  lemma {:induction false} Another(op: Op, e: Expr, p: Path) returns (q: Path)
    requires InSpine(op, e, p) && p != []
    ensures OperandAt(op, e, q) && q != p
  {
    var d := if p[0] == L then R else L;
    var s := Leftmost(op, Child(e, d));
    q := [d] + s;
    assert q[1..] == s;
  }

  lemma {:induction false} Leftmost(op: Op, e: Expr) returns (p: Path)
    ensures OperandAt(op, e, p)
  {
    p := [];
    if IsOp(e, op) {
      var s := Leftmost(op, e.left);
      p := [L] + s;
      assert p[1..] == s;
    }
  }

  /** So it is with every result of expr_eliminate_dups. */
  lemma EliminateDupsClean(e: Expr)
    ensures Clean(EliminateDups(e))
  {
    hide Dups1, Dups2, Clean, EliminateDups;
    var r := EliminateDups(e);
    EliminateDupsFixpoint(e);
    if r.Bin? {
      Dups1Folds(r.op, r, [], []);
    }
    QuietIsClean(r);
  }

  // ---------------------------------------------------------------------------
  // What a single change does
  // ---------------------------------------------------------------------------

  /** A join: the first operand becomes neutral, the second the new one, every other stays. */
  lemma JoinAtPlaces(op: Op, e: Expr, p: Path, q: Path, s: Path)
    requires OperandAt(op, e, p) && OperandAt(op, e, q) && p != q && OperandAt(op, e, s)
    requires Join(op, At(op, e, p), At(op, e, q)).Some?
    ensures var r := JoinAt(op, e, p, q).0;
      InSpine(op, r, s) && At(op, r, s) ==
        if s == p then Symb(Unit(op)) else if s == q then Join(op, At(op, e, p), At(op, e, q)).value else At(op, e, s)
  {
    hide Join;
    var t := Join(op, At(op, e, p), At(op, e, q)).value;
    var a := Put(op, e, p, Symb(Unit(op)));
    PutAt(op, e, p, Symb(Unit(op)));
    PutElsewhere(op, e, p, q, Symb(Unit(op)));
    PutAt(op, a, q, t);
    if s != p {
      PutElsewhere(op, e, p, s, Symb(Unit(op)));
    }
    if s != q {
      PutElsewhere(op, a, q, s, t);
    }
  }

  /** A contradiction: the operand becomes the absorbing constant, every other stays. */
  lemma ContradictAtPlaces(op: Op, e: Expr, p: Path, q: Path, s: Path)
    requires OperandAt(op, e, p) && At(op, e, p).Bin? && InSpine(op, e, q) && OperandAt(op, e, s)
    requires ContradictAt(op, e, p, q).1 > 0
    ensures var r := ContradictAt(op, e, p, q).0;
      InSpine(op, r, s) && At(op, r, s) == if s == p then Symb(Zero(op)) else At(op, e, s)
  {
    hide ExtractEq, Transform;
    PutAt(op, e, p, Symb(Zero(op)));
    if s != p {
      PutElsewhere(op, e, p, s, Symb(Zero(op)));
    }
  }
}
