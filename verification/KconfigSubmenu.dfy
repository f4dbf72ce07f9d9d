/**
 expr_trans_bool, expr_trans_compare, expr_contains_symbol, expr_depends_symbol, and
 the test menu_finalize builds from them: does an entry depend on the one before it?
 */
module KconfigSubmenu {
  import opened Wrappers
  import opened KconfigExpr
  import opened KconfigEq
  import opened KconfigTransform
  import opened KconfigDups
  import opened KconfigSimplify

  /** FOO != n -> FOO, for tristate FOO. */
  function TransBool(e: Expr): Expr {
    match e
    case Symb(_) => e
    case Not(a) => Not(TransBool(a))
    case Bin(op, l, r) => Bin(op, TransBool(l), TransBool(r))
    case Comp(eq, l, r) => if !eq && l.Type() == Tristated && r.SymNo? then Symb(l) else e
  }

  /** On the output of expr_transform: the value may drop from y to m, never to or from n. */
  lemma {:induction false} TransBoolKeepsNo(e: Expr, v: Valuation)
    requires WellFormed(v) && Normal(e)
    ensures Value(TransBool(e), v) <= Value(e, v)
    ensures Value(TransBool(e), v) == NO <==> Value(e, v) == NO
  {
    match e
    case Bin(_, l, r) =>
      TransBoolKeepsNo(l, v);
      TransBoolKeepsNo(r, v);
    case Comp(_, l, _) =>
      assert l.Type() == Tristated ==> v(l).str == TriString(v(l).tri);
    case _ =>
  }

  /** A comparison that there is something to do about. */
  predicate Tested(e: Expr) {
    match e
    case Symb(_) => false
    case Not(a) => Tested(a)
    case Bin(_, l, r) => Tested(l) || Tested(r)
    case Comp(eq, l, r) => !eq && l.Type() == Tristated && r.SymNo?
  }

  /** All of them go, and nothing else changes. */
  lemma TransBoolExact(e: Expr)
    ensures !Tested(TransBool(e)) && (!Tested(e) <==> TransBool(e) == e) && Subjects(TransBool(e)) == Subjects(e)
  {
  }

  /** What the leaves are about, from left to right. */
  function Subjects(e: Expr): seq<Symbol> {
    match e
    case Symb(s) => [s]
    case Not(a) => Subjects(a)
    case Bin(_, l, r) => Subjects(l) + Subjects(r)
    case Comp(_, l, _) => [l]
  }

  /** Above a comparison, NOT exposes the difference: !(A != n) is n at A = m, !A is m. */
  lemma TransBoolNeedsNormal(v: Valuation, a: Symbol)
    requires WellFormed(v) && a.Type() == Tristated && v(a).tri == MOD
    ensures var e := Not(Comp(false, a, SymNo));
      Value(e, v) == NO && Value(TransBool(e), v) == MOD
  {
    assert v(a).str == "m";
  }

  /** expr_trans_compare for the two symbols it supports: "e = sym" or "e != sym", pushed to the leaves. */
  function TransCompare(e: Expr, equal: bool, sym: Symbol): Expr
    requires sym.SymYes? || sym.SymNo?
  {
    match e
    case Bin(op, l, r) =>
      var both := if sym.SymYes? then op else Dual(op);
      var c := Bin(both, TransCompare(l, true, sym), TransCompare(r, true, sym));
      if equal then c else Not(c)
    case Not(a) => TransCompare(a, !equal, sym)
    case Comp(_, _, _) => if equal == sym.SymYes? then e else Not(e)
    case Symb(s) => Comp(equal, s, sym)
  }

  /** The leaves stay in order. */
  lemma TransCompareInOrder(e: Expr, equal: bool, sym: Symbol)
    requires sym.SymYes? || sym.SymNo?
    ensures Subjects(TransCompare(e, equal, sym)) == Subjects(e)
  {
  }

  function TransCompareOpt(e: Option<Expr>, equal: bool, sym: Symbol): Expr
    requires sym.SymYes? || sym.SymNo?
  {
    match e
    case None => if equal then Symb(sym) else Not(Symb(sym))
    case Some(x) => TransCompare(x, equal, sym)
  }

  /** Symbols that stand for themselves are boolean, tristate, or one of y, m, n. */
  predicate Logical(e: Expr) {
    match e
    case Symb(s) => s.IsTriLiteral() || s.Type() == Boolean || s.Type() == Tristated
    case Comp(_, _, _) => true
    case Not(a) => Logical(a)
    case Bin(_, l, r) => Logical(l) && Logical(r)
  }

  /** No operand of a NOT is m. */
  predicate DecidedNots(e: Expr, v: Valuation) {
    match e
    case Symb(_) => true
    case Comp(_, _, _) => true
    case Not(a) => Value(a, v) != MOD && DecidedNots(a, v)
    case Bin(_, l, r) => DecidedNots(l, v) && DecidedNots(r, v)
  }

  /** The comparison pushed to the leaves is the comparison of the value, and never m. */
  lemma {:induction false} TransCompareValue(e: Expr, equal: bool, sym: Symbol, v: Valuation)
    requires WellFormed(v) && Logical(e) && DecidedNots(e, v)
    requires sym.SymYes? || sym.SymNo?
    ensures Value(TransCompare(e, equal, sym), v) == if (Value(e, v) == v(sym).tri) == equal then YES else NO
  {
    match e
    case Bin(_, l, r) =>
      TransCompareValue(l, true, sym, v);
      TransCompareValue(r, true, sym, v);
    case Not(a) => TransCompareValue(a, !equal, sym, v);
    case Comp(_, _, _) =>
    case Symb(s) =>
      assert v(s).str == TriString(v(s).tri);
  }

  /** Under NOT the answer is right exactly when the operand is not m. */
  lemma TransCompareUnderNot(a: Expr, equal: bool, sym: Symbol, v: Valuation)
    requires WellFormed(v) && Logical(a) && DecidedNots(a, v)
    requires sym.SymYes? || sym.SymNo?
    ensures Compares(Not(a), equal, sym, v) <==> Value(a, v) != MOD
  {
    TransCompareValue(a, !equal, sym, v);
  }

  /** The pushed-down comparison says of the value what it should. */
  ghost predicate Compares(e: Expr, equal: bool, sym: Symbol, v: Valuation)
    requires sym.SymYes? || sym.SymNo?
  {
    Value(TransCompare(e, equal, sym), v) == if (Value(e, v) == v(sym).tri) == equal then YES else NO
  }

  /** The valuation in which every m counts as y, or every m as n; texts stay. */
  function Rounded(v: Valuation, up: bool): Valuation {
    s => if v(s).tri == MOD then v(s).(tri := if up then YES else NO) else v(s)
  }

  lemma {:induction false} RoundedIsCrisp(e: Expr, v: Valuation, up: bool)
    ensures Value(e, Rounded(v, up)) != MOD
  {
    match e
    case Not(a) => RoundedIsCrisp(a, v, up);
    case Bin(_, l, r) =>
      RoundedIsCrisp(l, v, up);
      RoundedIsCrisp(r, v, up);
    case _ =>
  }

  /** What expr_trans_compare computes in every valuation: the comparison in two-valued logic, with m rounded away from `sym`. */
  lemma {:induction false} TransCompareRounds(e: Expr, equal: bool, sym: Symbol, v: Valuation)
    requires WellFormed(v) && Logical(e)
    requires sym.SymYes? || sym.SymNo?
    ensures Value(TransCompare(e, equal, sym), v) ==
      if (Value(e, Rounded(v, sym.SymNo?)) == v(sym).tri) == equal then YES else NO
  {
    match e
    case Bin(_, l, r) =>
      TransCompareRounds(l, true, sym, v);
      TransCompareRounds(r, true, sym, v);
      RoundedIsCrisp(l, v, sym.SymNo?);
      RoundedIsCrisp(r, v, sym.SymNo?);
    case Not(a) =>
      TransCompareRounds(a, !equal, sym, v);
      RoundedIsCrisp(a, v, sym.SymNo?);
    case Comp(_, _, _) =>
    case Symb(s) =>
      assert v(s).str == TriString(v(s).tri);
  }

  /** So it is right exactly where rounding does not matter. */
  lemma TransCompareExact(e: Expr, equal: bool, sym: Symbol, v: Valuation)
    requires WellFormed(v) && Logical(e)
    requires sym.SymYes? || sym.SymNo?
    ensures Compares(e, equal, sym, v) <==>
      (Value(e, Rounded(v, sym.SymNo?)) == v(sym).tri <==> Value(e, v) == v(sym).tri)
  {
    TransCompareRounds(e, equal, sym, v);
  }

  function Contains(dep: Expr, sym: Symbol): (r: bool)
    ensures r <==> sym in Symbols(dep)
  {
    match dep
    case Bin(_, l, r) => Contains(l, sym) || Contains(r, sym)
    case Symb(s) => s == sym
    case Comp(_, l, r) => l == sym || r == sym
    case Not(a) => Contains(a, sym)
  }

  predicate Depends(dep: Expr, sym: Symbol) {
    match dep
    case Bin(And, l, r) => Depends(l, sym) || Depends(r, sym)
    case Symb(s) => s == sym
    case Comp(true, l, r) => l == sym && (r.SymYes? || r.SymMod?)
    case Comp(false, l, r) => l == sym && r.SymNo?
    case _ => false
  }

  lemma {:induction false} DependsSound(dep: Expr, sym: Symbol, v: Valuation)
    requires WellFormed(v) && Depends(dep, sym)
    requires sym.Type() == Boolean || sym.Type() == Tristated
    requires Value(dep, v) != NO
    ensures v(sym).tri != NO
  {
    assert v(sym).str == TriString(v(sym).tri);
    match dep
    case Bin(_, l, r) =>
      if Depends(l, sym) {
        DependsSound(l, sym, v);
      } else {
        DependsSound(r, sym, v);
      }
    case _ =>
  }

  /** "Is not n", compared, transformed and simplified as menu_finalize does it. */
  function NotNo(e: Option<Expr>): Expr {
    EliminateDups(Transform(TransCompareOpt(e, false, SymNo)))
  }

  /** The decision to move an entry with dependency `dep` below the entry of `sym`. */
  predicate BelongsBelow(sym: Symbol, base: Option<Expr>, dep: Option<Expr>) {
    && dep.Some?
    && Contains(dep.value, sym)
    && (Depends(dep.value, sym) || IsYes(EliminateEq(NotNo(dep), NotNo(base)).1))
  }

  predicate LogicalOpt(e: Option<Expr>) {
    e.Some? ==> Logical(e.value)
  }

  /** Reading m as y changes whether the expression is n. */
  ghost predicate Misjudged(e: Option<Expr>, v: Valuation) {
    ValueOpt(e, Rounded(v, true)) == NO <==> ValueOpt(e, v) != NO
  }

  /** What menu_finalize compares, in every valuation: is the expression n when m is read as y? */
  lemma NotNoValue(e: Option<Expr>, v: Valuation)
    requires WellFormed(v) && LogicalOpt(e)
    ensures Value(NotNo(e), v) == if ValueOpt(e, Rounded(v, true)) != NO then YES else NO
  {
    var c := TransCompareOpt(e, false, SymNo);
    if e.Some? {
      TransCompareRounds(e.value, false, SymNo, v);
    }
    TransformValue(c, v);
    EliminateDupsValue(Transform(c), v);
  }

  /** What elimination proves about any two expressions: if nothing is left of e2, e1 is at most e2. */
  lemma EliminatedIsBelow(e1: Expr, e2: Expr, v: Valuation)
    requires Anchored(v) && IsYes(EliminateEq(e1, e2).1)
    ensures Value(e1, v) <= Value(e2, v)
  {
    EliminateEqReflectsOrder(e1, e2, v);
  }

  lemma {:induction false} DependsRounded(dep: Expr, sym: Symbol, v: Valuation)
    requires WellFormed(v) && Depends(dep, sym)
    requires sym.Type() == Boolean || sym.Type() == Tristated
    requires Value(dep, Rounded(v, true)) != NO
    ensures v(sym).tri != NO
  {
    assert v(sym).str == TriString(v(sym).tri);
    match dep
    case Bin(_, l, r) =>
      if Depends(l, sym) {
        DependsRounded(l, sym, v);
      } else {
        DependsRounded(r, sym, v);
      }
    case _ =>
  }

  /** Read with m as y, the test is sound in every valuation. */
  lemma BelongsBelowRounded(sym: Symbol, base: Option<Expr>, dep: Option<Expr>, v: Valuation)
    requires WellFormed(v) && BelongsBelow(sym, base, dep) && LogicalOpt(base) && LogicalOpt(dep)
    requires sym.Type() == Boolean || sym.Type() == Tristated
    requires ValueOpt(dep, Rounded(v, true)) != NO
    ensures v(sym).tri != NO || ValueOpt(base, Rounded(v, true)) != NO
  {
    if Depends(dep.value, sym) {
      DependsRounded(dep.value, sym, v);
    } else {
      NotNoValue(dep, v);
      NotNoValue(base, v);
      EliminatedIsBelow(NotNo(dep), NotNo(base), v);
    }
  }

  /**
   The test as it is meant: an entry moved below another one is never available when that
   one is neither selected nor visible. It fails nowhere but where a comparison is misjudged.
   */
  lemma BelongsBelowSound(sym: Symbol, base: Option<Expr>, dep: Option<Expr>, v: Valuation)
    requires WellFormed(v) && BelongsBelow(sym, base, dep) && LogicalOpt(base) && LogicalOpt(dep)
    requires sym.Type() == Boolean || sym.Type() == Tristated
    requires !Misjudged(base, v) && !Misjudged(dep, v)
    ensures ValueOpt(dep, v) != NO ==> v(sym).tri != NO || ValueOpt(base, v) != NO
  {
    if ValueOpt(dep, v) != NO {
      BelongsBelowRounded(sym, base, dep, v);
    }
  }

  /** Nothing is misjudged where no operand of a NOT is m. */
  lemma DecidedIsJudged(e: Expr, v: Valuation)
    requires WellFormed(v) && Logical(e) && DecidedNots(e, v)
    ensures !Misjudged(Some(e), v)
  {
    TransCompareValue(e, false, SymNo, v);
    TransCompareRounds(e, false, SymNo, v);
  }
}
