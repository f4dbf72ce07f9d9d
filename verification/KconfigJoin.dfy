/**
 expr_join_or and expr_join_and (one function here, by operator), and the
 extraction of common operands that expr_eliminate_dups2 relies on.
 */
module KconfigJoin {
  import opened Wrappers
  import opened KconfigExpr
  import opened KconfigEq

  predicate Simple(e: Expr) {
    !e.Bin?
  }

  /** The symbol a joinable left operand is about. */
  function LeftHead(e: Expr): Option<Symbol>
    requires Simple(e)
  {
    match e
    case Symb(s) => Some(s)
    case Comp(_, l, _) => Some(l)
    case Not(Symb(s)) => Some(s)
    case Not(Comp(_, l, _)) => Some(l)
    case Not(_) => None
  }

  /** The symbol a joinable right operand is about: under NOT only a symbol will do. */
  function RightHead(e: Expr): Option<Symbol>
    requires Simple(e)
  {
    match e
    case Symb(s) => Some(s)
    case Comp(_, l, _) => Some(l)
    case Not(Symb(s)) => Some(s)
    case Not(_) => None
  }

  predicate IsComp(e: Expr, equal: bool) {
    e.Comp? && e.equal == equal
  }

  /** One operand compares with x and the other with y, in either order. */
  predicate Against(e1: Expr, e2: Expr, x: Symbol, y: Symbol)
    requires e1.Comp? && e2.Comp?
  {
    (e1.rsym == x && e2.rsym == y) || (e1.rsym == y && e2.rsym == x)
  }

  /** One operand is a symbol, the other a comparison with `x`. */
  predicate SymbolAnd(e1: Expr, e2: Expr, equal: bool, x: Symbol) {
    || (e1.Symb? && IsComp(e2, equal) && e2.rsym == x)
    || (e2.Symb? && IsComp(e1, equal) && e1.rsym == x)
  }

  function JoinOrSame(e1: Expr, e2: Expr, s: Symbol): Option<Expr> {
    if s.Type() == Tristated && IsComp(e1, true) && IsComp(e2, true) && Against(e1, e2, SymYes, SymMod) then
      Some(Comp(false, s, SymNo))
    else if s.Type() == Tristated && IsComp(e1, true) && IsComp(e2, true) && Against(e1, e2, SymYes, SymNo) then
      Some(Comp(false, s, SymMod))
    else if s.Type() == Tristated && IsComp(e1, true) && IsComp(e2, true) && Against(e1, e2, SymMod, SymNo) then
      Some(Comp(false, s, SymYes))
    else if s.Type() == Boolean
         && ((e1.Not? && e1.arg.Symb? && e2.Symb?) || (e2.Not? && e2.arg.Symb? && e1.Symb?)) then
      Some(Symb(SymYes))
    else None
  }

  /** a = b && a != c, for constants b and c. */
  function JoinEqualUnequal(s: Symbol, b: Symbol, c: Symbol): Expr {
    if b != c then Comp(true, s, b) else Symb(SymNo)
  }

  function JoinAndTristate(e1: Expr, e2: Expr, s: Symbol): Option<Expr> {
    if IsComp(e1, true) && IsComp(e2, false) && e2.rsym.IsConst() && e1.rsym.IsConst() then
      Some(JoinEqualUnequal(s, e1.rsym, e2.rsym))
    else if IsComp(e1, false) && IsComp(e2, true) && e1.rsym.IsConst() && e2.rsym.IsConst() then
      Some(JoinEqualUnequal(s, e2.rsym, e1.rsym))
    else if IsComp(e1, false) && IsComp(e2, false) && Against(e1, e2, SymYes, SymNo) then
      Some(Comp(true, s, SymMod))
    else if IsComp(e1, false) && IsComp(e2, false) && Against(e1, e2, SymYes, SymMod) then
      Some(Comp(true, s, SymNo))
    else if IsComp(e1, false) && IsComp(e2, false) && Against(e1, e2, SymMod, SymNo) then
      Some(Comp(true, s, SymYes))
    else None
  }

  function JoinAndSame(e1: Expr, e2: Expr, s: Symbol): Option<Expr> {
    if SymbolAnd(e1, e2, true, SymYes) then Some(Comp(true, s, SymYes))
    else if SymbolAnd(e1, e2, false, SymNo) then Some(Symb(s))
    else if SymbolAnd(e1, e2, false, SymMod) then Some(Comp(true, s, SymYes))
    else if s.Type() == Tristated then JoinAndTristate(e1, e2, s)
    else None
  }

  /** One expression in place of two operands of `op`, where a rule applies. */
  function Join(op: Op, e1: Expr, e2: Expr): (r: Option<Expr>)
    ensures r.Some? ==> Leaves(r.value) <= Leaves(e1)
    ensures r.Some? && IsOp(r.value, op) ==> IsOp(e1, op)
  {
    if ExprEq(e1, e2) then Some(e1)
    else if !Simple(e1) || !Simple(e2) then None
    else
      match (LeftHead(e1), RightHead(e2))
      case (Some(s), Some(t)) =>
        if s != t || (s.Type() != Boolean && s.Type() != Tristated) then None
        else if op == Or then JoinOrSame(e1, e2, s)
        else JoinAndSame(e1, e2, s)
      case _ => None
  }

  /** What is known about the value and the string of a symbol that can be joined on. */
  lemma HeadValue(s: Symbol, v: Valuation)
    requires WellFormed(v) && (s.Type() == Boolean || s.Type() == Tristated)
    ensures v(s).str == TriString(v(s).tri) && (s.Type() == Boolean ==> v(s).tri != MOD)
  {
  }

  lemma JoinOrSameValue(e1: Expr, e2: Expr, s: Symbol, v: Valuation)
    requires WellFormed(v)
    requires Simple(e1) && Simple(e2) && LeftHead(e1) == Some(s) && RightHead(e2) == Some(s)
    requires s.Type() == Boolean || s.Type() == Tristated
    ensures var r := JoinOrSame(e1, e2, s);
      r.Some? ==> Value(r.value, v) == Apply(Or, Value(e1, v), Value(e2, v))
  {
    HeadValue(s, v);
  }

  lemma JoinAndTristateValue(e1: Expr, e2: Expr, s: Symbol, v: Valuation)
    requires WellFormed(v)
    requires e1.Comp? && e2.Comp? && e1.lsym == s && e2.lsym == s && s.Type() == Tristated
    ensures var r := JoinAndTristate(e1, e2, s);
      r.Some? ==> Value(r.value, v) == Apply(And, Value(e1, v), Value(e2, v))
  {
    HeadValue(s, v);
    if e1.rsym.IsConst() && e2.rsym.IsConst() && e1.rsym != e2.rsym {
      assert v(e1.rsym).str != v(e2.rsym).str;
    }
  }

  lemma JoinAndSameValue(e1: Expr, e2: Expr, s: Symbol, v: Valuation)
    requires WellFormed(v)
    requires Simple(e1) && Simple(e2) && LeftHead(e1) == Some(s) && RightHead(e2) == Some(s)
    requires s.Type() == Boolean || s.Type() == Tristated
    ensures var r := JoinAndSame(e1, e2, s);
      r.Some? ==> Value(r.value, v) == Apply(And, Value(e1, v), Value(e2, v))
  {
    HeadValue(s, v);
    if s.Type() == Tristated && e1.Comp? && e2.Comp? {
      JoinAndTristateValue(e1, e2, s, v);
    }
  }

  /** Every join rule is exact in all three values. */
  lemma JoinValue(op: Op, e1: Expr, e2: Expr, v: Valuation)
    requires WellFormed(v)
    ensures var r := Join(op, e1, e2);
      r.Some? ==> Value(r.value, v) == Apply(op, Value(e1, v), Value(e2, v))
  {
    if ExprEq(e1, e2) {
      ExprEqSound(e1, e2, v);
    } else if Simple(e1) && Simple(e2) && LeftHead(e1).Some? && LeftHead(e1) == RightHead(e2) {
      var s := LeftHead(e1).value;
      if s.Type() == Boolean || s.Type() == Tristated {
        JoinOrSameValue(e1, e2, s, v);
        JoinAndSameValue(e1, e2, s, v);
      }
    }
  }

  /** expr_extract_eq: common operands move to `ep`, and a neutral constant takes their place. */
  function ExtractEqRec(op: Op, ep: Option<Expr>, e1: Expr, e2: Expr): (r: (Option<Expr>, Expr, Expr))
    decreases Size(e1) + Size(e2), Size(e2)
    ensures Size(r.1) <= Size(e1) && Size(r.2) <= Size(e2)
  {
    if IsOp(e1, op) then
      var (ep', l, f) := ExtractEqRec(op, ep, e1.left, e2);
      var (ep'', r, g) := ExtractEqRec(op, ep', e1.right, f);
      (ep'', Bin(op, l, r), g)
    else if IsOp(e2, op) then
      var (ep', d, l) := ExtractEqRec(op, ep, e1, e2.left);
      var (ep'', c, r) := ExtractEqRec(op, ep', d, e2.right);
      (ep'', c, Bin(op, l, r))
    else if ExprEq(e1, e2) then
      (Some(if ep.Some? then Bin(op, ep.value, e1) else e1), Symb(Unit(op)), Symb(Unit(op)))
    else (ep, e1, e2)
  }

  /** expr_extract_eq_and and expr_extract_eq_or. */
  function ExtractEq(op: Op, e1: Expr, e2: Expr): (Option<Expr>, Expr, Expr) {
    var (tmp, a, b) := ExtractEqRec(op, None, e1, e2);
    if tmp.Some? then (tmp, EliminateYN(a), EliminateYN(b)) else (tmp, a, b)
  }

  function ValueOr(e: Option<Expr>, op: Op, v: Valuation): Tristate {
    if e.Some? then Value(e.value, v) else v(Unit(op)).tri
  }

  lemma Regroup(op: Op, l: Tristate, r: Tristate, e: Tristate, p: Tristate, c: Tristate, d: Tristate)
    ensures Apply(op, Apply(op, l, c), Apply(op, r, d)) == Apply(op, Apply(op, l, r), Apply(op, c, d))
    ensures Apply(op, Apply(op, e, d), c) == Apply(op, e, Apply(op, c, d))
    ensures Apply(op, Apply(op, p, c), d) == Apply(op, p, Apply(op, c, d))
  {
    ApplyLaws(op, l, r, c, d);
    ApplyLaws(op, e, r, c, d);
    ApplyLaws(op, p, r, c, d);
  }

  /** The extracted operands together with what is left make up each side. */
  lemma {:induction false} ExtractEqRecValue(op: Op, ep: Option<Expr>, e1: Expr, e2: Expr, v: Valuation)
    returns (common: Tristate)
    requires Anchored(v)
    ensures var (ep', a, b) := ExtractEqRec(op, ep, e1, e2);
      && Value(e1, v) == Apply(op, Value(a, v), common)
      && Value(e2, v) == Apply(op, Value(b, v), common)
      && ValueOr(ep', op, v) == Apply(op, ValueOr(ep, op, v), common)
    decreases Size(e1) + Size(e2), Size(e2)
  {
    common := v(Unit(op)).tri;
    if IsOp(e1, op) {
      var (ep', l, f) := ExtractEqRec(op, ep, e1.left, e2);
      var (_, r, g) := ExtractEqRec(op, ep', e1.right, f);
      var c := ExtractEqRecValue(op, ep, e1.left, e2, v);
      var d := ExtractEqRecValue(op, ep', e1.right, f, v);
      common := Apply(op, c, d);
      Regroup(op, Value(l, v), Value(r, v), Value(g, v), ValueOr(ep, op, v), c, d);
    } else if IsOp(e2, op) {
      var (ep', d, l) := ExtractEqRec(op, ep, e1, e2.left);
      var (_, c, r) := ExtractEqRec(op, ep', d, e2.right);
      var f := ExtractEqRecValue(op, ep, e1, e2.left, v);
      var g := ExtractEqRecValue(op, ep', d, e2.right, v);
      common := Apply(op, f, g);
      Regroup(op, Value(l, v), Value(r, v), Value(c, v), ValueOr(ep, op, v), f, g);
    } else if ExprEq(e1, e2) {
      ExprEqSound(e1, e2, v);
      common := Value(e1, v);
    }
  }

  /** expr_extract_eq_and/or: the extracted part joined with either rest gives back that side. */
  lemma ExtractEqValue(op: Op, e1: Expr, e2: Expr, v: Valuation)
    requires Anchored(v)
    ensures var (tmp, a, b) := ExtractEq(op, e1, e2);
      && Value(e1, v) == Apply(op, Value(a, v), ValueOr(tmp, op, v))
      && Value(e2, v) == Apply(op, Value(b, v), ValueOr(tmp, op, v))
  {
    var (_, a, b) := ExtractEqRec(op, None, e1, e2);
    var _ := ExtractEqRecValue(op, None, e1, e2, v);
    EliminateYNValue(a, v);
    EliminateYNValue(b, v);
  }
}
