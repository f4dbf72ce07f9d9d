/**
 expr_transform: negations are pushed inwards and comparisons of boolean symbols
 become symbols. A De Morgan step makes the tree larger and starts the pass again
 on the result; `Weight` is what goes down nevertheless.
 */
module KconfigTransform {
  import opened KconfigExpr

  /** Doubles under NOT, so that moving NOT below an operator pays for the copy of NOT. */
  function Weight(e: Expr): (n: nat)
    ensures n >= 1
  {
    match e
    case Symb(_) => 1
    case Comp(_, _, _) => 2
    case Not(a) => 2 * Weight(a)
    case Bin(_, l, r) => 1 + Weight(l) + Weight(r)
  }

  function TransformComp(e: Expr): (r: Expr)
    requires e.Comp?
    ensures Weight(r) <= Weight(e)
  {
    if e.lsym.Type() != Boolean then e
    else if e.rsym.SymNo? then if e.equal then Not(Symb(e.lsym)) else Symb(e.lsym)
    else if e.rsym.SymMod? then Symb(if e.equal then SymNo else SymYes)
    else if e.rsym.SymYes? then if e.equal then Symb(e.lsym) else Not(Symb(e.lsym))
    else e
  }

  /** !(a || b) -> !a && !b, and dually: larger, yet lighter than the negation it replaces. */
  function DeMorgan(op: Op, l: Expr, r: Expr): (e: Expr)
    ensures Weight(e) < 2 * Weight(Bin(op, l, r))
  {
    assert Weight(Not(l)) == 2 * Weight(l) && Weight(Not(r)) == 2 * Weight(r);
    Bin(Dual(op), Not(l), Not(r))
  }

  /** First the operands, then the node itself, then possibly the whole pass again. */
  function Transform(e: Expr): (r: Expr)
    ensures Weight(r) <= Weight(e)
    decreases Weight(e)
  {
    match e
    case Symb(_) => e
    case Comp(_, _, _) => TransformComp(e)
    case Bin(op, l, r) => Bin(op, Transform(l), Transform(r))
    case Not(x) =>
      var a := Transform(x);
      match a
      case Not(b) => Transform(b)
      case Comp(eq, l, r) => Comp(!eq, l, r)
      case Bin(op, l, r) => Transform(DeMorgan(op, l, r))
      case Symb(s) =>
        if s.SymYes? then Symb(SymNo)
        else if s.SymMod? then Symb(SymMod)
        else if s.SymNo? then Symb(SymYes)
        else Not(a)
  }

  /** NOT only above a symbol that is not y, m or n, and no boolean symbol compared with y, m or n. */
  predicate Normal(e: Expr) {
    match e
    case Symb(_) => true
    case Comp(_, l, r) => l.Type() == Boolean ==> !r.IsTriLiteral()
    case Not(a) => a.Symb? && !a.sym.IsTriLiteral()
    case Bin(_, l, r) => Normal(l) && Normal(r)
  }

  lemma TransformCompValue(e: Expr, v: Valuation)
    requires WellFormed(v) && e.Comp?
    ensures Value(TransformComp(e), v) == Value(e, v)
  {
    if e.lsym.Type() == Boolean {
      assert v(e.lsym).str == TriString(v(e.lsym).tri);
      assert v(e.lsym).tri != MOD;
    }
  }

  /** The pass keeps the three-valued meaning. */
  lemma {:induction false} TransformValue(e: Expr, v: Valuation)
    requires WellFormed(v)
    ensures Value(Transform(e), v) == Value(e, v)
    decreases Weight(e)
  {
    match e
    case Symb(_) =>
    case Comp(_, _, _) => TransformCompValue(e, v);
    case Bin(_, l, r) =>
      TransformValue(l, v);
      TransformValue(r, v);
    case Not(x) =>
      TransformValue(x, v);
      match Transform(x)
      case Not(b) => TransformValue(b, v);
      case Bin(op, l, r) => TransformValue(DeMorgan(op, l, r), v);
      case _ =>
  }

  lemma {:induction false} TransformIsNormal(e: Expr)
    ensures Normal(Transform(e))
    decreases Weight(e)
  {
    match e
    case Symb(_) =>
    case Comp(_, _, _) =>
    case Bin(_, l, r) =>
      TransformIsNormal(l);
      TransformIsNormal(r);
    case Not(x) =>
      TransformIsNormal(x);
      match Transform(x)
      case Not(b) => TransformIsNormal(b);
      case Bin(op, l, r) => TransformIsNormal(DeMorgan(op, l, r));
      case _ =>
  }

  /** Normal trees are exactly the fixed points, so running the pass twice changes nothing. */
  lemma {:induction false} TransformFixes(e: Expr)
    ensures Normal(e) <==> Transform(e) == e
  {
    TransformIsNormal(e);
    if Normal(e) {
      match e
      case Bin(_, l, r) =>
        TransformFixes(l);
        TransformFixes(r);
      case _ =>
    }
  }

  lemma TransformIdempotent(e: Expr)
    ensures Transform(Transform(e)) == Transform(e)
  {
    TransformIsNormal(e);
    TransformFixes(Transform(e));
  }

  // ---------------------------------------------------------------------------
  // The result
  // ---------------------------------------------------------------------------

  /** A symbol or a comparison, negated or not, without a NOT above a constant or a comparison. */
  function Literal(e: Expr, negate: bool): Expr
    requires e.Symb? || e.Comp?
  {
    match e
    case Symb(s) =>
      if !negate || s.SymMod? then e
      else if s.SymYes? then Symb(SymNo)
      else if s.SymNo? then Symb(SymYes)
      else Not(e)
    case Comp(equal, l, r) =>
      var same := equal != negate;
      if l.Type() != Boolean || !r.IsTriLiteral() then Comp(same, l, r)
      else if r.SymMod? then Symb(if same then SymNo else SymYes)
      else if r.SymYes? == same then Symb(l)
      else Not(Symb(l))
  }

  /** The normal form, by one descent with the sign: the operands stay where they are. */
  function Signed(e: Expr, negate: bool): Expr {
    match e
    case Symb(_) => Literal(e, negate)
    case Comp(_, _, _) => Literal(e, negate)
    case Not(a) => Signed(a, !negate)
    case Bin(op, l, r) => Bin(if negate then Dual(op) else op, Signed(l, negate), Signed(r, negate))
  }

  lemma {:induction false} SignsMultiply(e: Expr, a: bool, b: bool)
    ensures Signed(Signed(e, a), b) == Signed(e, a != b)
  {
    match e
    case Not(x) => SignsMultiply(x, !a, b);
    case Bin(_, l, r) =>
      SignsMultiply(l, a, b);
      SignsMultiply(r, a, b);
    case _ =>
  }

  /** The pass with all its restarts is that descent. */
  lemma {:induction false} TransformIsSigned(e: Expr)
    ensures Transform(e) == Signed(e, false)
    decreases Weight(e)
  {
    match e
    case Symb(_) =>
    case Comp(_, _, _) =>
    case Bin(_, l, r) =>
      TransformIsSigned(l);
      TransformIsSigned(r);
    case Not(x) =>
      TransformIsSigned(x);
      TransformIsNormal(x);
      SignsMultiply(x, false, true);
      match Transform(x)
      case Not(b) => TransformIsSigned(b);
      case Bin(op, l, r) => TransformIsSigned(DeMorgan(op, l, r));
      case _ =>
  }
}
