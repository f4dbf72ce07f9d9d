/**
 expr_eliminate_dups: repeatedly join pairs of operands (dups1), replace an operand
 that contradicts the others (dups2) and fold constants, until a round changes nothing.
 Both passes are entered with the same tree as both arguments.
 */
module KconfigDups {
  import opened Wrappers
  import opened KconfigExpr
  import opened KconfigEq
  import opened KconfigTransform
  import opened KconfigJoin
  import opened KconfigSpine

  // ---------------------------------------------------------------------------
  // expr_eliminate_dups1
  // ---------------------------------------------------------------------------

  /** `p` and `q` stand for ep1 and ep2; the number counts changes (trans_count). */
  function Dups1(op: Op, e: Expr, p: Path, q: Path): (r: (Expr, nat))
    requires InSpine(op, e, p) && InSpine(op, e, q)
    ensures SameSpine(op, e, r.0) && Leaves(r.0) <= Leaves(e)
    decreases Leaves(e), SpineSize(op, At(op, e, p)), SpineSize(op, At(op, e, q)), 1
  {
    var e1, e2 := At(op, e, p), At(op, e, q);
    SameSpineReflexive(op, e);
    if IsOp(e1, op) then
      Descend(op, e, p, L);
      var (a, m) := Dups1(op, e, p + [L], q);
      Descend(op, e, p, R);
      SameSpineAt(op, e, a, p + [R]);
      SameSpineAt(op, e, a, q);
      var (b, n) := Dups1(op, a, p + [R], q);
      SameSpineTransitive(op, e, a, b);
      (b, m + n)
    else if IsOp(e2, op) then
      Descend(op, e, q, L);
      var (a, m) := Dups1(op, e, p, q + [L]);
      Descend(op, e, q, R);
      SameSpineAt(op, e, a, p);
      SameSpineAt(op, e, a, q + [R]);
      var (b, n) := Dups1(op, a, p, q + [R]);
      SameSpineTransitive(op, e, a, b);
      (b, m + n)
    else if p == q then (e, 0)
    else
      var (a, m) := Dups1Operand(op, e, p);
      SameSpineAt(op, e, a, p);
      SameSpineAt(op, e, a, q);
      var r := JoinAt(op, a, p, q);
      SameSpineTransitive(op, e, a, r.0);
      (r.0, m + r.1)
  }

  /** The pass on one operand by itself, when that is a tree of the other operator. */
  function Dups1Operand(op: Op, e: Expr, p: Path): (r: (Expr, nat))
    requires p != [] && InSpine(op, e, p) && !IsOp(At(op, e, p), op)
    ensures SameSpine(op, e, r.0) && Leaves(r.0) <= Leaves(e)
    decreases Leaves(e), 0, 0, 0
  {
    var x := At(op, e, p);
    SameSpineReflexive(op, e);
    if x.Bin? then
      OperandIsSmaller(op, e, p);
      var (y, m) := Dups1(x.op, x, [], []);
      PutAt(op, e, p, y);
      (Put(op, e, p, y), m)
    else (e, 0)
  }

  /** expr_join_or/and on two operands: the first becomes neutral, the second the join. */
  function JoinAt(op: Op, e: Expr, p: Path, q: Path): (r: (Expr, nat))
    requires InSpine(op, e, p) && InSpine(op, e, q) && p != q
    requires !IsOp(At(op, e, p), op) && !IsOp(At(op, e, q), op)
    ensures SameSpine(op, e, r.0) && Leaves(r.0) <= Leaves(e)
  {
    SameSpineReflexive(op, e);
    match Join(op, At(op, e, p), At(op, e, q))
    case None => (e, 0)
    case Some(t) =>
      var a := Put(op, e, p, Symb(Unit(op)));
      PutAt(op, e, p, Symb(Unit(op)));
      PutElsewhere(op, e, p, q, Symb(Unit(op)));
      PutAt(op, a, q, t);
      SameSpineTransitive(op, e, a, Put(op, a, q, t));
      (Put(op, a, q, t), 1)
  }

  lemma JoinAtValue(op: Op, e: Expr, p: Path, q: Path, v: Valuation)
    requires WellFormed(v)
    requires InSpine(op, e, p) && InSpine(op, e, q) && p != q
    requires !IsOp(At(op, e, p), op) && !IsOp(At(op, e, q), op)
    ensures Value(JoinAt(op, e, p, q).0, v) == Value(e, v)
  {
    var e1, e2 := At(op, e, p), At(op, e, q);
    var j := Join(op, e1, e2);
    if j.Some? {
      JoinValue(op, e1, e2, v);
      var a := Put(op, e, p, Symb(Unit(op)));
      PutAt(op, e, p, Symb(Unit(op)));
      PutElsewhere(op, e, p, q, Symb(Unit(op)));
      ValueAround(op, e, p, e1, v);
      ValueAround(op, a, q, j.value, v);
      ApplyLaws(op, Value(e1, v), Value(e2, v), Value(e2, v), Value(Put(op, a, q, Symb(Unit(op))), v));
    }
  }

  /** dups1 keeps the three-valued meaning, self-application and nesting included. */
  lemma {:induction false} Dups1Value(op: Op, e: Expr, p: Path, q: Path, v: Valuation)
    requires WellFormed(v)
    requires InSpine(op, e, p) && InSpine(op, e, q)
    ensures Value(Dups1(op, e, p, q).0, v) == Value(e, v)
    decreases Leaves(e), SpineSize(op, At(op, e, p)), SpineSize(op, At(op, e, q))
  {
    var e1, e2 := At(op, e, p), At(op, e, q);
    if IsOp(e1, op) {
      Descend(op, e, p, L);
      Descend(op, e, p, R);
      var a := Dups1(op, e, p + [L], q).0;
      SameSpineAt(op, e, a, p + [R]);
      SameSpineAt(op, e, a, q);
      Dups1Value(op, e, p + [L], q, v);
      Dups1Value(op, a, p + [R], q, v);
    } else if IsOp(e2, op) {
      Descend(op, e, q, L);
      Descend(op, e, q, R);
      var a := Dups1(op, e, p, q + [L]).0;
      SameSpineAt(op, e, a, p);
      SameSpineAt(op, e, a, q + [R]);
      Dups1Value(op, e, p, q + [L], v);
      Dups1Value(op, a, p, q + [R], v);
    } else if p != q {
      var a := Dups1Operand(op, e, p).0;
      SameSpineAt(op, e, a, p);
      SameSpineAt(op, e, a, q);
      if e1.Bin? {
        OperandIsSmaller(op, e, p);
        Dups1Value(e1.op, e1, [], [], v);
        ValueAround(op, e, p, Dups1(e1.op, e1, [], []).0, v);
      }
      JoinAtValue(op, a, p, q, v);
    }
  }

  // ---------------------------------------------------------------------------
  // expr_eliminate_dups2
  // ---------------------------------------------------------------------------

  function Dups2(op: Op, e: Expr, p: Path, q: Path): (r: (Expr, nat))
    requires InSpine(op, e, p) && InSpine(op, e, q)
    ensures SameSpine(op, e, r.0) && Leaves(r.0) <= Leaves(e)
    decreases Leaves(e), SpineSize(op, At(op, e, p)), SpineSize(op, At(op, e, q)), 2
  {
    var e1, e2 := At(op, e, p), At(op, e, q);
    SameSpineReflexive(op, e);
    if IsOp(e1, op) then
      Descend(op, e, p, L);
      var (a, m) := Dups2(op, e, p + [L], q);
      Descend(op, e, p, R);
      SameSpineAt(op, e, a, p + [R]);
      SameSpineAt(op, e, a, q);
      var (b, n) := Dups2(op, a, p + [R], q);
      SameSpineTransitive(op, e, a, b);
      (b, m + n)
    else if IsOp(e2, op) then
      // no return after the two calls: e2 itself is tried against e1 as well
      Descend(op, e, q, L);
      var (a, m) := Dups2(op, e, p, q + [L]);
      Descend(op, e, q, R);
      SameSpineAt(op, e, a, p);
      SameSpineAt(op, e, a, q + [R]);
      var (b, n) := Dups2(op, a, p, q + [R]);
      SameSpineTransitive(op, e, a, b);
      SameSpineAt(op, e, b, p);
      SameSpineAt(op, e, b, q);
      var (c, k) := Dups2Operand(op, b, p, q);
      SameSpineTransitive(op, e, b, c);
      (c, m + n + k)
    else if p == q then (e, 0)
    else Dups2Operand(op, e, p, q)
  }

  /** The operand at `p` by itself, then the test whether it contradicts what is at `q`. */
  function Dups2Operand(op: Op, e: Expr, p: Path, q: Path): (r: (Expr, nat))
    requires InSpine(op, e, p) && InSpine(op, e, q) && p != q
    requires !IsOp(At(op, e, p), op)
    ensures SameSpine(op, e, r.0) && Leaves(r.0) <= Leaves(e)
    decreases Leaves(e), SpineSize(op, At(op, e, p)), SpineSize(op, At(op, e, q)), 1
  {
    var x := At(op, e, p);
    SameSpineReflexive(op, e);
    if x.Bin? then
      NotTheRoot(op, e, p, q);
      OperandIsSmaller(op, e, p);
      var (y, m) := Dups2(x.op, x, [], []);
      var a := Put(op, e, p, y);
      PutAt(op, e, p, y);
      SameSpineAt(op, e, a, q);
      var b := ContradictAt(op, a, p, q);
      SameSpineTransitive(op, e, a, b.0);
      (b.0, m + b.1)
    else (e, 0)
  }

  lemma NotTheRoot(op: Op, e: Expr, p: Path, q: Path)
    requires InSpine(op, e, p) && InSpine(op, e, q) && p != q && !IsOp(At(op, e, p), op)
    ensures p != []
  {
  }

  /**
   (A || B) && (!A && !B) -> n, and dually: if every operand of the transformed negation
   of e1 is struck out against e2, then e1 becomes the absorbing constant.
   */
  function ContradictAt(op: Op, e: Expr, p: Path, q: Path): (r: (Expr, nat))
    requires InSpine(op, e, p) && InSpine(op, e, q) && At(op, e, p).Bin? && !IsOp(At(op, e, p), op)
    ensures SameSpine(op, e, r.0) && Leaves(r.0) <= Leaves(e)
  {
    var (_, tmp1, _) := ExtractEq(op, Transform(Not(At(op, e, p))), At(op, e, q));
    SameSpineReflexive(op, e);
    PutAt(op, e, p, Symb(Zero(op)));
    if tmp1 == Symb(Unit(op)) then (Put(op, e, p, Symb(Zero(op))), 1) else (e, 0)
  }

  /** `b` is `a` wherever `a` is decided; an undecided m may become anything. */
  predicate Refines(a: Tristate, b: Tristate) {
    a == MOD || a == b
  }

  lemma RefinesMonotone(op: Op, a: Tristate, b: Tristate, c: Tristate)
    requires Refines(a, b)
    ensures Refines(Apply(op, a, c), Apply(op, b, c))
  {
  }

  /** The whole is at most (at least) what stands at a position of its AND (OR) spine. */
  lemma {:induction false} OperandBounds(op: Op, e: Expr, p: Path, v: Valuation)
    requires InSpine(op, e, p)
    ensures Apply(op, Value(e, v), Value(At(op, e, p), v)) == Value(e, v)
  {
    if p != [] {
      OperandBounds(op, Child(e, p[0]), p[1..], v);
    }
  }

  lemma ContradictAtValue(op: Op, e: Expr, p: Path, q: Path, v: Valuation)
    requires WellFormed(v)
    requires InSpine(op, e, p) && InSpine(op, e, q) && At(op, e, p).Bin? && !IsOp(At(op, e, p), op)
    ensures Refines(Value(e, v), Value(ContradictAt(op, e, p, q).0, v))
  {
    hide Transform, ExtractEq, At, Put, InSpine, SameSpine;
    var e1, e2 := At(op, e, p), At(op, e, q);
    var negated := Transform(Not(e1));
    var (_, tmp1, _) := ExtractEq(op, negated, e2);
    if tmp1 == Symb(Unit(op)) {
      ExtractEqValue(op, negated, e2, v);
      TransformValue(Not(e1), v);
      OperandBounds(op, e, p, v);
      OperandBounds(op, e, q, v);
      ValueAround(op, e, p, Symb(Zero(op)), v);
    }
  }

  /** The step is right exactly where the whole is not m: there is no other way it goes wrong. */
  lemma ContradictAtExact(op: Op, e: Expr, p: Path, q: Path, v: Valuation)
    requires WellFormed(v)
    requires InSpine(op, e, p) && InSpine(op, e, q) && At(op, e, p).Bin? && !IsOp(At(op, e, p), op)
    requires ContradictAt(op, e, p, q).1 > 0
    ensures Value(ContradictAt(op, e, p, q).0, v) == Value(e, v) <==> Value(e, v) != MOD
  {
    ContradictAtValue(op, e, p, q, v);
    ValueAround(op, e, p, Symb(Zero(op)), v);
  }

  /**
   dups2 relies on x && !x = n and x || !x = y, which fail at m: it keeps every value
   that is not m.
   */
  lemma {:induction false} Dups2Value(op: Op, e: Expr, p: Path, q: Path, v: Valuation)
    requires WellFormed(v)
    requires InSpine(op, e, p) && InSpine(op, e, q)
    ensures Refines(Value(e, v), Value(Dups2(op, e, p, q).0, v))
    decreases Leaves(e), SpineSize(op, At(op, e, p)), SpineSize(op, At(op, e, q)), 2
  {
    var e1, e2 := At(op, e, p), At(op, e, q);
    if IsOp(e1, op) {
      Descend(op, e, p, L);
      Descend(op, e, p, R);
      var a := Dups2(op, e, p + [L], q).0;
      SameSpineAt(op, e, a, p + [R]);
      SameSpineAt(op, e, a, q);
      Dups2Value(op, e, p + [L], q, v);
      Dups2Value(op, a, p + [R], q, v);
    } else if IsOp(e2, op) {
      Descend(op, e, q, L);
      Descend(op, e, q, R);
      var a := Dups2(op, e, p, q + [L]).0;
      SameSpineAt(op, e, a, p);
      SameSpineAt(op, e, a, q + [R]);
      Dups2Value(op, e, p, q + [L], v);
      Dups2Value(op, a, p, q + [R], v);
      var b := Dups2(op, a, p, q + [R]).0;
      SameSpineTransitive(op, e, a, b);
      SameSpineAt(op, e, b, p);
      SameSpineAt(op, e, b, q);
      Dups2OperandValue(op, b, p, q, v);
    } else if p != q {
      Dups2OperandValue(op, e, p, q, v);
    }
  }

  lemma {:induction false} Dups2OperandValue(op: Op, e: Expr, p: Path, q: Path, v: Valuation)
    requires WellFormed(v)
    requires InSpine(op, e, p) && InSpine(op, e, q) && p != q && !IsOp(At(op, e, p), op)
    ensures Refines(Value(e, v), Value(Dups2Operand(op, e, p, q).0, v))
    decreases Leaves(e), SpineSize(op, At(op, e, p)), SpineSize(op, At(op, e, q)), 1
  {
    var x := At(op, e, p);
    if x.Bin? {
      NotTheRoot(op, e, p, q);
      OperandIsSmaller(op, e, p);
      var y := Dups2(x.op, x, [], []).0;
      Dups2Value(x.op, x, [], [], v);
      var a := Put(op, e, p, y);
      PutAt(op, e, p, y);
      SameSpineAt(op, e, a, q);
      ValueAround(op, e, p, y, v);
      RefinesMonotone(op, Value(x, v), Value(y, v), Value(Put(op, e, p, Symb(Unit(op))), v));
      ContradictAtValue(op, a, p, q, v);
    }
  }
}
