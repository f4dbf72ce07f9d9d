/**
 Positions in a tree. The passes of expr_eliminate_dups receive two `struct expr **`
 that both point into one tree, possibly one above the other. Here a position is the
 path from the root, so two positions alias exactly when the paths do.

 The `op`-spine of a tree is its top part made of `op` nodes; the operands of the
 n-ary conjunction or disjunction hang off it.
 */
module KconfigSpine {
  import opened KconfigExpr

  datatype Side = L | R

  type Path = seq<Side>

  /** Every node strictly above the position is an `op` node. */
  predicate InSpine(op: Op, e: Expr, p: Path) {
    p == [] || (IsOp(e, op) && InSpine(op, Child(e, p[0]), p[1..]))
  }

  function Child(e: Expr, d: Side): Expr
    requires e.Bin?
  {
    if d == L then e.left else e.right
  }

  function At(op: Op, e: Expr, p: Path): Expr
    requires InSpine(op, e, p)
  {
    if p == [] then e else At(op, Child(e, p[0]), p[1..])
  }

  function Put(op: Op, e: Expr, p: Path, x: Expr): Expr
    requires InSpine(op, e, p)
  {
    if p == [] then x
    else if p[0] == L then Bin(op, Put(op, e.left, p[1..], x), e.right)
    else Bin(op, e.left, Put(op, e.right, p[1..], x))
  }

  /** Inner nodes of the spine. */
  function SpineSize(op: Op, e: Expr): nat {
    if IsOp(e, op) then 1 + SpineSize(op, e.left) + SpineSize(op, e.right) else 0
  }

  predicate SameSpine(op: Op, a: Expr, b: Expr) {
    if IsOp(a, op) then IsOp(b, op) && SameSpine(op, a.left, b.left) && SameSpine(op, a.right, b.right)
    else !IsOp(b, op)
  }

  lemma SameSpineReflexive(op: Op, a: Expr)
    ensures SameSpine(op, a, a)
  {
  }

  lemma SameSpineTransitive(op: Op, a: Expr, b: Expr, c: Expr)
    requires SameSpine(op, a, b) && SameSpine(op, b, c)
    ensures SameSpine(op, a, c)
  {
  }

  /** One step down from a spine node. */
  lemma {:induction false} Descend(op: Op, e: Expr, p: Path, d: Side)
    requires InSpine(op, e, p) && IsOp(At(op, e, p), op)
    ensures InSpine(op, e, p + [d])
    ensures At(op, e, p + [d]) == Child(At(op, e, p), d)
    ensures SpineSize(op, At(op, e, p + [d])) < SpineSize(op, At(op, e, p))
  {
    if p == [] {
      assert p + [d] == [d];
    } else {
      assert (p + [d])[0] == p[0] && (p + [d])[1..] == p[1..] + [d];
      Descend(op, Child(e, p[0]), p[1..], d);
    }
  }

  lemma {:induction false} SameSpineAt(op: Op, a: Expr, b: Expr, p: Path)
    requires SameSpine(op, a, b) && InSpine(op, a, p)
    ensures InSpine(op, b, p)
    ensures SameSpine(op, At(op, a, p), At(op, b, p))
    ensures SpineSize(op, At(op, a, p)) == SpineSize(op, At(op, b, p))
  {
    if p == [] {
      SameSpineSize(op, a, b);
    } else {
      SameSpineAt(op, Child(a, p[0]), Child(b, p[0]), p[1..]);
    }
  }

  /** What is no tree of `op` stays none. */
  lemma OperandsStay(op: Op, e: Expr, a: Expr, p: Path, q: Path)
    requires SameSpine(op, e, a) && InSpine(op, e, p) && InSpine(op, e, q) && InSpine(op, a, p) && InSpine(op, a, q)
    requires !IsOp(At(op, e, p), op) && !IsOp(At(op, e, q), op)
    ensures !IsOp(At(op, a, p), op) && !IsOp(At(op, a, q), op)
  {
    SameSpineAt(op, e, a, p);
    SameSpineAt(op, e, a, q);
  }

  /** A tree of the other operator is one operand. */
  lemma OtherSpine(op: Op, a: Expr, b: Expr)
    requires a.Bin? && a.op != op && SameSpine(a.op, a, b)
    ensures SameSpine(op, a, b)
  {
  }

  lemma SameSpineSize(op: Op, a: Expr, b: Expr)
    requires SameSpine(op, a, b)
    ensures SpineSize(op, a) == SpineSize(op, b)
  {
  }

  lemma {:induction false} PutAt(op: Op, e: Expr, p: Path, x: Expr)
    requires InSpine(op, e, p) && SameSpine(op, At(op, e, p), x)
    ensures SameSpine(op, e, Put(op, e, p, x))
    ensures InSpine(op, Put(op, e, p, x), p) && At(op, Put(op, e, p, x), p) == x
    ensures Leaves(Put(op, e, p, x)) == Leaves(e) - Leaves(At(op, e, p)) + Leaves(x)
  {
    if p != [] {
      PutAt(op, Child(e, p[0]), p[1..], x);
      SameSpineReflexive(op, e.left);
      SameSpineReflexive(op, e.right);
    }
  }

  /** Writing one operand leaves every other operand alone. */
  lemma {:induction false} PutElsewhere(op: Op, e: Expr, p: Path, q: Path, x: Expr)
    requires InSpine(op, e, p) && InSpine(op, e, q) && p != q
    requires !IsOp(At(op, e, p), op) && !IsOp(At(op, e, q), op)
    ensures InSpine(op, Put(op, e, p, x), q)
    ensures At(op, Put(op, e, p, x), q) == At(op, e, q)
  {
    if p != [] && q != [] && p[0] == q[0] {
      assert p == [p[0]] + p[1..] && q == [q[0]] + q[1..];
      PutElsewhere(op, Child(e, p[0]), p[1..], q[1..], x);
    }
  }

  /** An operand below the root has fewer leaves than the whole. */
  lemma {:induction false} OperandIsSmaller(op: Op, e: Expr, p: Path)
    requires InSpine(op, e, p)
    ensures Leaves(At(op, e, p)) <= Leaves(e)
    ensures p != [] ==> Leaves(At(op, e, p)) < Leaves(e)
  {
    if p != [] {
      OperandIsSmaller(op, Child(e, p[0]), p[1..]);
    }
  }

  /** The value of the tree is the value at the position combined with the rest. */
  lemma {:induction false} ValueAround(op: Op, e: Expr, p: Path, x: Expr, v: Valuation)
    requires Anchored(v) && InSpine(op, e, p)
    ensures Value(e, v) == Apply(op, Value(At(op, e, p), v), Value(Put(op, e, p, Symb(Unit(op))), v))
    ensures Value(Put(op, e, p, x), v) == Apply(op, Value(x, v), Value(Put(op, e, p, Symb(Unit(op))), v))
  {
    if p != [] {
      ValueAround(op, Child(e, p[0]), p[1..], x, v);
    }
  }
}
