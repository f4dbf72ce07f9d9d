/**
 Where the exactness of expr_eliminate_dups stops: a complete run, pass by pass, on a
 conjunction whose value is m and whose simplification is n.
 */
module KconfigAtM {
  import opened Wrappers
  import opened KconfigExpr
  import opened KconfigEq
  import opened KconfigTransform
  import opened KconfigJoin
  import opened KconfigSpine
  import opened KconfigDups
  import opened KconfigSimplify

  const A: Expr := Symb(Declared("A", Tristated))
  const B: Expr := Symb(Declared("B", Tristated))
  const CONTRADICTION: Expr := Bin(And, Bin(Or, A, B), Bin(And, Not(A), Not(B)))

  const EITHER: Expr := Bin(Or, A, B)
  const NEITHER: Expr := Bin(And, Not(A), Not(B))

  lemma Dups1Pair(op: Op, e: Expr, p: Path, q: Path)
    requires InSpine(op, e, p) && InSpine(op, e, q) && !IsOp(At(op, e, p), op) && !IsOp(At(op, e, q), op)
    requires p == q || Join(op, At(op, e, p), At(op, e, q)).None?
    requires p != q && At(op, e, p).Bin? ==> Dups1(At(op, e, p).op, At(op, e, p), [], []) == (At(op, e, p), 0)
    ensures Dups1(op, e, p, q) == (e, 0)
  {
    PutSame(op, e, p);
  }

  /** Where nothing joins along either branch of the spine, nothing joins at all. */
  lemma Dups1Branches(op: Op, e: Expr, p: Path, q: Path)
    requires InSpine(op, e, p) && InSpine(op, e, q)
    requires IsOp(At(op, e, p), op) ==>
      && InSpine(op, e, p + [L]) && Dups1(op, e, p + [L], q) == (e, 0)
      && InSpine(op, e, p + [R]) && Dups1(op, e, p + [R], q) == (e, 0)
    requires !IsOp(At(op, e, p), op) ==>
      && IsOp(At(op, e, q), op)
      && InSpine(op, e, q + [L]) && Dups1(op, e, p, q + [L]) == (e, 0)
      && InSpine(op, e, q + [R]) && Dups1(op, e, p, q + [R]) == (e, 0)
    ensures Dups1(op, e, p, q) == (e, 0)
  {
  }

  lemma Dups1KeepsEither()
    ensures Dups1(Or, EITHER, [], []) == (EITHER, 0)
  {
    assert [] + [L] == [L] && [] + [R] == [R];
    Dups1Pair(Or, EITHER, [L], [L]);
    Dups1Pair(Or, EITHER, [L], [R]);
    Dups1Pair(Or, EITHER, [R], [L]);
    Dups1Pair(Or, EITHER, [R], [R]);
    Dups1Branches(Or, EITHER, [L], []);
    Dups1Branches(Or, EITHER, [R], []);
    Dups1Branches(Or, EITHER, [], []);
  }

  /** The operands of a conjunction x && (y && z). */
  lemma Positions(e: Expr)
    requires IsOp(e, And) && IsOp(e.right, And)
    ensures At(And, e, [L]) == e.left && At(And, e, [R]) == e.right
    ensures InSpine(And, e, [R] + [L]) && At(And, e, [R] + [L]) == e.right.left
    ensures InSpine(And, e, [R] + [R]) && At(And, e, [R] + [R]) == e.right.right
  {
    Descend(And, e, [R], L);
    Descend(And, e, [R], R);
  }

  lemma Dups1KeepsPair(p: Path, q: Path)
    requires p in {[L], [R] + [L], [R] + [R]} && q in {[L], [R] + [L], [R] + [R]}
    ensures InSpine(And, CONTRADICTION, p) && InSpine(And, CONTRADICTION, q)
    ensures Dups1(And, CONTRADICTION, p, q) == (CONTRADICTION, 0)
  {
    Dups1KeepsEither();
    Positions(CONTRADICTION);
    Dups1Pair(And, CONTRADICTION, p, q);
  }

  lemma Dups1KeepsRow(p: Path)
    requires p in {[L], [R] + [L], [R] + [R]}
    ensures InSpine(And, CONTRADICTION, p) && Dups1(And, CONTRADICTION, p, []) == (CONTRADICTION, 0)
  {
    Positions(CONTRADICTION);
    assert [] + [L] == [L] && [] + [R] == [R];
    Dups1KeepsPair(p, [L]);
    Dups1KeepsPair(p, [R] + [L]);
    Dups1KeepsPair(p, [R] + [R]);
    hide Dups1;
    Dups1Branches(And, CONTRADICTION, p, [R]);
    Dups1Branches(And, CONTRADICTION, p, []);
  }

  lemma Dups1KeepsContradiction()
    ensures Dups1(And, CONTRADICTION, [], []) == (CONTRADICTION, 0)
  {
    assert [] + [L] == [L] && [] + [R] == [R];
    Positions(CONTRADICTION);
    Dups1KeepsRow([L]);
    Dups1KeepsRow([R] + [L]);
    Dups1KeepsRow([R] + [R]);
    Dups1Branches(And, CONTRADICTION, [R], []);
    Dups1Branches(And, CONTRADICTION, [], []);
  }

  const REWRITTEN: Expr := Bin(And, Symb(SymNo), NEITHER)

  /** dups2 only ever replaces operands that are trees. */
  lemma {:induction false} Dups2Inert(op: Op, e: Expr, p: Path, q: Path)
    requires InSpine(op, e, p) && InSpine(op, e, q) && !At(op, e, p).Bin?
    ensures Dups2(op, e, p, q) == (e, 0)
    decreases SpineSize(op, At(op, e, q))
  {
    if IsOp(At(op, e, q), op) {
      Descend(op, e, q, L);
      Descend(op, e, q, R);
      Dups2Inert(op, e, p, q + [L]);
      Dups2Inert(op, e, p, q + [R]);
    }
  }

  lemma Dups2KeepsEither()
    ensures Dups2(Or, EITHER, [], []) == (EITHER, 0)
  {
    assert [] + [L] == [L] && [] + [R] == [R];
    Dups2Inert(Or, EITHER, [L], []);
    Dups2Inert(Or, EITHER, [R], []);
  }

  lemma WhatIsExtracted()
    ensures Transform(Not(EITHER)) == NEITHER
    ensures ExtractEq(And, NEITHER, NEITHER).1 == Symb(SymYes)
    ensures ExtractEq(And, NEITHER, Not(A)).1 == Not(B)
    ensures ExtractEq(And, NEITHER, Not(B)).1 == Not(A)
  {
    assert ExtractEqRec(And, None, Not(A), NEITHER) == (Some(Not(A)), Symb(SymYes), Bin(And, Symb(SymYes), Not(B)));
  }

  lemma Dups2Against(q: Path)
    requires q in {[R] + [L], [R] + [R], [R]}
    ensures InSpine(And, CONTRADICTION, q)
    ensures Dups2Operand(And, CONTRADICTION, [L], q) == if q == [R] then (REWRITTEN, 1) else (CONTRADICTION, 0)
  {
    hide Dups2, Transform, ExtractEq;
    Dups2KeepsEither();
    PutSame(And, CONTRADICTION, [L]);
    WhatIsExtracted();
    Positions(CONTRADICTION);
  }

  lemma Dups2AgainstLeaf(q: Path)
    requires q in {[R] + [L], [R] + [R]}
    ensures InSpine(And, CONTRADICTION, q) && Dups2(And, CONTRADICTION, [L], q) == (CONTRADICTION, 0)
  {
    hide Dups2Operand;
    Dups2Against(q);
    Positions(CONTRADICTION);
  }

  lemma Dups2Branches(op: Op, e: Expr, p: Path, q: Path, b: Expr, n: nat)
    requires InSpine(op, e, p) && InSpine(op, e, q) && !IsOp(At(op, e, p), op) && IsOp(At(op, e, q), op)
    requires InSpine(op, e, q + [L]) && Dups2(op, e, p, q + [L]) == (e, 0)
    requires InSpine(op, e, q + [R]) && Dups2(op, e, p, q + [R]) == (b, n)
    requires InSpine(op, b, p) && InSpine(op, b, q) && !IsOp(At(op, b, p), op) && p != q
    ensures Dups2(op, e, p, q) == (Dups2Operand(op, b, p, q).0, n + Dups2Operand(op, b, p, q).1)
  {
  }

  lemma Dups2RewritesAgainstRight()
    ensures Dups2(And, CONTRADICTION, [L], [R]) == (REWRITTEN, 1)
  {
    hide Dups2, Dups2Operand;
    Positions(CONTRADICTION);
    Dups2AgainstLeaf([R] + [L]);
    Dups2AgainstLeaf([R] + [R]);
    Dups2Against([R]);
    assert At(And, CONTRADICTION, [L]) == EITHER && At(And, CONTRADICTION, [R]) == NEITHER;
    Dups2Branches(And, CONTRADICTION, [L], [R], CONTRADICTION, 0);
  }

  lemma Dups2RewritesLeft()
    ensures Dups2(And, CONTRADICTION, [L], []) == (REWRITTEN, 1)
  {
    assert [] + [L] == [L] && [] + [R] == [R];
    Dups2RewritesAgainstRight();
    Positions(REWRITTEN);
    assert Dups2Operand(And, REWRITTEN, [L], []) == (REWRITTEN, 0);
    Dups2Branches(And, CONTRADICTION, [L], [], REWRITTEN, 1);
  }

  lemma Dups2RewritesContradiction()
    ensures Dups2(And, CONTRADICTION, [], []) == (REWRITTEN, 1)
  {
    assert [] + [L] == [L] && [] + [R] == [R];
    Dups2RewritesLeft();
    Positions(REWRITTEN);
    Dups2Inert(And, REWRITTEN, [R] + [L], []);
    Dups2Inert(And, REWRITTEN, [R] + [R], []);
    assert Dups2(And, REWRITTEN, [R], []) == (REWRITTEN, 0);
  }

  /** (A || B) && !A && !B is m when both symbols are, but is rewritten to n. */
  lemma EliminateDupsNotExactAtM(v: Valuation)
    requires WellFormed(v)
    requires v(A.sym).tri == MOD && v(B.sym).tri == MOD
    ensures Value(CONTRADICTION, v) == MOD
    ensures EliminateDups(CONTRADICTION) == Symb(SymNo)
    ensures Value(EliminateDups(CONTRADICTION), v) == NO
  {
    Dups1KeepsContradiction();
    Dups2RewritesContradiction();
    assert EliminateYN(REWRITTEN) == Symb(SymNo);
  }
}
