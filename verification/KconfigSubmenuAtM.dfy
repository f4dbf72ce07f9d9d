/**
 Where the soundness of the submenu decision stops: an entry that is moved below a symbol
 which is n and not visible, while the entry itself is available, because m under NOT is
 judged to be n.
 */
module KconfigSubmenuAtM {
  import opened Wrappers
  import opened KconfigExpr
  import opened KconfigEq
  import opened KconfigTransform
  import opened KconfigJoin
  import opened KconfigSpine
  import opened KconfigDups
  import opened KconfigSimplify
  import opened KconfigAtM
  import opened KconfigSubmenu

  const BASE_SYMBOL: Symbol := Declared("B", Tristated)
  const ABOVE: Symbol := Declared("S", Tristated)
  const OTHER: Symbol := Declared("C", Tristated)

  /** !B && (S || C), the dependency of the entry, and B = n, the visibility of S. */
  const DEP: Expr := Bin(And, Not(Symb(BASE_SYMBOL)), Bin(Or, Symb(ABOVE), Symb(OTHER)))
  const BASE: Expr := Comp(true, BASE_SYMBOL, SymNo)

  const SOME: Expr := Bin(Or, Comp(false, ABOVE, SymNo), Comp(false, OTHER, SymNo))
  const COMPARED: Expr := Bin(And, BASE, SOME)

  lemma DepIsCompared()
    ensures Transform(TransCompare(DEP, false, SymNo)) == COMPARED
    ensures Transform(TransCompare(BASE, false, SymNo)) == BASE
  {
    var none := Bin(And, Comp(true, ABOVE, SymNo), Comp(true, OTHER, SymNo));
    var inner := Bin(Or, Comp(false, BASE_SYMBOL, SymNo), none);
    assert TransCompare(DEP, false, SymNo) == Not(inner);
    assert Transform(inner) == inner;
    assert Transform(Not(none)) == SOME by {
      assert Transform(none) == none;
      assert Transform(DeMorgan(And, none.left, none.right)) == SOME;
    }
    assert Transform(DeMorgan(Or, inner.left, none)) == COMPARED;
  }

  lemma SomeStays()
    ensures Dups1(Or, SOME, [], []) == (SOME, 0) && Dups2(Or, SOME, [], []) == (SOME, 0)
  {
    assert [] + [L] == [L] && [] + [R] == [R];
    Dups1Pair(Or, SOME, [L], [L]);
    Dups1Pair(Or, SOME, [L], [R]);
    Dups1Pair(Or, SOME, [R], [L]);
    Dups1Pair(Or, SOME, [R], [R]);
    Dups1Branches(Or, SOME, [L], []);
    Dups1Branches(Or, SOME, [R], []);
    Dups1Branches(Or, SOME, [], []);
    Dups2Inert(Or, SOME, [L], []);
    Dups2Inert(Or, SOME, [R], []);
  }

  lemma NothingJoins()
    ensures Dups1(And, COMPARED, [], []) == (COMPARED, 0)
  {
    assert [] + [L] == [L] && [] + [R] == [R];
    SomeStays();
    Dups1Pair(And, COMPARED, [L], [L]);
    Dups1Pair(And, COMPARED, [L], [R]);
    Dups1Pair(And, COMPARED, [R], [L]);
    Dups1Pair(And, COMPARED, [R], [R]);
    Dups1Branches(And, COMPARED, [L], []);
    Dups1Branches(And, COMPARED, [R], []);
    Dups1Branches(And, COMPARED, [], []);
  }

  const NEITHER_SET: Expr := Bin(And, Comp(true, ABOVE, SymNo), Comp(true, OTHER, SymNo))

  /** Neither S = n nor C = n stands against the other operands. */
  lemma NothingExtracts()
    ensures Transform(Not(SOME)) == NEITHER_SET
    ensures ExtractEq(And, NEITHER_SET, BASE).1 == NEITHER_SET
    ensures ExtractEq(And, NEITHER_SET, COMPARED).1 == NEITHER_SET
  {
    assert Transform(SOME) == SOME;
    assert Transform(DeMorgan(Or, SOME.left, SOME.right)) == NEITHER_SET;
    var l, r := NEITHER_SET.left, NEITHER_SET.right;
    assert ExtractEqRec(And, None, l, BASE) == (None, l, BASE) && ExtractEqRec(And, None, r, BASE) == (None, r, BASE);
    assert ExtractEqRec(And, None, l, SOME) == (None, l, SOME) && ExtractEqRec(And, None, r, SOME) == (None, r, SOME);
    assert ExtractEqRec(And, None, l, COMPARED) == (None, l, COMPARED);
    assert ExtractEqRec(And, None, r, COMPARED) == (None, r, COMPARED);
  }

  lemma NothingContradicts(q: Path)
    requires q == [L] || q == []
    ensures Dups2Operand(And, COMPARED, [R], q) == (COMPARED, 0)
  {
    hide Dups2, Transform, ExtractEq;
    SomeStays();
    PutSame(And, COMPARED, [R]);
    NothingExtracts();
    assert At(And, COMPARED, q) == if q == [L] then BASE else COMPARED;
    assert At(And, COMPARED, [R]) == SOME;
  }

  lemma NothingStrikes()
    ensures Dups2(And, COMPARED, [], []) == (COMPARED, 0)
  {
    assert [] + [L] == [L] && [] + [R] == [R];
    Dups2Inert(And, COMPARED, [L], []);
    NothingContradicts([L]);
    NothingContradicts([]);
    assert Dups2(And, COMPARED, [R], [L]) == (COMPARED, 0) by { hide Dups2Operand; }
    assert Dups2(And, COMPARED, [R], [R]) == (COMPARED, 0) by { hide Dups2Operand; }
    hide Dups2Operand;
    Dups2Branches(And, COMPARED, [R], [], COMPARED, 0);
  }

  lemma ComparedStays()
    ensures EliminateDups(COMPARED) == COMPARED && EliminateDups(BASE) == BASE
  {
    NothingJoins();
    NothingStrikes();
  }

  /** Striking B = n from both sides leaves nothing of the visibility of S. */
  lemma BaseIsStruckOut()
    ensures EliminateEq(COMPARED, BASE).1 == Symb(SymYes)
  {
    assert EliminateEqRec(And, BASE, BASE) == (Symb(SymYes), Symb(SymYes));
    assert EliminateEqRec(And, SOME, Symb(SymYes)).1 == Symb(SymYes);
  }

  /** The entry goes below S, which is n and not visible, while the entry can be m. */
  lemma BelongsBelowUnsoundAtM(v: Valuation)
    requires WellFormed(v) && v(BASE_SYMBOL).tri == MOD && v(ABOVE).tri == NO && v(OTHER).tri == YES
    ensures BelongsBelow(ABOVE, Some(BASE), Some(DEP))
    ensures Value(DEP, v) == MOD && v(ABOVE).tri == NO && Value(BASE, v) == NO
    ensures Misjudged(Some(DEP), v)
  {
    hide Transform, EliminateDups, EliminateEq, TransCompare;
    DepIsCompared();
    ComparedStays();
    BaseIsStruckOut();
    assert v(BASE_SYMBOL).str == "m";
  }
}
