/**
 The expressions of the Kconfig language and their value in the three-valued
 logic n < m < y: conjunction is the minimum, disjunction the maximum and
 negation the reflection 2 - x.
 */
module KconfigExpr {
  import opened Wrappers

  /** n = 0, m = 1, y = 2, as in the enumeration of the same name. */
  type Tristate = x: int | 0 <= x <= 2

  const NO: Tristate := 0
  const MOD: Tristate := 1
  const YES: Tristate := 2

  datatype SymbolType = Unknown | Boolean | Tristated | Integer | Hexadecimal | Text

  /** sym_lookup answers "y", "m" and "n" with the built-in symbols, so no other constant has these names. */
  type ConstantText = t: string | t != "y" && t != "m" && t != "n" witness ""

  /** The three built-in constants, any other constant, and the declared symbols. */
  datatype Symbol =
    | SymYes
    | SymMod
    | SymNo
    | Constant(text: ConstantText)
    | Declared(name: string, kind: SymbolType)
  {
    function Type(): SymbolType {
      if Declared? then kind else Unknown
    }

    predicate IsConst() {
      !Declared?
    }

    predicate IsTriLiteral() {
      SymYes? || SymMod? || SymNo?
    }
  }

  datatype Op = And | Or

  /** E_SYMBOL, E_NOT, E_AND / E_OR (by `op`), and E_EQUAL / E_UNEQUAL (by `equal`). */
  datatype Expr =
    | Symb(sym: Symbol)
    | Not(arg: Expr)
    | Bin(op: Op, left: Expr, right: Expr)
    | Comp(equal: bool, lsym: Symbol, rsym: Symbol)

  datatype SymbolValue = SymbolValue(tri: Tristate, str: string)

  type Valuation = Symbol -> SymbolValue

  function TriString(t: Tristate): string {
    if t == NO then "n" else if t == MOD then "m" else "y"
  }

  /** The constants y and n have their own values: all that folding and comparing rely on. */
  ghost predicate Anchored(v: Valuation) {
    v(SymYes).tri == YES && v(SymNo).tri == NO
  }

  /** What symbol evaluation guarantees about the values it hands to expressions. */
  ghost predicate WellFormed(v: Valuation) {
    && v(SymYes) == SymbolValue(YES, "y")
    && v(SymMod) == SymbolValue(MOD, "m")
    && v(SymNo) == SymbolValue(NO, "n")
    && (forall s: Symbol :: s.Type() in {Boolean, Tristated} ==> v(s).str == TriString(v(s).tri))
    && (forall s: Symbol :: s.Type() == Boolean ==> v(s).tri != MOD)
    && (forall s: Symbol, t: Symbol :: s.IsConst() && t.IsConst() && s != t ==> v(s).str != v(t).str)
  }

  function Apply(op: Op, a: Tristate, b: Tristate): Tristate {
    match op
    case And => if a < b then a else b
    case Or => if a > b then a else b
  }

  /** The operators are associative and commutative; `l`, `r` keep what `c`, `d` take away. */
  lemma ApplyLaws(op: Op, l: Tristate, r: Tristate, c: Tristate, d: Tristate)
    ensures Apply(op, Apply(op, l, c), Apply(op, r, d)) == Apply(op, Apply(op, l, r), Apply(op, c, d))
    ensures Apply(op, Apply(op, l, d), c) == Apply(op, l, Apply(op, c, d))
    ensures Apply(op, Apply(op, l, c), d) == Apply(op, l, Apply(op, c, d))
  {
  }

  function Value(e: Expr, v: Valuation): Tristate {
    match e
    case Symb(s) => v(s).tri
    case Not(a) => 2 - Value(a, v)
    case Bin(op, l, r) => Apply(op, Value(l, v), Value(r, v))
    case Comp(eq, l, r) => if (v(l).str == v(r).str) == eq then YES else NO
  }

  /** A missing expression (a null pointer) counts as y. */
  function ValueOpt(e: Option<Expr>, v: Valuation): Tristate {
    match e
    case None => YES
    case Some(x) => Value(x, v)
  }

  /** Every symbol that occurs in the expression. */
  function Symbols(e: Expr): set<Symbol> {
    match e
    case Symb(s) => {s}
    case Not(a) => Symbols(a)
    case Bin(_, l, r) => Symbols(l) + Symbols(r)
    case Comp(_, l, r) => {l, r}
  }

  /** The neutral constant of an operator, and the one that absorbs. */
  function Unit(op: Op): Symbol {
    if op == And then SymYes else SymNo
  }

  function Zero(op: Op): Symbol {
    if op == And then SymNo else SymYes
  }

  function Dual(op: Op): Op {
    if op == And then Or else And
  }

  /** Nodes of the tree. */
  function Size(e: Expr): (n: nat)
    ensures n >= 1
  {
    match e
    case Symb(_) => 1
    case Comp(_, _, _) => 1
    case Not(a) => 1 + Size(a)
    case Bin(_, l, r) => 1 + Size(l) + Size(r)
  }

  /** Leaves of the tree. */
  function Leaves(e: Expr): (n: nat)
    ensures n >= 1
  {
    match e
    case Symb(_) => 1
    case Comp(_, _, _) => 1
    case Not(a) => Leaves(a)
    case Bin(_, l, r) => Leaves(l) + Leaves(r)
  }

  predicate IsOp(e: Expr, op: Op) {
    e.Bin? && e.op == op
  }

  /** expr_is_yes and expr_is_no on an expression that is present. */
  predicate IsYes(e: Expr) {
    e == Symb(SymYes)
  }

  predicate IsNo(e: Expr) {
    e == Symb(SymNo)
  }
}
