/**
 Values of symbols: what a symbol's value is, as a plain recursion over its
 dependencies, and sym_calc_value, which computes it on demand and remembers it
 under SYMBOL_VALID.
 */
module KconfigSymbols {
  import opened Wrappers
  import opened KconfigExpr

  /** The list of properties of a symbol; `visible` is visible.expr. */
  datatype Property =
    | Prompt(visible: Option<Expr>)
    | Default(visible: Option<Expr>, expr: Expr)
    | Select(visible: Option<Expr>)
    | Other(visible: Option<Expr>)

  datatype SymbolDef = SymbolDef(props: seq<Property>, dirDep: Option<Expr>, revDep: Option<Expr>)

  /** `modules` is the value of modules_sym. */
  datatype Config = Config(defs: map<Symbol, SymbolDef>, modules: Tristate)

  /** def[S_DEF_USER]. */
  datatype UserValue = UserValue(val: string, tri: Tristate)

  type UserValues = map<Symbol, UserValue>

  /** The computed part of `struct symbol`: curr, visible, dir_dep.tri, rev_dep.tri, SYMBOL_WRITE. */
  datatype Computed = Computed(curr: SymbolValue, visible: Tristate, dirDep: Tristate, revDep: Tristate, write: bool)

  /** The computed part of the built-in constants, which no evaluation changes. */
  function Literal(s: Symbol): Computed {
    BLANK.(curr := if s.SymYes? then SymbolValue(YES, "y") else if s.SymMod? then SymbolValue(MOD, "m") else SymbolValue(NO, "n"))
  }

  const BLANK: Computed := Computed(SymbolValue(NO, ""), NO, NO, NO, false)

  function Def(c: Config, s: Symbol): SymbolDef {
    if s in c.defs then c.defs[s] else SymbolDef([], None, None)
  }

  predicate IsTri(s: Symbol) {
    s.Type() == Boolean || s.Type() == Tristated
  }

  predicate IsText(s: Symbol) {
    s.Type() == Text || s.Type() == Integer || s.Type() == Hexadecimal
  }

  /** sym_get_type. */
  function EffectiveType(c: Config, s: Symbol): SymbolType {
    if s.Type() == Tristated && c.modules == NO then Boolean else s.Type()
  }

  /** sym_get_string_value. */
  function StringValue(c: Config, s: Symbol, curr: SymbolValue): string {
    if IsTri(s) then
      if curr.tri == MOD && c.modules == NO then "n" else TriString(curr.tri)
    else curr.str
  }

  function Observe(c: Config, s: Symbol, curr: SymbolValue): SymbolValue {
    SymbolValue(curr.tri, StringValue(c, s, curr))
  }

  // ---------------------------------------------------------------------------
  // The value of one symbol, given the values of the others
  // ---------------------------------------------------------------------------

  function AnyPrompt(ps: seq<Property>, v: Valuation): Tristate {
    if ps == [] then NO
    else
      var before, p := AnyPrompt(ps[..|ps| - 1], v), ps[|ps| - 1];
      if p.Prompt? then Apply(Or, before, ValueOpt(p.visible, v)) else before
  }

  lemma AnyPromptNext(ps: seq<Property>, v: Valuation, i: nat)
    requires i < |ps|
    ensures AnyPrompt(ps[..i + 1], v) ==
      if ps[i].Prompt? then Apply(Or, AnyPrompt(ps[..i], v), ValueOpt(ps[i].visible, v)) else AnyPrompt(ps[..i], v)
  {
    assert ps[..i + 1][..i] == ps[..i];
  }

  function Visibility(c: Config, s: Symbol, v: Valuation): Tristate {
    var tri := AnyPrompt(Def(c, s).props, v);
    if tri == MOD && (s.Type() != Tristated || c.modules == NO) then YES else tri
  }

  function DirDep(c: Config, s: Symbol, v: Valuation): Tristate {
    var tri := ValueOpt(Def(c, s).dirDep, v);
    if tri == MOD then YES else tri
  }

  function RevDep(c: Config, s: Symbol, v: Valuation): Tristate {
    var e := Def(c, s).revDep;
    var tri := if e.Some? then Value(e.value, v) else NO;
    if tri == MOD && EffectiveType(c, s) == Boolean then YES else tri
  }

  /** Index of the first default whose condition is not n, or the number of properties. */
  function FirstDefault(ds: seq<Property>, v: Valuation, i: nat): (r: nat)
    requires i <= |ds|
    ensures i <= r <= |ds| && (r < |ds| ==> ds[r].Default?)
    decreases |ds| - i
  {
    if i == |ds| || (ds[i].Default? && ValueOpt(ds[i].visible, v) != NO) then i else FirstDefault(ds, v, i + 1)
  }

  function DefaultTri(ds: seq<Property>, v: Valuation): Tristate {
    var i := FirstDefault(ds, v, 0);
    if i == |ds| then NO else Apply(And, Value(ds[i].expr, v), ValueOpt(ds[i].visible, v))
  }

  /** The single symbol a default for a text symbol consists of, whose value it takes over. */
  function DefaultSymbol(ds: seq<Property>, v: Valuation): Option<Symbol> {
    var i := FirstDefault(ds, v, 0);
    if i < |ds| && ds[i].expr.Symb? then Some(ds[i].expr.sym) else None
  }

  function TriValue(c: Config, user: UserValues, s: Symbol, v: Valuation): Tristate {
    var visible := Visibility(c, s, v);
    var own := if visible != NO && s in user then Apply(And, user[s].tri, visible) else DefaultTri(Def(c, s).props, v);
    var tri := Apply(Or, own, RevDep(c, s, v));
    if tri == MOD && EffectiveType(c, s) == Boolean then YES else tri
  }

  /** `raw` gives curr.val of the other symbols, which a text default copies as it is. */
  function TextValue(c: Config, user: UserValues, s: Symbol, v: Valuation, raw: Symbol -> string): string {
    if Visibility(c, s, v) != NO && s in user then user[s].val
    else
      var d := DefaultSymbol(Def(c, s).props, v);
      if d.Some? then raw(d.value) else ""
  }

  function Compute(c: Config, user: UserValues, s: Symbol, v: Valuation, raw: Symbol -> string): Computed {
    match s
    case SymYes => Literal(s)
    case SymMod => Literal(s)
    case SymNo => Literal(s)
    case Constant(text) => BLANK.(curr := SymbolValue(NO, text))
    case Declared(name, kind) =>
      if kind == Unknown then BLANK.(curr := SymbolValue(NO, name))
      else
        var visible, revDep := Visibility(c, s, v), RevDep(c, s, v);
        var ds := Def(c, s).props;
        if IsTri(s) then
          Computed(SymbolValue(TriValue(c, user, s, v), "n"), visible, DirDep(c, s, v), revDep,
                   visible != NO || revDep != NO || FirstDefault(ds, v, 0) < |ds|)
        else
          Computed(SymbolValue(NO, TextValue(c, user, s, v, raw)), visible, DirDep(c, s, v), revDep,
                   visible != NO || DefaultSymbol(ds, v).Some?)
  }

  // ---------------------------------------------------------------------------
  // The value of every symbol, by recursion over acyclic dependencies
  // ---------------------------------------------------------------------------

  function SymbolsOpt(e: Option<Expr>): set<Symbol> {
    if e.Some? then Symbols(e.value) else {}
  }

  /** What sym_check_sym_deps looks at, property by property: all but selections and choices. */
  function PropDeps(p: Property): set<Symbol> {
    match p
    case Select(_) => {}
    case Default(visible, e) => SymbolsOpt(visible) + Symbols(e)
    case _ => SymbolsOpt(p.visible)
  }

  function PropsDeps(ps: seq<Property>): set<Symbol> {
    set i, t | 0 <= i < |ps| && t in PropDeps(ps[i]) :: t
  }

  /** The symbols a symbol depends on, as the dependency check sees them. */
  function Deps(d: SymbolDef): set<Symbol> {
    SymbolsOpt(d.revDep) + PropsDeps(d.props)
  }

  /** A symbol depends on what occurs in what selects it, in the conditions of all properties but selections, and in its defaults. */
  lemma DepsExact(d: SymbolDef, t: Symbol)
    ensures t in Deps(d) <==>
      || (d.revDep.Some? && t in Symbols(d.revDep.value))
      || (exists i :: 0 <= i < |d.props| && !d.props[i].Select? && d.props[i].visible.Some? && t in Symbols(d.props[i].visible.value))
      || (exists i :: 0 <= i < |d.props| && d.props[i].Default? && t in Symbols(d.props[i].expr))
  {
    if i :| 0 <= i < |d.props| && t in PropDeps(d.props[i]) {
      assert t in PropsDeps(d.props);
    }
    forall i | 0 <= i < |d.props| && t in PropDeps(d.props[i])
      ensures t in Deps(d)
    {
      assert t in PropsDeps(d.props);
    }
  }

  /** menu_finalize conjoins the dependency of an entry to all properties, so dir_dep brings no new symbols. */
  predicate DirDepCovered(d: SymbolDef) {
    SymbolsOpt(d.dirDep) <= Deps(d)
  }

  ghost predicate Below(e: Option<Expr>, rank: Symbol -> nat, n: nat) {
    forall t :: t in SymbolsOpt(e) ==> rank(t) < n
  }

  ghost predicate DefBelow(d: SymbolDef, rank: Symbol -> nat, n: nat) {
    && (forall t :: t in Deps(d) ==> rank(t) < n)
    && Below(d.dirDep, rank, n)
  }

  /** Every symbol depends only on symbols of lower rank. */
  ghost predicate Acyclic(c: Config, rank: Symbol -> nat) {
    forall s: Symbol :: DefBelow(Def(c, s), rank, rank(s))
  }

  lemma PropBelow(d: SymbolDef, rank: Symbol -> nat, n: nat, i: nat)
    requires DefBelow(d, rank, n) && i < |d.props| && !d.props[i].Select?
    ensures Below(d.props[i].visible, rank, n)
    ensures d.props[i].Default? ==> Below(Some(d.props[i].expr), rank, n)
  {
    forall t | t in PropDeps(d.props[i])
      ensures t in Deps(d)
    {
    }
  }

  /** The value of a symbol: computed from the values of the symbols of lower rank. */
  ghost function Spec(c: Config, user: UserValues, rank: Symbol -> nat, s: Symbol): Computed
    decreases rank(s), 1
  {
    Compute(c, user, s, ValuesUnder(c, user, rank, rank(s)), RawUnder(c, user, rank, rank(s)))
  }

  ghost function ValuesUnder(c: Config, user: UserValues, rank: Symbol -> nat, n: nat): Valuation
    decreases n, 0
  {
    t => if rank(t) < n then Observe(c, t, Spec(c, user, rank, t).curr) else SymbolValue(NO, "")
  }

  ghost function RawUnder(c: Config, user: UserValues, rank: Symbol -> nat, n: nat): Symbol -> string
    decreases n, 0
  {
    t => if rank(t) < n then Spec(c, user, rank, t).curr.str else ""
  }

  /** The values of all symbols at once, as expressions and comparisons see them. */
  ghost function Values(c: Config, user: UserValues, rank: Symbol -> nat): Valuation {
    t => Observe(c, t, Spec(c, user, rank, t).curr)
  }

  ghost function Raw(c: Config, user: UserValues, rank: Symbol -> nat): Symbol -> string {
    t => Spec(c, user, rank, t).curr.str
  }

  // ---------------------------------------------------------------------------
  // Values depend only on the symbols that occur
  // ---------------------------------------------------------------------------

  ghost predicate Agree(v: Valuation, w: Valuation, rank: Symbol -> nat, n: nat) {
    forall t :: rank(t) < n ==> v(t) == w(t)
  }

  lemma ValueBelow(e: Expr, v: Valuation, w: Valuation, rank: Symbol -> nat, n: nat)
    requires Agree(v, w, rank, n) && Below(Some(e), rank, n)
    ensures Value(e, v) == Value(e, w)
  {
    match e
    case Not(a) =>
      assert Symbols(a) == Symbols(e);
      assert Below(Some(a), rank, n);
      ValueBelow(a, v, w, rank, n);
    case Bin(_, l, r) =>
      assert Below(Some(l), rank, n) && Below(Some(r), rank, n);
      ValueBelow(l, v, w, rank, n);
      ValueBelow(r, v, w, rank, n);
    case Symb(s) => assert s in SymbolsOpt(Some(e));
    case Comp(_, l, r) => assert l in SymbolsOpt(Some(e)) && r in SymbolsOpt(Some(e));
  }

  lemma ValueOptBelow(e: Option<Expr>, v: Valuation, w: Valuation, rank: Symbol -> nat, n: nat)
    requires Agree(v, w, rank, n) && Below(e, rank, n)
    ensures ValueOpt(e, v) == ValueOpt(e, w)
  {
    if e.Some? {
      ValueBelow(e.value, v, w, rank, n);
    }
  }

  ghost predicate PropsBelow(ps: seq<Property>, rank: Symbol -> nat, n: nat) {
    forall i :: 0 <= i < |ps| && !ps[i].Select? ==>
      Below(ps[i].visible, rank, n) && (ps[i].Default? ==> Below(Some(ps[i].expr), rank, n))
  }

  lemma AllPropsBelow(d: SymbolDef, rank: Symbol -> nat, n: nat)
    requires DefBelow(d, rank, n)
    ensures PropsBelow(d.props, rank, n) && Below(d.revDep, rank, n)
  {
    forall i | 0 <= i < |d.props| && !d.props[i].Select?
      ensures Below(d.props[i].visible, rank, n) && (d.props[i].Default? ==> Below(Some(d.props[i].expr), rank, n))
    {
      PropBelow(d, rank, n, i);
    }
  }

  lemma {:induction false} AnyPromptBelow(ps: seq<Property>, v: Valuation, w: Valuation, rank: Symbol -> nat, n: nat)
    requires Agree(v, w, rank, n) && PropsBelow(ps, rank, n)
    ensures AnyPrompt(ps, v) == AnyPrompt(ps, w)
  {
    if ps != [] {
      AnyPromptBelow(ps[..|ps| - 1], v, w, rank, n);
      if ps[|ps| - 1].Prompt? {
        ValueOptBelow(ps[|ps| - 1].visible, v, w, rank, n);
      }
    }
  }

  lemma {:induction false} FirstDefaultBelow(ds: seq<Property>, v: Valuation, w: Valuation, rank: Symbol -> nat, n: nat, i: nat)
    requires Agree(v, w, rank, n) && i <= |ds| && PropsBelow(ds, rank, n)
    ensures FirstDefault(ds, v, i) == FirstDefault(ds, w, i)
    decreases |ds| - i
  {
    if i < |ds| {
      if ds[i].Default? {
        ValueOptBelow(ds[i].visible, v, w, rank, n);
      }
      FirstDefaultBelow(ds, v, w, rank, n, i + 1);
    }
  }

  lemma DefaultsBelow(ds: seq<Property>, v: Valuation, w: Valuation, rank: Symbol -> nat, n: nat)
    requires Agree(v, w, rank, n) && PropsBelow(ds, rank, n)
    ensures FirstDefault(ds, v, 0) == FirstDefault(ds, w, 0)
    ensures DefaultTri(ds, v) == DefaultTri(ds, w)
    ensures DefaultSymbol(ds, v) == DefaultSymbol(ds, w)
    ensures DefaultSymbol(ds, v).Some? ==> rank(DefaultSymbol(ds, v).value) < n
  {
    FirstDefaultBelow(ds, v, w, rank, n, 0);
    var i := FirstDefault(ds, v, 0);
    if i < |ds| {
      ValueBelow(ds[i].expr, v, w, rank, n);
      ValueOptBelow(ds[i].visible, v, w, rank, n);
      if ds[i].expr.Symb? {
        assert ds[i].expr.sym in SymbolsOpt(Some(ds[i].expr));
      }
    }
  }

  lemma PartsBelow(c: Config, rank: Symbol -> nat, s: Symbol, v: Valuation, w: Valuation)
    requires Acyclic(c, rank) && Agree(v, w, rank, rank(s))
    ensures Visibility(c, s, v) == Visibility(c, s, w)
    ensures DirDep(c, s, v) == DirDep(c, s, w)
    ensures RevDep(c, s, v) == RevDep(c, s, w)
  {
    var d, n := Def(c, s), rank(s);
    AllPropsBelow(d, rank, n);
    AnyPromptBelow(d.props, v, w, rank, n);
    ValueOptBelow(d.dirDep, v, w, rank, n);
    ValueOptBelow(d.revDep, v, w, rank, n);
  }

  /** Only the values of lower rank matter. */
  lemma ComputeBelow(c: Config, user: UserValues, rank: Symbol -> nat, s: Symbol,
                     v: Valuation, raw: Symbol -> string, w: Valuation, raw': Symbol -> string)
    requires Acyclic(c, rank) && Agree(v, w, rank, rank(s))
    requires forall t :: rank(t) < rank(s) ==> raw(t) == raw'(t)
    ensures Compute(c, user, s, v, raw) == Compute(c, user, s, w, raw')
  {
    AllPropsBelow(Def(c, s), rank, rank(s));
    PartsBelow(c, rank, s, v, w);
    DefaultsBelow(Def(c, s).props, v, w, rank, rank(s));
  }

  /** The values satisfy their own defining equations, all at once. */
  lemma SpecEquation(c: Config, user: UserValues, rank: Symbol -> nat, s: Symbol)
    requires Acyclic(c, rank)
    ensures Spec(c, user, rank, s) == Compute(c, user, s, Values(c, user, rank), Raw(c, user, rank))
  {
    ComputeBelow(c, user, rank, s, ValuesUnder(c, user, rank, rank(s)), RawUnder(c, user, rank, rank(s)),
                 Values(c, user, rank), Raw(c, user, rank));
  }

  lemma SpecTri(c: Config, user: UserValues, rank: Symbol -> nat, s: Symbol)
    requires Acyclic(c, rank) && IsTri(s)
    ensures var v, ps := Values(c, user, rank), Def(c, s).props;
      Spec(c, user, rank, s) ==
        Computed(SymbolValue(TriValue(c, user, s, v), "n"), Visibility(c, s, v), DirDep(c, s, v), RevDep(c, s, v),
                 Visibility(c, s, v) != NO || RevDep(c, s, v) != NO || FirstDefault(ps, v, 0) < |ps|)
  {
    SpecEquation(c, user, rank, s);
  }

  lemma SpecText(c: Config, user: UserValues, rank: Symbol -> nat, s: Symbol)
    requires Acyclic(c, rank) && IsText(s)
    ensures var v, ps := Values(c, user, rank), Def(c, s).props;
      Spec(c, user, rank, s) ==
        Computed(SymbolValue(NO, TextValue(c, user, s, v, Raw(c, user, rank))),
                 Visibility(c, s, v), DirDep(c, s, v), RevDep(c, s, v),
                 Visibility(c, s, v) != NO || DefaultSymbol(ps, v).Some?)
  {
    hide Visibility, DirDep, RevDep, TextValue, DefaultSymbol;
    SpecEquation(c, user, rank, s);
  }

  /** Any assignment of values that satisfies the equations is this one: the rank does not matter. */
  lemma SpecUnique(c: Config, user: UserValues, rank: Symbol -> nat, f: Symbol -> Computed, s: Symbol)
    requires Acyclic(c, rank)
    requires forall t :: f(t) == Compute(c, user, t, (u: Symbol) => Observe(c, u, f(u).curr), (u: Symbol) => f(u).curr.str)
    ensures f(s) == Spec(c, user, rank, s)
    decreases rank(s)
  {
    forall t | rank(t) < rank(s)
      ensures f(t) == Spec(c, user, rank, t)
    {
      SpecUnique(c, user, rank, f, t);
    }
    ComputeBelow(c, user, rank, s, (u: Symbol) => Observe(c, u, f(u).curr), (u: Symbol) => f(u).curr.str,
                 ValuesUnder(c, user, rank, rank(s)), RawUnder(c, user, rank, rank(s)));
  }

  // ---------------------------------------------------------------------------
  // Properties of the values
  // ---------------------------------------------------------------------------

  /** A symbol that counts as boolean is never m, and none is below what selects it. */
  lemma SpecBounds(c: Config, user: UserValues, rank: Symbol -> nat, s: Symbol)
    requires IsTri(s)
    ensures var r := Spec(c, user, rank, s);
      && (EffectiveType(c, s) == Boolean ==> r.curr.tri != MOD && r.visible != MOD && r.revDep != MOD)
      && r.curr.tri >= r.revDep
  {
  }

  /** The values meet every assumption the expression simplifier makes. */
  lemma ValuesWellFormed(c: Config, user: UserValues, rank: Symbol -> nat)
    ensures WellFormed(Values(c, user, rank))
  {
    forall s: Symbol | IsTri(s)
      ensures Values(c, user, rank)(s).str == TriString(Values(c, user, rank)(s).tri)
      ensures s.Type() == Boolean ==> Values(c, user, rank)(s).tri != MOD
    {
      SpecBounds(c, user, rank, s);
    }
  }

  // ---------------------------------------------------------------------------
  // Changing one user value
  // ---------------------------------------------------------------------------

  /** def[S_DEF_USER].tri = val, with the flag that says it counts. */
  function SetUser(user: UserValues, s: Symbol, val: Tristate): UserValues {
    user[s := UserValue(if s in user then user[s].val else "", val)]
  }

  /** sym_tristate_within_range. */
  predicate WithinRange(c: Config, s: Symbol, r: Computed, val: Tristate) {
    && r.visible != NO
    && IsTri(s)
    && !(EffectiveType(c, s) == Boolean && val == MOD)
    && r.visible > r.revDep
    && r.revDep <= val <= r.visible
  }

  ghost predicate SameUser(u: UserValues, w: UserValues, t: Symbol) {
    (t in u <==> t in w) && (t in u ==> u[t] == w[t])
  }

  lemma ComputeUser(c: Config, u: UserValues, w: UserValues, s: Symbol, v: Valuation, raw: Symbol -> string)
    requires SameUser(u, w, s)
    ensures Compute(c, u, s, v, raw) == Compute(c, w, s, v, raw)
  {
  }

  /** A symbol's value depends on no user value but its own and those of lower rank. */
  lemma SpecLocal(c: Config, u: UserValues, w: UserValues, rank: Symbol -> nat, s: Symbol)
    requires Acyclic(c, rank) && SameUser(u, w, s)
    requires forall t :: rank(t) < rank(s) ==> SameUser(u, w, t)
    ensures Spec(c, u, rank, s) == Spec(c, w, rank, s)
    decreases rank(s)
  {
    LowerSpecsAgree(c, u, w, rank, rank(s));
    ComputeUser(c, u, w, s, ValuesUnder(c, w, rank, rank(s)), RawUnder(c, w, rank, rank(s)));
    ComputeBelow(c, u, rank, s, ValuesUnder(c, u, rank, rank(s)), RawUnder(c, u, rank, rank(s)),
                 ValuesUnder(c, w, rank, rank(s)), RawUnder(c, w, rank, rank(s)));
  }

  lemma LowerSpecsAgree(c: Config, u: UserValues, w: UserValues, rank: Symbol -> nat, n: nat)
    requires Acyclic(c, rank)
    requires forall t :: rank(t) < n ==> SameUser(u, w, t)
    ensures forall t :: rank(t) < n ==> Spec(c, u, rank, t) == Spec(c, w, rank, t)
    decreases n, 0
  {
    forall t | rank(t) < n
      ensures Spec(c, u, rank, t) == Spec(c, w, rank, t)
    {
      SpecLocal(c, u, w, rank, t);
    }
  }

  /** What a visible symbol makes of a user value. */
  function Limited(c: Config, s: Symbol, r: Computed, val: Tristate): Tristate {
    var tri := Apply(Or, Apply(And, val, r.visible), r.revDep);
    if tri == MOD && EffectiveType(c, s) == Boolean then YES else tri
  }

  /** What a new user value does to its own symbol. */
  lemma SetChanges(c: Config, user: UserValues, rank: Symbol -> nat, s: Symbol, val: Tristate)
    requires Acyclic(c, rank) && IsTri(s)
    ensures var r := Spec(c, user, rank, s);
      Spec(c, SetUser(user, s, val), rank, s) ==
        if r.visible == NO then r else r.(curr := SymbolValue(Limited(c, s, r, val), "n"))
  {
    var w := SetUser(user, s, val);
    var n := rank(s);
    LowerSpecsAgree(c, user, w, rank, n);
    SetComputes(c, user, s, val, ValuesUnder(c, user, rank, n), RawUnder(c, user, rank, n));
    ComputeBelow(c, w, rank, s, ValuesUnder(c, user, rank, n), RawUnder(c, user, rank, n),
                 ValuesUnder(c, w, rank, n), RawUnder(c, w, rank, n));
  }

  lemma SetComputes(c: Config, user: UserValues, s: Symbol, val: Tristate, v: Valuation, raw: Symbol -> string)
    requires IsTri(s)
    ensures var r := Compute(c, user, s, v, raw);
      Compute(c, SetUser(user, s, val), s, v, raw) ==
        if r.visible == NO then r else r.(curr := SymbolValue(Limited(c, s, r, val), "n"))
  {
  }

  /** Setting a value in range and evaluating again yields that value. */
  lemma SetThenGet(c: Config, user: UserValues, rank: Symbol -> nat, s: Symbol, val: Tristate)
    requires Acyclic(c, rank) && WithinRange(c, s, Spec(c, user, rank, s), val)
    ensures Spec(c, SetUser(user, s, val), rank, s).curr.tri == val
  {
    SetChanges(c, user, rank, s, val);
    SpecBounds(c, user, rank, s);
  }

  /**
   sym_set_tristate_value also accepts the value the symbol already has. Evaluation then
   yields it again exactly when the prompt is invisible, or reaches that far, or a
   selection forces it.
   */
  lemma SetCurrentThenGet(c: Config, user: UserValues, rank: Symbol -> nat, s: Symbol, val: Tristate)
    requires Acyclic(c, rank) && IsTri(s)
    requires val == Spec(c, user, rank, s).curr.tri
    ensures var r := Spec(c, user, rank, s);
      Spec(c, SetUser(user, s, val), rank, s) == r <==> r.visible == NO || val <= r.visible || val == r.revDep
  {
    SetChanges(c, user, rank, s, val);
    SpecBounds(c, user, rank, s);
  }

  /** If the symbol itself evaluates as before, so does every other. */
  lemma SpecUnaffected(c: Config, user: UserValues, rank: Symbol -> nat, s: Symbol, val: Tristate, t: Symbol)
    requires Acyclic(c, rank)
    requires Spec(c, SetUser(user, s, val), rank, s) == Spec(c, user, rank, s)
    ensures Spec(c, SetUser(user, s, val), rank, t) == Spec(c, user, rank, t)
    decreases rank(t)
  {
    var w := SetUser(user, s, val);
    if t != s {
      forall u | rank(u) < rank(t)
        ensures Spec(c, w, rank, u) == Spec(c, user, rank, u)
      {
        SpecUnaffected(c, user, rank, s, val, u);
      }
      ComputeUser(c, user, w, t, ValuesUnder(c, w, rank, rank(t)), RawUnder(c, w, rank, rank(t)));
      ComputeBelow(c, user, rank, t, ValuesUnder(c, user, rank, rank(t)), RawUnder(c, user, rank, rank(t)),
                   ValuesUnder(c, w, rank, rank(t)), RawUnder(c, w, rank, rank(t)));
    }
  }

  lemma AllUnaffected(c: Config, user: UserValues, rank: Symbol -> nat, s: Symbol, val: Tristate)
    requires Acyclic(c, rank)
    requires Spec(c, SetUser(user, s, val), rank, s) == Spec(c, user, rank, s)
    ensures forall t :: Spec(c, SetUser(user, s, val), rank, t) == Spec(c, user, rank, t)
  {
    forall t
      ensures Spec(c, SetUser(user, s, val), rank, t) == Spec(c, user, rank, t)
    {
      SpecUnaffected(c, user, rank, s, val, t);
    }
  }

  // ---------------------------------------------------------------------------
  // A symbol whose default exceeds its prompt
  // ---------------------------------------------------------------------------

  const LOUD: Symbol := Declared("LOUD", Tristated)
  const LOUD_CONFIG: Config :=
    Config(map[LOUD := SymbolDef([Prompt(Some(Symb(SymMod))), Default(None, Symb(SymYes))], None, None)], YES)

  /** Setting such a symbol to the y it already has is accepted, and turns it into m. */
  lemma SetCurrentMayLower(rank: Symbol -> nat)
    requires Acyclic(LOUD_CONFIG, rank)
    ensures Spec(LOUD_CONFIG, map[], rank, LOUD).curr.tri == YES
    ensures Spec(LOUD_CONFIG, SetUser(map[], LOUD, YES), rank, LOUD).curr.tri == MOD
  {
    var c := LOUD_CONFIG;
    var d := Def(c, LOUD);
    var v := Values(c, map[], rank);
    assert v(SymMod).tri == MOD && v(SymYes).tri == YES;
    assert d.props[..1] == [d.props[0]] && d.props[..1][..0] == [];
    assert AnyPrompt(d.props[..1], v) == MOD;
    assert FirstDefault(d.props, v, 0) == 1;
    assert Visibility(c, LOUD, v) == MOD && RevDep(c, LOUD, v) == NO;
    SpecTri(c, map[], rank, LOUD);
    SetChanges(c, map[], rank, LOUD, YES);
  }
}
