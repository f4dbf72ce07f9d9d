/**
 What the value of a symbol is, told by its prompts, defaults and selections: without the
 functions that compute it, in terms of the values that the expressions finally have.
 */
module KconfigMeaning {
  import opened Wrappers
  import opened KconfigExpr
  import opened KconfigSymbols

  /** The prompt at `i` can be seen. */
  predicate Shows(ps: seq<Property>, v: Valuation, i: nat) {
    i < |ps| && ps[i].Prompt? && ValueOpt(ps[i].visible, v) != NO
  }

  /** No prompt reaches further, and one reaches that far. */
  predicate Reach(ps: seq<Property>, v: Valuation, t: Tristate) {
    && (forall i :: 0 <= i < |ps| && ps[i].Prompt? ==> ValueOpt(ps[i].visible, v) <= t)
    && (t == NO || exists i :: 0 <= i < |ps| && ps[i].Prompt? && ValueOpt(ps[i].visible, v) == t)
  }

  /** The default at `i` applies, and none before it. */
  predicate Applies(ps: seq<Property>, v: Valuation, i: nat) {
    && i < |ps| && ps[i].Default? && ValueOpt(ps[i].visible, v) != NO
    && forall j :: 0 <= j < i && ps[j].Default? ==> ValueOpt(ps[j].visible, v) == NO
  }

  /** There is no m for booleans, nor for anything without modules. */
  function Raised(s: Symbol, modules: Tristate, t: Tristate): Tristate {
    if t == MOD && (s.Type() != Tristated || modules == NO) then YES else t
  }

  /** What selections demand. */
  function Demanded(e: Option<Expr>, v: Valuation): Tristate {
    if e.Some? then Value(e.value, v) else NO
  }

  lemma {:induction false} PromptsReach(ps: seq<Property>, v: Valuation)
    ensures Reach(ps, v, AnyPrompt(ps, v))
  {
    if ps != [] {
      var n := |ps| - 1;
      var t := AnyPrompt(ps[..n], v);
      PromptsReach(ps[..n], v);
      assert forall i :: 0 <= i < n ==> ps[..n][i] == ps[i];
      if t != NO {
        var i :| 0 <= i < n && ps[..n][i].Prompt? && ValueOpt(ps[..n][i].visible, v) == t;
        assert ps[i].Prompt? && ValueOpt(ps[i].visible, v) == t;
      }
    }
  }

  lemma {:induction false} DefaultApplies(ps: seq<Property>, v: Valuation, i: nat)
    requires i <= |ps| && forall j :: 0 <= j < i && ps[j].Default? ==> ValueOpt(ps[j].visible, v) == NO
    ensures var k := FirstDefault(ps, v, i);
      if k < |ps| then Applies(ps, v, k) else forall j: nat :: !Applies(ps, v, j)
    decreases |ps| - i
  {
    if i < |ps| && !(ps[i].Default? && ValueOpt(ps[i].visible, v) != NO) {
      DefaultApplies(ps, v, i + 1);
    }
  }

  lemma OneApplies(ps: seq<Property>, v: Valuation, i: nat, j: nat)
    requires Applies(ps, v, i) && Applies(ps, v, j)
    ensures i == j
  {
  }

  /** A typed symbol can be seen exactly if a prompt of it can, as far as the prompts reach. */
  lemma VisibleMeans(c: Config, user: UserValues, rank: Symbol -> nat, s: Symbol)
    requires Acyclic(c, rank) && (IsTri(s) || IsText(s))
    ensures var v, ps, r := Values(c, user, rank), Def(c, s).props, Spec(c, user, rank, s);
      && (r.visible != NO <==> exists i: nat :: Shows(ps, v, i))
      && exists t :: Reach(ps, v, t) && r.visible == Raised(s, c.modules, t)
  {
    hide Values, Spec, Compute, TriValue, TextValue, DefaultSymbol, FirstDefault;
    var v, ps := Values(c, user, rank), Def(c, s).props;
    if IsTri(s) {
      SpecTri(c, user, rank, s);
    } else {
      SpecText(c, user, rank, s);
    }
    PromptsReach(ps, v);
    var t := AnyPrompt(ps, v);
    if t != NO {
      var i :| 0 <= i < |ps| && ps[i].Prompt? && ValueOpt(ps[i].visible, v) == t;
      assert Shows(ps, v, i);
    }
  }

  /** A symbol has at least the value that selections demand; a boolean that is selected at all is y. */
  lemma SelectedMeans(c: Config, user: UserValues, rank: Symbol -> nat, s: Symbol)
    requires Acyclic(c, rank) && IsTri(s)
    ensures var d, r := Demanded(Def(c, s).revDep, Values(c, user, rank)), Spec(c, user, rank, s);
      && r.curr.tri >= d && r.revDep == Raised(s, c.modules, d)
      && (EffectiveType(c, s) == Boolean && d != NO ==> r.curr.tri == YES)
  {
    hide Values, Spec, Compute, Visibility, DefaultTri, AnyPrompt, FirstDefault;
    SpecTri(c, user, rank, s);
  }

  /** Dependencies are met or not: an m counts as y. */
  lemma DirectMeans(c: Config, user: UserValues, rank: Symbol -> nat, s: Symbol)
    requires Acyclic(c, rank) && (IsTri(s) || IsText(s))
    ensures Spec(c, user, rank, s).dirDep == if ValueOpt(Def(c, s).dirDep, Values(c, user, rank)) == NO then NO else YES
  {
    hide Values, Spec, Compute, Visibility, TriValue, TextValue, FirstDefault;
    if IsTri(s) {
      SpecTri(c, user, rank, s);
    } else {
      SpecText(c, user, rank, s);
    }
  }

  /**
   The value of a boolean or tristate symbol is the larger of what selections demand and what
   it has of its own: the user's value as far as it can be seen; if it cannot be seen or the
   user has not set it, the first default that applies as far as its condition; else n.
   */
  lemma TriMeans(c: Config, user: UserValues, rank: Symbol -> nat, s: Symbol)
    requires Acyclic(c, rank) && IsTri(s)
    ensures var v, ps, r := Values(c, user, rank), Def(c, s).props, Spec(c, user, rank, s);
      var d, given := Demanded(Def(c, s).revDep, v), s in user && exists i: nat :: Shows(ps, v, i);
      && (given ==> r.curr.tri == Raised(s, c.modules, Apply(Or, d, Apply(And, user[s].tri, r.visible))))
      && (forall i: nat :: !given && Applies(ps, v, i) ==>
            r.curr.tri == Raised(s, c.modules, Apply(Or, d, Apply(And, Value(ps[i].expr, v), ValueOpt(ps[i].visible, v)))))
      && (!given && (forall i: nat :: !Applies(ps, v, i)) ==> r.curr.tri == Raised(s, c.modules, d))
  {
    hide Values, Spec, Compute, Shows, Applies, AnyPrompt, FirstDefault;
    var v, ps := Values(c, user, rank), Def(c, s).props;
    SpecTri(c, user, rank, s);
    VisibleMeans(c, user, rank, s);
    DefaultApplies(ps, v, 0);
    forall i: nat | Applies(ps, v, i)
      ensures i == FirstDefault(ps, v, 0)
    {
      OneApplies(ps, v, i, FirstDefault(ps, v, 0));
    }
  }

  /**
   The text of a string or number symbol: the user's where it can be seen; else that of the
   symbol that is the first default that applies; else nothing.
   */
  lemma TextMeans(c: Config, user: UserValues, rank: Symbol -> nat, s: Symbol)
    requires Acyclic(c, rank) && IsText(s)
    ensures var v, ps, r := Values(c, user, rank), Def(c, s).props, Spec(c, user, rank, s);
      var given := s in user && exists i: nat :: Shows(ps, v, i);
      && r.curr.tri == NO
      && (given ==> r.curr.str == user[s].val)
      && (forall i: nat :: !given && Applies(ps, v, i) ==>
            r.curr.str == if ps[i].expr.Symb? then Spec(c, user, rank, ps[i].expr.sym).curr.str else "")
      && (!given && (forall i: nat :: !Applies(ps, v, i)) ==> r.curr.str == "")
  {
    hide Values, Spec, Compute, Shows, Applies, AnyPrompt, FirstDefault;
    var v, ps := Values(c, user, rank), Def(c, s).props;
    SpecText(c, user, rank, s);
    VisibleMeans(c, user, rank, s);
    DefaultApplies(ps, v, 0);
    forall i: nat | Applies(ps, v, i)
      ensures i == FirstDefault(ps, v, 0)
    {
      OneApplies(ps, v, i, FirstDefault(ps, v, 0));
    }
  }

  /** A symbol is written if it can be seen or selections demand it or a default applies. */
  lemma WrittenMeans(c: Config, user: UserValues, rank: Symbol -> nat, s: Symbol)
    requires Acyclic(c, rank) && (IsTri(s) || IsText(s))
    ensures var v, ps := Values(c, user, rank), Def(c, s).props;
      Spec(c, user, rank, s).write <==>
        || (exists i: nat :: Shows(ps, v, i))
        || (IsTri(s) && Demanded(Def(c, s).revDep, v) != NO)
        || exists i: nat :: Applies(ps, v, i) && (IsTri(s) || ps[i].expr.Symb?)
  {
    hide Values, Spec, Compute, Shows, Applies, AnyPrompt, FirstDefault;
    var v, ps := Values(c, user, rank), Def(c, s).props;
    if IsTri(s) {
      SpecTri(c, user, rank, s);
    } else {
      SpecText(c, user, rank, s);
    }
    VisibleMeans(c, user, rank, s);
    DefaultApplies(ps, v, 0);
    forall i: nat | Applies(ps, v, i)
      ensures i == FirstDefault(ps, v, 0)
    {
      OneApplies(ps, v, i, FirstDefault(ps, v, 0));
    }
  }

  /** An undefined symbol is n, its text is its name, and it is equal exactly to what has that text. */
  lemma UndefinedMeans(c: Config, user: UserValues, rank: Symbol -> nat, name: string, t: Symbol)
    requires Acyclic(c, rank)
    ensures var v, s := Values(c, user, rank), Declared(name, Unknown);
      && Value(Symb(s), v) == NO && !Spec(c, user, rank, s).write
      && (Value(Comp(true, s, t), v) == YES <==> v(t).str == name)
  {
    SpecEquation(c, user, rank, Declared(name, Unknown));
  }

  /** A value is in range exactly if the prompt reaches beyond what selections demand, and setting it gives it. */
  lemma WithinRangeExact(c: Config, user: UserValues, rank: Symbol -> nat, s: Symbol, val: Tristate)
    requires Acyclic(c, rank) && IsTri(s)
    ensures var r := Spec(c, user, rank, s);
      WithinRange(c, s, r, val) <==> r.visible > r.revDep && Spec(c, SetUser(user, s, val), rank, s).curr.tri == val
  {
    SetChanges(c, user, rank, s, val);
    SpecBounds(c, user, rank, s);
  }
}
