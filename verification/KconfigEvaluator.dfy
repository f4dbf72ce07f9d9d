/**
 sym_calc_value, sym_calc_visibility, expr_calc_value and sym_set_tristate_value as the
 program runs them: on demand, with the SYMBOL_VALID flag set before the work is done.
 */
module KconfigEvaluator {
  import opened Wrappers
  import opened KconfigExpr
  import opened KconfigSymbols

  class SymbolTable {
    const config: Config
    ghost const rank: Symbol -> nat
    var user: UserValues
    var valid: set<Symbol>
    var state: map<Symbol, Computed>

    ghost predicate Ok()
      reads this
    {
      Acyclic(config, rank)
    }

    /** y, m and n are initialised with their values and stay valid for ever. */
    function Get(s: Symbol): Computed
      reads this
    {
      if s.IsTriLiteral() then Literal(s) else if s in state then state[s] else BLANK
    }

    ghost function Goal(s: Symbol): Computed
      reads this
    {
      Spec(config, user, rank, s)
    }

    /** Symbols whose evaluation has begun but not ended are `busy`; all other flagged ones are right. */
    ghost predicate Correct(busy: set<Symbol>)
      reads this
    {
      Ok() && busy <= valid && forall t :: t in valid && t !in busy ==> Get(t) == Goal(t)
    }

    ghost predicate Above(busy: set<Symbol>, n: nat)
      reads this
    {
      forall b :: b in busy ==> n <= rank(b)
    }

    /** What evaluation does to the table: flags are only added, busy symbols are left alone. */
    twostate predicate Progress(busy: set<Symbol>)
      reads this
    {
      && Correct(busy) && old(valid) <= valid && user == old(user)
      && forall b :: b in busy ==> Get(b) == old(Get(b))
    }

    constructor (config: Config, ghost rank: Symbol -> nat)
      requires Acyclic(config, rank)
      ensures this.config == config && this.rank == rank && user == map[]
      ensures Correct({})
    {
      this.config := config;
      this.rank := rank;
      user := map[];
      valid, state := {}, map[];
    }

    /** expr_calc_value. */
    method CalcExpr(e: Expr, ghost busy: set<Symbol>, ghost n: nat) returns (tri: Tristate)
      requires Correct(busy) && Above(busy, n) && Below(Some(e), rank, n)
      modifies this`valid, this`state
      ensures Progress(busy)
      ensures tri == Value(e, Values(config, user, rank))
      decreases n, 1, Size(e)
    {
      match e
      case Symb(s) =>
        assert s in SymbolsOpt(Some(e));
        CalcValue(s, busy);
        tri := Get(s).curr.tri;
      case Bin(op, l, r) =>
        assert Below(Some(l), rank, n) && Below(Some(r), rank, n);
        var a := CalcExpr(l, busy, n);
        var b := CalcExpr(r, busy, n);
        tri := Apply(op, a, b);
      case Not(a) =>
        assert Symbols(a) == Symbols(e);
        var b := CalcExpr(a, busy, n);
        tri := 2 - b;
      case Comp(equal, l, r) =>
        assert l in SymbolsOpt(Some(e)) && r in SymbolsOpt(Some(e));
        CalcValue(l, busy);
        CalcValue(r, busy);
        var same := StringValue(config, l, Get(l).curr) == StringValue(config, r, Get(r).curr);
        tri := if same == equal then YES else NO;
    }

    method CalcExprOpt(e: Option<Expr>, ghost busy: set<Symbol>, ghost n: nat) returns (tri: Tristate)
      requires Correct(busy) && Above(busy, n) && Below(e, rank, n)
      modifies this`valid, this`state
      ensures Progress(busy)
      ensures tri == ValueOpt(e, Values(config, user, rank))
      decreases n, 2
    {
      tri := YES;
      if e.Some? {
        tri := CalcExpr(e.value, busy, n);
      }
    }

    /** Writes fields of a symbol that is being evaluated. */
    method Store(s: Symbol, x: Computed, ghost busy: set<Symbol>)
      requires Correct(busy) && s in busy && !s.IsTriLiteral()
      modifies this`state
      ensures Correct(busy) && Get(s) == x
      ensures forall t :: t != s ==> Get(t) == old(Get(t))
    {
      state := state[s := x];
    }

    /** sym_calc_visibility: three fields of a symbol that is being evaluated. */
    method CalcVisibility(s: Symbol, ghost busy: set<Symbol>)
      requires Correct(busy) && Above(busy, rank(s)) && s in busy && !s.IsTriLiteral()
      modifies this`valid, this`state
      ensures Correct(busy) && old(valid) <= valid
      ensures forall b :: b in busy && b != s ==> Get(b) == old(Get(b))
      ensures var v := Values(config, user, rank);
        Get(s) == old(Get(s)).(visible := Visibility(config, s, v), dirDep := DirDep(config, s, v), revDep := RevDep(config, s, v))
      decreases rank(s), 4
    {
      ghost var v := Values(config, user, rank);
      var tri := CalcPrompts(s, busy);
      assert tri == Visibility(config, s, v);
      Store(s, Get(s).(visible := tri), busy);
      tri := CalcDirDep(s, busy);
      assert tri == DirDep(config, s, v);
      Store(s, Get(s).(dirDep := tri), busy);
      tri := CalcRevDep(s, busy);
      assert tri == RevDep(config, s, v);
      Store(s, Get(s).(revDep := tri), busy);
    }

    lemma DefsBelow(s: Symbol, busy: set<Symbol>)
      requires Correct(busy)
      ensures DefBelow(Def(config, s), rank, rank(s))
    {
    }

    method CalcPrompts(s: Symbol, ghost busy: set<Symbol>) returns (tri: Tristate)
      requires Correct(busy) && Above(busy, rank(s))
      modifies this`valid, this`state
      ensures Progress(busy)
      ensures tri == Visibility(config, s, Values(config, user, rank))
      decreases rank(s), 3
    {
      hide SymbolTable.Correct, Spec, AnyPrompt;
      var ps := Def(config, s).props;
      ghost var v := Values(config, user, rank);
      DefsBelow(s, busy);
      NoPrompts(v);
      tri := NO;
      for i := 0 to |ps|
        invariant Progress(busy)
        invariant tri == AnyPrompt(ps[..i], v)
      {
        if ps[i].Prompt? {
          PropBelow(Def(config, s), rank, rank(s), i);
          var p := CalcExprOpt(ps[i].visible, busy, rank(s));
          tri := Apply(Or, tri, p);
        }
        AnyPromptNext(ps, v, i);
      }
      assert ps[..|ps|] == ps;
      if tri == MOD && (s.Type() != Tristated || config.modules == NO) {
        tri := YES;
      }
    }

    method CalcDirDep(s: Symbol, ghost busy: set<Symbol>) returns (tri: Tristate)
      requires Correct(busy) && Above(busy, rank(s))
      modifies this`valid, this`state
      ensures Progress(busy)
      ensures tri == DirDep(config, s, Values(config, user, rank))
      decreases rank(s), 3
    {
      assert DefBelow(Def(config, s), rank, rank(s));
      tri := CalcExprOpt(Def(config, s).dirDep, busy, rank(s));
      if tri == MOD {
        tri := YES;
      }
    }

    method CalcRevDep(s: Symbol, ghost busy: set<Symbol>) returns (tri: Tristate)
      requires Correct(busy) && Above(busy, rank(s))
      modifies this`valid, this`state
      ensures Progress(busy)
      ensures tri == RevDep(config, s, Values(config, user, rank))
      decreases rank(s), 3
    {
      AllPropsBelow(Def(config, s), rank, rank(s));
      tri := NO;
      if Def(config, s).revDep.Some? {
        tri := CalcExpr(Def(config, s).revDep.value, busy, rank(s));
      }
      if tri == MOD && EffectiveType(config, s) == Boolean {
        tri := YES;
      }
    }

    /** sym_get_default_prop: the index of the property, or the number of defaults. */
    method GetDefault(s: Symbol, ghost busy: set<Symbol>) returns (i: nat)
      requires Correct(busy) && Above(busy, rank(s))
      modifies this`valid, this`state
      ensures Progress(busy)
      ensures i == FirstDefault(Def(config, s).props, Values(config, user, rank), 0)
      decreases rank(s), 3
    {
      hide FirstDefault, Spec, SymbolTable.Correct;
      var ds := Def(config, s).props;
      ghost var v, n := Values(config, user, rank), rank(s);
      DefsBelow(s, busy);
      i := 0;
      while i < |ds|
        invariant i <= |ds| && Progress(busy)
        invariant FirstDefault(ds, v, 0) == FirstDefault(ds, v, i)
      {
        FirstDefaultStep(ds, v, i);
        if ds[i].Default? {
          PropBelow(Def(config, s), rank, n, i);
          var tri := CalcExprOpt(ds[i].visible, busy, n);
          if tri != NO {
            return;
          }
        }
        i := i + 1;
      }
      FirstDefaultEnd(ds, v);
    }

    /** sym_calc_value. */
    method CalcValue(s: Symbol, ghost busy: set<Symbol>)
      requires Correct(busy) && Above(busy, rank(s) + 1)
      modifies this`valid, this`state
      ensures Progress(busy)
      ensures (s in valid || s.IsTriLiteral()) && Get(s) == Goal(s)
      decreases rank(s), 9
    {
      if s in valid || s.IsTriLiteral() {
        return;
      }
      valid := valid + {s};
      if IsTri(s) || IsText(s) {
        Evaluate(s, busy + {s});
      } else {
        Store(s, BLANK.(curr := SymbolValue(NO, if s.Constant? then s.text else s.name)), busy + {s});
      }
    }

    /** The rest of sym_calc_value for typed symbols; the flag is already set. */
    method Evaluate(s: Symbol, ghost busy: set<Symbol>)
      requires Correct(busy) && Above(busy, rank(s)) && s in busy && (IsTri(s) || IsText(s))
      modifies this`valid, this`state
      ensures Correct(busy) && old(valid) <= valid
      ensures forall b :: b in busy && b != s ==> Get(b) == old(Get(b))
      ensures Get(s) == Goal(s)
      decreases rank(s), 8
    {
      hide Values, Spec;
      Store(s, Get(s).(write := false), busy);
      CalcVisibility(s, busy);
      // the default, in case evaluation comes back to this symbol
      Store(s, Get(s).(curr := SymbolValue(NO, if IsTri(s) then "n" else "")), busy);
      var x := NewValue(s, busy);
      Store(s, x, busy);
    }

    method NewValue(s: Symbol, ghost busy: set<Symbol>) returns (x: Computed)
      requires Correct(busy) && Above(busy, rank(s)) && s in busy && (IsTri(s) || IsText(s)) && Started(s)
      modifies this`valid, this`state
      ensures Progress(busy)
      ensures x == Goal(s)
      decreases rank(s), 7
    {
      if IsTri(s) {
        x := CalcTri(s, busy);
      } else {
        x := CalcText(s, busy);
      }
    }

    /** Visibility is computed and the rest of the symbol is reset. */
    ghost predicate Started(s: Symbol)
      reads this
    {
      var v := Values(config, user, rank);
      Get(s) == Computed(SymbolValue(NO, if IsTri(s) then "n" else ""),
                         Visibility(config, s, v), DirDep(config, s, v), RevDep(config, s, v), false)
    }

    /** The bool and tristate part of sym_calc_value, after visibility. */
    method CalcTri(s: Symbol, ghost busy: set<Symbol>) returns (x: Computed)
      requires Correct(busy) && Above(busy, rank(s)) && s in busy && IsTri(s) && Started(s)
      modifies this`valid, this`state
      ensures Progress(busy)
      ensures x == Goal(s)
      decreases rank(s), 6
    {
      var tri, write := NewTri(s, busy);
      x := Get(s).(curr := SymbolValue(tri, "n"), write := write);
      SpecTri(config, user, rank, s);
    }

    method NewTri(s: Symbol, ghost busy: set<Symbol>) returns (tri: Tristate, write: bool)
      requires Correct(busy) && Above(busy, rank(s)) && s in busy && IsTri(s) && Started(s)
      modifies this`valid, this`state
      ensures Progress(busy)
      ensures tri == TriValue(config, user, s, Values(config, user, rank))
      ensures write == (Get(s).visible != NO || Get(s).revDep != NO
        || FirstDefault(Def(config, s).props, Values(config, user, rank), 0) < |Def(config, s).props|)
      decreases rank(s), 5
    {
      tri, write := NO, Get(s).visible != NO;
      if Get(s).visible != NO && s in user {
        tri := Apply(And, user[s].tri, Get(s).visible);
      } else {
        var found;
        found, tri := CalcDefault(s, busy);
        write := write || Get(s).revDep != NO || found;
      }
      tri := Apply(Or, tri, Get(s).revDep);
      if tri == MOD && EffectiveType(config, s) == Boolean {
        tri := YES;
      }
    }

    method CalcDefault(s: Symbol, ghost busy: set<Symbol>) returns (found: bool, tri: Tristate)
      requires Correct(busy) && Above(busy, rank(s))
      modifies this`valid, this`state
      ensures Progress(busy)
      ensures var ds, v := Def(config, s).props, Values(config, user, rank);
        found == (FirstDefault(ds, v, 0) < |ds|) && tri == DefaultTri(ds, v)
      decreases rank(s), 4
    {
      var ds := Def(config, s).props;
      assert DefBelow(Def(config, s), rank, rank(s));
      var i := GetDefault(s, busy);
      found, tri := i < |ds|, NO;
      if found {
        PropBelow(Def(config, s), rank, rank(s), i);
        var x := CalcExpr(ds[i].expr, busy, rank(s));
        var y := CalcExprOpt(ds[i].visible, busy, rank(s));
        tri := Apply(And, x, y);
      }
    }

    /** The string, int and hex part of sym_calc_value, after visibility. */
    method CalcText(s: Symbol, ghost busy: set<Symbol>) returns (x: Computed)
      requires Correct(busy) && Above(busy, rank(s)) && s in busy && IsText(s) && Started(s)
      modifies this`valid, this`state
      ensures Progress(busy)
      ensures x == Goal(s)
      decreases rank(s), 6
    {
      var val, write := NewText(s, busy);
      x := Get(s).(curr := SymbolValue(NO, val), write := write);
      SpecText(config, user, rank, s);
    }

    method NewText(s: Symbol, ghost busy: set<Symbol>) returns (val: string, write: bool)
      requires Correct(busy) && Above(busy, rank(s)) && s in busy && IsText(s) && Started(s)
      modifies this`valid, this`state
      ensures Progress(busy)
      ensures var v := Values(config, user, rank);
        val == TextValue(config, user, s, v, Raw(config, user, rank))
        && write == (Get(s).visible != NO || DefaultSymbol(Def(config, s).props, v).Some?)
      decreases rank(s), 5
    {
      val, write := "", Get(s).visible != NO;
      if Get(s).visible != NO && s in user {
        val := user[s].val;
      } else {
        var found;
        found, val := CalcDefaultText(s, busy);
        write := write || found;
      }
    }

    method CalcDefaultText(s: Symbol, ghost busy: set<Symbol>) returns (found: bool, val: string)
      requires Correct(busy) && Above(busy, rank(s))
      modifies this`valid, this`state
      ensures Progress(busy)
      ensures var d := DefaultSymbol(Def(config, s).props, Values(config, user, rank));
        found == d.Some? && val == if d.Some? then Goal(d.value).curr.str else ""
      decreases rank(s), 4
    {
      var ds := Def(config, s).props;
      assert DefBelow(Def(config, s), rank, rank(s));
      var i := GetDefault(s, busy);
      found, val := i < |ds| && ds[i].expr.Symb?, "";
      if found {
        PropBelow(Def(config, s), rank, rank(s), i);
        assert ds[i].expr.sym in SymbolsOpt(Some(ds[i].expr));
        CalcValue(ds[i].expr.sym, busy);
        val := Get(ds[i].expr.sym).curr.str;
      }
    }

    /** sym_clear_all_valid. */
    method ClearAllValid()
      requires Ok()
      modifies this`valid
      ensures valid == {} && Correct({})
    {
      valid := {};
    }

    /** sym_set_tristate_value. */
    method SetTristateValue(s: Symbol, val: Tristate) returns (ok: bool)
      requires Correct({}) && s in valid && IsTri(s)
      modifies this`user, this`valid
      ensures ok == (val == Get(s).curr.tri || WithinRange(config, s, Get(s), val))
      ensures !ok ==> user == old(user) && valid == old(valid)
      ensures ok ==> user == SetUser(old(user), s, val)
      ensures ok && val != Get(s).curr.tri ==> valid == {} && Correct({}) && Goal(s).curr.tri == val
      ensures ok && val == Get(s).curr.tri ==> valid == old(valid)
      ensures ok && val == Get(s).curr.tri ==> (Correct({}) <==> Reaches(Get(s), val))
    {
      var oldval := Get(s).curr.tri;
      if oldval != val && !WithinRange(config, s, Get(s), val) {
        return false;
      }
      if oldval != val {
        SetThenGet(config, user, rank, s, val);
        user := SetUser(user, s, val);
        ClearAllValid();
      } else {
        KeepOrSpoil(s, val);
        user := SetUser(user, s, val);
      }
      return true;
    }

    /** What setting the current value again means for the remembered values. */
    lemma KeepOrSpoil(s: Symbol, val: Tristate)
      requires Correct({}) && s in valid && IsTri(s) && val == Get(s).curr.tri
      ensures Reaches(Get(s), val) ==> forall t :: t in valid ==> Get(t) == Spec(config, SetUser(user, s, val), rank, t)
      ensures !Reaches(Get(s), val) ==> Get(s) != Spec(config, SetUser(user, s, val), rank, s)
    {
      SetCurrentThenGet(config, user, rank, s, val);
      if Reaches(Get(s), val) {
        AllUnaffected(config, user, rank, s, val);
      }
    }
  }

  lemma NoPrompts(v: Valuation)
    ensures AnyPrompt([], v) == NO
  {
  }

  lemma FirstDefaultStep(ds: seq<Property>, v: Valuation, i: nat)
    requires i < |ds|
    ensures FirstDefault(ds, v, i) == if ds[i].Default? && ValueOpt(ds[i].visible, v) != NO then i else FirstDefault(ds, v, i + 1)
  {
  }

  lemma FirstDefaultEnd(ds: seq<Property>, v: Valuation)
    ensures FirstDefault(ds, v, |ds|) == |ds|
  {
  }

  /** The user value `val` comes through: no prompt limits it, or a selection forces it. */
  predicate Reaches(r: Computed, val: Tristate) {
    r.visible == NO || val <= r.visible || val == r.revDep
  }
}
