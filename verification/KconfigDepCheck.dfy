/**
 sym_check_deps: depth-first search for recursive dependencies with the flags
 SYMBOL_CHECK and SYMBOL_CHECKED and the stack of symbols under examination.
 */
module KconfigDepCheck {
  import opened Wrappers
  import opened KconfigExpr
  import opened KconfigSymbols

  // ---------------------------------------------------------------------------
  // The dependency graph
  // ---------------------------------------------------------------------------

  predicate Edge(c: Config, s: Symbol, t: Symbol) {
    t in Deps(Def(c, s))
  }

  predicate IsWalk(c: Config, p: seq<Symbol>) {
    forall i :: 0 <= i < |p| - 1 ==> Edge(c, p[i], p[i + 1])
  }

  predicate IsCycle(c: Config, p: seq<Symbol>) {
    |p| >= 2 && IsWalk(c, p) && p[0] == p[|p| - 1]
  }

  ghost predicate HasCycle(c: Config) {
    exists p :: IsCycle(c, p)
  }

  function Universe(c: Config): set<Symbol> {
    c.defs.Keys + set s, t | s in c.defs.Keys && t in Deps(c.defs[s]) :: t
  }

  lemma UniverseClosed(c: Config, s: Symbol, t: Symbol)
    requires Edge(c, s, t)
    ensures s in c.defs.Keys && t in Universe(c)
  {
  }

  // ---------------------------------------------------------------------------
  // The order in which symbols are finished
  // ---------------------------------------------------------------------------

  ghost predicate NoRepeats(o: seq<Symbol>) {
    forall i, j :: 0 <= i < j < |o| ==> o[i] != o[j]
  }

  /** Each symbol comes after everything it depends on. */
  ghost predicate Finished(c: Config, o: seq<Symbol>) {
    NoRepeats(o) && forall i, t :: 0 <= i < |o| && Edge(c, o[i], t) ==> t in o[..i]
  }

  /** Position in the finishing order, counted from 1; 0 for symbols that are not in it. */
  ghost function RankIn(o: seq<Symbol>, s: Symbol): nat {
    if s in o then (var i :| 0 <= i < |o| && o[i] == s; i + 1) else 0
  }

  lemma RankDrops(c: Config, o: seq<Symbol>, s: Symbol, t: Symbol)
    requires Finished(c, o) && s in o && Edge(c, s, t)
    ensures t in o && RankIn(o, t) < RankIn(o, s)
  {
    var i := RankIn(o, s) - 1;
    assert t in o[..i];
  }

  lemma {:induction false} WalkDrops(c: Config, o: seq<Symbol>, p: seq<Symbol>, k: nat)
    requires Finished(c, o) && IsWalk(c, p) && |p| > 0 && p[0] in o && k < |p|
    ensures p[k] in o && RankIn(o, p[k]) + k <= RankIn(o, p[0])
  {
    if k > 0 {
      WalkDrops(c, o, p, k - 1);
      assert Edge(c, p[k - 1], p[k - 1 + 1]);
      RankDrops(c, o, p[k - 1], p[k]);
    }
  }

  /** A finishing order of all symbols with properties rules out cycles. */
  lemma FinishedMeansAcyclic(c: Config, o: seq<Symbol>)
    requires Finished(c, o) && forall s :: s in c.defs.Keys ==> s in o
    ensures !HasCycle(c)
  {
    if p :| IsCycle(c, p) {
      assert Edge(c, p[0], p[0 + 1]);
      UniverseClosed(c, p[0], p[1]);
      WalkDrops(c, o, p, |p| - 1);
      assert false;
    }
  }

  /** It also provides the rank that evaluation needs, provided dir_dep brings no other symbols. */
  lemma FinishedGivesRank(c: Config, o: seq<Symbol>)
    requires Finished(c, o) && forall s :: s in c.defs.Keys ==> s in o
    requires forall s :: s in c.defs.Keys ==> DirDepCovered(c.defs[s])
    ensures Acyclic(c, s => RankIn(o, s))
  {
    var rank := s => RankIn(o, s);
    forall s: Symbol
      ensures DefBelow(Def(c, s), rank, rank(s))
    {
      forall t | t in Deps(Def(c, s))
        ensures rank(t) < rank(s)
      {
        assert Edge(c, s, t);
        UniverseClosed(c, s, t);
        RankDrops(c, o, s, t);
      }
    }
  }

  lemma PropsDepsNext(ps: seq<Property>, i: nat)
    requires i < |ps|
    ensures PropsDeps(ps[..i + 1]) == PropsDeps(ps[..i]) + PropDeps(ps[i]) <= PropsDeps(ps)
  {
    forall t | t in PropDeps(ps[i])
      ensures t in PropsDeps(ps[..i + 1])
    {
      assert ps[..i + 1][i] == ps[i];
    }
    forall t | t in PropsDeps(ps[..i])
      ensures t in PropsDeps(ps[..i + 1])
    {
      var j :| 0 <= j < i && t in PropDeps(ps[..i][j]);
      assert ps[..i + 1][j] == ps[..i][j];
    }
  }

  // ---------------------------------------------------------------------------
  // The search
  // ---------------------------------------------------------------------------

  /** A walk that comes back to one of its symbols holds a cycle. */
  lemma StackCloses(c: Config, stack: seq<Symbol>, i: nat, last: Symbol)
    requires IsWalk(c, stack) && i < |stack| && stack[i] == last && Edge(c, stack[|stack| - 1], last)
    ensures HasCycle(c)
  {
    hide Edge;
    var p := stack[i..] + [last];
    forall k | 0 <= k < |p| - 1
      ensures Edge(c, p[k], p[k + 1])
    {
      assert p[k] == stack[i + k];
      if k < |p| - 2 {
        assert p[k + 1] == stack[i + k + 1];
        assert Edge(c, stack[i + k], stack[i + k + 1]);
      }
    }
    assert IsCycle(c, p);
  }

  lemma NoMembers(xs: seq<Symbol>)
    ensures (forall x :: x !in xs) ==> xs == []
  {
    if xs != [] {
      assert xs[0] in xs;
    }
  }

  class DepChecker {
    const config: Config
    var check: set<Symbol>       // SYMBOL_CHECK
    var checked: set<Symbol>     // SYMBOL_CHECKED
    var stack: seq<Symbol>       // check_top and what is below it
    var reports: nat             // recursive dependencies reported
    ghost var order: seq<Symbol>

    /** Everything but the relation between `check` and `stack`. */
    ghost predicate Core()
      reads this
    {
      && check <= checked <= Universe(config)
      && NoRepeats(stack) && IsWalk(config, stack)
      && (reports > 0 ==> HasCycle(config))
      && (reports == 0 ==> Finished(config, order) && forall s :: s in order <==> s in checked && s !in check)
    }

    ghost predicate Ok()
      reads this
    {
      Core() && forall s :: s in check <==> s in stack
    }

    constructor (config: Config)
      ensures this.config == config && Ok()
      ensures check == {} && checked == {} && stack == [] && reports == 0
    {
      this.config := config;
      check, checked, stack, reports, order := {}, {}, [], 0, [];
    }

    /** What a call leaves behind: flags and stack restored, SYMBOL_CHECKED and reports only grow. */
    twostate predicate Restored()
      reads this
    {
      && check == old(check) && stack == old(stack)
      && old(checked) <= checked && old(reports) <= reports
    }

    /** The symbol, if any, that a call hands up is being examined further down the stack. */
    ghost predicate HandsUp(r: Option<Symbol>)
      reads this
    {
      r.Some? ==> r.value in check && reports > 0
    }

    /** Examined to the end, unless there was something to report. */
    ghost predicate Done(ss: set<Symbol>)
      reads this
    {
      reports == 0 ==> ss <= checked && ss !! check
    }

    /** All of them are dependencies of the symbol on top of the stack. */
    ghost predicate OfTop(ss: set<Symbol>)
      reads this
    {
      stack != [] && ss <= Deps(Def(config, stack[|stack| - 1]))
    }

    /** sym_check_print_recursive: finds the symbol on the stack, from the top down. */
    method PrintRecursive(last: Symbol) returns (found: bool)
      requires Core() && last in stack && stack != [] && Edge(config, stack[|stack| - 1], last)
      modifies this`reports
      ensures found
      ensures reports == old(reports) + 1 && HasCycle(config)
    {
      var i := |stack|;
      while i > 0 && stack[i - 1] != last
        invariant 0 <= i <= |stack|
        invariant last in stack[..i]
      {
        assert stack[..i] == stack[..i - 1] + [stack[i - 1]];
        i := i - 1;
      }
      found := i > 0;
      StackCloses(config, stack, i - 1, last);
      reports := reports + 1;
    }

    /** sym_check_expr_deps. */
    method CheckExprDeps(e: Expr) returns (r: Option<Symbol>)
      requires Ok() && OfTop(Symbols(e))
      modifies this
      ensures Ok() && Restored() && HandsUp(r)
      ensures r.Some? || Done(Symbols(e))
      decreases Universe(config) - checked, 1, Size(e)
    {
      match e
      case Bin(_, left, right) =>
        r := CheckExprDeps(left);
        if r.Some? {
          return;
        }
        r := CheckExprDeps(right);
      case Not(a) =>
        r := CheckExprDeps(a);
      case Comp(_, l, right) =>
        r := CheckDeps(l);
        if r.Some? {
          return;
        }
        r := CheckDeps(right);
      case Symb(s) =>
        r := CheckDeps(s);
    }

    method CheckExprDepsOpt(e: Option<Expr>) returns (r: Option<Symbol>)
      requires Ok() && OfTop(SymbolsOpt(e))
      modifies this
      ensures Ok() && Restored() && HandsUp(r)
      ensures r.Some? || Done(SymbolsOpt(e))
      decreases Universe(config) - checked, 2
    {
      r := None;
      if e.Some? {
        r := CheckExprDeps(e.value);
      }
    }

    /** One turn of the loop over the properties in sym_check_sym_deps. */
    method CheckProp(p: Property) returns (r: Option<Symbol>)
      requires Ok() && OfTop(PropDeps(p))
      modifies this
      ensures Ok() && Restored() && HandsUp(r)
      ensures r.Some? || Done(PropDeps(p))
      decreases Universe(config) - checked, 3
    {
      r := None;
      if p.Select? {
        return;
      }
      r := CheckExprDepsOpt(p.visible);
      if r.Some? || !p.Default? {
        return;
      }
      r := CheckExprDeps(p.expr);
    }

    /** sym_check_sym_deps between dep_stack_insert and dep_stack_remove. */
    method CheckAllDeps(s: Symbol) returns (r: Option<Symbol>)
      requires Ok() && stack != [] && stack[|stack| - 1] == s
      modifies this
      ensures Ok() && Restored() && HandsUp(r)
      ensures r.Some? || Done(Deps(Def(config, s)))
      decreases Universe(config) - checked, 4
    {
      var d := Def(config, s);
      r := CheckExprDepsOpt(d.revDep);
      if r.Some? {
        return;
      }
      for i := 0 to |d.props|
        invariant Ok() && Restored() && r.None?
        invariant Done(SymbolsOpt(d.revDep)) && Done(PropsDeps(d.props[..i]))
      {
        PropsDepsNext(d.props, i);
        r := CheckProp(d.props[i]);
        if r.Some? {
          return;
        }
      }
      assert d.props[..|d.props|] == d.props;
    }

    /** Both flags are set and the symbol goes on the stack. */
    method Enter(s: Symbol)
      requires Ok() && s !in checked && s in Universe(config)
      requires stack != [] ==> Edge(config, stack[|stack| - 1], s)
      modifies this`check, this`checked, this`stack
      ensures Ok()
      ensures check == old(check) + {s} && checked == old(checked) + {s} && stack == old(stack) + [s]
    {
      check, checked, stack := check + {s}, checked + {s}, stack + [s];
    }

    /** SYMBOL_CHECK is cleared and the symbol leaves the stack. */
    method Leave(s: Symbol)
      requires Ok() && stack != [] && stack[|stack| - 1] == s && Done(Deps(Def(config, s)))
      modifies this`check, this`stack, this`order
      ensures Ok()
      ensures check == old(check) - {s} && stack == old(stack)[..|old(stack)| - 1]
    {
      check, stack := check - {s}, stack[..|stack| - 1];
      if reports == 0 {
        FinishNext(config, order, s);
        order := order + [s];
      }
    }

    /** sym_check_deps, for symbols outside choices. */
    method CheckDeps(s: Symbol) returns (r: Option<Symbol>)
      requires Ok() && s in Universe(config)
      requires stack != [] ==> Edge(config, stack[|stack| - 1], s)
      modifies this
      ensures Ok() && Restored() && HandsUp(r) && s in checked
      ensures r.Some? || Done({s})
      decreases Universe(config) - checked, 0
    {
      if s in check {
        var _ := PrintRecursive(s);
        return Some(s);
      }
      if s in checked {
        return None;
      }
      Enter(s);
      r := CheckAllDeps(s);
      Leave(s);
      if r == Some(s) {
        r := None;
      }
    }

    /**
     A call from outside, with no symbol under examination, always returns null: the
     symbol a report hands up is back at its own call before that.
     */
    method CheckFromOutside(s: Symbol) returns (r: Option<Symbol>)
      requires Ok() && check == {} && s in Universe(config)
      modifies this
      ensures Ok() && Restored() && s in checked
      ensures r == None
    {
      NoMembers(stack);
      r := CheckDeps(s);
    }

    /** The loop over all symbols after parsing: counts the symbols sym_check_deps returns. */
    method CheckAll(syms: seq<Symbol>) returns (errors: nat)
      requires check == {} && checked == {} && stack == [] && reports == 0
      requires forall s :: s in syms ==> s in Universe(config)
      requires forall s :: s in config.defs.Keys ==> s in syms
      modifies this
      ensures check == {} && stack == []
      ensures reports > 0 <==> HasCycle(config)
      ensures errors == 0
      ensures reports == 0 && (forall s :: s in config.defs.Keys ==> DirDepCovered(config.defs[s])) ==>
        exists rank :: Acyclic(config, rank)
    {
      errors, order := 0, [];
      for i := 0 to |syms|
        invariant Ok() && check == {} && stack == [] && errors == 0
        invariant forall s :: s in syms[..i] ==> s in checked
      {
        var r := CheckFromOutside(syms[i]);
        errors := errors + if r.Some? then 1 else 0;
      }
      if reports == 0 {
        FinishedMeansAcyclic(config, order);
        if forall s :: s in config.defs.Keys ==> DirDepCovered(config.defs[s]) {
          FinishedGivesRank(config, order);
        }
      }
    }
  }

  lemma FinishNext(c: Config, o: seq<Symbol>, s: Symbol)
    requires Finished(c, o) && s !in o
    requires forall t :: t in Deps(Def(c, s)) ==> t in o
    ensures Finished(c, o + [s])
  {
    forall i, t | 0 <= i < |o| + 1 && Edge(c, (o + [s])[i], t)
      ensures t in (o + [s])[..i]
    {
      if i < |o| {
        assert (o + [s])[..i] == o[..i];
      } else {
        assert (o + [s])[..i] == o;
      }
    }
  }
}
