/**
 The walk of conf_write over the finalized menu, without recursion or a stack: down by
 list, along by next, up by parent.
 */
module MenuWalk {
  import opened MenuTree
  import opened MenuHeap
  import opened Wrappers
  import opened KconfigExpr
  import opened KconfigEqExact
  import opened KconfigSubmenu
  import opened KconfigDecision

  /** An entry the walk is below, and the siblings behind it. */
  datatype Level = Level(m: Menu, rest: Forest)

  /** The levels above a row with parent `p`, from the inside out, up to the root menu. */
  predicate Above(h: Links, root: Menu, p: Ref, levels: seq<Level>)
    decreases |levels|
  {
    if levels == [] then
      p == At(root) && Deref(h.next, root) == Null && Deref(h.parent, root) == Null
    else
      var m := levels[0].m;
      && p == At(m)
      && Linked(h, Deref(h.next, m), levels[0].rest, Deref(h.parent, m), Null)
      && Above(h, root, Deref(h.parent, m), levels[1..])
  }

  /** What is still to be visited when the current row is done. */
  function Pending(levels: seq<Level>): seq<Menu> {
    if levels == [] then [] else Flat(levels[0].rest) + Pending(levels[1..])
  }

  /** What is still to be visited: the rest of this row with all below, then the outer rows. */
  function Todo(left: Forest, levels: seq<Level>): seq<Menu> {
    Flat(left) + Pending(levels)
  }

  /** An entry comes before those below it, and these before those behind it. */
  lemma TodoStep(t: Tree, g: Forest, levels: seq<Level>)
    ensures Todo([t] + g, levels) == [t.m] + Todo(t.kids, [Level(t.m, g)] + levels)
    ensures t.kids == [] ==> Todo([t] + g, levels) == [t.m] + Todo(g, levels)
  {
    FlatCons(t, g);
    assert ([Level(t.m, g)] + levels)[1..] == levels;
    assert [t.m] + Flat(t.kids) + Flat(g) + Pending(levels) == [t.m] + (Flat(t.kids) + (Flat(g) + Pending(levels)));
    if t.kids == [] {
      assert Flat(t.kids) + (Flat(g) + Pending(levels)) == Flat(g) + Pending(levels);
    }
  }

  lemma Visit(visited: seq<Menu>, m: Menu, todo: seq<Menu>)
    ensures visited + ([m] + todo) == visited + [m] + todo
  {
  }

  /** Visits every entry below the root once, in preorder. */
  method Walk(links: MenuLinks, root: Menu, ghost f: Forest) returns (visited: seq<Menu>)
    requires Linked(links.State(), Deref(links.list, root), f, At(root), Null)
    requires Deref(links.next, root) == Null && Deref(links.parent, root) == Null
    ensures visited == Flat(f)
  {
    ghost var h := links.State();
    visited := [];
    var cur := Deref(links.list, root);
    ghost var left, p, levels: seq<Level> := f, At(root), [];
    assert [] + Todo(f, []) == Flat(f);
    while cur != Null
      invariant links.State() == h
      invariant visited + Todo(left, levels) == Flat(f)
      invariant Linked(h, cur, left, p, Null)
      invariant if cur == Null then levels == [] else Above(h, root, p, levels)
      decreases |Flat(f)| - |visited|
    {
      ghost var t, g := left[0], left[1..];
      assert left == [t] + g;
      LinkedCons(h, cur, t, g, p, Null);
      TodoStep(t, g, levels);
      Visit(visited, t.m, Todo(t.kids, [Level(t.m, g)] + levels));
      Visit(visited, t.m, Todo(g, levels));
      visited := visited + [cur.m];
      if Deref(links.list, cur.m) != Null {
        assert ([Level(cur.m, g)] + levels)[1..] == levels;
        left, p, levels := t.kids, cur, [Level(cur.m, g)] + levels;
        cur := Deref(links.list, cur.m);
      } else if Deref(links.next, cur.m) != Null {
        left := g;
        cur := Deref(links.next, cur.m);
      } else {
        assert Todo(g, levels) == Pending(levels);
        cur, left, p, levels := Climb(links, cur.m, root, levels, p);
      }
    }
    assert visited + [] == visited;
  }

  /** The inner loop: up to the nearest entry with a sibling behind it, and on to that one. */
  method Climb(links: MenuLinks, m: Menu, root: Menu, ghost above: seq<Level>, ghost q: Ref)
    returns (cur: Ref, ghost left: Forest, ghost p: Ref, ghost levels: seq<Level>)
    requires Deref(links.parent, m) == q && Above(links.State(), root, q, above)
    ensures Pending(above) == Flat(left) + Pending(levels)
    ensures Linked(links.State(), cur, left, p, Null)
    ensures if cur == Null then levels == [] else Above(links.State(), root, p, levels)
  {
    ghost var h := links.State();
    levels := above;
    cur := Deref(links.parent, m);
    p := q;
    while cur != Null
      invariant links.State() == h && Pending(levels) == Pending(above)
      invariant if cur == Null then levels == [] else p == cur && Above(h, root, p, levels)
      decreases |levels|, cur != Null
    {
      if Deref(links.next, cur.m) != Null {
        left, p := levels[0].rest, Deref(h.parent, cur.m);
        levels := levels[1..];
        cur := Deref(links.next, cur.m);
        return;
      }
      if levels != [] {
        assert levels[0].rest == [];
        levels := levels[1..];
      }
      cur := Deref(links.parent, cur.m);
      p := cur;
    }
    left := [];
  }

  /** Trees that hold no entry are no trees. */
  lemma NothingIsEmpty(f: Forest)
    ensures Flat(f) == [] ==> f == []
  {
    if f != [] {
      FlatCons(f[0], f[1..]);
      assert f == [f[0]] + f[1..];
    }
  }

  /** menu_finalize keeps every entry below the root, in the same preorder. */
  lemma RootConserved(t: Tree, absorbs: Absorbs)
    ensures Finalize(t, [], absorbs).1 == []
    ensures Flat(Finalize(t, [], absorbs).0.kids) == Flat(t.kids)
  {
    var (u, others) := Finalize(t, [], absorbs);
    NothingIsEmpty(others);
    FlatCons(t, []);
    FlatCons(u, []);
    assert [t] + [] == [t] && [u] + [] == [u];
    assert Flat([t])[1..] == Flat(t.kids) && Flat([u])[1..] == Flat(u.kids);
  }

  /** The root menu is finalized and then written: whatever moves, the order written is the order parsed. */
  method FinalizeAndWalk(links: MenuLinks, root: Menu, absorbs: Absorbs, ghost t: Tree) returns (visited: seq<Menu>)
    requires t.m == root && Distinct([t]) && Linked(links.State(), At(root), [t], Null, Null)
    modifies links
    ensures visited == Flat(t.kids)
    ensures Prompted(Finalize(t, [], absorbs).0.kids)
  {
    assert [t] + [] == [t];
    links.FinalizeMenu(root, absorbs, t, [], Null);
    RootConserved(t, absorbs);
    FinalizePrompts(t, [], absorbs);
    ghost var u := Finalize(t, [], absorbs).0;
    LinkedCons(links.State(), At(root), u, [], Null, Null);
    assert [u] + [] == [u];
    visited := Walk(links, root, u.kids);
  }

  // ---------------------------------------------------------------------------
  // The decision the program makes
  // ---------------------------------------------------------------------------

  /** The expressions of the entries once dependencies have been propagated to them. */
  datatype Deps = Deps(sym: Menu -> Symbol, hasPrompt: Menu -> bool, visible: Menu -> Option<Expr>, dep: Menu -> Option<Expr>)

  /** What an entry's place depends on: its prompt's visibility or, without a prompt, its own dependency. */
  function Availability(d: Deps, m: Menu): Option<Expr> {
    if d.hasPrompt(m) then d.visible(m) else d.dep(m)
  }

  /** The visibility an entry's place is compared with: none counts as y. */
  function Base(d: Deps, p: Menu): Option<Expr> {
    if d.hasPrompt(p) then d.visible(p) else None
  }

  function Decision(d: Deps): Absorbs {
    (p: Menu, m: Menu) =>
      BelongsBelow(d.sym(p), Base(d, p), Availability(d, m))
  }

  /** What decides for entry m is the visibility of its prompt, or without a prompt what it depends on. */
  lemma DecisionExact(d: Deps, p: Menu, m: Menu, dep: Option<Expr>)
    requires dep == if d.hasPrompt(m) then d.visible(m) else d.dep(m)
    ensures !d.hasPrompt(p) || d.visible(p).None? ==>
      (Decision(d)(p, m) <==> dep.Some? && d.sym(p) in Symbols(dep.value))
    ensures d.hasPrompt(p) && d.visible(p).Some? && Bare(NotNo(d.visible(p))) && Bare(NotNo(dep)) ==>
      (Decision(d)(p, m) <==>
        && dep.Some? && d.sym(p) in Symbols(dep.value)
        && (Demanded(dep.value, d.sym(p))
            || (IsOp(NotNo(dep), And) && Operands(And, NotNo(d.visible(p))) <= Operands(And, NotNo(dep)))))
  {
    hide Bare, NotNo, Demanded, Operands, BelongsBelow;
    assert Availability(d, m) == dep;
    assert Decision(d)(p, m) == BelongsBelow(d.sym(p), Base(d, p), dep);
    BelowUnconditional(d.sym(p), dep);
    if d.hasPrompt(p) && d.visible(p).Some? && Bare(NotNo(d.visible(p))) && Bare(NotNo(dep)) {
      BelongsBelowExact(d.sym(p), d.visible(p).value, dep);
    }
  }

  /** No entry goes below another that can be out of reach while the entry itself is not, unless m under NOT misleads. */
  lemma DecisionSound(d: Deps, p: Menu, m: Menu, v: Valuation)
    requires WellFormed(v) && Decision(d)(p, m)
    requires d.sym(p).Type() == Boolean || d.sym(p).Type() == Tristated
    requires LogicalOpt(Base(d, p)) && LogicalOpt(Availability(d, m))
    requires ValueOpt(Availability(d, m), v) != NO
    requires !Misjudged(Base(d, p), v) && !Misjudged(Availability(d, m), v)
    ensures v(d.sym(p)).tri != NO || ValueOpt(Base(d, p), v) != NO
  {
    BelongsBelowSound(d.sym(p), Base(d, p), Availability(d, m), v);
  }
}
