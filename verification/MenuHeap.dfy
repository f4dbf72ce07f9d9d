/**
 menu_finalize as the program runs it, relinking entries by their pointers next, list and
 parent. The pointers of all entries are three maps; an entry without a value has a null
 pointer. Each loop is proved to turn the links of one tree into those of another.
 */
module MenuHeap {
  import opened MenuTree

  datatype Ref = Null | At(m: Menu)

  datatype Links = Links(next: map<Menu, Menu>, list: map<Menu, Menu>, parent: map<Menu, Menu>)

  function Deref(field: map<Menu, Menu>, m: Menu): Ref {
    if m in field then At(field[m]) else Null
  }

  function Assign(field: map<Menu, Menu>, m: Menu, to: Ref): (r: map<Menu, Menu>)
    ensures forall x :: Deref(r, x) == if x == m then to else Deref(field, x)
  {
    match to
    case Null => field - {m}
    case At(x) => field[m := x]
  }

  function Objs(f: Forest): set<Menu>
    decreases f
  {
    if f == [] then {} else {f[0].m} + Objs(f[0].kids) + Objs(f[1..])
  }

  /** No entry occurs twice. */
  predicate Distinct(f: Forest)
    decreases f
  {
    f == [] || (
      && f[0].m !in Objs(f[0].kids) + Objs(f[1..])
      && Objs(f[0].kids) !! Objs(f[1..])
      && Distinct(f[0].kids)
      && Distinct(f[1..]))
  }

  /**
   The siblings from `a` up to but not including `e` are the trees of `f`; each has `p` as
   its parent, and likewise below.
   */
  predicate Linked(h: Links, a: Ref, f: Forest, p: Ref, e: Ref)
    decreases f
  {
    if f == [] then a == e
    else
      && a == At(f[0].m)
      && Deref(h.parent, f[0].m) == p
      && Linked(h, Deref(h.list, f[0].m), f[0].kids, a, Null)
      && Linked(h, Deref(h.next, f[0].m), f[1..], p, e)
  }

  /** The links of these entries are the same. */
  ghost predicate Agree(h: Links, k: Links, ms: set<Menu>) {
    forall x :: x in ms ==>
      && Deref(h.next, x) == Deref(k.next, x)
      && Deref(h.list, x) == Deref(k.list, x)
      && Deref(h.parent, x) == Deref(k.parent, x)
  }

  /** Only the links of these entries differ. */
  ghost predicate Only(h: Links, k: Links, ms: set<Menu>) {
    forall x :: x !in ms ==>
      && Deref(h.next, x) == Deref(k.next, x)
      && Deref(h.list, x) == Deref(k.list, x)
      && Deref(h.parent, x) == Deref(k.parent, x)
  }

  /** A row of other entries does not notice. */
  lemma OnlyFrame(h: Links, k: Links, ms: set<Menu>, a: Ref, f: Forest, p: Ref, e: Ref)
    requires Only(h, k, ms) && ms !! Objs(f) && Linked(h, a, f, p, e)
    ensures Linked(k, a, f, p, e)
  {
    Frame(h, k, a, f, p, e);
  }

  lemma OnlySelf(h: Links, ms: set<Menu>)
    ensures Only(h, h, ms)
  {
  }

  lemma ParentOnly(h: Links, m: Menu, p: Ref)
    ensures Only(h, h.(parent := Assign(h.parent, m, p)), {m})
  {
  }

  lemma OnlyTwice(h: Links, j: Links, k: Links, ms: set<Menu>, ns: set<Menu>, all: set<Menu>)
    requires Only(h, j, ms) && Only(j, k, ns) && ms <= all && ns <= all
    ensures Only(h, k, all)
  {
  }

  // ---------------------------------------------------------------------------
  // Rows of trees
  // ---------------------------------------------------------------------------

  lemma {:induction false} Frame(h: Links, k: Links, a: Ref, f: Forest, p: Ref, e: Ref)
    requires Linked(h, a, f, p, e) && Agree(h, k, Objs(f))
    ensures Linked(k, a, f, p, e)
    decreases f
  {
    if f != [] {
      Frame(h, k, Deref(h.list, f[0].m), f[0].kids, a, Null);
      Frame(h, k, Deref(h.next, f[0].m), f[1..], p, e);
    }
  }

  lemma Cons(t: Tree, g: Forest)
    ensures Objs([t] + g) == {t.m} + Objs(t.kids) + Objs(g)
    ensures Distinct([t] + g) <==>
      t.m !in Objs(t.kids) + Objs(g) && Objs(t.kids) !! Objs(g) && Distinct(t.kids) && Distinct(g)
    ensures Objs([t]) == {t.m} + Objs(t.kids)
  {
    assert ([t] + g)[1..] == g && [t][1..] == [];
  }

  lemma {:induction false} Concat(f: Forest, g: Forest)
    ensures Objs(f + g) == Objs(f) + Objs(g)
    ensures Distinct(f + g) <==> Distinct(f) && Distinct(g) && Objs(f) !! Objs(g)
    decreases |f|
  {
    if f == [] {
      assert f + g == g;
    } else {
      assert (f + g)[0] == f[0] && (f + g)[1..] == f[1..] + g;
      Concat(f[1..], g);
    }
  }

  lemma UnionSize(m: Menu, b: set<Menu>, c: set<Menu>)
    ensures |{m} + b + c| <= 1 + |b| + |c|
    ensures |{m} + b + c| == 1 + |b| + |c| <==> m !in b + c && b !! c
  {
    assert |b + c| == |b| + |c| - |b * c|;
    assert |b * c| == 0 <==> b * c == {};
    assert {m} + b + c == {m} + (b + c);
    if m in b + c {
      assert {m} + (b + c) == b + c;
    }
  }

  lemma {:induction false} ObjsFlat(f: Forest)
    ensures Objs(f) == set x | x in Flat(f)
    decreases f
  {
    if f != [] {
      ObjsFlat(f[0].kids);
      ObjsFlat(f[1..]);
    }
  }

  lemma {:induction false} DistinctCounts(f: Forest)
    ensures |Objs(f)| <= |Flat(f)|
    ensures Distinct(f) <==> |Objs(f)| == |Flat(f)|
    decreases f
  {
    if f != [] {
      DistinctCounts(f[0].kids);
      DistinctCounts(f[1..]);
      UnionSize(f[0].m, Objs(f[0].kids), Objs(f[1..]));
    }
  }

  /** Rows with the same preorder have the same entries. */
  lemma SameFlat(f: Forest, g: Forest)
    requires Flat(f) == Flat(g)
    ensures Objs(f) == Objs(g) && (Distinct(f) <==> Distinct(g))
  {
    ObjsFlat(f);
    ObjsFlat(g);
    DistinctCounts(f);
    DistinctCounts(g);
  }

  lemma LinkedCons(h: Links, a: Ref, t: Tree, g: Forest, p: Ref, e: Ref)
    ensures Linked(h, a, [t] + g, p, e) <==>
      && a == At(t.m) && Deref(h.parent, t.m) == p
      && Linked(h, Deref(h.list, t.m), t.kids, a, Null)
      && Linked(h, Deref(h.next, t.m), g, p, e)
  {
    assert ([t] + g)[1..] == g;
  }

  lemma {:induction false} LinkedConcat(h: Links, a: Ref, f: Forest, mid: Ref, g: Forest, p: Ref, e: Ref)
    requires Linked(h, a, f, p, mid) && Linked(h, mid, g, p, e)
    ensures Linked(h, a, f + g, p, e)
    decreases |f|
  {
    if f == [] {
      assert f + g == g;
    } else {
      assert (f + g)[0] == f[0] && (f + g)[1..] == f[1..] + g;
      LinkedConcat(h, Deref(h.next, f[0].m), f[1..], mid, g, p, e);
    }
  }

  lemma {:induction false} LinkedSplit(h: Links, a: Ref, f: Forest, t: Tree, p: Ref, e: Ref)
    requires Linked(h, a, f + [t], p, e)
    ensures Linked(h, a, f, p, At(t.m)) && Linked(h, At(t.m), [t], p, e)
    decreases |f|
  {
    if f == [] {
      assert f + [t] == [t];
    } else {
      assert (f + [t])[0] == f[0] && (f + [t])[1..] == f[1..] + [t];
      LinkedSplit(h, Deref(h.next, f[0].m), f[1..], t, p, e);
    }
  }

  /** An entry that is in order by itself is added to a row that ends at it. */
  lemma Extend(h: Links, a: Ref, done: Forest, t: Tree, p: Ref)
    requires Linked(h, a, done, p, At(t.m)) && Deref(h.parent, t.m) == p
    requires Linked(h, Deref(h.list, t.m), t.kids, At(t.m), Null)
    ensures Linked(h, a, done + [t], p, Deref(h.next, t.m))
  {
    LinkedCons(h, At(t.m), t, [], p, Deref(h.next, t.m));
    assert [t] + [] == [t];
    LinkedConcat(h, a, done, At(t.m), [t], p, Deref(h.next, t.m));
  }

  /** The link after the last tree of a row is redirected. */
  lemma Redirected(h: Links, a: Ref, f: Forest, p: Ref, e: Ref, to: Ref)
    requires f != [] && Linked(h, a, f, p, e) && Distinct(f)
    ensures Linked(h.(next := Assign(h.next, f[|f| - 1].m, to)), a, f, p, to)
  {
    var g, t := f[..|f| - 1], f[|f| - 1];
    var k := h.(next := Assign(h.next, t.m, to));
    assert f == g + [t];
    LinkedSplit(h, a, g, t, p, e);
    Concat(g, [t]);
    Cons(t, []);
    assert [t] + [] == [t];
    LinkedCons(h, At(t.m), t, [], p, e);
    Frame(h, k, a, g, p, At(t.m));
    Frame(h, k, Deref(h.list, t.m), t.kids, At(t.m), Null);
    Extend(k, a, g, t, p);
  }

  lemma NoRow(h: Links, a: Ref, p: Ref)
    ensures Linked(h, a, [], p, a)
  {
  }

  lemma EmptyRow(h: Links, a: Ref, p: Ref, e: Ref)
    requires Linked(h, a, [], p, e)
    ensures a == e
  {
  }

  /** The first entry of a row, or none. */
  lemma RowHead(h: Links, a: Ref, f: Forest, p: Ref)
    requires Linked(h, a, f, p, Null)
    ensures if f == [] then a == Null else a == At(f[0].m)
  {
  }

  /** The loop over the siblings of an entry, turn by turn. */
  lemma AbsorbStep(m: Menu, done: Forest, left: Forest, absorbs: Absorbs)
    requires left != [] && absorbs(m, left[0].m)
    ensures var (u, others) := Finalize(left[0], left[1..], absorbs);
      && AbsorbAll(m, done, left, absorbs) == AbsorbAll(m, done + [u], others, absorbs)
      && Flat(done + [u] + others) == Flat(done + left) && Count(others) < Count(left) && u.m == left[0].m
  {
    hide Finalize;
    Shift(done, left);
    var (u, others) := Finalize(left[0], left[1..], absorbs);
    FinalizeFirst(done, left, u, others);
  }

  lemma AbsorbStop(m: Menu, done: Forest, left: Forest, absorbs: Absorbs)
    requires left == [] || !absorbs(m, left[0].m)
    ensures AbsorbAll(m, done, left, absorbs) == (done, left)
  {
  }

  // ---------------------------------------------------------------------------
  // Single changes
  // ---------------------------------------------------------------------------

  /** The first of the remaining entries gets its new parent. */
  lemma Reparented(h: Links, a: Ref, done: Forest, t: Tree, g: Forest, p: Ref, q: Ref)
    requires Distinct(done + ([t] + g))
    requires Linked(h, a, done, p, At(t.m)) && Linked(h, At(t.m), [t] + g, q, Null)
    ensures var k := h.(parent := Assign(h.parent, t.m, p));
      && Linked(k, a, done + [t], p, Deref(h.next, t.m))
      && Linked(k, Deref(h.next, t.m), g, q, Null)
  {
    var k := h.(parent := Assign(h.parent, t.m, p));
    Concat(done, [t] + g);
    Cons(t, g);
    LinkedCons(h, At(t.m), t, g, q, Null);
    Frame(h, k, a, done, p, At(t.m));
    Frame(h, k, Deref(h.list, t.m), t.kids, At(t.m), Null);
    Frame(h, k, Deref(h.next, t.m), g, q, Null);
    Extend(k, a, done, t, p);
  }

  /** Three assignments move the entries below the first remaining one up behind it. */
  function MovedUp(h: Links, m: Menu, last: Menu): Links {
    var next := Assign(h.next, last, Deref(h.next, m));
    Links(Assign(next, m, Deref(h.list, m)), Assign(h.list, m, Null), h.parent)
  }

  lemma MovedUpOnly(h: Links, m: Menu, last: Menu)
    ensures Only(h, MovedUp(h, m, last), {m, last})
  {
  }

  lemma OnlyDeref(h: Links, k: Links, ms: set<Menu>, m: Menu)
    requires Only(h, k, ms) && m !in ms
    ensures Deref(k.list, m) == Deref(h.list, m) && Deref(k.next, m) == Deref(h.next, m) && Deref(k.parent, m) == Deref(h.parent, m)
  {
  }

  lemma MovedUpLinks(h: Links, a: Ref, done: Forest, t: Tree, g: Forest, p: Ref)
    requires Distinct(done + ([t] + g)) && t.kids != []
    requires Linked(h, a, done, p, At(t.m)) && Deref(h.parent, t.m) == p
    requires Linked(h, Deref(h.list, t.m), t.kids, p, Null) && Linked(h, Deref(h.next, t.m), g, p, Null)
    ensures var k := MovedUp(h, t.m, t.kids[|t.kids| - 1].m);
      && Linked(k, a, done + [Node(t.m, [])], p, Deref(h.list, t.m))
      && Deref(k.next, t.m) == Deref(h.list, t.m)
      && Linked(k, Deref(h.list, t.m), t.kids + g, p, Null)
  {
    hide Linked;
    var last := t.kids[|t.kids| - 1].m;
    var j := h.(next := Assign(h.next, last, Deref(h.next, t.m)));
    var k := MovedUp(h, t.m, last);
    Concat(done, [t] + g);
    Cons(t, g);
    LastIn(t.kids);
    Redirected(h, Deref(h.list, t.m), t.kids, p, Null, Deref(h.next, t.m));
    Frame(j, k, Deref(h.list, t.m), t.kids, p, Deref(h.next, t.m));
    Frame(h, k, Deref(h.next, t.m), g, p, Null);
    LinkedConcat(k, Deref(h.list, t.m), t.kids, Deref(h.next, t.m), g, p, Null);
    Frame(h, k, a, done, p, At(t.m));
    Extend(k, a, done, Node(t.m, []), p);
  }

  /** Three assignments put a row of siblings below the entry they followed. */
  function MovedBelow(h: Links, m: Menu, last: Menu): Links {
    Links(Assign(Assign(h.next, m, Deref(h.next, last)), last, Null), Assign(h.list, m, Deref(h.next, m)), h.parent)
  }

  lemma MovedBelowLinks(h: Links, m: Menu, below: Forest, stop: Ref, others: Forest, p: Ref)
    requires below != [] && Distinct([Node(m, below)] + others)
    requires Linked(h, Deref(h.next, m), below, At(m), stop) && Linked(h, stop, others, p, Null)
    ensures var k := MovedBelow(h, m, below[|below| - 1].m);
      && Linked(k, Deref(k.list, m), below, At(m), Null)
      && Linked(k, Deref(k.next, m), others, p, Null)
      && Only(h, k, {m} + Objs(below))
  {
    hide Distinct;
    var g, t := below[..|below| - 1], below[|below| - 1];
    assert below == g + [t];
    var start := Deref(h.next, m);
    var j := h.(next := Assign(h.next, t.m, Null));
    var k := MovedBelow(h, m, t.m);
    Cons(Node(m, below), others);
    LastIn(below);
    LinkedSplit(h, start, g, t, At(m), stop);
    assert [t] + [] == [t];
    LinkedCons(h, At(t.m), t, [], At(m), stop);
    Redirected(h, start, below, At(m), stop, Null);
    Frame(j, k, start, below, At(m), Null);
    Frame(h, k, stop, others, p, Null);
  }

  lemma {:induction false} LastIn(f: Forest)
    requires f != []
    ensures f[|f| - 1].m in Objs(f)
  {
    if |f| > 1 {
      LastIn(f[1..]);
    }
  }

  // ---------------------------------------------------------------------------
  // The loops
  // ---------------------------------------------------------------------------

  class MenuLinks {
    var next: map<Menu, Menu>
    var list: map<Menu, Menu>
    var parent: map<Menu, Menu>

    function State(): Links
      reads this
    {
      Links(next, list, parent)
    }

    /** The inner loop of the last loop: new parent for a whole row; answers its last entry. */
    method Reparent(first: Menu, p: Ref, ghost f: Forest, ghost q: Ref) returns (last: Menu)
      requires f != [] && Linked(State(), At(first), f, q, Null) && Distinct(f)
      modifies this`parent
      ensures Linked(State(), At(first), f, p, Null) && last == f[|f| - 1].m
      ensures Only(old(State()), State(), Objs(f))
    {
      hide Only, Distinct;
      last := first;
      ghost var done: Forest, left: Forest := [], f;
      assert done + left == f;
      OnlySelf(State(), Objs(f));
      while true
        invariant left != [] && done + left == f && last == left[0].m
        invariant Linked(State(), At(first), done, p, At(last)) && Linked(State(), At(last), left, q, Null)
        invariant Only(old(State()), State(), Objs(f))
        decreases |left|
      {
        ghost var t, g := left[0], left[1..];
        assert left == [t] + g && done + [t] + g == f;
        Reparented(State(), At(first), done, t, g, p, q);
        Concat(done, left);
        Cons(t, g);
        ghost var before := State();
        parent := Assign(parent, last, p);
        ParentOnly(before, last, p);
        OnlyTwice(old(State()), before, State(), Objs(f), {last}, Objs(f));
        done, left := done + [t], g;
        match Deref(next, last)
        case Null =>
          assert left == [];
          assert done + left == done;
          return;
        case At(m) => last := m;
      }
    }

    /** The last loop of menu_finalize, over the row of entries below `p`. */
    method SpliceRow(p: Ref, first: Ref, ghost f: Forest)
      requires Linked(State(), first, f, p, Null) && Distinct(f)
      modifies this
      ensures Linked(State(), first, Splice([], f), p, Null)
      ensures Only(old(State()), State(), Objs(f))
    {
      var cur := first;
      ghost var done: Forest, left: Forest := [], f;
      assert done + left == f;
      while cur != Null
        invariant Linked(State(), first, done, p, cur) && Linked(State(), cur, left, p, Null)
        invariant Splice(done, left) == Splice([], f)
        invariant Only(old(State()), State(), Objs(f))
        decreases Count(left)
      {
        ghost var t, g := left[0], left[1..];
        Shift(done, left);
        assert left == [t] + g;
        SameFlat(done + left, f);
        Concat(done, left);
        Cons(t, g);
        LinkedCons(State(), cur, t, g, p, Null);
        if Deref(list, cur.m) != Null && cur.m.promptless {
          MoveUp(done, t, g);
          SpliceOne(cur.m, first, p, done, t, g);
          done, left := done + [Node(t.m, [])], t.kids + g;
        } else {
          Extend(State(), first, done, t, p);
          done, left := done + [t], g;
        }
        cur := Deref(next, cur.m);
      }
    }

    /** Moves the entries below `m` up behind it. */
    method SpliceOne(m: Menu, ghost first: Ref, p: Ref, ghost done: Forest, ghost t: Tree, ghost g: Forest)
      requires t.m == m && t.kids != [] && Distinct(done + ([t] + g))
      requires Linked(State(), first, done, p, At(m)) && Linked(State(), At(m), [t] + g, p, Null)
      modifies this
      ensures Linked(State(), first, done + [Node(m, [])], p, Deref(next, m))
      ensures Linked(State(), Deref(next, m), t.kids + g, p, Null)
      ensures Only(old(State()), State(), Objs([t] + g))
    {
      hide Only, Distinct, Linked;
      ghost var h := State();
      assert t.m !in Objs(t.kids) && Objs(t.kids) !! Objs(done) && Objs(t.kids) !! Objs(g) && Distinct(t.kids) by {
        Concat(done, [t] + g);
        Cons(t, g);
      }
      LinkedCons(h, At(m), t, g, p, Null);
      RowHead(h, Deref(h.list, m), t.kids, At(m));
      var last := Reparent(list[m], p, t.kids, At(m));
      ghost var j := State();
      assert Deref(j.list, m) == Deref(h.list, m) && Deref(j.next, m) == Deref(h.next, m) && Deref(j.parent, m) == p by {
        OnlyDeref(h, j, Objs(t.kids), m);
      }
      OnlyFrame(h, j, Objs(t.kids), first, done, p, At(m));
      OnlyFrame(h, j, Objs(t.kids), Deref(h.next, m), g, p, Null);
      MovedUpLinks(j, first, done, t, g, p);
      LastIn(t.kids);
      next := Assign(next, last, Deref(next, m));
      next := Assign(next, m, Deref(list, m));
      list := Assign(list, m, Null);
      MovedUpOnly(j, m, last);
      Cons(t, g);
      OnlyTwice(h, j, State(), Objs(t.kids), {m, last}, Objs([t] + g));
    }

    /** menu_finalize, on the first entry of a row of siblings. */
    method FinalizeMenu(m: Menu, absorbs: Absorbs, ghost t: Tree, ghost rest: Forest, ghost p: Ref)
      requires t.m == m && Distinct([t] + rest) && Linked(State(), At(m), [t] + rest, p, Null)
      modifies this
      ensures var (u, others) := Finalize(t, rest, absorbs); Linked(State(), At(m), [u] + others, p, Null)
      ensures Only(old(State()), State(), Objs([t] + rest))
      decreases Count([t] + rest), 0, 0
    {
      FlatCons(t, rest);
      LinkedCons(State(), At(m), t, rest, p, Null);
      if Deref(list, m) != Null {
        FinalizeBelow(m, absorbs, t, rest, p);
      } else if m.hasSym {
        FinalizeLeaf(m, absorbs, t, rest, p);
      }
    }

    /** The second branch of menu_finalize: an entry with nothing below it yet. */
    method FinalizeLeaf(m: Menu, absorbs: Absorbs, ghost t: Tree, ghost rest: Forest, ghost p: Ref)
      requires t.m == m && t.kids == [] && m.hasSym && Distinct([t] + rest)
      requires Linked(State(), At(m), [t] + rest, p, Null)
      modifies this
      ensures var (u, others) := Finalize(t, rest, absorbs); Linked(State(), At(m), [u] + others, p, Null)
      ensures Only(old(State()), State(), Objs([t] + rest))
      decreases Count(rest), 2
    {
      hide Only, Linked, AbsorbAll, Splice;
      ghost var h, all := State(), Objs([t] + rest);
      Cons(t, rest);
      LinkedCons(h, At(m), t, rest, p, Null);
      ghost var (below, others) := AbsorbAll(m, [], rest, absorbs);
      var last;
      ghost var stop;
      last, stop := AbsorbRow(m, absorbs, rest, p);
      ghost var j := State();
      OnlyDeref(h, j, Objs(rest), m);
      RestAfterAbsorb(t, rest, absorbs);
      RowHead(h, Deref(h.list, m), t.kids, At(m));
      if below == [] {
        NoRow(j, Null, At(m));
        EmptyRow(j, Deref(j.next, m), At(m), stop);
      }
      OnlySelf(j, all);
      if last != Null {
        MoveBelow(m, last.m, below, stop, others, p);
      }
      OnlyTwice(h, j, State(), Objs(rest), all, all);
      ghost var k := State();
      FinishAbsorbed(m, absorbs, t, below, others, p);
      OnlyTwice(h, k, State(), all, Objs(below), all);
    }

    /** The row up to `last` goes below `m`. */
    method MoveBelow(m: Menu, last: Menu, ghost below: Forest, ghost stop: Ref, ghost others: Forest, ghost p: Ref)
      requires below != [] && last == below[|below| - 1].m && Distinct([Node(m, below)] + others)
      requires Linked(State(), Deref(next, m), below, At(m), stop) && Linked(State(), stop, others, p, Null)
      modifies this`next, this`list
      ensures Linked(State(), Deref(list, m), below, At(m), Null) && Linked(State(), Deref(next, m), others, p, Null)
      ensures Only(old(State()), State(), {m} + Objs(below))
      ensures forall all :: {m} + Objs(below) <= all ==> Only(old(State()), State(), all)
    {
      MovedBelowLinks(State(), m, below, stop, others, p);
      list := Assign(list, m, Deref(next, m));
      next := Assign(next, m, Deref(next, last));
      next := Assign(next, last, Null);
    }

    /** The first branch of menu_finalize: an entry that already has entries below it. */
    method FinalizeBelow(m: Menu, absorbs: Absorbs, ghost t: Tree, ghost rest: Forest, ghost p: Ref)
      requires t.m == m && t.kids != [] && Distinct([t] + rest) && Linked(State(), At(m), [t] + rest, p, Null)
      modifies this
      ensures var (u, others) := Finalize(t, rest, absorbs); Linked(State(), At(m), [u] + others, p, Null)
      ensures Only(old(State()), State(), Objs([t] + rest))
      decreases Count(t.kids), 2
    {
      ghost var h := State();
      ghost var below := FinalizeAll([], t.kids, absorbs);
      assert [] + t.kids == t.kids;
      SameFlat(below, t.kids);
      Cons(t, rest);
      LinkedCons(h, At(m), t, rest, p, Null);
      FinalizeRow(At(m), Deref(list, m), absorbs, t.kids);
      SpliceRow(At(m), Deref(list, m), below);
      Frame(h, State(), Deref(h.next, m), rest, p, Null);
      LinkedCons(State(), At(m), Node(m, Splice([], below)), rest, p, Null);
    }

    /** The last loop, after entries have been moved below `m`. */
    method FinishAbsorbed(m: Menu, absorbs: Absorbs, ghost t: Tree, ghost below: Forest, ghost others: Forest, ghost p: Ref)
      requires t.m == m && Distinct([Node(m, below)] + others)
      requires Deref(parent, m) == p && Linked(State(), Deref(list, m), below, At(m), Null)
      requires Linked(State(), Deref(next, m), others, p, Null)
      modifies this
      ensures Linked(State(), At(m), [Node(m, Splice([], below))] + others, p, Null)
      ensures Only(old(State()), State(), Objs(below))
    {
      ghost var h := State();
      Cons(Node(m, below), others);
      SpliceRow(At(m), Deref(list, m), below);
      Frame(h, State(), Deref(h.next, m), others, p, Null);
      LinkedCons(State(), At(m), Node(m, Splice([], below)), others, p, Null);
    }

    /** The loop over the entries of a menu. */
    method FinalizeRow(p: Ref, first: Ref, absorbs: Absorbs, ghost f: Forest)
      requires Linked(State(), first, f, p, Null) && Distinct(f)
      modifies this
      ensures Linked(State(), first, FinalizeAll([], f, absorbs), p, Null)
      ensures Only(old(State()), State(), Objs(f))
      decreases Count(f), 1
    {
      var cur := first;
      ghost var done: Forest, left: Forest := [], f;
      assert done + left == f;
      while cur != Null
        invariant Linked(State(), first, done, p, cur) && Linked(State(), cur, left, p, Null)
        invariant FinalizeAll(done, left, absorbs) == FinalizeAll([], f, absorbs)
        invariant Only(old(State()), State(), Objs(f))
        decreases Count(left)
      {
        RowTurn(done, left, f);
        ghost var (u, others) := Finalize(left[0], left[1..], absorbs);
        FinalizeNext(cur.m, absorbs, first, done, left, p, p);
        FinalizeFirst(done, left, u, others);
        Extend(State(), first, done, u, p);
        done, left := done + [u], others;
        cur := Deref(next, cur.m);
      }
    }

    /** The loop over the siblings behind `m`; answers the last one that goes below it. */
    method AbsorbRow(m: Menu, absorbs: Absorbs, ghost rest: Forest, ghost p: Ref) returns (last: Ref, ghost stop: Ref)
      requires Distinct(rest) && m !in Objs(rest) && Linked(State(), Deref(next, m), rest, p, Null)
      modifies this
      ensures Only(old(State()), State(), Objs(rest))
      ensures var (below, others) := AbsorbAll(m, [], rest, absorbs);
        && Linked(State(), Deref(next, m), below, At(m), stop) && Linked(State(), stop, others, p, Null)
        && last == if below == [] then Null else At(below[|below| - 1].m)
      decreases Count(rest), 1
    {
      hide Linked, Finalize, AbsorbAll, Distinct, Objs, Flat, Only;
      OnlySelf(State(), Objs(rest));
      last := Null;
      ghost var first := Deref(next, m);
      var cur := Deref(next, m);
      ghost var done: Forest, left: Forest := [], rest;
      assert done + left == rest;
      NoRow(State(), first, At(m));
      while cur != Null
        invariant Linked(State(), first, done, At(m), cur) && Linked(State(), cur, left, p, Null)
        invariant AbsorbAll(m, done, left, absorbs) == AbsorbAll(m, [], rest, absorbs)
        invariant Flat(done + left) == Flat(rest)
        invariant Only(old(State()), State(), Objs(rest))
        invariant last == if done == [] then Null else At(done[|done| - 1].m)
        decreases Count(left)
      {
        RowHead(State(), cur, left, p);
        if !absorbs(m, cur.m) {
          break;
        }
        RowTurn(done, left, rest);
        AbsorbStep(m, done, left, absorbs);
        ghost var before := State();
        ghost var (u, others) := Finalize(left[0], left[1..], absorbs);
        AbsorbNext(m, cur.m, absorbs, first, done, left, p);
        OnlyTwice(old(State()), before, State(), Objs(rest), Objs(left), Objs(rest));
        last := cur;
        done, left := done + [u], others;
        cur := Deref(next, cur.m);
      }
      RowHead(State(), cur, left, p);
      AbsorbStop(m, done, left, absorbs);
      stop := cur;
      OnlyDeref(old(State()), State(), Objs(rest), m);
    }

    /** One turn of that loop: the entry is finalized and gets its new parent. */
    method AbsorbNext(m: Menu, cur: Menu, absorbs: Absorbs, ghost first: Ref, ghost done: Forest, ghost left: Forest, ghost p: Ref)
      requires left != [] && cur == left[0].m && Distinct(done + left)
      requires Linked(State(), first, done, At(m), At(cur)) && Linked(State(), At(cur), left, p, Null)
      modifies this
      ensures var (u, others) := Finalize(left[0], left[1..], absorbs);
        && Linked(State(), first, done + [u], At(m), Deref(next, cur))
        && Linked(State(), Deref(next, cur), others, p, Null)
      ensures Only(old(State()), State(), Objs(left))
      decreases Count(left), 0, 2
    {
      hide Objs, Finalize;
      ghost var (u, others) := Finalize(left[0], left[1..], absorbs);
      FinalizeNext(cur, absorbs, first, done, left, At(m), p);
      FinalizeFirst(done, left, u, others);
      assert done + [u] + others == done + ([u] + others);
      SameFlat(done + ([u] + others), done + left);
      Cons(left[0], left[1..]);
      assert left == [left[0]] + left[1..];
      Reparented(State(), first, done, u, others, At(m), p);
      parent := Assign(parent, cur, At(m));
    }

    /** menu_finalize on the first remaining entry of a row leaves the entries before it alone. */
    method FinalizeNext(m: Menu, absorbs: Absorbs, ghost first: Ref, ghost done: Forest, ghost left: Forest, ghost q: Ref, ghost p: Ref)
      requires left != [] && m == left[0].m && Distinct(done + left)
      requires Linked(State(), first, done, q, At(m)) && Linked(State(), At(m), left, p, Null)
      modifies this
      ensures var (u, others) := Finalize(left[0], left[1..], absorbs);
        && Linked(State(), first, done, q, At(m)) && Linked(State(), At(m), [u] + others, p, Null)
        && Deref(parent, m) == p && Linked(State(), Deref(list, m), u.kids, At(m), Null)
        && Linked(State(), Deref(next, m), others, p, Null)
      ensures Only(old(State()), State(), Objs(left))
      decreases Count(left), 0, 1
    {
      ghost var h := State();
      ghost var (u, others) := Finalize(left[0], left[1..], absorbs);
      assert left == [left[0]] + left[1..];
      Concat(done, left);
      FinalizeMenu(m, absorbs, left[0], left[1..], p);
      Frame(h, State(), first, done, q, At(m));
      LinkedCons(State(), At(m), u, others, p, Null);
    }
  }

  /** Bookkeeping for one turn of a loop over a row. */
  lemma RowTurn(done: Forest, left: Forest, f: Forest)
    requires Flat(done + left) == Flat(f) && Distinct(f)
    ensures Distinct(done + left) && Distinct(left) && Objs(left) <= Objs(f)
    ensures Count(left) <= Count(f)
  {
    SameFlat(done + left, f);
    Concat(done, left);
    FlatConcat(done, left);
  }

  lemma RestAfterAbsorb(t: Tree, rest: Forest, absorbs: Absorbs)
    requires t.kids == [] && t.m.hasSym && Distinct([t] + rest)
    ensures var (below, others) := AbsorbAll(t.m, [], rest, absorbs);
      && Distinct([Node(t.m, below)] + others)
      && Objs(below) + Objs(others) == Objs(rest)
  {
    var (below, others) := AbsorbAll(t.m, [], rest, absorbs);
    assert [] + rest == rest;
    SameFlat(below + others, rest);
    Concat(below, others);
    Cons(t, rest);
    Cons(Node(t.m, below), others);
  }
}
