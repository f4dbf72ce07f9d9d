/**
 menu_finalize as a function on trees: entries move below the entry they depend on, and
 the entries below one without a prompt move up behind it.
 */
module MenuTree {

  /** An entry: its identity, and whether it has a symbol and a prompt text. Its links are kept apart. */
  datatype Menu = Menu(id: nat, hasSym: bool, promptless: bool)

  datatype Tree = Node(m: Menu, kids: Forest)

  type Forest = seq<Tree>

  /** The entries in preorder. */
  function Flat(f: Forest): seq<Menu>
    decreases f
  {
    if f == [] then [] else [f[0].m] + Flat(f[0].kids) + Flat(f[1..])
  }

  function Count(f: Forest): nat {
    |Flat(f)|
  }

  lemma {:induction false} FlatConcat(f: Forest, g: Forest)
    ensures Flat(f + g) == Flat(f) + Flat(g)
    decreases |f|
  {
    if f == [] {
      assert f + g == g;
    } else {
      assert (f + g)[0] == f[0] && (f + g)[1..] == f[1..] + g;
      FlatConcat(f[1..], g);
    }
  }

  lemma FlatCons(t: Tree, f: Forest)
    ensures Flat([t] + f) == [t.m] + Flat(t.kids) + Flat(f)
    ensures Flat([t]) == [t.m] + Flat(t.kids)
  {
    assert ([t] + f)[1..] == f && [t][1..] == [];
  }

  /** Decides whether the second entry goes below the first; each pair is asked at most once. */
  type Absorbs = (Menu, Menu) -> bool

  lemma Regroup<T>(a: seq<T>, b: seq<T>, c: seq<T>, d: seq<T>)
    ensures a + b + (c + d) == a + (b + c + d)
  {
  }

  /** Moving entries up behind the one they were below keeps their place in preorder. */
  lemma MoveUp(done: Forest, t: Tree, rest: Forest)
    ensures Flat(done + [Node(t.m, [])] + (t.kids + rest)) == Flat(done + ([t] + rest))
    ensures Count(t.kids + rest) < Count([t] + rest)
  {
    var u := Node(t.m, []);
    FlatConcat(t.kids, rest);
    FlatCons(t, rest);
    calc {
      Flat(done + [u] + (t.kids + rest));
      { FlatConcat(done + [u], t.kids + rest); FlatConcat(done, [u]); FlatCons(u, []); }
      Flat(done) + ([t.m] + []) + (Flat(t.kids) + Flat(rest));
      { assert [t.m] + [] == [t.m]; Regroup(Flat(done), [t.m], Flat(t.kids), Flat(rest)); }
      Flat(done) + Flat([t] + rest);
      { FlatConcat(done, [t] + rest); }
      Flat(done + ([t] + rest));
    }
  }

  lemma Shift(done: Forest, f: Forest)
    requires f != []
    ensures f == [f[0]] + f[1..]
    ensures done + [f[0]] + f[1..] == done + f
    ensures Count(f[1..]) < Count(f)
  {
    FlatCons(f[0], f[1..]);
  }

  /** The last loop of menu_finalize, which also runs over the entries it moves up. */
  function Splice(done: Forest, left: Forest): (r: Forest)
    ensures Flat(r) == Flat(done + left)
    decreases Count(left)
  {
    if left == [] then
      assert done + left == done;
      done
    else
      Shift(done, left);
      if left[0].kids != [] && left[0].m.promptless then
        MoveUp(done, left[0], left[1..]);
        Splice(done + [Node(left[0].m, [])], left[0].kids + left[1..])
      else Splice(done + [left[0]], left[1..])
  }

  /** menu_finalize on the first of a row of siblings: that entry, and what is left of the row. */
  function Finalize(t: Tree, rest: Forest, absorbs: Absorbs): (r: (Tree, Forest))
    ensures r.0.m == t.m
    ensures Flat([r.0] + r.1) == Flat([t] + rest)
    ensures Count(r.1) <= Count(rest)
    decreases Count([t]) + Count(rest), 0
  {
    FlatCons(t, rest);
    if t.kids != [] then
      var below := FinalizeAll([], t.kids, absorbs);
      var u := Node(t.m, Splice([], below));
      assert [] + t.kids == t.kids && [] + below == below;
      FlatCons(u, rest);
      (u, rest)
    else if t.m.hasSym then
      var (below, others) := AbsorbAll(t.m, [], rest, absorbs);
      BelowAndOthers(t, rest, below, others);
      (Node(t.m, Splice([], below)), others)
    else (t, rest)
  }

  lemma BelowAndOthers(t: Tree, rest: Forest, below: Forest, others: Forest)
    requires t.kids == [] && Flat(below + others) == Flat([] + rest)
    ensures Flat([Node(t.m, Splice([], below))] + others) == Flat([t] + rest)
  {
    assert [] + below == below && [] + rest == rest;
    FlatCons(Node(t.m, Splice([], below)), others);
    FlatConcat(below, others);
    FlatCons(t, rest);
    assert [t.m] + [] == [t.m];
    assert [t.m] + Flat(below) + Flat(others) == [t.m] + (Flat(below) + Flat(others));
  }

  /** What finalizing the first of the remaining entries does to a row. */
  lemma FinalizeFirst(done: Forest, left: Forest, u: Tree, others: Forest)
    requires left != [] && Flat([u] + others) == Flat(left)
    ensures Flat(done + [u] + others) == Flat(done + left)
    ensures Count(others) < Count(left)
  {
    FlatConcat(done, [u] + others);
    FlatConcat(done, left);
    assert done + ([u] + others) == done + [u] + others;
    FlatCons(u, others);
  }

  /** The loop over the entries of a menu. */
  function FinalizeAll(done: Forest, left: Forest, absorbs: Absorbs): (r: Forest)
    ensures Flat(r) == Flat(done + left)
    decreases Count(left), 1
  {
    if left == [] then
      assert done + left == done;
      done
    else
      Shift(done, left);
      FlatCons(left[0], left[1..]);
      var (u, others) := Finalize(left[0], left[1..], absorbs);
      FinalizeFirst(done, left, u, others);
      FinalizeAll(done + [u], others, absorbs)
  }

  /** The loop over the siblings behind an entry: those that go below it, and the others. */
  function AbsorbAll(p: Menu, below: Forest, left: Forest, absorbs: Absorbs): (r: (Forest, Forest))
    ensures Flat(r.0 + r.1) == Flat(below + left)
    ensures Count(r.1) <= Count(left)
    decreases Count(left), 1
  {
    if left == [] || !absorbs(p, left[0].m) then (below, left)
    else
      Shift(below, left);
      FlatCons(left[0], left[1..]);
      var (u, others) := Finalize(left[0], left[1..], absorbs);
      FinalizeFirst(below, left, u, others);
      AbsorbAll(p, below + [u], others, absorbs)
  }

  // ---------------------------------------------------------------------------
  // Entries without a prompt have nothing below them
  // ---------------------------------------------------------------------------

  predicate Prompted(f: Forest)
    decreases f
  {
    f == [] || ((f[0].kids == [] || !f[0].m.promptless) && Prompted(f[0].kids) && Prompted(f[1..]))
  }

  /** Prompted, except that the entries at the top may still have to be spliced. */
  predicate PromptedBelow(f: Forest) {
    forall i :: 0 <= i < |f| ==> Prompted(f[i].kids)
  }

  lemma {:induction false} PromptedIsBelow(f: Forest)
    requires Prompted(f)
    ensures PromptedBelow(f)
  {
    if f != [] {
      PromptedIsBelow(f[1..]);
      assert forall i :: 0 < i < |f| ==> f[i] == f[1..][i - 1];
    }
  }

  lemma {:induction false} PromptedAppend(f: Forest, t: Tree)
    requires Prompted(f) && Prompted(t.kids) && (t.kids == [] || !t.m.promptless)
    ensures Prompted(f + [t])
  {
    if f == [] {
      assert f + [t] == [t] && [t][1..] == [];
    } else {
      PromptedAppend(f[1..], t);
      assert (f + [t])[0] == f[0] && (f + [t])[1..] == f[1..] + [t];
    }
  }

  lemma {:induction false} SplicePrompts(done: Forest, left: Forest)
    requires Prompted(done) && PromptedBelow(left)
    ensures Prompted(Splice(done, left))
    decreases Count(left)
  {
    if left != [] {
      var t, rest := left[0], left[1..];
      Shift(done, left);
      assert forall i :: 0 <= i < |rest| ==> rest[i] == left[i + 1];
      if t.kids != [] && t.m.promptless {
        PromptedAppend(done, Node(t.m, []));
        PromptedIsBelow(t.kids);
        MoveUp(done, t, rest);
        SplicePrompts(done + [Node(t.m, [])], t.kids + rest);
      } else {
        PromptedAppend(done, t);
        SplicePrompts(done + [t], rest);
      }
    }
  }

  /** After menu_finalize nothing is left below an entry that cannot be shown. */
  lemma {:induction false} FinalizePrompts(t: Tree, rest: Forest, absorbs: Absorbs)
    ensures Prompted(Finalize(t, rest, absorbs).0.kids)
    decreases Count([t]) + Count(rest), 0
  {
    FlatCons(t, rest);
    if t.kids != [] {
      FinalizeAllPrompts([], t.kids, absorbs);
      SplicePrompts([], FinalizeAll([], t.kids, absorbs));
    } else if t.m.hasSym {
      AbsorbAllPrompts(t.m, [], rest, absorbs);
      SplicePrompts([], AbsorbAll(t.m, [], rest, absorbs).0);
    }
  }

  lemma {:induction false} FinalizeAllPrompts(done: Forest, left: Forest, absorbs: Absorbs)
    requires PromptedBelow(done)
    ensures PromptedBelow(FinalizeAll(done, left, absorbs))
    decreases Count(left), 1
  {
    if left != [] {
      Shift(done, left);
      FlatCons(left[0], left[1..]);
      var (u, others) := Finalize(left[0], left[1..], absorbs);
      FinalizeFirst(done, left, u, others);
      FinalizePrompts(left[0], left[1..], absorbs);
      FinalizeAllPrompts(done + [u], others, absorbs);
    }
  }

  lemma {:induction false} AbsorbAllPrompts(p: Menu, below: Forest, left: Forest, absorbs: Absorbs)
    requires PromptedBelow(below)
    ensures PromptedBelow(AbsorbAll(p, below, left, absorbs).0)
    decreases Count(left), 1
  {
    if left != [] && absorbs(p, left[0].m) {
      Shift(below, left);
      FlatCons(left[0], left[1..]);
      var (u, others) := Finalize(left[0], left[1..], absorbs);
      FinalizeFirst(below, left, u, others);
      FinalizePrompts(left[0], left[1..], absorbs);
      AbsorbAllPrompts(p, below + [u], others, absorbs);
    }
  }
}
