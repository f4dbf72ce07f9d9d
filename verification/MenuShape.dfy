/**
 Which tree menu_finalize makes: the only one in which every entry with a symbol and nothing
 below it has taken the entries behind it up to the first it does not absorb, with the entries
 below those without a prompt moved up.
 */
module MenuShape {
  import opened MenuTree

  // ---------------------------------------------------------------------------
  // Entries without a prompt
  // ---------------------------------------------------------------------------

  /** What is below entries without a prompt comes up behind them, and so on there. */
  function Spliced(f: Forest): Forest
    decreases f
  {
    if f == [] then []
    else if f[0].kids != [] && f[0].m.promptless then [Node(f[0].m, [])] + Spliced(f[0].kids) + Spliced(f[1..])
    else [f[0]] + Spliced(f[1..])
  }

  lemma {:induction false} SplicedConcat(f: Forest, g: Forest)
    ensures Spliced(f + g) == Spliced(f) + Spliced(g)
    decreases |f|
  {
    if f == [] {
      assert f + g == g;
    } else {
      assert (f + g)[0] == f[0] && (f + g)[1..] == f[1..] + g;
      SplicedConcat(f[1..], g);
    }
  }

  /** The loop, which also runs over what it moves up, does just that. */
  lemma {:induction false} SpliceExact(done: Forest, left: Forest)
    ensures Splice(done, left) == done + Spliced(left)
    decreases Count(left)
  {
    if left == [] {
      assert done + [] == done;
    } else {
      var t, rest := left[0], left[1..];
      Shift(done, left);
      if t.kids != [] && t.m.promptless {
        MoveUp(done, t, rest);
        SpliceExact(done + [Node(t.m, [])], t.kids + rest);
        SplicedConcat(t.kids, rest);
        assert done + [Node(t.m, [])] + (Spliced(t.kids) + Spliced(rest)) == done + ([Node(t.m, [])] + Spliced(t.kids) + Spliced(rest));
      } else {
        SpliceExact(done + [t], rest);
        assert done + [t] + Spliced(rest) == done + ([t] + Spliced(rest));
      }
    }
  }

  /** From the inside out, at every depth. */
  function Raised(t: Tree): Tree
    decreases t
  {
    Node(t.m, Spliced(AllRaised(t.kids)))
  }

  function AllRaised(f: Forest): (r: Forest)
    ensures |r| == |f|
    decreases f
  {
    if f == [] then [] else [Raised(f[0])] + AllRaised(f[1..])
  }

  lemma {:induction false} AllRaisedConcat(f: Forest, g: Forest)
    ensures AllRaised(f + g) == AllRaised(f) + AllRaised(g)
    decreases |f|
  {
    if f == [] {
      assert f + g == g;
    } else {
      assert (f + g)[0] == f[0] && (f + g)[1..] == f[1..] + g;
      AllRaisedConcat(f[1..], g);
    }
  }

  // ---------------------------------------------------------------------------
  // Entries that go below others
  // ---------------------------------------------------------------------------

  predicate TakesAll(p: Menu, g: Forest, absorbs: Absorbs) {
    forall j :: 0 <= j < |g| ==> absorbs(p, g[j].m)
  }

  /** The entry takes the k - 1 behind it, and those not behind: what it takes is `kids`. */
  ghost predicate Takes(f: Forest, n: nat, g: Forest, k: nat, absorbs: Absorbs)
    requires n <= |f| && f != [] && g != []
    decreases g, 0
  {
    && 1 <= k <= n
    && Grouped(f[1..], k - 1, g[0].kids, absorbs) && TakesAll(f[0].m, g[0].kids, absorbs)
    && (k < |f| ==> !absorbs(f[0].m, f[k].m))
    && Grouped(f[k..], n - k, g[1..], absorbs)
  }

  /** The first n of a row f of siblings become the row g. */
  ghost predicate Grouped(f: Forest, n: nat, g: Forest, absorbs: Absorbs)
    requires n <= |f|
    decreases g, 1
  {
    if n == 0 || g == [] then n == 0 && g == []
    else
      && g[0].m == f[0].m
      && if f[0].kids != [] || !f[0].m.hasSym then
           && Grouped(f[0].kids, |f[0].kids|, g[0].kids, absorbs)
           && Grouped(f[1..], n - 1, g[1..], absorbs)
         else exists k: nat :: Takes(f, n, g, k, absorbs)
  }

  lemma {:induction false} GroupedConcat(f: Forest, n: nat, g: Forest, m: nat, h: Forest, absorbs: Absorbs)
    requires n + m <= |f| && Grouped(f, n, g, absorbs) && Grouped(f[n..], m, h, absorbs)
    ensures Grouped(f, n + m, g + h, absorbs)
    decreases g
  {
    if g == [] {
      assert g + h == h && f[n..] == f;
    } else {
      assert (g + h)[0] == g[0] && (g + h)[1..] == g[1..] + h;
      if f[0].kids != [] || !f[0].m.hasSym {
        assert f[1..][n - 1..] == f[n..];
        GroupedConcat(f[1..], n - 1, g[1..], m, h, absorbs);
      } else {
        var k: nat :| Takes(f, n, g, k, absorbs);
        assert f[k..][n - k..] == f[n..];
        GroupedConcat(f[k..], n - k, g[1..], m, h, absorbs);
        assert Takes(f, n + m, g + h, k, absorbs);
      }
    }
  }

  /** There is one way only: of two groupings of the same row, the shorter begins the longer. */
  lemma {:induction false} GroupedOnce(f: Forest, n: nat, g: Forest, m: nat, h: Forest, absorbs: Absorbs)
    requires n <= m <= |f| && Grouped(f, n, g, absorbs) && Grouped(f, m, h, absorbs)
    ensures g <= h && Grouped(f[n..], m - n, h[|g|..], absorbs)
    decreases f, 1
  {
    if n == 0 {
      assert f[0..] == f && h[0..] == h;
    } else {
      if f[0].kids != [] || !f[0].m.hasSym {
        KidsOnce(f[0].kids, g[0].kids, h[0].kids, absorbs);
        GroupedOnce(f[1..], n - 1, g[1..], m - 1, h[1..], absorbs);
        assert f[1..][n - 1..] == f[n..];
      } else {
        var k: nat :| Takes(f, n, g, k, absorbs);
        var l: nat :| Takes(f, m, h, l, absorbs);
        TakenOnce(f, n, g, k, m, h, l, absorbs);
        GroupedOnce(f[k..], n - k, g[1..], m - k, h[1..], absorbs);
        assert f[k..][n - k..] == f[n..];
      }
      assert g == [g[0]] + g[1..] && h == [h[0]] + h[1..];
      assert h[1..][|g| - 1..] == h[|g|..];
    }
  }

  lemma {:induction false} KidsOnce(f: Forest, g: Forest, h: Forest, absorbs: Absorbs)
    requires Grouped(f, |f|, g, absorbs) && Grouped(f, |f|, h, absorbs)
    ensures g == h
    decreases f, 2
  {
    GroupedOnce(f, |f|, g, |f|, h, absorbs);
    assert Grouped(f[|f|..], 0, h[|g|..], absorbs);
    assert h[|g|..] == [];
  }

  /** Where an entry stops taking others is decided by those others. */
  lemma {:induction false} TakenOnce(f: Forest, n: nat, g: Forest, k: nat, m: nat, h: Forest, l: nat, absorbs: Absorbs)
    requires n <= |f| && m <= |f| && f != [] && g != [] && h != []
    requires Takes(f, n, g, k, absorbs) && Takes(f, m, h, l, absorbs)
    ensures k == l && g[0].kids == h[0].kids
    decreases f, 0
  {
    var a, b := g[0].kids, h[0].kids;
    if k <= l {
      GroupedOnce(f[1..], k - 1, a, l - 1, b, absorbs);
      assert f[1..][k - 1..] == f[k..];
      StopsThere(f, k, a, l, b, absorbs);
    } else {
      GroupedOnce(f[1..], l - 1, b, k - 1, a, absorbs);
      assert f[1..][l - 1..] == f[l..];
      StopsThere(f, l, b, k, a, absorbs);
    }
  }

  /** What is not absorbed is not among what is. */
  lemma StopsThere(f: Forest, k: nat, a: Forest, l: nat, b: Forest, absorbs: Absorbs)
    requires 1 <= k <= l <= |f| && a <= b && TakesAll(f[0].m, b, absorbs) && (k < |f| ==> !absorbs(f[0].m, f[k].m))
    requires Grouped(f[k..], l - k, b[|a|..], absorbs)
    ensures k == l && a == b
  {
    FromThere(b, |a|);
  }

  lemma FromThere(f: Forest, n: nat)
    requires n <= |f|
    ensures forall j :: n <= j < |f| ==> f[n..][j - n] == f[j]
  {
  }

  // ---------------------------------------------------------------------------
  // menu_finalize
  // ---------------------------------------------------------------------------

  /** The result on the first of a row: one group, raised, and the row behind it as it was. */
  ghost predicate Finished(f: Forest, u: Tree, others: Forest, t: Tree, k: nat, absorbs: Absorbs) {
    1 <= k <= |f| && t.m == f[0].m && Grouped(f, k, [t], absorbs) && u == Raised(t) && others == f[k..]
  }

  lemma {:induction false} FinalizeGroups(t: Tree, rest: Forest, absorbs: Absorbs) returns (g: Tree, k: nat)
    ensures var (u, others) := Finalize(t, rest, absorbs); Finished([t] + rest, u, others, g, k, absorbs)
    decreases Count([t]) + Count(rest), 0
  {
    FlatCons(t, rest);
    if t.kids != [] {
      var gs := AllGroup([], t.kids, absorbs);
      SpliceExact([], FinalizeAll([], t.kids, absorbs));
      g, k := Node(t.m, gs), 1;
      RaisedIs(g, FinalizeAll([], t.kids, absorbs));
      KeepsKids(t, rest, g, absorbs);
    } else if t.m.hasSym {
      var gs, n := AbsorbedGroup(t.m, [], rest, absorbs);
      SpliceExact([], AbsorbAll(t.m, [], rest, absorbs).0);
      g, k := Node(t.m, gs), n + 1;
      RaisedIs(g, AbsorbAll(t.m, [], rest, absorbs).0);
      TakesKids(t, rest, g, n, absorbs);
    } else {
      g, k := t, 1;
      KeepsKids(t, rest, g, absorbs);
    }
  }

  lemma RaisedIs(g: Tree, below: Forest)
    requires below == [] + AllRaised(g.kids)
    ensures Raised(g) == Node(g.m, [] + Spliced(below))
  {
    assert below == AllRaised(g.kids);
  }

  lemma KeepsKids(t: Tree, rest: Forest, g: Tree, absorbs: Absorbs)
    requires g.m == t.m && (t.kids != [] || !t.m.hasSym) && Grouped(t.kids, |t.kids|, g.kids, absorbs)
    ensures Grouped([t] + rest, 1, [g], absorbs) && ([t] + rest)[1..] == rest
  {
    assert [g][1..] == [];
  }

  lemma TakesKids(t: Tree, rest: Forest, g: Tree, n: nat, absorbs: Absorbs)
    requires g.m == t.m && t.kids == [] && t.m.hasSym && n <= |rest|
    requires Grouped(rest, n, g.kids, absorbs) && TakesAll(t.m, g.kids, absorbs) && (n < |rest| ==> !absorbs(t.m, rest[n].m))
    ensures Grouped([t] + rest, n + 1, [g], absorbs) && ([t] + rest)[n + 1..] == rest[n..]
  {
    var f := [t] + rest;
    assert f[1..] == rest && [g][1..] == [];
    assert Takes(f, n + 1, [g], n + 1, absorbs);
  }

  lemma NoGroup(f: Forest, absorbs: Absorbs)
    ensures Grouped(f, 0, [], absorbs) && AllRaised([]) == [] && forall p :: TakesAll(p, [], absorbs)
  {
  }

  lemma MoreTaken(p: Menu, g: Tree, hs: Forest, absorbs: Absorbs)
    requires absorbs(p, g.m) && TakesAll(p, hs, absorbs)
    ensures TakesAll(p, [g] + hs, absorbs)
  {
  }

  /** One group, and those behind it. */
  lemma MoreGroups(done: Forest, left: Forest, k: nat, u: Tree, g: Tree, m: nat, hs: Forest, absorbs: Absorbs)
    requires k + m <= |left| && Grouped(left, k, [g], absorbs) && Grouped(left[k..], m, hs, absorbs) && u == Raised(g)
    ensures Grouped(left, k + m, [g] + hs, absorbs)
    ensures done + [u] + AllRaised(hs) == done + AllRaised([g] + hs)
  {
    hide Grouped, Raised;
    GroupedConcat(left, k, [g], m, hs, absorbs);
    AllRaisedConcat([g], hs);
    assert AllRaised([g]) == [u] by { assert [g][1..] == []; }
  }

  lemma {:induction false} AllGroup(done: Forest, left: Forest, absorbs: Absorbs) returns (gs: Forest)
    ensures FinalizeAll(done, left, absorbs) == done + AllRaised(gs) && Grouped(left, |left|, gs, absorbs)
    decreases Count(left), 1
  {
    hide Grouped, Raised, AllRaised, Finalize;
    gs := [];
    if left == [] {
      NoGroup(left, absorbs);
      assert done + [] == done;
    } else {
      Shift(done, left);
      FlatCons(left[0], left[1..]);
      var (u, others) := Finalize(left[0], left[1..], absorbs);
      FinalizeFirst(done, left, u, others);
      var g, k := FinalizeGroups(left[0], left[1..], absorbs);
      assert [left[0]] + left[1..] == left;
      var hs := AllGroup(done + [u], others, absorbs);
      gs := [g] + hs;
      MoreGroups(done, left, k, u, g, |others|, hs, absorbs);
    }
  }

  lemma {:induction false} AbsorbedGroup(p: Menu, below: Forest, left: Forest, absorbs: Absorbs) returns (gs: Forest, n: nat)
    ensures var (b, others) := AbsorbAll(p, below, left, absorbs);
      && n <= |left| && b == below + AllRaised(gs) && others == left[n..]
      && Grouped(left, n, gs, absorbs) && TakesAll(p, gs, absorbs) && (n < |left| ==> !absorbs(p, left[n].m))
    decreases Count(left), 1
  {
    hide Grouped, Raised, AllRaised, Finalize, TakesAll;
    gs, n := [], 0;
    if left == [] || !absorbs(p, left[0].m) {
      NoGroup(left, absorbs);
      assert below + [] == below && left[0..] == left;
    } else {
      Shift(below, left);
      FlatCons(left[0], left[1..]);
      var (u, others) := Finalize(left[0], left[1..], absorbs);
      FinalizeFirst(below, left, u, others);
      var g, k := FinalizeGroups(left[0], left[1..], absorbs);
      assert [left[0]] + left[1..] == left;
      var hs, m := AbsorbedGroup(p, below + [u], others, absorbs);
      gs, n := [g] + hs, k + m;
      MoreGroups(below, left, k, u, g, m, hs, absorbs);
      MoreTaken(p, g, hs, absorbs);
      assert left[k..][m..] == left[n..];
      assert n < |left| ==> left[n] == others[m];
    }
  }

  /** The finalized root menu is its only grouping, with what is below entries without a prompt moved up. */
  lemma FinalizeExact(t: Tree, absorbs: Absorbs)
    ensures exists g :: Grouped([t], 1, [g], absorbs) && Finalize(t, [], absorbs).0 == Raised(g)
    ensures forall g, h :: Grouped([t], 1, [g], absorbs) && Grouped([t], 1, [h], absorbs) ==> g == h
  {
    var g, k := FinalizeGroups(t, [], absorbs);
    assert [t] + [] == [t];
    assert Grouped([t], 1, [g], absorbs);
    forall g, h | Grouped([t], 1, [g], absorbs) && Grouped([t], 1, [h], absorbs)
      ensures g == h
    {
      KidsOnce([t], [g], [h], absorbs);
    }
  }
}
