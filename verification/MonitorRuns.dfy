/**
 Every way the operations of sol-monitors can interleave. Callbacks and cleanup
 functions may call the list again, so an unfinished walk, deletion or clearing waits
 as a frame on a stack while others begin and end above it.
 */
module MonitorRuns {
  import opened Monitors

  datatype Frame =
    | Walk(i: nat, start: seq<nat>, called: seq<nat>, skipped: set<nat>)
    | Del
    | Clear(i: nat)

  /** `born` entries were appended so far, numbered from 0; `gone` were deleted; `cleaned` went through cleanup. */
  datatype State = State(mon: Mon, hasCleanup: bool, frames: seq<Frame>, born: nat, gone: set<nat>, cleaned: seq<nat>)

  datatype Event = Append | DelStart(i: nat) | DelFinish | WalkStart | WalkNext | WalkEnd | ClearStart | ClearNext | ClearFinish

  const INITIAL := (hasCleanup: bool) => State(Mon([], 0, 0), hasCleanup, [], 0, {}, [])

  function Ids(es: seq<Entry>): (r: seq<nat>)
    ensures |r| == |es| && forall k :: 0 <= k < |es| ==> r[k] == es[k].id
  {
    seq(|es|, k requires 0 <= k < |es| => es[k].id)
  }

  predicate TopIs(s: State, f: Frame -> bool) {
    s.frames != [] && f(s.frames[|s.frames| - 1])
  }

  function Top(s: State): Frame
    requires s.frames != []
  {
    s.frames[|s.frames| - 1]
  }

  function Pop(s: State): seq<Frame>
    requires s.frames != []
  {
    s.frames[..|s.frames| - 1]
  }

  /** Calls from outside or from a callback are always possible; deletion is of a live entry. */
  predicate Enabled(s: State, ev: Event) {
    match ev
    case Append => true
    case DelStart(i) => i < |s.mon.entries| && s.mon.entries[i].live
    case DelFinish => s.mon.walking > 0 && TopIs(s, (f: Frame) => f.Del?)
    case WalkStart => true
    case WalkNext => TopIs(s, (f: Frame) => f.Walk? && f.i < |f.start| && f.i < |s.mon.entries|)
    case WalkEnd => s.mon.walking > 0 && TopIs(s, (f: Frame) => f.Walk?)
    case ClearStart => true
    case ClearNext => TopIs(s, (f: Frame) => f.Clear? && f.i < |s.mon.entries|)
    case ClearFinish => s.mon.walking > 0 && TopIs(s, (f: Frame) => f.Clear? && f.i >= |s.mon.entries|)
  }

  /** The entry is marked, and handed to the cleanup function if there is one. */
  function Remove(s: State, i: nat): State
    requires i < |s.mon.entries|
  {
    var id := s.mon.entries[i].id;
    s.(gone := s.gone + {id}, cleaned := if s.hasCleanup then s.cleaned + [id] else s.cleaned)
  }

  function StepWalk(s: State): State
    requires Enabled(s, WalkNext)
  {
    var f := Top(s);
    var e := s.mon.entries[f.i];
    var g := if e.live then Walk(f.i + 1, f.start, f.called + [e.id], f.skipped)
             else Walk(f.i + 1, f.start, f.called, f.skipped + {e.id});
    s.(frames := Pop(s) + [g])
  }

  function Step(s: State, ev: Event): State
    requires Enabled(s, ev)
  {
    match ev
    case Append => s.(mon := Appended(s.mon, s.born), born := s.born + 1)
    case DelStart(i) => Remove(s, i).(mon := BegunDel(s.mon, i), frames := s.frames + [Del])
    case DelFinish => s.(mon := EndedWalk(s.mon), frames := Pop(s))
    case WalkStart => s.(mon := BegunWalk(s.mon), frames := s.frames + [Walk(0, Ids(s.mon.entries), [], {})])
    case WalkNext => StepWalk(s)
    case WalkEnd => s.(mon := EndedWalk(s.mon), frames := Pop(s))
    case ClearStart =>
      if s.mon.walking > 0 || s.mon.entries == [] then s
      else if s.hasCleanup then s.(mon := BegunWalk(s.mon), frames := s.frames + [Clear(0)])
      else s.(mon := Mon([], 0, 0), gone := s.gone + set e | e in s.mon.entries :: e.id)
    case ClearNext =>
      var i := Top(s).i;
      var next := s.(frames := Pop(s) + [Clear(i + 1)]);
      if s.mon.entries[i].live then Remove(next, i).(mon := s.mon.(entries := Mark(s.mon.entries, i))) else next
    case ClearFinish => s.(mon := Mon([], s.mon.walking - 1, 0), frames := Pop(s))
  }

  /** A run is a sequence of events, each possible where it happens. */
  predicate Possible(s: State, evs: seq<Event>)
    decreases |evs|
  {
    evs == [] || (Enabled(s, evs[0]) && Possible(Step(s, evs[0]), evs[1..]))
  }

  function Run(s: State, evs: seq<Event>): State
    requires Possible(s, evs)
    decreases |evs|
  {
    if evs == [] then s else Run(Step(s, evs[0]), evs[1..])
  }

  // ---------------------------------------------------------------------------
  // The invariant
  // ---------------------------------------------------------------------------

  /** The numbers below n that are not in `gone`, in order. */
  function Survivors(n: nat, gone: set<nat>): seq<nat> {
    if n == 0 then [] else Survivors(n - 1, gone) + if n - 1 in gone then [] else [n - 1]
  }

  function Without(xs: seq<nat>, skipped: set<nat>): seq<nat> {
    if xs == [] then []
    else Without(xs[..|xs| - 1], skipped) + if xs[|xs| - 1] in skipped then [] else [xs[|xs| - 1]]
  }

  ghost predicate NoRepeats(xs: seq<nat>) {
    forall i, j :: 0 <= i < j < |xs| ==> xs[i] != xs[j]
  }

  /** The entries are in the order of appending; the marked ones are the deleted ones still there. */
  ghost predicate EntriesOk(s: State) {
    var es := s.mon.entries;
    && (forall k, l :: 0 <= k < l < |es| ==> es[k].id < es[l].id)
    && (forall k :: 0 <= k < |es| ==> es[k].id < s.born && (es[k].live <==> es[k].id !in s.gone))
    && (forall x :: x in s.gone ==> x < s.born)
    && (forall x :: 0 <= x < s.born && x !in s.gone ==> x in Ids(es))
  }

  /** A walk has called the entries it started from that were live when it came to them. */
  ghost predicate WalkOk(s: State, f: Frame) {
    f.Walk? ==>
      && f.i <= |f.start| <= |s.mon.entries|
      && f.start == Ids(s.mon.entries)[..|f.start|]
      && f.called == Without(f.start[..f.i], f.skipped)
      && f.skipped <= s.gone
  }

  ghost predicate ClearOk(s: State) {
    && (forall k :: 0 <= k < |s.frames| && s.frames[k].Clear? ==> k == 0)
    && (s.frames != [] && s.frames[0].Clear? ==>
          s.frames[0].i <= |s.mon.entries| && forall k :: 0 <= k < s.frames[0].i ==> !s.mon.entries[k].live)
  }

  predicate Clearing(s: State) {
    s.frames != [] && s.frames[0].Clear?
  }

  ghost predicate Inv(s: State) {
    && s.mon.walking == |s.frames|
    && (!Clearing(s) ==> s.mon.pending == Dead(s.mon.entries))
    && (s.frames == [] ==> Dead(s.mon.entries) == 0)
    && EntriesOk(s)
    && (forall k :: 0 <= k < |s.frames| ==> WalkOk(s, s.frames[k]))
    && ClearOk(s)
    && (s.hasCleanup ==> NoRepeats(s.cleaned) && forall x :: x in s.cleaned <==> x in s.gone)
  }

  lemma {:induction false} DeadCounts(es: seq<Entry>)
    ensures Dead(es) == 0 <==> forall k :: 0 <= k < |es| ==> es[k].live
  {
    if es != [] {
      DeadCounts(es[..|es| - 1]);
      assert forall k :: 0 <= k < |es| - 1 ==> es[k] == es[..|es| - 1][k];
    }
  }

  lemma {:induction false} MarkCounts(es: seq<Entry>, i: nat)
    requires i < |es| && es[i].live
    ensures Dead(Mark(es, i)) == Dead(es) + 1
  {
    var n := |es| - 1;
    if i == n {
      assert Mark(es, i)[..n] == es[..n];
    } else {
      MarkCounts(es[..n], i);
      assert Mark(es, i)[..n] == Mark(es[..n], i);
    }
  }

  /** Live entries keep their order and their place in the list of survivors. */
  lemma {:induction false} LiveOnlyKeeps(es: seq<Entry>)
    requires forall k, l :: 0 <= k < l < |es| ==> es[k].id < es[l].id
    ensures var r := LiveOnly(es);
      && (forall k :: 0 <= k < |r| ==> r[k].live && r[k] in es)
      && (forall k, l :: 0 <= k < l < |r| ==> r[k].id < r[l].id)
      && (forall k :: 0 <= k < |es| && es[k].live ==> es[k] in r)
  {
    if es != [] {
      var n := |es| - 1;
      LiveOnlyKeeps(es[..n]);
      forall k | 0 <= k < n && es[k].live
        ensures es[k] in LiveOnly(es)
      {
        assert es[..n][k] == es[k];
      }
    }
  }

  /** An increasing list that holds every number below n outside `gone`, and no other. */
  lemma {:induction false} SortedIsSurvivors(xs: seq<nat>, n: nat, gone: set<nat>)
    requires Increasing(xs) && ExactlyBelow(xs, n, gone)
    ensures xs == Survivors(n, gone)
    decreases n
  {
    hide Increasing, ExactlyBelow;
    if n == 0 {
      NoneBelow(xs, gone);
    } else if n - 1 in gone {
      OneLess(xs, n, gone);
      SortedIsSurvivors(xs, n - 1, gone);
    } else {
      GreatestIsLast(xs, n - 1, gone);
      SortedIsSurvivors(xs[..|xs| - 1], n - 1, gone);
    }
  }

  ghost predicate Increasing(xs: seq<nat>) {
    forall k, l :: 0 <= k < l < |xs| ==> xs[k] < xs[l]
  }

  ghost predicate ExactlyBelow(xs: seq<nat>, n: nat, gone: set<nat>) {
    && (forall k :: 0 <= k < |xs| ==> xs[k] < n && xs[k] !in gone)
    && (forall x :: 0 <= x < n && x !in gone ==> x in xs)
  }

  function Least(xs: seq<nat>): (r: int)
    ensures xs != [] ==> r >= 0
  {
    if xs == [] then -1 else xs[0]
  }

  lemma NoneBelow(xs: seq<nat>, gone: set<nat>)
    requires ExactlyBelow(xs, 0, gone)
    ensures xs == []
  {
    assert Least(xs) < 0;
  }

  lemma OneLess(xs: seq<nat>, n: nat, gone: set<nat>)
    requires ExactlyBelow(xs, n, gone) && n > 0 && n - 1 in gone
    ensures ExactlyBelow(xs, n - 1, gone)
  {
  }

  lemma GreatestIsLast(xs: seq<nat>, g: nat, gone: set<nat>)
    requires Increasing(xs) && ExactlyBelow(xs, g + 1, gone) && g !in gone
    ensures xs != [] && xs == xs[..|xs| - 1] + [g]
    ensures Increasing(xs[..|xs| - 1]) && ExactlyBelow(xs[..|xs| - 1], g, gone)
  {
    assert g in xs;
    var m := |xs| - 1;
    var k :| 0 <= k < |xs| && xs[k] == g;
    assert xs[m] == g;
    assert xs == xs[..m] + [xs[m]];
    var ys := xs[..m];
    assert forall i :: 0 <= i < m ==> ys[i] == xs[i] && xs[i] < xs[m];
    assert forall x :: x in xs ==> x in ys || x == g;
  }

  /** When nothing is under way, the list is exactly the surviving entries, in the order of appending. */
  lemma QuietList(s: State)
    requires Inv(s) && s.frames == []
    ensures s.mon.pending == 0
    ensures forall e :: e in s.mon.entries ==> e.live
    ensures Ids(s.mon.entries) == Survivors(s.born, s.gone)
  {
    DeadCounts(s.mon.entries);
    SortedIsSurvivors(Ids(s.mon.entries), s.born, s.gone);
  }

  // ---------------------------------------------------------------------------
  // Every step keeps the invariant
  // ---------------------------------------------------------------------------

  lemma StepAppend(s: State)
    requires Inv(s)
    ensures Inv(Step(s, Append))
  {
    var t := Step(s, Append);
    var es, e := s.mon.entries, Entry(s.born, true);
    DeadAppend(es, [e]);
    assert [e][..0] == [];
    assert Ids(t.mon.entries) == Ids(es) + [s.born];
    forall k | 0 <= k < |t.frames|
      ensures WalkOk(t, t.frames[k])
    {
      assert WalkOk(s, s.frames[k]);
    }
  }

  /** What marking an entry means for the entries and the unfinished walks. */
  lemma MarkKeeps(s: State, i: nat, t: State)
    requires Inv(s) && i < |s.mon.entries| && s.mon.entries[i].live
    requires t.mon.entries == Mark(s.mon.entries, i) && t.born == s.born
    requires t.gone == s.gone + {s.mon.entries[i].id}
    ensures EntriesOk(t) && Ids(t.mon.entries) == Ids(s.mon.entries)
    ensures forall f: Frame :: WalkOk(s, f) ==> WalkOk(t, f)
    ensures s.hasCleanup ==> var c := s.cleaned + [s.mon.entries[i].id];
      NoRepeats(c) && forall x :: x in c <==> x in t.gone
  {
    assert Ids(t.mon.entries) == Ids(s.mon.entries);
  }

  lemma StepDelStart(s: State, i: nat)
    requires Inv(s) && Enabled(s, DelStart(i))
    ensures Inv(Step(s, DelStart(i)))
  {
    var t := Step(s, DelStart(i));
    MarkCounts(s.mon.entries, i);
    MarkKeeps(s, i, t);
    assert forall k :: 0 <= k < |s.frames| ==> t.frames[k] == s.frames[k];
  }

  lemma SweptAreLive(es: seq<Entry>, s: State)
    requires EntriesOk(s) && es == s.mon.entries
    ensures var fs := LiveOnly(es);
      && (forall k :: 0 <= k < |fs| ==> fs[k].live && fs[k].id < s.born && fs[k].id !in s.gone)
      && Dead(fs) == 0
  {
    LiveOnlyKeeps(es);
    var fs := LiveOnly(es);
    forall k | 0 <= k < |fs|
      ensures fs[k].live && fs[k].id < s.born && fs[k].id !in s.gone
    {
      var l :| 0 <= l < |es| && es[l] == fs[k];
    }
    DeadCounts(fs);
  }

  lemma SweptAreAll(es: seq<Entry>, s: State, x: nat)
    requires EntriesOk(s) && es == s.mon.entries && x < s.born && x !in s.gone
    ensures x in Ids(LiveOnly(es))
  {
    hide LiveOnly;
    LiveOnlyKeeps(es);
    var k :| 0 <= k < |es| && Ids(es)[k] == x;
    var l :| 0 <= l < |LiveOnly(es)| && LiveOnly(es)[l] == es[k];
    assert Ids(LiveOnly(es))[l] == x;
  }

  /** The last end sweeps the marked entries out and keeps the others. */
  lemma LastEnd(s: State, t: State)
    requires Inv(s) && |s.frames| == 1 && !Clearing(s)
    requires t == s.(mon := EndedWalk(s.mon), frames := [])
    ensures Inv(t)
  {
    SweepAll(s.mon.entries);
    LiveOnlyKeeps(s.mon.entries);
    SweptAreLive(s.mon.entries, s);
    forall x | 0 <= x < s.born && x !in s.gone
      ensures x in Ids(t.mon.entries)
    {
      SweptAreAll(s.mon.entries, s, x);
    }
  }

  /** The end of a deletion or of a walk. */
  lemma StepEnd(s: State, ev: Event)
    requires Inv(s) && Enabled(s, ev) && (ev.DelFinish? || ev.WalkEnd?)
    ensures Inv(Step(s, ev))
  {
    var t := Step(s, ev);
    if |s.frames| == 1 {
      LastEnd(s, t);
    } else {
      forall k | 0 <= k < |t.frames|
        ensures WalkOk(t, t.frames[k])
      {
        assert WalkOk(s, s.frames[k]);
      }
    }
  }

  lemma StepWalkStart(s: State)
    requires Inv(s)
    ensures Inv(Step(s, WalkStart))
  {
    var t := Step(s, WalkStart);
    var f := Walk(0, Ids(s.mon.entries), [], {});
    assert Ids(s.mon.entries)[..|s.mon.entries|] == Ids(s.mon.entries);
    assert f.start[..0] == [];
    forall k | 0 <= k < |t.frames|
      ensures WalkOk(t, t.frames[k])
    {
      if k < |s.frames| {
        assert WalkOk(s, s.frames[k]);
      }
    }
  }

  /** A walk calls the entry it comes to exactly when that entry is still live. */
  lemma StepWalkNext(s: State)
    requires Inv(s) && Enabled(s, WalkNext)
    ensures Inv(Step(s, WalkNext))
    ensures var f, g := Top(s), Top(Step(s, WalkNext));
      g.called == f.called + if f.start[f.i] in s.gone then [] else [f.start[f.i]]
  {
    var t := Step(s, WalkNext);
    var f, g := Top(s), Top(t);
    var n := |s.frames| - 1;
    assert WalkOk(s, s.frames[n]);
    assert f.start[f.i] == s.mon.entries[f.i].id;
    assert f.start[..f.i + 1][..f.i] == f.start[..f.i];
    if s.mon.entries[f.i].live {
      assert f.start[f.i] !in f.skipped;
    } else {
      WithoutMore(f.start[..f.i], f.skipped, f.start[f.i]);
    }
    forall k | 0 <= k < |t.frames|
      ensures WalkOk(t, t.frames[k])
    {
      if k < n {
        assert WalkOk(s, s.frames[k]);
      }
    }
  }

  /** Skipping one entry more does not touch those before it. */
  lemma {:induction false} WithoutMore(xs: seq<nat>, skipped: set<nat>, x: nat)
    requires x !in xs
    ensures Without(xs, skipped + {x}) == Without(xs, skipped)
  {
    if xs != [] {
      WithoutMore(xs[..|xs| - 1], skipped, x);
    }
  }

  lemma StepClearStart(s: State)
    requires Inv(s)
    ensures Inv(Step(s, ClearStart))
  {
    var t := Step(s, ClearStart);
    if s.mon.walking == 0 && s.mon.entries != [] && !s.hasCleanup {
      forall x | 0 <= x < t.born && x !in s.gone
        ensures x in t.gone
      {
        var k :| 0 <= k < |s.mon.entries| && Ids(s.mon.entries)[k] == x;
        assert s.mon.entries[k] in s.mon.entries;
      }
    }
  }

  lemma StepClearNext(s: State)
    requires Inv(s) && Enabled(s, ClearNext)
    ensures Inv(Step(s, ClearNext))
  {
    var t := Step(s, ClearNext);
    var i := Top(s).i;
    assert |s.frames| == 1;
    if s.mon.entries[i].live {
      MarkKeeps(s, i, t);
    }
  }

  lemma StepClearFinish(s: State)
    requires Inv(s) && Enabled(s, ClearFinish)
    ensures Inv(Step(s, ClearFinish))
  {
    var t := Step(s, ClearFinish);
    assert |s.frames| == 1;
    assert forall k :: 0 <= k < |s.mon.entries| ==> Ids(s.mon.entries)[k] in s.gone;
    assert forall x :: x in Ids(s.mon.entries) ==> x in s.gone;
  }

  lemma StepKeeps(s: State, ev: Event)
    requires Inv(s) && Enabled(s, ev)
    ensures Inv(Step(s, ev))
  {
    match ev
    case Append => StepAppend(s);
    case DelStart(i) => StepDelStart(s, i);
    case DelFinish => StepEnd(s, ev);
    case WalkStart => StepWalkStart(s);
    case WalkNext => StepWalkNext(s);
    case WalkEnd => StepEnd(s, ev);
    case ClearStart => StepClearStart(s);
    case ClearNext => StepClearNext(s);
    case ClearFinish => StepClearFinish(s);
  }

  /** While something is under way, no entry moves and none vanishes. */
  lemma NothingMoves(s: State, ev: Event)
    requires Inv(s) && Enabled(s, ev) && Step(s, ev).mon.walking > 0
    ensures Ids(s.mon.entries) <= Ids(Step(s, ev).mon.entries)
  {
    var t := Step(s, ev);
    match ev
    case DelStart(i) => assert Ids(t.mon.entries) == Ids(s.mon.entries);
    case ClearNext => assert Ids(t.mon.entries) == Ids(s.mon.entries);
    case _ =>
  }

  // ---------------------------------------------------------------------------
  // Whole runs
  // ---------------------------------------------------------------------------

  lemma {:induction false} RunKeeps(s: State, evs: seq<Event>)
    requires Inv(s) && Possible(s, evs)
    ensures Inv(Run(s, evs))
    decreases |evs|
  {
    if evs != [] {
      StepKeeps(s, evs[0]);
      RunKeeps(Step(s, evs[0]), evs[1..]);
    }
  }

  /** Any run from an empty list. */
  lemma EveryRun(hasCleanup: bool, evs: seq<Event>)
    requires Possible(INITIAL(hasCleanup), evs)
    ensures var s := Run(INITIAL(hasCleanup), evs);
      // pending_deletion counts the marked entries, except inside sol_monitors_clear
      && (!Clearing(s) ==> s.mon.pending == Dead(s.mon.entries))
      // when nothing is under way, the live entries in order and nothing else
      && (s.mon.walking == 0 ==> s.mon.pending == 0 && Ids(s.mon.entries) == Survivors(s.born, s.gone))
      // the cleanup function saw each removed entry once
      && (hasCleanup ==> NoRepeats(s.cleaned) && forall x :: x in s.cleaned <==> x in s.gone)
      // each unfinished walk has called what it started from, less what was gone when it got there
      && (forall f :: f in s.frames && f.Walk? ==>
            f.i <= |f.start| && f.called == Without(f.start[..f.i], f.skipped) && f.skipped <= s.gone)
  {
    RunKeeps(INITIAL(hasCleanup), evs);
    HasCleanupConstant(INITIAL(hasCleanup), evs);
    var s := Run(INITIAL(hasCleanup), evs);
    if s.mon.walking == 0 {
      QuietList(s);
    }
  }

  lemma {:induction false} HasCleanupConstant(s: State, evs: seq<Event>)
    requires Possible(s, evs)
    ensures Run(s, evs).hasCleanup == s.hasCleanup
    decreases |evs|
  {
    if evs != [] {
      HasCleanupConstant(Step(s, evs[0]), evs[1..]);
    }
  }

  // ---------------------------------------------------------------------------
  // Whole walks
  // ---------------------------------------------------------------------------

  /** What was deleted, at each turn of the walk that is frame `n`: nothing else is looked at. */
  function Turns(s: State, evs: seq<Event>, n: nat): seq<set<nat>>
    requires Possible(s, evs)
    decreases |evs|
  {
    if evs == [] then []
    else (if evs[0].WalkNext? && |s.frames| == n + 1 then [s.gone] else []) + Turns(Step(s, evs[0]), evs[1..], n)
  }

  /** Frame `n` does not end. */
  predicate Lasts(s: State, evs: seq<Event>, n: nat)
    requires Possible(s, evs)
    decreases |evs|
  {
    |s.frames| > n && (evs == [] || Lasts(Step(s, evs[0]), evs[1..], n))
  }

  /** The entries `ids`, one for each turn, less those that were deleted by the time of their turn. */
  function Spared(ids: seq<nat>, turns: seq<set<nat>>): seq<nat>
    requires |turns| <= |ids|
  {
    if turns == [] then []
    else
      var k := |turns| - 1;
      Spared(ids, turns[..k]) + if ids[k] in turns[k] then [] else [ids[k]]
  }

  /** Frame `n` is a walk over `ids` that has had these turns. */
  predicate Walks(s: State, n: nat, ids: seq<nat>, turns: seq<set<nat>>) {
    && n < |s.frames| && s.frames[n].Walk? && |turns| <= |ids|
    && s.frames[n].start == ids && s.frames[n].i == |turns| && s.frames[n].called == Spared(ids, turns)
  }

  lemma OneTurn(s: State, ev: Event, n: nat, ids: seq<nat>, turns: seq<set<nat>>)
    requires Inv(s) && Enabled(s, ev) && Walks(s, n, ids, turns) && |Step(s, ev).frames| > n
    ensures Walks(Step(s, ev), n, ids, turns + if ev.WalkNext? && |s.frames| == n + 1 then [s.gone] else [])
  {
    if ev.WalkNext? && |s.frames| == n + 1 {
      StepWalkNext(s);
      assert (turns + [s.gone])[..|turns|] == turns;
    } else {
      assert turns + [] == turns;
    }
  }

  lemma {:induction false} AllTurns(s: State, evs: seq<Event>, n: nat, ids: seq<nat>, turns: seq<set<nat>>)
    requires Inv(s) && Possible(s, evs) && Walks(s, n, ids, turns) && Lasts(s, evs, n)
    ensures Walks(Run(s, evs), n, ids, turns + Turns(s, evs, n))
    decreases |evs|
  {
    hide Inv, Walks, Step, Enabled;
    if evs == [] {
      assert turns + [] == turns;
    } else {
      var t := Step(s, evs[0]);
      var turn := if evs[0].WalkNext? && |s.frames| == n + 1 then [s.gone] else [];
      OneTurn(s, evs[0], n, ids, turns);
      StepKeeps(s, evs[0]);
      AllTurns(t, evs[1..], n, ids, turns + turn);
      assert turns + turn + Turns(t, evs[1..], n) == turns + (turn + Turns(t, evs[1..], n));
    }
  }

  /** A walk without a turn left has had one for each entry. */
  lemma NoTurnLeft(s: State, n: nat, ids: seq<nat>, turns: seq<set<nat>>)
    requires Inv(s) && Walks(s, n, ids, turns) && |s.frames| == n + 1 && !Enabled(s, WalkNext)
    ensures |turns| == |ids| && Top(s).Walk? && Top(s).called == Spared(ids, turns)
  {
    hide Spared;
    assert WalkOk(s, s.frames[n]);
  }

  lemma EmptyIsInOrder(hasCleanup: bool)
    ensures Inv(INITIAL(hasCleanup))
  {
  }

  lemma WalkBegins(s: State)
    ensures Walks(Step(s, WalkStart), |s.frames|, Ids(s.mon.entries), [])
  {
  }

  /**
   A walk, anywhere in a run: whatever happens in between, when no turn is left it has had one
   turn for each entry that was there when it began, and has called those entries, in order,
   that were not deleted by the time of their turn.
   */
  lemma EveryWalk(hasCleanup: bool, before: seq<Event>, during: seq<Event>)
    requires Possible(INITIAL(hasCleanup), before)
    requires var s := Run(INITIAL(hasCleanup), before);
      && Possible(Step(s, WalkStart), during) && Lasts(Step(s, WalkStart), during, |s.frames|)
      && |Run(Step(s, WalkStart), during).frames| == |s.frames| + 1
      && !Enabled(Run(Step(s, WalkStart), during), WalkNext)
    ensures var s := Run(INITIAL(hasCleanup), before);
      var turns := Turns(Step(s, WalkStart), during, |s.frames|);
      && |turns| == |s.mon.entries|
      && Top(Run(Step(s, WalkStart), during)).Walk?
      && Top(Run(Step(s, WalkStart), during)).called == Spared(Ids(s.mon.entries), turns)
  {
    hide Spared, Step, Inv, Walks, Turns;
    EmptyIsInOrder(hasCleanup);
    var s := Run(INITIAL(hasCleanup), before);
    var begun := Step(s, WalkStart);
    var n, ids, turns := |s.frames|, Ids(s.mon.entries), Turns(begun, during, |s.frames|);
    RunKeeps(INITIAL(hasCleanup), before);
    StepKeeps(s, WalkStart);
    WalkBegins(s);
    AllTurns(begun, during, n, ids, []);
    assert [] + turns == turns;
    RunKeeps(begun, during);
    NoTurnLeft(Run(begun, during), n, ids, turns);
  }

  // ---------------------------------------------------------------------------
  // Removal
  // ---------------------------------------------------------------------------

  /** The event removes entry x, which is still in the list. */
  predicate Removes(s: State, ev: Event, x: nat)
    requires Enabled(s, ev)
  {
    match ev
    case DelStart(i) => s.mon.entries[i].id == x
    case ClearStart => s.mon.walking == 0 && !s.hasCleanup && x in Ids(s.mon.entries)
    case ClearNext => s.mon.entries[Top(s).i] == Entry(x, true)
    case _ => false
  }

  predicate RemovedIn(s: State, evs: seq<Event>, x: nat)
    requires Possible(s, evs)
    decreases |evs|
  {
    evs != [] && (Removes(s, evs[0], x) || RemovedIn(Step(s, evs[0]), evs[1..], x))
  }

  lemma OneRemoval(s: State, ev: Event, x: nat)
    requires Enabled(s, ev)
    ensures x in Step(s, ev).gone <==> x in s.gone || Removes(s, ev, x)
  {
    if ev == ClearStart && s.mon.walking == 0 {
      var ids := Ids(s.mon.entries);
      assert forall k :: 0 <= k < |ids| ==> s.mon.entries[k] in s.mon.entries && ids[k] == s.mon.entries[k].id;
    }
  }

  /** What is gone was deleted, or cleared from the list, and nothing else is. */
  lemma {:induction false} GoneIsRemoved(s: State, evs: seq<Event>, x: nat)
    requires Possible(s, evs)
    ensures x in Run(s, evs).gone <==> x in s.gone || RemovedIn(s, evs, x)
    decreases |evs|
  {
    hide Step, Enabled, Removes;
    if evs != [] {
      OneRemoval(s, evs[0], x);
      GoneIsRemoved(Step(s, evs[0]), evs[1..], x);
    }
  }

  /** Clearing is under way, in frame 0. */
  lemma ClearLasts(s: State, ev: Event)
    requires Inv(s) && Clearing(s) && Enabled(s, ev) && Step(s, ev).frames != []
    ensures Clearing(Step(s, ev))
  {
  }

  lemma {:induction false} ClearGoesOn(s: State, evs: seq<Event>)
    requires Inv(s) && Clearing(s) && Possible(s, evs) && Lasts(s, evs, 0)
    ensures Inv(Run(s, evs)) && Clearing(Run(s, evs))
    decreases |evs|
  {
    hide Inv, Step, Enabled, Clearing;
    if evs != [] {
      StepKeeps(s, evs[0]);
      assert Step(s, evs[0]).frames != [];
      ClearLasts(s, evs[0]);
      ClearGoesOn(Step(s, evs[0]), evs[1..]);
    }
  }

  /** Clearing has cleanups to call. */
  predicate Begins(s: State) {
    s.mon.walking == 0 && s.mon.entries != [] && s.hasCleanup
  }

  /** Nothing is left. */
  predicate Cleared(s: State) {
    && s.mon == Mon([], 0, 0) && s.frames == []
    && (forall x :: 0 <= x < s.born ==> x in s.gone)
    && (s.hasCleanup ==> forall x :: 0 <= x < s.born ==> x in s.cleaned)
  }

  lemma EmptyIsCleared(s: State)
    requires Inv(s) && s.frames == [] && s.mon.entries == []
    ensures Cleared(s)
  {
  }

  /** Within clearing there is a turn left or an end to come to, and at the end nothing is left. */
  lemma ClearEnds(s: State)
    requires Inv(s) && Clearing(s) && |s.frames| == 1
    ensures Enabled(s, ClearNext) || Enabled(s, ClearFinish)
    ensures Enabled(s, ClearFinish) ==> Cleared(Step(s, ClearFinish))
  {
    if Enabled(s, ClearFinish) {
      StepKeeps(s, ClearFinish);
      EmptyIsCleared(Step(s, ClearFinish));
    }
  }

  /**
   Clearing, anywhere in a run: within a walk, a deletion or a clearing it does nothing; else
   every entry ends up removed, and cleaned up where there is a cleanup function, together with
   those that are appended meanwhile.
   */
  lemma EveryClear(hasCleanup: bool, before: seq<Event>, during: seq<Event>)
    requires Possible(INITIAL(hasCleanup), before)
    requires var s := Run(INITIAL(hasCleanup), before);
      var t := Step(s, ClearStart);
      Possible(t, during) && (Begins(s) ==> Lasts(t, during, 0))
    ensures var s := Run(INITIAL(hasCleanup), before);
      var t := Step(s, ClearStart); var u := Run(t, during);
      if s.mon.walking > 0 then t == s
      else if !Begins(s) then Cleared(t)
      else |u.frames| > 1 || Enabled(u, ClearNext) || (Enabled(u, ClearFinish) && Cleared(Step(u, ClearFinish)))
  {
    hide Cleared;
    var s := Run(INITIAL(hasCleanup), before);
    var t := Step(s, ClearStart);
    RunKeeps(INITIAL(hasCleanup), before);
    HasCleanupConstant(INITIAL(hasCleanup), before);
    StepKeeps(s, ClearStart);
    if s.mon.walking == 0 {
      if !Begins(s) {
        EmptyIsCleared(t);
      } else {
        ClearGoesOn(t, during);
        if |Run(t, during).frames| == 1 {
          ClearEnds(Run(t, during));
        }
      }
    }
  }

  /** The assertions in delete_pending_elements never fail in such runs. */
  lemma SweepAssertions(s: State, ev: Event)
    requires Inv(s) && Enabled(s, ev) && (ev.DelFinish? || ev.WalkEnd?) && s.mon.walking == 1
    ensures s.mon.pending <= |s.mon.entries|
    ensures Sweep(s.mon.entries, s.mon.pending).1 == 0
  {
    SweepCounter(s.mon.entries, s.mon.pending);
    DeadBound(s.mon.entries);
  }

  lemma {:induction false} DeadBound(es: seq<Entry>)
    ensures Dead(es) <= |es|
  {
    if es != [] {
      DeadBound(es[..|es| - 1]);
    }
  }
}
