/**
 sol-monitors: a list of callbacks that may be changed while it is being walked.
 Deletion during a walk only marks the entry; the entry goes when the last walk ends.
 */
module Monitors {

  /** An entry is marked for deletion when its callback is null. The id tells entries apart. */
  datatype Entry = Entry(id: nat, live: bool)

  datatype Mon = Mon(entries: seq<Entry>, walking: nat, pending: nat)

  function Dead(es: seq<Entry>): nat {
    if es == [] then 0 else Dead(es[..|es| - 1]) + if es[|es| - 1].live then 0 else 1
  }

  function LiveOnly(es: seq<Entry>): seq<Entry> {
    if es == [] then [] else LiveOnly(es[..|es| - 1]) + if es[|es| - 1].live then [es[|es| - 1]] else []
  }

  /** What the backward loop of delete_pending_elements leaves of the vector and of the counter. */
  function Sweep(es: seq<Entry>, k: nat): (seq<Entry>, nat) {
    if es == [] || k == 0 then (es, k)
    else if es[|es| - 1].live then
      var (r, n) := Sweep(es[..|es| - 1], k);
      (r + [es[|es| - 1]], n)
    else Sweep(es[..|es| - 1], k - 1)
  }

  /** The loop has come down to the first `i` entries, with `k` left to delete. */
  predicate Swept(es: seq<Entry>, i: nat, k: nat, es0: seq<Entry>, k0: nat) {
    && i <= |es|
    && Sweep(es[..i], k).0 + es[i..] == Sweep(es0, k0).0 && Sweep(es[..i], k).1 == Sweep(es0, k0).1
  }

  lemma SweepStarts(es: seq<Entry>, k: nat)
    ensures Swept(es, |es|, k, es, k)
  {
    assert es[..|es|] == es;
  }

  /** One turn of the loop. */
  lemma SweepTurn(es: seq<Entry>, i: nat, k: nat, es0: seq<Entry>, k0: nat)
    requires Swept(es, i + 1, k, es0, k0) && i < |es| && k > 0
    ensures if es[i].live then Swept(es, i, k, es0, k0)
      else Swept(es[..i] + es[i + 1..], i, k - 1, es0, k0)
  {
    assert es[..i + 1][..i] == es[..i];
    if es[i].live {
      assert es[i..] == [es[i]] + es[i + 1..];
    } else {
      var rest := es[..i] + es[i + 1..];
      assert rest[..i] == es[..i] && rest[i..] == es[i + 1..];
    }
  }

  lemma SweepEnds(es: seq<Entry>, i: nat, k: nat, es0: seq<Entry>, k0: nat)
    requires Swept(es, i, k, es0, k0) && (i == 0 || k == 0)
    ensures (es, k) == Sweep(es0, k0)
  {
    assert es[..i] + es[i..] == es;
  }

  /** With the right counter, exactly the marked entries go. */
  lemma {:induction false} SweepAll(es: seq<Entry>)
    ensures Sweep(es, Dead(es)) == (LiveOnly(es), 0)
  {
    if es != [] {
      SweepAll(es[..|es| - 1]);
      if Dead(es) == 0 {
        AllLive(es);
      } else if es[|es| - 1].live {
        assert Dead(es[..|es| - 1]) == Dead(es);
      } else {
        assert Dead(es[..|es| - 1]) == Dead(es) - 1;
        assert LiveOnly(es) == LiveOnly(es[..|es| - 1]);
      }
    }
  }

  lemma {:induction false} AllLive(es: seq<Entry>)
    requires Dead(es) == 0
    ensures LiveOnly(es) == es
  {
    if es != [] {
      AllLive(es[..|es| - 1]);
    }
  }

  /** The assertion after the loop holds exactly if no more deletions were counted than entries are marked. */
  lemma {:induction false} SweepCounter(es: seq<Entry>, k: nat)
    ensures Sweep(es, k).1 == if k <= Dead(es) then 0 else k - Dead(es)
  {
    if es != [] && k > 0 {
      SweepCounter(es[..|es| - 1], if es[|es| - 1].live then k else k - 1);
    }
  }

  lemma {:induction false} DeadAppend(a: seq<Entry>, b: seq<Entry>)
    ensures Dead(a + b) == Dead(a) + Dead(b) && LiveOnly(a + b) == LiveOnly(a) + LiveOnly(b)
  {
    if b == [] {
      assert a + b == a;
    } else {
      DeadAppend(a, b[..|b| - 1]);
      assert (a + b)[..|a + b| - 1] == a + b[..|b| - 1];
    }
  }

  // ---------------------------------------------------------------------------
  // The operations, each as one change of the list
  // ---------------------------------------------------------------------------

  function Appended(m: Mon, id: nat): Mon {
    m.(entries := m.entries + [Entry(id, true)])
  }

  function Mark(es: seq<Entry>, i: nat): seq<Entry>
    requires i < |es|
  {
    es[i := es[i].(live := false)]
  }

  function DeletePending(m: Mon): Mon {
    if m.walking > 0 then m
    else var (es, n) := Sweep(m.entries, m.pending); Mon(es, 0, n)
  }

  function BegunWalk(m: Mon): Mon {
    m.(walking := m.walking + 1)
  }

  function EndedWalk(m: Mon): Mon
    requires m.walking > 0
  {
    DeletePending(m.(walking := m.walking - 1))
  }

  /** sol_monitors_del up to the call of the cleanup function. */
  function BegunDel(m: Mon, i: nat): Mon
    requires i < |m.entries|
  {
    Mon(Mark(m.entries, i), m.walking + 1, m.pending + 1)
  }

  class MonitorList {
    var entries: seq<Entry>
    var walking: nat
    var pending: nat
    const hasCleanup: bool

    function State(): Mon
      reads this
    {
      Mon(entries, walking, pending)
    }

    constructor (hasCleanup: bool)
      ensures State() == Mon([], 0, 0) && this.hasCleanup == hasCleanup
    {
      entries, walking, pending := [], 0, 0;
      this.hasCleanup := hasCleanup;
    }

    /** sol_monitors_append; a null callback is refused. */
    method Append(id: nat, isNull: bool) returns (ok: bool)
      modifies this
      ensures ok == !isNull
      ensures State() == if ok then Appended(old(State()), id) else old(State())
    {
      ok := !isNull;
      if ok {
        entries := entries + [Entry(id, true)];
      }
    }

    /** sol_monitors_find: the first live entry with this callback and data, or -1 for -ENOENT. */
    method Find(id: nat, isNull: bool) returns (r: int)
      ensures -1 <= r < |entries|
      ensures isNull ==> r == -1
      ensures r >= 0 ==> entries[r] == Entry(id, true) && forall j :: 0 <= j < r ==> entries[j] != Entry(id, true)
      ensures !isNull && r == -1 ==> Entry(id, true) !in entries
    {
      r := -1;
      if isNull {
        return;
      }
      for i := 0 to |entries|
        invariant r == -1 && forall j :: 0 <= j < i ==> entries[j] != Entry(id, true)
      {
        if entries[i].live && entries[i].id == id {
          return i;
        }
      }
    }

    /** delete_pending_elements. */
    method DeletePendingElements()
      modifies this
      ensures State() == DeletePending(old(State()))
    {
      hide Sweep, Swept;
      if walking > 0 {
        return;
      }
      var i := |entries| - 1;
      SweepStarts(entries, pending);
      while i >= 0 && pending > 0
        invariant -1 <= i < |entries| && walking == 0
        invariant Swept(entries, i + 1, pending, old(entries), old(pending))
      {
        SweepTurn(entries, i, pending, old(entries), old(pending));
        if !entries[i].live {
          entries := entries[..i] + entries[i + 1..];
          pending := pending - 1;
        }
        i := i - 1;
      }
      SweepEnds(entries, i + 1, pending, old(entries), old(pending));
    }

    /** sol_monitors_begin_walk. */
    method BeginWalk()
      modifies this
      ensures State() == BegunWalk(old(State()))
    {
      walking := walking + 1;
    }

    /** sol_monitors_end_walk. */
    method EndWalk()
      requires walking > 0
      modifies this
      ensures State() == EndedWalk(old(State()))
    {
      walking := walking - 1;
      if walking == 0 {
        DeletePendingElements();
      }
    }

    /** sol_monitors_del, from entry to the point where the cleanup function runs. */
    method DelBegin(i: nat) returns (found: bool)
      modifies this
      ensures found == (i < |old(entries)|)
      ensures State() == if found then BegunDel(old(State()), i) else old(State())
    {
      found := i < |entries|;
      if found {
        entries := Mark(entries, i);
        pending := pending + 1;
        walking := walking + 1;
      }
    }

    /** sol_monitors_del, after the cleanup function. */
    method DelEnd()
      requires walking > 0
      modifies this
      ensures State() == EndedWalk(old(State()))
    {
      walking := walking - 1;
      if walking == 0 {
        DeletePendingElements();
      }
    }

    /** sol_monitors_clear up to its loop; `go` says whether the loop is entered. */
    method ClearBegin() returns (go: bool)
      modifies this
      ensures go == (old(walking) == 0 && old(entries) != [] && hasCleanup)
      ensures State() ==
        if go then BegunWalk(old(State()))
        else if old(walking) > 0 || old(entries) == [] then old(State())
        else Mon([], 0, 0)
    {
      go := false;
      if walking > 0 || |entries| == 0 {
        return;
      }
      if hasCleanup {
        walking := walking + 1;
        go := true;
      } else {
        pending, entries := 0, [];
      }
    }

    /** One turn of the loop in sol_monitors_clear: says whether the cleanup function is called. */
    method ClearNext(i: nat) returns (cleanup: bool)
      requires i < |entries|
      modifies this
      ensures cleanup == old(entries)[i].live
      ensures State() == old(State()).(entries := Mark(old(entries), i))
    {
      cleanup := entries[i].live;
      if cleanup {
        entries := Mark(entries, i);
      } else {
        assert Mark(entries, i) == entries;
      }
    }

    method ClearEnd()
      requires walking > 0
      modifies this
      ensures State() == Mon([], old(walking) - 1, 0)
    {
      walking := walking - 1;
      pending, entries := 0, [];
    }
  }
}
